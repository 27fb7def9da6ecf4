/** The scripted URB driver, alone on a stream and in a closed loop with the Rust pump. */
module UrbDriver {
  import opened Bytes
  import opened Streams
  import opened Envelopes
  import opened UrbCodec
  import opened UrbPump

  datatype ScriptedUrb = ScriptedUrb(
    seqnum: u32, ep: u32, direction: u32, setup: Setup, transferBufferLength: u32, outBody: bytes,
    expectedStatus: i32, expectedActualLength: u32)

  datatype DriverStats = DriverStats(
    urbsIssued: u32, urbsOk: u32, unlinksIssued: u32, unlinksOk: u32, bytesReturned: nat)

  const NOTHING := DriverStats(0, 0, 0, 0, 0)

  // The script

  const NO_SETUP: Setup := [0, 0, 0, 0, 0, 0, 0, 0]

  function Ascending(n: nat): (b: bytes)
    requires n <= 0x100
    ensures |b| == n && forall i | 0 <= i < n :: b[i] == i
  {
    seq(n, i requires 0 <= i < n => i)
  }

  function BaseScript(): (s: seq<ScriptedUrb>)
    ensures |s| == 7
  {
    [ScriptedUrb(1, 0, URB_DIR_IN, [0x80, 0x06, 0x00, 0x01, 0x00, 0x00, 18, 0x00], 18, [], 0, 18),
     ScriptedUrb(2, 0, URB_DIR_IN, [0x80, 0x06, 0x00, 0x02, 0x00, 0x00, 9, 0x00], 9, [], 0, 9),
     ScriptedUrb(3, 0, URB_DIR_IN, [0x80, 0x06, 0x00, 0x02, 0x00, 0x00, 32, 0x00], 32, [], 0, 32),
     ScriptedUrb(4, 0, URB_DIR_OUT, [0x00, 0x09, 0x01, 0x00, 0x00, 0x00, 0x00, 0x00], 0, [], 0, 0),
     ScriptedUrb(5, 1, URB_DIR_IN, NO_SETUP, 64, [], 0, 64),
     ScriptedUrb(6, 2, URB_DIR_OUT, NO_SETUP, 64, Ascending(64), 0, 64),
     ScriptedUrb(7, 1, URB_DIR_IN, NO_SETUP, 32, [], 0, 32)]
  }

  function ExtraBulkIn(i: u32): ScriptedUrb {
    ScriptedUrb(WrapAdd(100, i), 1, URB_DIR_IN, NO_SETUP, 64, [], 0, 64)
  }

  function Script(nExtra: u32): (s: seq<ScriptedUrb>)
    ensures |s| == 7 + nExtra
  {
    BaseScript() + seq(nExtra, i requires 0 <= i < nExtra => ExtraBulkIn(i))
  }

  /** What the fixed URBs ask for: two descriptors, a configuration, and bulk transfers both ways. */
  lemma ScriptRequests(nExtra: u32, k: nat)
    requires k < |Script(nExtra)|
    ensures var s := Script(nExtra);
            && s[0].setup == SetupOf(0x80, 6, 0x0100, 0, 18) && s[1].setup == SetupOf(0x80, 6, 0x0200, 0, 9)
            && s[2].setup == SetupOf(0x80, 6, 0x0200, 0, 32) && s[3].setup == SetupOf(0x00, 9, 0x0001, 0, 0)
            && (k < 4 ==> s[k].ep == 0)
            && (k >= 4 ==> s[k].setup == SetupOf(0, 0, 0, 0, 0) && s[k].ep == if k == 5 then 2 else 1)
            && s[k].direction == (if k == 3 || k == 5 then 0 else 1)
            && s[k].transferBufferLength == [18, 9, 32, 0, 64, 64, 32, 64][if k < 7 then k else 7]
            && s[k].expectedStatus == 0 && s[k].expectedActualLength == s[k].transferBufferLength
            && (if k != 5 then s[k].outBody == []
                else |s[k].outBody| == 64 && forall i | 0 <= i < 64 :: s[k].outBody[i] == i)
  {
    var s := Script(nExtra);
    assert s[0] == BaseScript()[0] && s[1] == BaseScript()[1] && s[2] == BaseScript()[2] && s[3] == BaseScript()[3];
    if k < 7 {
      assert s[k] == BaseScript()[k];
    } else {
      assert s[k] == ExtraBulkIn(k - 7);
    }
  }

  method ScriptDefault(nExtra: u32) returns (s: seq<ScriptedUrb>)
    ensures s == Script(nExtra)
  {
    s := BaseScript();
    var i := 0;
    while i < nExtra
      invariant 0 <= i <= nExtra
      invariant s == Script(i)
    {
      s := s + [ExtraBulkIn(i)];
      i := i + 1;
    }
  }

  // One exchange

  function CommandOf(urb: ScriptedUrb): Command {
    Submit(CmdSubmit(urb.seqnum, 0x0001_0002, urb.direction, urb.ep, 0, urb.transferBufferLength, 0, 0, 0, urb.setup),
           urb.outBody)
  }

  const FINAL_UNLINK := CmdUnlink(9001, 0x0001_0002, URB_DIR_OUT, 0, 5)

  /** Exchange `k`: the k-th URB of the script, and the unlink after the last one. */
  function Exchange(script: seq<ScriptedUrb>, k: nat): Command
    requires k <= |script|
  {
    if k < |script| then CommandOf(script[k]) else Unlink(FINAL_UNLINK)
  }

  function Request(id: u32, script: seq<ScriptedUrb>, k: nat): Envelope
    requires k <= |script|
  {
    UsbipEnvelope(id, WriteCommand(Exchange(script, k)))
  }

  function Issued(st: DriverStats, script: seq<ScriptedUrb>, k: nat): DriverStats {
    if k < |script| then st.(urbsIssued := WrapAdd(st.urbsIssued, 1))
    else st.(unlinksIssued := WrapAdd(st.unlinksIssued, 1))
  }

  /** The bytes an IN announces. */
  function Announced(urb: ScriptedUrb): nat {
    if urb.direction == URB_DIR_IN then urb.expectedActualLength else 0
  }

  /** The driver's check of a RET_SUBMIT. The reply's sequence number is not compared with the request's. */
  function JudgeSubmit(id: u32, urb: ScriptedUrb, env: Envelope, st: DriverStats): Option<DriverStats> {
    var f := ParseUsbip(env.payload);
    if env.channel != Usbip || f.None? || f.value.importId != id then None
    else
      var raw := f.value.raw;
      if PeekUrbOp(raw) != Some(OpRetSubmit) || |raw| < URB_HEADER_LEN then None
      else
        var ret := ParseRetSubmit(raw[..URB_HEADER_LEN]).value;
        var bodyLen := |raw| - URB_HEADER_LEN;
        if ret.status != urb.expectedStatus || ret.actualLength != urb.expectedActualLength then None
        else if urb.direction == URB_DIR_IN && bodyLen % TWO32 != ret.actualLength then None
        else Some(st.(urbsOk := WrapAdd(st.urbsOk, 1),
                      bytesReturned := st.bytesReturned + if urb.direction == URB_DIR_IN then ret.actualLength else 0))
  }

  /** The check of the RET_UNLINK, which does not look at the import id. */
  function JudgeUnlink(env: Envelope, st: DriverStats): Option<DriverStats> {
    var f := ParseUsbip(env.payload);
    if env.channel != Usbip || f.None? then None
    else
      var raw := f.value.raw;
      if PeekUrbOp(raw) != Some(OpRetUnlink) || |raw| < URB_HEADER_LEN then None
      else if ParseRetUnlink(raw[..URB_HEADER_LEN]).value.status != 0 then None
      else Some(st.(unlinksOk := WrapAdd(st.unlinksOk, 1)))
  }

  function Judge(id: u32, script: seq<ScriptedUrb>, k: nat, env: Envelope, st: DriverStats): Option<DriverStats>
    requires k <= |script|
  {
    if k < |script| then JudgeSubmit(id, script[k], env, st) else JudgeUnlink(env, st)
  }

  // The driver on a stream whose peer will send `incoming`

  datatype DriveOutcome = DriveOutcome(result: Option<DriverStats>, sent: seq<Envelope>)

  function Drive(id: u32, script: seq<ScriptedUrb>, k: nat, incoming: bytes, st: DriverStats): (o: DriveOutcome)
    requires k <= |script|
    ensures AllFit(o.sent)
    decreases |script| - k
  {
    var req := Request(id, script, k);
    if !Fits(req) then DriveOutcome(None, [])
    else
      match RustRecv(incoming)
      case Received(env, rest) => (
        match Judge(id, script, k, env, Issued(st, script, k))
        case None => DriveOutcome(None, [req])
        case Some(st1) =>
          if k == |script| then DriveOutcome(Some(st1), [req])
          else
            var o := Drive(id, script, k + 1, rest, st1);
            DriveOutcome(o.result, [req] + o.sent))
      case _ => DriveOutcome(None, [req])
  }

  /** Send request `k`, read and judge the reply. */
  method DoExchange(input: ByteSource, out: ByteSink, id: u32, script: seq<ScriptedUrb>, k: nat, st: DriverStats)
    returns (r: Option<DriverStats>)
    requires k <= |script|
    modifies input, out
    ensures var req := Request(id, script, k); var recv := RustRecv(old(input.rest));
            && (Fits(req) ==> out.data == old(out.data) + Frame(req))
            && (!Fits(req) ==> out.data == old(out.data) && r.None?)
            && (Fits(req) && !recv.Received? ==> r.None?)
            && (Fits(req) && recv.Received? ==>
                  input.rest == recv.rest && r == Judge(id, script, k, recv.env, Issued(st, script, k)))
  {
    var ok := SendEnvelope(out, Request(id, script, k));
    if !ok {
      return None;
    }
    var env := RecvEnvelope(input);
    if env.None? {
      return None;
    }
    return Judge(id, script, k, env.value, Issued(st, script, k));
  }

  method RunScript(input: ByteSource, out: ByteSink, id: u32, script: seq<ScriptedUrb>) returns (r: Option<DriverStats>)
    modifies input, out
    ensures var o := Drive(id, script, 0, old(input.rest), NOTHING);
            r == o.result && out.data == old(out.data) + FrameAll(o.sent)
  {
    hide Judge, Request, RustRecv, Issued, FrameAll;
    ghost var o := Drive(id, script, 0, input.rest, NOTHING);
    ghost var sent: seq<Envelope> := [];
    r := Some(NOTHING);
    FrameNone();
    var k := 0;
    while k <= |script| && r.Some?
      invariant 0 <= k <= |script| + 1
      invariant AllFit(sent) && out.data == old(out.data) + FrameAll(sent)
      invariant r.Some? && k <= |script| ==> o == Driven(sent, Drive(id, script, k, input.rest, r.value))
      invariant r.None? || k == |script| + 1 ==> o == DriveOutcome(r, sent)
      decreases |script| + 1 - k, r.Some?
    {
      ghost var req := Request(id, script, k);
      DriveUnfold(id, script, k, input.rest, r.value, sent);
      r := DoExchange(input, out, id, script, k, r.value);
      if Fits(req) {
        FrameOneMore(sent, req);
        sent := sent + [req];
      }
      k := k + 1;
    }
  }

  lemma FrameNone()
    ensures FrameAll([]) == []
  {
  }

  lemma FrameOneMore(es: seq<Envelope>, e: Envelope)
    requires AllFit(es) && Fits(e)
    ensures AllFit(es + [e]) && FrameAll(es + [e]) == FrameAll(es) + Frame(e)
  {
    FrameAllConcat(es, [e]);
    assert FrameAll([e]) == Frame(e) + FrameAll([]);
  }

  ghost function Driven(sent: seq<Envelope>, o: DriveOutcome): DriveOutcome {
    DriveOutcome(o.result, sent + o.sent)
  }

  lemma DriveUnfold(id: u32, script: seq<ScriptedUrb>, k: nat, incoming: bytes, st: DriverStats, sent: seq<Envelope>)
    requires k <= |script|
    ensures var o := Driven(sent, Drive(id, script, k, incoming, st));
            var req, recv := Request(id, script, k), RustRecv(incoming);
            if !Fits(req) then o == DriveOutcome(None, sent)
            else if !recv.Received? then o == DriveOutcome(None, sent + [req])
            else
              var j := Judge(id, script, k, recv.env, Issued(st, script, k));
              if j.None? || k == |script| then o == DriveOutcome(j, sent + [req])
              else o == Driven(sent + [req], Drive(id, script, k + 1, recv.rest, j.value))
  {
    hide Judge, Request, RustRecv, Issued;
    var req, recv := Request(id, script, k), RustRecv(incoming);
    if Fits(req) && recv.Received? && k < |script| {
      var j := Judge(id, script, k, recv.env, Issued(st, script, k));
      if j.Some? {
        var tail := Drive(id, script, k + 1, recv.rest, j.value).sent;
        assert sent + ([req] + tail) == sent + [req] + tail;
      }
    }
  }

  // The fixture device

  function MassStorage(vendor: u16, product: u16): FakeDevice {
    FakeDevice(
      [0x12, 0x01, 0x00, 0x02, 0x08, 0x00, 0x00, 64, vendor % 0x100, vendor / 0x100, product % 0x100, product / 0x100,
       0x00, 0x01, 0, 0, 0, 1],
      [0x09, 0x02, 0x20, 0x00, 0x01, 0x01, 0x00, 0x80, 0x32] +
      [0x09, 0x04, 0x00, 0x00, 0x02, 0x08, 0x06, 0x50, 0x00] +
      [0x07, 0x05, 0x81, 0x02, 0x40, 0x00, 0x00] +
      [0x07, 0x05, 0x02, 0x02, 0x40, 0x00, 0x00],
      [FakeEndpoint(0x81, BulkXfer), FakeEndpoint(0x02, BulkXfer)])
  }

  /**
   * The descriptors are well-formed (sections 9.6.1, 9.6.3 and 9.6.6 of USB 2.0) and name the IDs and the endpoints
   * of the device.
   */
  lemma MassStorageDescriptors(vendor: u16, product: u16)
    ensures var dev := MassStorage(vendor, product); var d, c := dev.deviceDescriptor, dev.configDescriptor;
            && |d| == 18 == d[0] && d[1] == 1
            && d[8..12] == [vendor % 0x100, vendor / 0x100, product % 0x100, product / 0x100]
            && |c| == 32 && c[0] == 9 && c[1] == 2 && c[2..4] == [32, 0] && c[4] == 1
            && c[9] == 9 && c[10] == 4 && c[13] == |dev.endpoints| == 2
            && (forall i | 0 <= i < 2 ::
                  && c[18 + 7 * i] == 7 && c[19 + 7 * i] == 5
                  && c[20 + 7 * i] == dev.endpoints[i].address
                  && c[21 + 7 * i] == 2 && dev.endpoints[i].xferType == BulkXfer)
            && dev.endpoints[0].IsIn() && !dev.endpoints[1].IsIn()
  {
  }

  /** An exchange the device serves as the script expects. */
  predicate Expected(dev: FakeDevice, urb: ScriptedUrb) {
    var c := CommandOf(urb);
    && WellFormed(c) && |urb.outBody| <= 64
    && var res := DispatchSubmit(dev, c.cmd, c.body);
       && res.status == urb.expectedStatus == 0
       && res.actualLength == urb.expectedActualLength <= 64
       && |res.data| == if urb.direction == URB_DIR_IN then res.actualLength else 0
  }

  lemma EndpointsOfMassStorage(vendor: u16, product: u16)
    ensures FindEndpoint(MassStorage(vendor, product).endpoints, 0x81) == Some(FakeEndpoint(0x81, BulkXfer))
    ensures FindEndpoint(MassStorage(vendor, product).endpoints, 0x02) == Some(FakeEndpoint(0x02, BulkXfer))
  {
    var eps := MassStorage(vendor, product).endpoints;
    assert eps[1..][0] == FakeEndpoint(0x02, BulkXfer);
  }

  lemma ControlExpected(vendor: u16, product: u16, k: nat)
    requires k < 4
    ensures Expected(MassStorage(vendor, product), BaseScript()[k])
  {
  }

  lemma BulkExpected(vendor: u16, product: u16, urb: ScriptedUrb)
    requires urb.ep == 1 && urb.direction == URB_DIR_IN && urb.outBody == []
    requires urb.expectedStatus == 0 && urb.transferBufferLength == urb.expectedActualLength <= 64
    ensures Expected(MassStorage(vendor, product), urb)
  {
    EndpointsOfMassStorage(vendor, product);
    assert EpAddress(urb.direction, urb.ep) == 0x81;
  }

  /** Every URB of the default script gets the reply it expects from the fixture device. */
  lemma ScriptExpected(vendor: u16, product: u16, nExtra: u32, k: nat)
    requires k < |Script(nExtra)|
    ensures Expected(MassStorage(vendor, product), Script(nExtra)[k])
  {
    var urb := Script(nExtra)[k];
    if k < 7 {
      assert urb == BaseScript()[k];
    }
    if k < 4 {
      ControlExpected(vendor, product, k);
    } else if k == 5 {
      EndpointsOfMassStorage(vendor, product);
      assert EpAddress(urb.direction, urb.ep) == 0x02;
    } else {
      BulkExpected(vendor, product, urb);
    }
  }

  // The closed loop

  datatype Phase = Sending(k: nat) | Awaiting(k: nat) | Done | Failed

  datatype PumpState = Serving(stats: PumpStats) | Finished(stats: PumpStats) | Bailed

  /** Two processes and the bytes in flight each way. */
  datatype Loop = Loop(phase: Phase, driver: DriverStats, pump: PumpState, toPump: bytes, toDriver: bytes)

  datatype Config = Config(id: u32, script: seq<ScriptedUrb>, dev: FakeDevice)

  datatype Actor = Driver | Pump

  const START := Loop(Sending(0), NOTHING, Serving(NO_STATS), [], [])

  /** `None`: the driver is blocked in a read, or has returned. */
  function StepDriver(cfg: Config, s: Loop): Option<Loop> {
    match s.phase
    case Sending(k) =>
      if k > |cfg.script| || !Fits(Request(cfg.id, cfg.script, k)) then Some(s.(phase := Failed))
      else Some(s.(phase := Awaiting(k), driver := Issued(s.driver, cfg.script, k),
                   toPump := s.toPump + Frame(Request(cfg.id, cfg.script, k))))
    case Awaiting(k) => (
      match RustRecv(s.toDriver)
      case Received(env, rest) =>
        var j := if k <= |cfg.script| then Judge(cfg.id, cfg.script, k, env, s.driver) else None;
        if j.None? then Some(s.(phase := Failed))
        else Some(s.(phase := if k < |cfg.script| then Sending(k + 1) else Done, driver := j.value, toDriver := rest))
      case Malformed => Some(s.(phase := Failed))
      case Starved => if s.pump.Serving? then None else Some(s.(phase := Failed)))
    case _ => None
  }

  /** `None`: the pump is blocked in a read, or has returned. */
  function StepPump(cfg: Config, s: Loop): Option<Loop> {
    if !s.pump.Serving? then None
    else
      match RustRecv(s.toPump)
      case Received(env, rest) =>
        if env.channel != Usbip then Some(s.(toPump := rest))
        else (
          match Accept(cfg.id, cfg.dev, env.payload)
          case None => Some(s.(pump := Bailed, toPump := rest))
          case Some(c) =>
            Some(s.(pump := Serving(Account(s.pump.stats, cfg.dev, c)), toPump := rest,
                    toDriver := s.toDriver + Frame(UsbipEnvelope(cfg.id, Reply(cfg.dev, c))))))
      case Malformed => Some(s.(pump := Finished(s.pump.stats)))
      case Starved => if s.phase.Done? || s.phase.Failed? then Some(s.(pump := Finished(s.pump.stats))) else None
  }

  function Step(cfg: Config, s: Loop, a: Actor): Option<Loop> {
    match a
    case Driver => StepDriver(cfg, s)
    case Pump => StepPump(cfg, s)
  }

  /** The state after a schedule, or `None` if the schedule lets a blocked process move. */
  function Execute(cfg: Config, schedule: seq<Actor>): Option<Loop> {
    if schedule == [] then Some(START)
    else
      match Execute(cfg, schedule[..|schedule| - 1])
      case None => None
      case Some(s) => Step(cfg, s, schedule[|schedule| - 1])
  }

  function DriverAfter(cfg: Config, k: nat): DriverStats
    requires k <= |cfg.script| + 1
  {
    if k == 0 then NOTHING
    else
      var st := Issued(DriverAfter(cfg, k - 1), cfg.script, k - 1);
      if k <= |cfg.script| then
        var urb := cfg.script[k - 1];
        st.(urbsOk := WrapAdd(st.urbsOk, 1),
            bytesReturned := st.bytesReturned + Announced(urb))
      else st.(unlinksOk := WrapAdd(st.unlinksOk, 1))
  }

  // What goes out

  /** Request `k` on the wire: the URB's own fields, word by word, and the final unlink of URB 5. */
  lemma RequestFields(id: u32, script: seq<ScriptedUrb>, k: nat)
    requires k <= |script|
    ensures var env := Request(id, script, k); var p := env.payload;
            && env.channel == Usbip && |p| >= 52
            && ReadU32(p, 0) == id && ReadU32(p, 12) == 0x0001_0002
            && if k < |script| then
                 var urb := script[k];
                 && ReadU32(p, 4) == 1 && ReadU32(p, 8) == urb.seqnum
                 && ReadU32(p, 16) == urb.direction && ReadU32(p, 20) == urb.ep && ReadU32(p, 24) == 0
                 && ReadU32(p, 28) == urb.transferBufferLength
                 && ReadU32(p, 32) == 0 && ReadU32(p, 36) == 0 && ReadU32(p, 40) == 0
                 && p[44..52] == urb.setup && p[52..] == urb.outBody
               else
                 && ReadU32(p, 4) == 2 && ReadU32(p, 8) == 9001
                 && ReadU32(p, 16) == 0 && ReadU32(p, 20) == 0 && ReadU32(p, 24) == 5
                 && |p| == 52
  {
    hide ReadU32, Be32, EncodeCmdSubmit, EncodeCmdUnlink;
    var raw := WriteCommand(Exchange(script, k));
    var p := Request(id, script, k).payload;
    var cmd := if k < |script| then CommandOf(script[k]).cmd else CmdSubmit(0, 0, 0, 0, 0, 0, 0, 0, 0, NO_SETUP);
    HeaderLayout(cmd, RetSubmit(0, 0, 0, 0, 0, 0, 0, 0, 0), FINAL_UNLINK, RetUnlink(0, 0, 0, 0, 0));
    HeaderSizes(cmd, FINAL_UNLINK);
    ReadBack([], id, raw);
    assert p == [] + Be32(id) + raw;
    assert raw[..48] == if k < |script| then EncodeCmdSubmit(cmd) else EncodeCmdUnlink(FINAL_UNLINK);
    forall off: nat | off <= 44 ensures ReadU32(p, 4 + off) == ReadU32(raw[..48], off) {
      ReadAfter(Be32(id), raw, off);
      ReadPrefix(raw, 48, off);
    }
    assert p[44..52] == raw[..48][40..48];
    assert ReadU32(p, 4 + 0) == ReadU32(raw[..48], 0) && ReadU32(p, 4 + 4) == ReadU32(raw[..48], 4);
    assert ReadU32(p, 4 + 8) == ReadU32(raw[..48], 8) && ReadU32(p, 4 + 12) == ReadU32(raw[..48], 12);
    assert ReadU32(p, 4 + 16) == ReadU32(raw[..48], 16) && ReadU32(p, 4 + 20) == ReadU32(raw[..48], 20);
    assert ReadU32(p, 4 + 24) == ReadU32(raw[..48], 24) && ReadU32(p, 4 + 28) == ReadU32(raw[..48], 28);
    assert ReadU32(p, 4 + 32) == ReadU32(raw[..48], 32) && ReadU32(p, 4 + 36) == ReadU32(raw[..48], 36);
  }

  lemma HeaderSizes(c: CmdSubmit, u: CmdUnlink)
    ensures |EncodeCmdSubmit(c)| == |EncodeCmdUnlink(u)| == 48
  {
  }

  lemma ScriptSeqnum(nExtra: u32, k: nat)
    requires k < |Script(nExtra)|
    ensures Script(nExtra)[k].seqnum == if k < 7 then k + 1 else if 93 + k < TWO32 then 93 + k else 93 + k - TWO32
  {
    hide WrapAdd;
    if k < 7 {
      assert Script(nExtra)[k] == BaseScript()[k];
    } else {
      assert Script(nExtra)[k] == ExtraBulkIn(k - 7);
      WrapAddWraps(100, k - 7);
    }
  }

  /** The script's sequence numbers are distinct iff they do not wrap into those of the fixed URBs. */
  lemma ScriptSeqnumsDistinct(nExtra: u32)
    ensures (forall i, j | 0 <= i < j < |Script(nExtra)| :: Script(nExtra)[i].seqnum != Script(nExtra)[j].seqnum) <==>
            nExtra <= TWO32 - 99
  {
    hide Script;
    var s := Script(nExtra);
    forall k: nat | k < |s|
      ensures s[k].seqnum == if k < 7 then k + 1 else if 93 + k < TWO32 then 93 + k else 93 + k - TWO32
    {
      ScriptSeqnum(nExtra, k);
    }
    if nExtra > TWO32 - 99 {
      assert s[0].seqnum == s[TWO32 - 92].seqnum == 1;
    }
  }

  // When a script succeeds, whatever the peer sends

  /** A RET_SUBMIT for this session with the expected status, length and, for an IN, body size. */
  predicate AcceptsReply(id: u32, urb: ScriptedUrb, env: Envelope) {
    var f := ParseUsbip(env.payload);
    && env.channel == Usbip && f.Some? && f.value.importId == id
    && ParseRetSubmit(f.value.raw).Ok?
    && var r := ParseRetSubmit(f.value.raw).value;
       && r.status == urb.expectedStatus && r.actualLength == urb.expectedActualLength
       && (urb.direction == URB_DIR_IN ==> |f.value.raw| == URB_HEADER_LEN + r.actualLength)
  }

  predicate AcceptsUnlink(env: Envelope) {
    var f := ParseUsbip(env.payload);
    && env.channel == Usbip && f.Some?
    && ParseRetUnlink(f.value.raw).Ok? && ParseRetUnlink(f.value.raw).value.status == 0
  }

  /** Parsing needs the header only. */
  lemma HeaderDecides(raw: bytes)
    requires |raw| >= URB_HEADER_LEN
    ensures ParseRetSubmit(raw[..URB_HEADER_LEN]) == ParseRetSubmit(raw)
    ensures ParseRetUnlink(raw[..URB_HEADER_LEN]) == ParseRetUnlink(raw)
    ensures PeekUrbOp(raw) == Some(OpRetSubmit) <==> ParseRetSubmit(raw).Ok?
    ensures PeekUrbOp(raw) == Some(OpRetUnlink) <==> ParseRetUnlink(raw).Ok?
  {
  }

  lemma JudgeSubmitIff(id: u32, urb: ScriptedUrb, env: Envelope, st: DriverStats)
    requires Fits(env)
    ensures JudgeSubmit(id, urb, env, st)
         == if AcceptsReply(id, urb, env) then
              Some(st.(urbsOk := WrapAdd(st.urbsOk, 1),
                       bytesReturned := st.bytesReturned + Announced(urb)))
            else None
  {
    hide ParseRetSubmit, ParseRetUnlink, PeekUrbOp, WrapAdd;
    var f := ParseUsbip(env.payload);
    if f.Some? {
      if |f.value.raw| >= URB_HEADER_LEN {
        HeaderDecides(f.value.raw);
      } else {
        TooShort(f.value.raw);
      }
    }
  }

  lemma JudgeUnlinkIff(env: Envelope, st: DriverStats)
    ensures JudgeUnlink(env, st)
         == if AcceptsUnlink(env) then Some(st.(unlinksOk := WrapAdd(st.unlinksOk, 1))) else None
  {
    hide ParseRetSubmit, ParseRetUnlink, PeekUrbOp, WrapAdd;
    var f := ParseUsbip(env.payload);
    if f.Some? {
      if |f.value.raw| >= URB_HEADER_LEN {
        HeaderDecides(f.value.raw);
      } else {
        TooShort(f.value.raw);
      }
    }
  }

  lemma TooShort(raw: bytes)
    requires |raw| < URB_HEADER_LEN
    ensures ParseRetSubmit(raw).Err? && ParseRetUnlink(raw).Err?
  {
  }

  /** The envelopes still to come answer what is left of the script, each as expected. */
  predicate GoodReplies(id: u32, script: seq<ScriptedUrb>, k: nat, es: seq<Envelope>)
    requires k <= |script|
  {
    && |es| > |script| - k
    && (forall j | k <= j < |script| :: AcceptsReply(id, script[j], es[j - k]))
    && AcceptsUnlink(es[|script| - k])
  }

  lemma GoodRepliesStep(id: u32, script: seq<ScriptedUrb>, k: nat, es: seq<Envelope>)
    requires k < |script| && es != []
    ensures GoodReplies(id, script, k, es) <==>
            AcceptsReply(id, script[k], es[0]) && GoodReplies(id, script, k + 1, es[1..])
  {
    hide AcceptsReply, AcceptsUnlink;
    if AcceptsReply(id, script[k], es[0]) && GoodReplies(id, script, k + 1, es[1..]) {
      forall j | k <= j < |script| ensures AcceptsReply(id, script[j], es[j - k]) {
        assert j > k ==> es[j - k] == es[1..][j - (k + 1)];
      }
    }
    if GoodReplies(id, script, k, es) {
      forall j | k + 1 <= j < |script| ensures AcceptsReply(id, script[j], es[1..][j - (k + 1)]) {
        assert es[1..][j - (k + 1)] == es[j - k];
      }
    }
  }

  /** A script succeeds iff the peer's bytes begin with a good reply to each request; its statistics are then fixed. */
  lemma {:induction false} DriveSucceedsIff(cfg: Config, k: nat, incoming: bytes)
    requires k <= |cfg.script| && forall j | k <= j <= |cfg.script| :: Fits(Request(cfg.id, cfg.script, j))
    ensures var o := Drive(cfg.id, cfg.script, k, incoming, DriverAfter(cfg, k));
            && (o.result.Some? <==> GoodReplies(cfg.id, cfg.script, k, DecodeAll(incoming)))
            && (o.result.Some? ==> o.result == Some(DriverAfter(cfg, |cfg.script| + 1)) && o.sent == Requests(cfg, k))
    decreases |cfg.script| - k
  {
    hide AcceptsReply, AcceptsUnlink, JudgeSubmit, JudgeUnlink, Request, RustRecv, DriverAfter, GoodReplies;
    var es, st := DecodeAll(incoming), Issued(DriverAfter(cfg, k), cfg.script, k);
    if RustRecv(incoming).Received? {
      var env, rest := RustRecv(incoming).env, RustRecv(incoming).rest;
      assert es == [env] + DecodeAll(rest);
      assert es[1..] == DecodeAll(rest);
      StatsStep(cfg, k);
      if k < |cfg.script| {
        JudgeSubmitIff(cfg.id, cfg.script[k], env, st);
        GoodRepliesStep(cfg.id, cfg.script, k, es);
        DriveSucceedsIff(cfg, k + 1, rest);
      } else {
        JudgeUnlinkIff(env, st);
        LastGoodReply(cfg.id, cfg.script, es);
      }
    } else {
      NoGoodReplies(cfg.id, cfg.script, k);
    }
  }

  lemma StatsStep(cfg: Config, k: nat)
    requires k <= |cfg.script|
    ensures var st := Issued(DriverAfter(cfg, k), cfg.script, k);
            DriverAfter(cfg, k + 1)
            == if k < |cfg.script| then
                 st.(urbsOk := WrapAdd(st.urbsOk, 1),
                     bytesReturned := st.bytesReturned + Announced(cfg.script[k]))
               else st.(unlinksOk := WrapAdd(st.unlinksOk, 1))
  {
    hide WrapAdd;
  }

  lemma LastGoodReply(id: u32, script: seq<ScriptedUrb>, es: seq<Envelope>)
    requires es != []
    ensures GoodReplies(id, script, |script|, es) <==> AcceptsUnlink(es[0])
  {
    hide AcceptsUnlink;
  }

  lemma NoGoodReplies(id: u32, script: seq<ScriptedUrb>, k: nat)
    requires k <= |script|
    ensures !GoodReplies(id, script, k, [])
  {
  }

  function InBytes(script: seq<ScriptedUrb>): nat {
    if script == [] then 0 else InBytes(script[..|script| - 1]) + Announced(script[|script| - 1])
  }

  /** What success reports: all URBs of the script and the unlink confirmed, and the bytes its INs announce. */
  lemma {:induction false} SuccessTotals(cfg: Config, k: nat)
    requires k <= |cfg.script| < TWO32
    ensures DriverAfter(cfg, k) == DriverStats(k, k, 0, 0, InBytes(cfg.script[..k]))
    ensures k == |cfg.script| ==> DriverAfter(cfg, k + 1) == DriverStats(k, k, 1, 1, InBytes(cfg.script))
  {
    hide WrapAdd;
    if k > 0 {
      SuccessTotals(cfg, k - 1);
      assert cfg.script[..k][..k - 1] == cfg.script[..k - 1];
    }
    assert cfg.script[..|cfg.script|] == cfg.script;
  }

  /** The driver looks at status, length and body only: seqnum, devid, direction and ep of a reply may be anything. */
  lemma ReplyIdentityIgnored(id: u32, urb: ScriptedUrb, r: RetSubmit, q: RetSubmit, data: bytes)
    requires r.status == q.status && r.actualLength == q.actualLength
    ensures AcceptsReply(id, urb, UsbipEnvelope(id, EncodeRetSubmit(r) + data)) <==>
            AcceptsReply(id, urb, UsbipEnvelope(id, EncodeRetSubmit(q) + data))
  {
    hide ParseRetSubmit, EncodeUsbip, ParseUsbip, Words;
    RetSubmitRoundTrip(r, data);
    RetSubmitRoundTrip(q, data);
    UsbipRoundTrip(UsbipFrame(id, EncodeRetSubmit(r) + data), []);
    UsbipRoundTrip(UsbipFrame(id, EncodeRetSubmit(q) + data), []);
  }

  predicate Served(cfg: Config) {
    forall k | 0 <= k < |cfg.script| :: Expected(cfg.dev, cfg.script[k])
  }

  function PumpAfter(cfg: Config, k: nat): PumpStats
    requires Served(cfg) && k <= |cfg.script| + 1
  {
    if k == 0 then NO_STATS else Account(PumpAfter(cfg, k - 1), cfg.dev, Exchange(cfg.script, k - 1))
  }

  function Answer(cfg: Config, k: nat): Envelope
    requires Served(cfg) && k <= |cfg.script|
  {
    UsbipEnvelope(cfg.id, Reply(cfg.dev, Exchange(cfg.script, k)))
  }

  /** Request `k` is accepted by the pump and answered within the limit. */
  lemma RequestWorks(cfg: Config, k: nat)
    requires Served(cfg) && k <= |cfg.script|
    ensures WellFormed(Exchange(cfg.script, k))
    ensures Fits(Request(cfg.id, cfg.script, k)) && Fits(Answer(cfg, k))
    ensures Accept(cfg.id, cfg.dev, Request(cfg.id, cfg.script, k).payload) == Some(Exchange(cfg.script, k))
  {
    hide DispatchSubmit, ReadCommand;
    var c := Exchange(cfg.script, k);
    CommandRoundTrip(c, []);
    assert WriteCommand(c) + [] == WriteCommand(c);
    UsbipRoundTrip(UsbipFrame(cfg.id, WriteCommand(c)), []);
  }

  lemma ExpectedReply(dev: FakeDevice, urb: ScriptedUrb)
    requires Expected(dev, urb)
    ensures var raw := Reply(dev, CommandOf(urb));
            && PeekUrbOp(raw) == Some(OpRetSubmit) && URB_HEADER_LEN <= |raw| <= URB_HEADER_LEN + 64
            && ParseRetSubmit(raw[..URB_HEADER_LEN]).Ok?
            && var ret := ParseRetSubmit(raw[..URB_HEADER_LEN]).value;
               && ret.status == urb.expectedStatus && ret.actualLength == urb.expectedActualLength
               && (urb.direction == URB_DIR_IN ==> |raw| - URB_HEADER_LEN == ret.actualLength)
  {
    hide DispatchSubmit;
    ReplyAnswers(dev, CommandOf(urb));
    HeaderDecides(Reply(dev, CommandOf(urb)));
  }

  /** The driver accepts a submit's answer. */
  lemma SubmitJudged(id: u32, dev: FakeDevice, urb: ScriptedUrb, st: DriverStats)
    requires Expected(dev, urb)
    ensures JudgeSubmit(id, urb, UsbipEnvelope(id, Reply(dev, CommandOf(urb))), st)
         == Some(st.(urbsOk := WrapAdd(st.urbsOk, 1),
                     bytesReturned := st.bytesReturned + Announced(urb)))
  {
    hide Reply, DispatchSubmit, ParseRetSubmit, PeekUrbOp, EncodeUsbip, ParseUsbip, WrapAdd;
    var raw := Reply(dev, CommandOf(urb));
    UsbipRoundTrip(UsbipFrame(id, raw), []);
    ExpectedReply(dev, urb);
  }

  lemma UnlinkJudged(id: u32, dev: FakeDevice, st: DriverStats)
    ensures JudgeUnlink(UsbipEnvelope(id, Reply(dev, Unlink(FINAL_UNLINK))), st)
         == Some(st.(unlinksOk := WrapAdd(st.unlinksOk, 1)))
  {
    var c := Unlink(FINAL_UNLINK);
    UsbipRoundTrip(UsbipFrame(id, Reply(dev, c)), []);
    ReplyAnswers(dev, c);
    HeaderDecides(Reply(dev, c));
    hide Reply, ParseRetSubmit, ParseRetUnlink, ReadU32;
  }

  /** The statistics after a judged exchange are those of the next prefix of the script. */
  lemma AnswerWorks(cfg: Config, k: nat)
    requires Served(cfg) && k <= |cfg.script|
    ensures Judge(cfg.id, cfg.script, k, Answer(cfg, k), Issued(DriverAfter(cfg, k), cfg.script, k))
         == Some(DriverAfter(cfg, k + 1))
  {
    hide JudgeSubmit, JudgeUnlink, Expected, Reply;
    var st := Issued(DriverAfter(cfg, k), cfg.script, k);
    if k < |cfg.script| {
      SubmitJudged(cfg.id, cfg.dev, cfg.script[k], st);
    } else {
      UnlinkJudged(cfg.id, cfg.dev, st);
    }
  }

  /** About to send request `k`. */
  predicate Idle(cfg: Config, s: Loop, k: nat)
    requires Served(cfg)
  {
    k <= |cfg.script| && s == Loop(Sending(k), DriverAfter(cfg, k), Serving(PumpAfter(cfg, k)), [], [])
  }

  /** Request `k` is in flight. */
  predicate Asked(cfg: Config, s: Loop, k: nat)
    requires Served(cfg)
  {
    && k <= |cfg.script| && Fits(Request(cfg.id, cfg.script, k))
    && s == Loop(Awaiting(k), Issued(DriverAfter(cfg, k), cfg.script, k), Serving(PumpAfter(cfg, k)),
                 Frame(Request(cfg.id, cfg.script, k)), [])
  }

  /** Its answer is in flight. */
  predicate Answered(cfg: Config, s: Loop, k: nat)
    requires Served(cfg)
  {
    && k <= |cfg.script| && Fits(Answer(cfg, k))
    && s == Loop(Awaiting(k), Issued(DriverAfter(cfg, k), cfg.script, k), Serving(PumpAfter(cfg, k + 1)),
                 [], Frame(Answer(cfg, k)))
  }

  /** The driver has returned; the pump may have noticed. */
  predicate Over(cfg: Config, s: Loop, closed: bool)
    requires Served(cfg)
  {
    var n := |cfg.script| + 1;
    var pump := if closed then Finished(PumpAfter(cfg, n)) else Serving(PumpAfter(cfg, n));
    s == Loop(Done, DriverAfter(cfg, n), pump, [], [])
  }

  /** What the loop looks like after `t` steps; every exchange takes three. */
  predicate Inv(cfg: Config, s: Loop, t: nat)
    requires Served(cfg)
  {
    var n := 3 * (|cfg.script| + 1);
    match s.phase
    case Sending(k) => t == 3 * k && Idle(cfg, s, k)
    case Awaiting(k) => (t == 3 * k + 1 && Asked(cfg, s, k)) || (t == 3 * k + 2 && Answered(cfg, s, k))
    case Done => (t == n && Over(cfg, s, false)) || (t == n + 1 && Over(cfg, s, true))
    case Failed => false
  }

  predicate Final(s: Loop) {
    s.phase.Done? && s.pump.Finished?
  }

  lemma IdleStep(cfg: Config, s: Loop, k: nat)
    requires Served(cfg) && Idle(cfg, s, k)
    ensures StepPump(cfg, s) == None && StepDriver(cfg, s).Some? && Asked(cfg, StepDriver(cfg, s).value, k)
  {
    hide Served, RustRecv, Accept, Request, DriverAfter, PumpAfter, Frame;
    NothingToRead();
    RequestWorks(cfg, k);
    assert s.toPump + Frame(Request(cfg.id, cfg.script, k)) == Frame(Request(cfg.id, cfg.script, k));
  }

  lemma AskedStep(cfg: Config, s: Loop, k: nat)
    requires Served(cfg) && Asked(cfg, s, k)
    ensures StepDriver(cfg, s) == None && StepPump(cfg, s).Some? && Answered(cfg, StepPump(cfg, s).value, k)
  {
    hide Served, RustRecv, Accept, Request, Answer, Exchange, Account, DriverAfter, PumpAfter, Reply, Frame;
    NothingToRead();
    RequestWorks(cfg, k);
    ReadOne(Request(cfg.id, cfg.script, k));
    PumpServes(cfg, k);
    assert s.toDriver + Frame(Answer(cfg, k)) == Frame(Answer(cfg, k));
  }

  lemma AnsweredStep(cfg: Config, s: Loop, k: nat)
    requires Served(cfg) && Answered(cfg, s, k)
    ensures StepPump(cfg, s) == None && StepDriver(cfg, s).Some?
    ensures var s1 := StepDriver(cfg, s).value;
            if k < |cfg.script| then Idle(cfg, s1, k + 1) else Over(cfg, s1, false)
  {
    hide Served, RustRecv, Judge, Answer, DriverAfter, PumpAfter, Issued, Frame;
    NothingToRead();
    AnswerWorks(cfg, k);
    ReadOne(Answer(cfg, k));
  }

  lemma OverStep(cfg: Config, s: Loop, closed: bool)
    requires Served(cfg) && Over(cfg, s, closed)
    ensures StepDriver(cfg, s) == None
    ensures if closed then StepPump(cfg, s) == None
            else StepPump(cfg, s).Some? && Over(cfg, StepPump(cfg, s).value, true)
  {
    hide Served, RustRecv, DriverAfter, PumpAfter;
    NothingToRead();
  }

  /** In every state but the final one exactly one process can move, and its step keeps the invariant. */
  lemma StepKeepsInv(cfg: Config, s: Loop, t: nat)
    requires Served(cfg) && Inv(cfg, s, t)
    ensures Final(s) <==> Step(cfg, s, Driver).None? && Step(cfg, s, Pump).None?
    ensures Step(cfg, s, Driver).None? || Step(cfg, s, Pump).None?
    ensures Step(cfg, s, Driver).Some? ==> Inv(cfg, Step(cfg, s, Driver).value, t + 1)
    ensures Step(cfg, s, Pump).Some? ==> Inv(cfg, Step(cfg, s, Pump).value, t + 1)
  {
    hide Served, StepDriver, StepPump, DriverAfter, PumpAfter, Request, Answer, Frame, Issued;
    match s.phase
    case Sending(k) => IdleStep(cfg, s, k);
    case Awaiting(k) =>
      if t == 3 * k + 1 {
        AskedStep(cfg, s, k);
      } else {
        AnsweredStep(cfg, s, k);
      }
    case Done => OverStep(cfg, s, s.pump.Finished?);
  }

  lemma NothingToRead()
    ensures RustRecv([]) == Starved
  {
  }

  lemma ReadOne(e: Envelope)
    requires Fits(e)
    ensures RustRecv(Frame(e)) == Received(e, [])
  {
    DecodeStep(e, []);
    assert Frame(e) + [] == Frame(e);
  }

  lemma PumpServes(cfg: Config, k: nat)
    requires Served(cfg) && k <= |cfg.script|
    ensures Request(cfg.id, cfg.script, k).channel == Usbip && Answer(cfg, k).channel == Usbip
    ensures Answer(cfg, k) == UsbipEnvelope(cfg.id, Reply(cfg.dev, Exchange(cfg.script, k)))
    ensures PumpAfter(cfg, k + 1) == Account(PumpAfter(cfg, k), cfg.dev, Exchange(cfg.script, k))
  {
  }

  lemma {:induction false} ExecuteInv(cfg: Config, schedule: seq<Actor>)
    requires Served(cfg) && Execute(cfg, schedule).Some?
    ensures Inv(cfg, Execute(cfg, schedule).value, |schedule|)
  {
    if schedule != [] {
      var before := schedule[..|schedule| - 1];
      ExecuteInv(cfg, before);
      StepKeepsInv(cfg, Execute(cfg, before).value, |before|);
    }
  }

  // Totals

  lemma {:induction false} Totals(vendor: u16, product: u16, id: u32, nExtra: u32, k: nat)
    requires nExtra <= 67_108_862 && 7 <= k <= 7 + nExtra
    ensures var cfg := Config(id, Script(nExtra), MassStorage(vendor, product));
            && Served(cfg)
            && DriverAfter(cfg, k) == DriverStats(k, k, 0, 0, 155 + 64 * (k - 7))
            && PumpAfter(cfg, k) == PumpStats(k, k, 59, 96 + 64 * (k - 7), 64, 0, 0)
  {
    var cfg := Config(id, Script(nExtra), MassStorage(vendor, product));
    forall j | 0 <= j < |cfg.script| ensures Expected(cfg.dev, cfg.script[j]) {
      ScriptExpected(vendor, product, nExtra, j);
    }
    if k == 7 {
      BaseTotals(cfg);
    } else {
      Totals(vendor, product, id, nExtra, k - 1);
      assert cfg.script[k - 1] == ExtraBulkIn(k - 8);
      Counted(cfg, k - 1);
    }
  }

  /** How one served URB moves the statistics. */
  lemma Counted(cfg: Config, k: nat)
    requires Served(cfg) && k < |cfg.script|
    ensures var st, f, urb := PumpAfter(cfg, k), PumpAfter(cfg, k + 1), cfg.script[k];
            var seen := st.(submitsSeen := WrapAdd(st.submitsSeen, 1), submitsOk := WrapAdd(st.submitsOk, 1));
            f == if urb.ep == 0 && urb.direction == URB_DIR_IN then
                   seen.(controlInBytes := WrapAdd(st.controlInBytes, urb.expectedActualLength))
                 else if urb.direction == URB_DIR_IN then
                   seen.(bulkInBytes := WrapAdd(st.bulkInBytes, urb.expectedActualLength))
                 else seen.(bulkOutBytes := WrapAdd(st.bulkOutBytes, urb.expectedActualLength))
  {
    hide DispatchSubmit;
    assert Expected(cfg.dev, cfg.script[k]);
  }

  lemma BaseTotals(cfg: Config)
    requires Served(cfg) && |cfg.script| >= 7 && forall k | 0 <= k < 7 :: cfg.script[k] == BaseScript()[k]
    ensures DriverAfter(cfg, 7) == DriverStats(7, 7, 0, 0, 155)
    ensures PumpAfter(cfg, 7) == PumpStats(7, 7, 59, 96, 64, 0, 0)
  {
    hide DispatchSubmit, Expected, Account, PumpAfter;
    assert PumpAfter(cfg, 0) == NO_STATS by { PumpAfterZero(cfg); }
    Counted(cfg, 0);
    Counted(cfg, 1);
    Counted(cfg, 2);
    Counted(cfg, 3);
    Counted(cfg, 4);
    Counted(cfg, 5);
    Counted(cfg, 6);
    assert DriverAfter(cfg, 1) == DriverStats(1, 1, 0, 0, 18);
    assert DriverAfter(cfg, 2) == DriverStats(2, 2, 0, 0, 27);
    assert DriverAfter(cfg, 3) == DriverStats(3, 3, 0, 0, 59);
    assert DriverAfter(cfg, 4) == DriverStats(4, 4, 0, 0, 59);
    assert DriverAfter(cfg, 5) == DriverStats(5, 5, 0, 0, 123);
    assert DriverAfter(cfg, 6) == DriverStats(6, 6, 0, 0, 123);
  }

  lemma PumpAfterZero(cfg: Config)
    requires Served(cfg)
    ensures PumpAfter(cfg, 0) == NO_STATS
  {
  }

  /**
   * The closed loop, at byte level and under every schedule. No process ever fails or bails; exactly one of them
   * can move until the end; and the end comes after exactly three steps an exchange and one for the pump to see
   * the closed socket, with all URBs confirmed and both sides agreeing on the bytes returned.
   */
  lemma ClosedLoop(vendor: u16, product: u16, id: u32, nExtra: u32, schedule: seq<Actor>)
    requires nExtra <= 67_108_862
    requires Execute(Config(id, Script(nExtra), MassStorage(vendor, product)), schedule).Some?
    ensures var cfg := Config(id, Script(nExtra), MassStorage(vendor, product));
            var s := Execute(cfg, schedule).value;
            && !s.phase.Failed? && !s.pump.Bailed?
            && (!Final(s) ==> (Step(cfg, s, Driver).Some? <==> Step(cfg, s, Pump).None?))
            && |schedule| <= 3 * (8 + nExtra) + 1
            && (Final(s) <==> |schedule| == 3 * (8 + nExtra) + 1)
            && (Final(s) ==>
                  && s.driver == DriverStats(7 + nExtra, 7 + nExtra, 1, 1, 155 + 64 * nExtra)
                  && s.pump.stats == PumpStats(7 + nExtra, 7 + nExtra, 59, 96 + 64 * nExtra, 64, 1, 0)
                  && s.driver.bytesReturned == s.pump.stats.controlInBytes + s.pump.stats.bulkInBytes)
  {
    hide Execute, Step, Served, Script, DriverAfter, PumpAfter, Request, Answer, Frame;
    var cfg := Config(id, Script(nExtra), MassStorage(vendor, product));
    Totals(vendor, product, id, nExtra, 7 + nExtra);
    ExecuteInv(cfg, schedule);
    StepKeepsInv(cfg, Execute(cfg, schedule).value, |schedule|);
    UnlinkCounted(cfg);
  }

  lemma UnlinkCounted(cfg: Config)
    requires Served(cfg)
    ensures var n := |cfg.script|; var d, p := DriverAfter(cfg, n), PumpAfter(cfg, n);
            && DriverAfter(cfg, n + 1)
               == d.(unlinksIssued := WrapAdd(d.unlinksIssued, 1), unlinksOk := WrapAdd(d.unlinksOk, 1))
            && PumpAfter(cfg, n + 1) == p.(unlinksSeen := WrapAdd(p.unlinksSeen, 1))
  {
  }

  // The same loop as two stream programs, each reading what the other wrote

  function Requests(cfg: Config, k: nat): (es: seq<Envelope>)
    requires k <= |cfg.script| + 1
    decreases |cfg.script| + 1 - k
  {
    if k > |cfg.script| then [] else [Request(cfg.id, cfg.script, k)] + Requests(cfg, k + 1)
  }

  function AnswerEnvelopes(cfg: Config, k: nat): (es: seq<Envelope>)
    requires Served(cfg) && k <= |cfg.script| + 1
    decreases |cfg.script| + 1 - k
  {
    if k > |cfg.script| then [] else [Answer(cfg, k)] + AnswerEnvelopes(cfg, k + 1)
  }

  function RawAnswers(cfg: Config, k: nat): (rs: seq<bytes>)
    requires Served(cfg) && k <= |cfg.script| + 1
    decreases |cfg.script| + 1 - k
  {
    if k > |cfg.script| then [] else [Reply(cfg.dev, Exchange(cfg.script, k))] + RawAnswers(cfg, k + 1)
  }

  lemma {:induction false} AnswersEnveloped(cfg: Config, k: nat)
    requires Served(cfg) && k <= |cfg.script| + 1
    ensures AllFit(AnswerEnvelopes(cfg, k)) && AllFit(Requests(cfg, k))
    ensures AnswerEnvelopes(cfg, k) == UsbipEnvelopes(cfg.id, RawAnswers(cfg, k))
    decreases |cfg.script| + 1 - k
  {
    hide Request, Reply, Exchange;
    if k <= |cfg.script| {
      RequestWorks(cfg, k);
      AnswersEnveloped(cfg, k + 1);
      UsbipEnvelopesCons(cfg.id, Reply(cfg.dev, Exchange(cfg.script, k)), RawAnswers(cfg, k + 1));
    }
  }

  /** One exchange of the driver, its answer arriving before `rest`. */
  lemma DriveHop(cfg: Config, k: nat, rest: bytes)
    requires Served(cfg) && k <= |cfg.script|
    ensures Fits(Answer(cfg, k))
    ensures var o := Drive(cfg.id, cfg.script, k, Frame(Answer(cfg, k)) + rest, DriverAfter(cfg, k));
            var req := Request(cfg.id, cfg.script, k);
            if k == |cfg.script| then o == DriveOutcome(Some(DriverAfter(cfg, k + 1)), [req])
            else
              var next := Drive(cfg.id, cfg.script, k + 1, rest, DriverAfter(cfg, k + 1));
              o == DriveOutcome(next.result, [req] + next.sent)
  {
    hide Served, Request, Answer, Judge, Issued, DriverAfter, RustRecv, Frame, DecodeAll;
    RequestWorks(cfg, k);
    AnswerWorks(cfg, k);
    DecodeStep(Answer(cfg, k), rest);
  }

  lemma {:induction false} DriveWorks(cfg: Config, k: nat)
    requires Served(cfg) && k <= |cfg.script|
    ensures AllFit(AnswerEnvelopes(cfg, k))
    ensures Drive(cfg.id, cfg.script, k, FrameAll(AnswerEnvelopes(cfg, k)), DriverAfter(cfg, k))
         == DriveOutcome(Some(DriverAfter(cfg, |cfg.script| + 1)), Requests(cfg, k))
    decreases |cfg.script| - k
  {
    hide *;
    AnswersEnveloped(cfg, k);
    AnswersEnveloped(cfg, k + 1);
    FramesFrom(cfg, k);
    DriveHop(cfg, k, FrameAll(AnswerEnvelopes(cfg, k + 1)));
    if k < |cfg.script| {
      DriveWorks(cfg, k + 1);
    } else {
      assert [Request(cfg.id, cfg.script, k)] + [] == [Request(cfg.id, cfg.script, k)];
    }
  }

  lemma FramesFrom(cfg: Config, k: nat)
    requires Served(cfg) && k <= |cfg.script| && AllFit(AnswerEnvelopes(cfg, k)) && AllFit(AnswerEnvelopes(cfg, k + 1))
    ensures Fits(Answer(cfg, k))
    ensures FrameAll(AnswerEnvelopes(cfg, k)) == Frame(Answer(cfg, k)) + FrameAll(AnswerEnvelopes(cfg, k + 1))
    ensures Requests(cfg, k) == [Request(cfg.id, cfg.script, k)] + Requests(cfg, k + 1)
    ensures Requests(cfg, |cfg.script| + 1) == []
  {
    hide Frame;
    assert AnswerEnvelopes(cfg, k)[0] == Answer(cfg, k) && AnswerEnvelopes(cfg, k)[1..] == AnswerEnvelopes(cfg, k + 1);
  }

  lemma {:induction false} PumpWorks(cfg: Config, k: nat)
    requires Served(cfg) && k <= |cfg.script| + 1
    ensures AllFit(Requests(cfg, k))
    ensures RunPump(FrameAll(Requests(cfg, k)), cfg.id, cfg.dev, PumpAfter(cfg, k))
         == PumpOutcome(Some(PumpAfter(cfg, |cfg.script| + 1)), RawAnswers(cfg, k))
    decreases |cfg.script| + 1 - k
  {
    hide Served, Request, Accept, Account, Reply, Exchange, RustRecv, Frame, PumpAfter;
    AnswersEnveloped(cfg, k);
    NothingToRead();
    if k <= |cfg.script| {
      AnswersEnveloped(cfg, k + 1);
      RequestWorks(cfg, k);
      PumpServes(cfg, k);
      assert Requests(cfg, k)[1..] == Requests(cfg, k + 1);
      DecodeStep(Request(cfg.id, cfg.script, k), FrameAll(Requests(cfg, k + 1)));
      PumpWorks(cfg, k + 1);
    }
  }

  /**
   * `run_script` and `run_pump` fit together: each, reading exactly what the other writes, writes exactly what
   * the other reads, and both return with the statistics of the whole script.
   */
  lemma StreamsFitTogether(cfg: Config)
    requires Served(cfg)
    ensures AllFit(Requests(cfg, 0)) && AllFit(AnswerEnvelopes(cfg, 0))
    ensures Drive(cfg.id, cfg.script, 0, FrameAll(AnswerEnvelopes(cfg, 0)), NOTHING)
         == DriveOutcome(Some(DriverAfter(cfg, |cfg.script| + 1)), Requests(cfg, 0))
    ensures var p := RunPump(FrameAll(Requests(cfg, 0)), cfg.id, cfg.dev, NO_STATS);
            && p.finished == Some(PumpAfter(cfg, |cfg.script| + 1))
            && UsbipEnvelopes(cfg.id, p.replies) == AnswerEnvelopes(cfg, 0)
            && |p.replies| == |cfg.script| + 1
  {
    AnswersEnveloped(cfg, 0);
    DriveWorks(cfg, 0);
    PumpWorks(cfg, 0);
    RawAnswersCount(cfg, 0);
  }

  lemma {:induction false} RawAnswersCount(cfg: Config, k: nat)
    requires Served(cfg) && k <= |cfg.script| + 1
    ensures |RawAnswers(cfg, k)| == |cfg.script| + 1 - k
    decreases |cfg.script| + 1 - k
  {
    if k <= |cfg.script| {
      RawAnswersCount(cfg, k + 1);
    }
  }
}
