/** The Rust URB pump: commands in, one reply each out, against a fake device. */
module UrbPump {
  import opened Bytes
  import opened Streams
  import opened Envelopes
  import opened UrbCodec

  const ENODEV: i32 := -19
  const EOPNOTSUPP: i32 := -95

  datatype XferType = ControlXfer | IsochronousXfer | BulkXfer | InterruptXfer

  datatype FakeEndpoint = FakeEndpoint(address: byte, xferType: XferType) {
    predicate IsIn() { address >= 0x80 }
  }

  datatype FakeDevice = FakeDevice(deviceDescriptor: bytes, configDescriptor: bytes, endpoints: seq<FakeEndpoint>)

  /** `FakeDevice::endpoint`: the first endpoint with the address. */
  function FindEndpoint(eps: seq<FakeEndpoint>, address: byte): (r: Option<FakeEndpoint>)
    ensures r.Some? ==> exists i | 0 <= i < |eps| && eps[i] == r.value ::
                          r.value.address == address && forall j | 0 <= j < i :: eps[j].address != address
    ensures r.None? ==> forall e | e in eps :: e.address != address
  {
    if eps == [] then None
    else if eps[0].address == address then Some(eps[0])
    else FindEndpoint(eps[1..], address)
  }

  datatype SubmitResult = SubmitResult(status: i32, actualLength: u32, data: bytes)

  datatype PumpStats = PumpStats(
    submitsSeen: u32, submitsOk: u32, controlInBytes: u32, bulkInBytes: u32, bulkOutBytes: u32,
    unlinksSeen: u32, unsupported: u32)

  const NO_STATS := PumpStats(0, 0, 0, 0, 0, 0, 0)

  // The setup packet (section 9.3 of USB 2.0): little-endian 16-bit fields.

  predicate SetupIsIn(s: Setup) { s[0] >= 0x80 }

  function DescType(s: Setup): byte { s[3] }

  function WLength(s: Setup): u16 { FromBe16(s[7], s[6]) }

  predicate IsGetDescriptor(s: Setup) { SetupIsIn(s) && s[1] == 0x06 }

  /** Every request is read off its setup packet as it was written. */
  lemma SetupFields(requestType: byte, request: byte, value: u16, index: u16, length: u16)
    ensures var s := SetupOf(requestType, request, value, index, length);
            && (SetupIsIn(s) <==> requestType >= 0x80)
            && (IsGetDescriptor(s) <==> requestType >= 0x80 && request == 0x06)
            && DescType(s) == value / 0x100 && WLength(s) == length
  {
  }

  /** The descriptor a GET_DESCRIPTOR asks for, when the fake device has it. */
  function Descriptor(dev: FakeDevice, s: Setup): Option<bytes> {
    match DescType(s)
    case 0x01 => Some(dev.deviceDescriptor)
    case 0x02 => Some(dev.configDescriptor)
    case _ => None
  }

  /** Deterministic bulk-IN payload. */
  function BulkData(seqnum: u32, len: nat): (d: bytes)
    ensures |d| == len
  {
    seq(len, i requires 0 <= i < len => (seqnum + i) % 0x100)
  }

  function ExecuteControl(dev: FakeDevice, cmd: CmdSubmit, outBody: bytes): SubmitResult
    requires |outBody| < TWO32
  {
    if IsGetDescriptor(cmd.setup) then
      (match Descriptor(dev, cmd.setup)
       case None => SubmitResult(EOPNOTSUPP, 0, [])
       case Some(buf) =>
         var take := Min(WLength(cmd.setup), |buf|);
         SubmitResult(0, take, buf[..take]))
    else if !SetupIsIn(cmd.setup) && cmd.transferBufferLength == 0 then SubmitResult(0, 0, [])
    else if !SetupIsIn(cmd.setup) then SubmitResult(0, |outBody|, [])
    else SubmitResult(0, 0, [])
  }

  function ExecuteBulk(cmd: CmdSubmit, ep: FakeEndpoint, outBody: bytes): SubmitResult
    requires |outBody| < TWO32
  {
    if ep.IsIn() then SubmitResult(0, cmd.transferBufferLength, BulkData(cmd.seqnum, cmd.transferBufferLength))
    else SubmitResult(0, |outBody|, [])
  }

  method ExecuteBulkInPlace(cmd: CmdSubmit, ep: FakeEndpoint, outBody: bytes) returns (r: SubmitResult)
    requires |outBody| < TWO32
    ensures r == ExecuteBulk(cmd, ep, outBody)
  {
    if ep.IsIn() {
      var len := cmd.transferBufferLength;
      var buf := new byte[len](_ => 0);
      var i := 0;
      while i < len
        invariant 0 <= i <= len
        invariant forall k | 0 <= k < i :: buf[k] == (cmd.seqnum + k) % 0x100
      {
        buf[i] := (cmd.seqnum + i) % 0x100;
        i := i + 1;
      }
      assert buf[..] == BulkData(cmd.seqnum, len);
      return SubmitResult(0, len, buf[..]);
    } else {
      return SubmitResult(0, |outBody|, []);
    }
  }

  /** Endpoint address: direction in bit 7, number in the low four bits. */
  function EpAddress(direction: u32, ep: u32): byte {
    (if direction == URB_DIR_IN then 0x80 else 0) + ep % 0x10
  }

  function DispatchSubmit(dev: FakeDevice, cmd: CmdSubmit, outBody: bytes): SubmitResult
    requires |outBody| < TWO32
  {
    if cmd.IsControl() then ExecuteControl(dev, cmd, outBody)
    else
      match FindEndpoint(dev.endpoints, EpAddress(cmd.direction, cmd.ep))
      case None => SubmitResult(ENODEV, 0, [])
      case Some(ep) =>
        match ep.xferType
        case BulkXfer => ExecuteBulk(cmd, ep, outBody)
        case InterruptXfer => ExecuteBulk(cmd, ep, outBody)
        case IsochronousXfer => SubmitResult(EOPNOTSUPP, 0, [])
        case ControlXfer => ExecuteControl(dev, cmd, outBody)
  }

  // One packet

  datatype Command = Submit(cmd: CmdSubmit, body: bytes) | Unlink(unlink: CmdUnlink)

  /** A submit carries its transfer buffer exactly when it is an OUT. */
  predicate WellFormed(c: Command) {
    c.Submit? ==> |c.body| == if c.cmd.direction == URB_DIR_OUT then c.cmd.transferBufferLength else 0
  }

  /** The command in a raw USB/IP packet; bytes after it are ignored. `None` is where the pump bails. */
  function ReadCommand(raw: bytes): (c: Option<Command>)
    ensures c.Some? ==> WellFormed(c.value)
  {
    if |raw| < URB_HEADER_LEN then None
    else
      match PeekUrbOp(raw)
      case Some(OpCmdSubmit) => (
        match ParseCmdSubmit(raw[..URB_HEADER_LEN])
        case Ok(cmd) =>
          if cmd.direction == URB_DIR_OUT then
            var want := cmd.transferBufferLength;
            if |raw| < URB_HEADER_LEN + want then None
            else Some(Submit(cmd, raw[URB_HEADER_LEN..URB_HEADER_LEN + want]))
          else Some(Submit(cmd, []))
        case Err(_) => None)
      case Some(OpCmdUnlink) => (
        match ParseCmdUnlink(raw[..URB_HEADER_LEN])
        case Ok(u) => Some(Unlink(u))
        case Err(_) => None)
      case _ => None
  }

  /** Which packets are commands, and what they say, word by word. */
  lemma ReadCommandExact(raw: bytes)
    ensures ReadCommand(raw).Some? <==>
            && |raw| >= 48
            && (ReadU32(raw, 0) == 2
                || (ReadU32(raw, 0) == 1 && (ReadU32(raw, 12) == 0 ==> |raw| >= 48 + ReadU32(raw, 24))))
    ensures ReadCommand(raw).Some? && ReadU32(raw, 0) == 1 ==>
              ReadCommand(raw).value == Submit(
                CmdSubmit(ReadU32(raw, 4), ReadU32(raw, 8), ReadU32(raw, 12), ReadU32(raw, 16), ReadU32(raw, 20),
                          ReadU32(raw, 24), ReadU32(raw, 28), ReadU32(raw, 32), ReadU32(raw, 36), raw[40..48]),
                if ReadU32(raw, 12) == 0 then raw[48..48 + ReadU32(raw, 24)] else [])
    ensures ReadCommand(raw).Some? && ReadU32(raw, 0) == 2 ==>
              ReadCommand(raw).value == Unlink(
                CmdUnlink(ReadU32(raw, 4), ReadU32(raw, 8), ReadU32(raw, 12), ReadU32(raw, 16), ReadU32(raw, 20)))
  {
    hide ReadU32;
    if |raw| >= URB_HEADER_LEN {
      HeaderWords(raw);
      assert raw[..48][40..48] == raw[40..48];
    }
  }

  lemma HeaderWords(raw: bytes)
    requires |raw| >= 48
    ensures forall k: nat | k <= 44 :: ReadU32(raw[..48], k) == ReadU32(raw, k)
  {
    hide ReadU32;
    forall k: nat | k <= 44 ensures ReadU32(raw[..48], k) == ReadU32(raw, k) {
      ReadPrefix(raw, 48, k);
    }
  }

  /** The raw packet of a command, as the receiver side builds it. */
  function WriteCommand(c: Command): bytes {
    match c
    case Submit(cmd, body) => EncodeCmdSubmit(cmd) + body
    case Unlink(u) => EncodeCmdUnlink(u)
  }

  lemma CommandRoundTrip(c: Command, junk: bytes)
    requires WellFormed(c)
    ensures ReadCommand(WriteCommand(c) + junk) == Some(c)
  {
    match c
    case Submit(cmd, body) =>
      var raw := WriteCommand(c) + junk;
      assert raw == EncodeCmdSubmit(cmd) + (body + junk);
      CmdSubmitRoundTrip(cmd, body + junk);
      CmdSubmitRoundTrip(cmd, []);
      assert raw[..URB_HEADER_LEN] == EncodeCmdSubmit(cmd) + [];
      if cmd.direction == URB_DIR_OUT {
        assert raw[URB_HEADER_LEN..URB_HEADER_LEN + |body|] == body;
      }
    case Unlink(u) =>
      CmdUnlinkRoundTrip(u, junk);
      CmdUnlinkRoundTrip(u, []);
      assert (WriteCommand(c) + junk)[..URB_HEADER_LEN] == EncodeCmdUnlink(u) + [];
  }

  function RetSubmitOf(cmd: CmdSubmit, res: SubmitResult): RetSubmit {
    RetSubmit(cmd.seqnum, 0, cmd.direction, cmd.ep, res.status, res.actualLength, 0, 0, 0)
  }

  function RetUnlinkOf(u: CmdUnlink): RetUnlink {
    RetUnlink(u.seqnum, 0, u.direction, u.ep, 0)
  }

  /** The raw reply to a command: `send_ret_submit` or `send_ret_unlink` before framing. */
  function Reply(dev: FakeDevice, c: Command): bytes
    requires WellFormed(c)
  {
    match c
    case Submit(cmd, body) =>
      var res := DispatchSubmit(dev, cmd, body);
      EncodeRetSubmit(RetSubmitOf(cmd, res)) + res.data
    case Unlink(u) => EncodeRetUnlink(RetUnlinkOf(u))
  }

  function Account(st: PumpStats, dev: FakeDevice, c: Command): PumpStats
    requires WellFormed(c)
  {
    match c
    case Unlink(_) => st.(unlinksSeen := WrapAdd(st.unlinksSeen, 1))
    case Submit(cmd, body) =>
      var res := DispatchSubmit(dev, cmd, body);
      var seen := st.(submitsSeen := WrapAdd(st.submitsSeen, 1));
      if res.status == 0 then
        var ok := seen.(submitsOk := WrapAdd(st.submitsOk, 1));
        if cmd.IsControl() && cmd.direction == URB_DIR_IN then
          ok.(controlInBytes := WrapAdd(st.controlInBytes, res.actualLength))
        else if cmd.direction == URB_DIR_IN then
          ok.(bulkInBytes := WrapAdd(st.bulkInBytes, res.actualLength))
        else
          ok.(bulkOutBytes := WrapAdd(st.bulkOutBytes, res.actualLength))
      else if res.status == EOPNOTSUPP then seen.(unsupported := WrapAdd(st.unsupported, 1))
      else seen
  }

  // Whole runs

  function UsbipEnvelope(id: u32, reply: bytes): Envelope {
    Envelope(Usbip, EncodeUsbip(UsbipFrame(id, reply)))
  }

  function UsbipEnvelopes(id: u32, replies: seq<bytes>): (es: seq<Envelope>)
    ensures |es| == |replies|
    ensures forall i | 0 <= i < |es| :: es[i] == UsbipEnvelope(id, replies[i])
  {
    seq(|replies|, i requires 0 <= i < |replies| => UsbipEnvelope(id, replies[i]))
  }

  /** The command the pump serves for a USB/IP envelope; `None` where it bails. */
  function Accept(id: u32, dev: FakeDevice, payload: bytes): (c: Option<Command>)
    ensures c.Some? ==> WellFormed(c.value) && Fits(UsbipEnvelope(id, Reply(dev, c.value)))
  {
    match ParseUsbip(payload)
    case None => None
    case Some(f) =>
      if f.importId != id then None
      else
        match ReadCommand(f.raw)
        case None => None
        case Some(c) => if Fits(UsbipEnvelope(id, Reply(dev, c))) then Some(c) else None
  }

  /** `finished` is `None` when the pump bailed out; the replies were written either way. */
  datatype PumpOutcome = PumpOutcome(finished: Option<PumpStats>, replies: seq<bytes>)

  function RunPump(s: bytes, id: u32, dev: FakeDevice, st: PumpStats): (o: PumpOutcome)
    ensures AllFit(UsbipEnvelopes(id, o.replies))
    decreases |s|
  {
    match RustRecv(s)
    case Received(env, rest) =>
      if env.channel != Usbip then RunPump(rest, id, dev, st)
      else (
        match Accept(id, dev, env.payload)
        case None => PumpOutcome(None, [])
        case Some(c) =>
          var o := RunPump(rest, id, dev, Account(st, dev, c));
          PumpOutcome(o.finished, [Reply(dev, c)] + o.replies))
    case _ => PumpOutcome(Some(st), [])
  }

  lemma UsbipEnvelopesCons(id: u32, x: bytes, xs: seq<bytes>)
    ensures UsbipEnvelopes(id, [x] + xs) == [UsbipEnvelope(id, x)] + UsbipEnvelopes(id, xs)
  {
  }

  /** `handle_urb_packet`: answers one packet on the stream, or bails. */
  method HandleUrbPacket(out: ByteSink, id: u32, dev: FakeDevice, raw: bytes, st: PumpStats)
    returns (r: Option<PumpStats>)
    modifies out
    ensures var c := Accept(id, dev, EncodeUsbip(UsbipFrame(id, raw)));
            && (r.Some? <==> c.Some?)
            && (c.Some? ==> r.value == Account(st, dev, c.value)
                            && out.data == old(out.data) + Frame(UsbipEnvelope(id, Reply(dev, c.value))))
            && (c.None? ==> out.data == old(out.data))
  {
    UsbipRoundTrip(UsbipFrame(id, raw), []);
    var c := ReadCommand(raw);
    if c.None? {
      return None;
    }
    var stats := Account(st, dev, c.value);
    var ok := SendEnvelope(out, UsbipEnvelope(id, Reply(dev, c.value)));
    return if ok then Some(stats) else None;
  }

  /** One turn of the loop: only USB/IP envelopes are served, the others are ignored. */
  method HandleEnvelope(out: ByteSink, id: u32, dev: FakeDevice, env: Envelope, st: PumpStats)
    returns (r: Option<PumpStats>)
    modifies out
    ensures env.channel != Usbip ==> r == Some(st) && out.data == old(out.data)
    ensures env.channel == Usbip ==>
              var c := Accept(id, dev, env.payload);
              if c.None? then r == None && out.data == old(out.data)
              else r == Some(Account(st, dev, c.value))
                   && out.data == old(out.data) + Frame(UsbipEnvelope(id, Reply(dev, c.value)))
  {
    match env.channel
    case Usbip =>
      var f := ParseUsbip(env.payload);
      if f.None? || f.value.importId != id {
        return None;
      }
      UsbipRoundTrip(f.value, env.payload);
      r := HandleUrbPacket(out, id, dev, f.value.raw, st);
    case _ =>
      return Some(st);
  }

  /** The outcome of a run that has already written `sent`. */
  ghost function Resumed(sent: seq<bytes>, o: PumpOutcome): PumpOutcome {
    PumpOutcome(o.finished, sent + o.replies)
  }

  /** Read and serve one envelope. `done` when the stream ended (`r` holds the statistics) or the pump bailed. */
  method PumpTurn(input: ByteSource, out: ByteSink, id: u32, dev: FakeDevice, st: PumpStats)
    returns (done: bool, r: Option<PumpStats>, ghost sent: seq<bytes>)
    modifies input, out
    ensures !done ==> r.Some? && |input.rest| < |old(input.rest)|
    ensures done ==> sent == []
    ensures RunPump(old(input.rest), id, dev, st)
         == if done then PumpOutcome(r, []) else Resumed(sent, RunPump(input.rest, id, dev, r.value))
    ensures AllFit(UsbipEnvelopes(id, sent))
    ensures out.data == old(out.data) + FrameAll(UsbipEnvelopes(id, sent))
  {
    sent := [];
    PumpUnfold(input.rest, id, dev, st, []);
    var env := RecvEnvelope(input);
    if env.None? {
      return true, Some(st), [];
    }
    r := HandleEnvelope(out, id, dev, env.value, st);
    done := r.None?;
    if !done && env.value.channel == Usbip {
      sent := [Reply(dev, Accept(id, dev, env.value.payload).value)];
      PumpStep(id, [], sent[0]);
      assert [] + sent == sent;
    }
  }

  method Pump(input: ByteSource, out: ByteSink, id: u32, dev: FakeDevice) returns (r: Option<PumpStats>)
    modifies input, out
    ensures var o := RunPump(old(input.rest), id, dev, NO_STATS);
            r == o.finished && out.data == old(out.data) + FrameAll(UsbipEnvelopes(id, o.replies))
  {
    hide Accept, RunPump, FrameAll, UsbipEnvelopes;
    var done := false;
    r := Some(NO_STATS);
    NoReplies(id);
    ghost var o := RunPump(input.rest, id, dev, NO_STATS);
    ghost var sent: seq<bytes> := [];
    assert o == Resumed([], o);
    while !done
      invariant !done ==> r.Some?
      invariant AllFit(UsbipEnvelopes(id, sent))
      invariant out.data == old(out.data) + FrameAll(UsbipEnvelopes(id, sent))
      invariant o == if done then PumpOutcome(r, sent) else Resumed(sent, RunPump(input.rest, id, dev, r.value))
      decreases !done, |input.rest|
    {
      ghost var more;
      done, r, more := PumpTurn(input, out, id, dev, r.value);
      RepliesConcat(id, sent, more);
      if !done {
        ghost var tail := RunPump(input.rest, id, dev, r.value).replies;
        assert sent + (more + tail) == sent + more + tail;
      }
      sent := sent + more;
    }
  }

  lemma NoReplies(id: u32)
    ensures AllFit(UsbipEnvelopes(id, [])) && FrameAll(UsbipEnvelopes(id, [])) == []
  {
  }

  lemma RepliesConcat(id: u32, a: seq<bytes>, b: seq<bytes>)
    requires AllFit(UsbipEnvelopes(id, a)) && AllFit(UsbipEnvelopes(id, b))
    ensures AllFit(UsbipEnvelopes(id, a + b))
    ensures FrameAll(UsbipEnvelopes(id, a + b)) == FrameAll(UsbipEnvelopes(id, a)) + FrameAll(UsbipEnvelopes(id, b))
  {
    assert UsbipEnvelopes(id, a + b) == UsbipEnvelopes(id, a) + UsbipEnvelopes(id, b);
    FrameAllConcat(UsbipEnvelopes(id, a), UsbipEnvelopes(id, b));
  }

  lemma PumpUnfold(s: bytes, id: u32, dev: FakeDevice, st: PumpStats, sent: seq<bytes>)
    ensures var o, r := Resumed(sent, RunPump(s, id, dev, st)), RustRecv(s);
            if !r.Received? then o == PumpOutcome(Some(st), sent)
            else if r.env.channel != Usbip then o == Resumed(sent, RunPump(r.rest, id, dev, st))
            else
              var c := Accept(id, dev, r.env.payload);
              if c.None? then o == PumpOutcome(None, sent)
              else o == Resumed(sent + [Reply(dev, c.value)], RunPump(r.rest, id, dev, Account(st, dev, c.value)))
  {
    match RustRecv(s)
    case Received(env, rest) =>
      if env.channel == Usbip && Accept(id, dev, env.payload).Some? {
        var c := Accept(id, dev, env.payload).value;
        var tail := RunPump(rest, id, dev, Account(st, dev, c)).replies;
        assert sent + ([Reply(dev, c)] + tail) == sent + [Reply(dev, c)] + tail;
      }
    case _ =>
  }

  /** One more reply on the wire. */
  lemma PumpStep(id: u32, sent: seq<bytes>, reply: bytes)
    requires AllFit(UsbipEnvelopes(id, sent)) && Fits(UsbipEnvelope(id, reply))
    ensures AllFit(UsbipEnvelopes(id, sent + [reply]))
    ensures FrameAll(UsbipEnvelopes(id, sent + [reply]))
         == FrameAll(UsbipEnvelopes(id, sent)) + Frame(UsbipEnvelope(id, reply))
  {
    var es, e := UsbipEnvelopes(id, sent), UsbipEnvelope(id, reply);
    assert UsbipEnvelopes(id, sent + [reply]) == es + [e];
    FrameAllConcat(es, [e]);
    assert FrameAll([e]) == Frame(e) + FrameAll([]);
  }

  // One reply per command

  /** The USB/IP payloads among the envelopes of a stream. */
  function Packets(es: seq<Envelope>): seq<bytes> {
    if es == [] then []
    else if es[0].channel == Usbip then [es[0].payload] + Packets(es[1..])
    else Packets(es[1..])
  }

  function AccountAll(st: PumpStats, dev: FakeDevice, cs: seq<Command>): PumpStats
    requires forall i | 0 <= i < |cs| :: WellFormed(cs[i])
    decreases |cs|
  {
    if cs == [] then st else AccountAll(Account(st, dev, cs[0]), dev, cs[1..])
  }

  /** The commands served for a list of accepted payloads. */
  function Commands(id: u32, dev: FakeDevice, ps: seq<bytes>): (cs: seq<Command>)
    requires forall i | 0 <= i < |ps| :: Accept(id, dev, ps[i]).Some?
    ensures |cs| == |ps| && forall i | 0 <= i < |cs| :: WellFormed(cs[i])
  {
    seq(|ps|, i requires 0 <= i < |ps| => Accept(id, dev, ps[i]).value)
  }

  /** The run on packets that are already taken out of their envelopes. */
  function RunPackets(ps: seq<bytes>, id: u32, dev: FakeDevice, st: PumpStats): PumpOutcome {
    if ps == [] then PumpOutcome(Some(st), [])
    else
      match Accept(id, dev, ps[0])
      case None => PumpOutcome(None, [])
      case Some(c) =>
        var o := RunPackets(ps[1..], id, dev, Account(st, dev, c));
        PumpOutcome(o.finished, [Reply(dev, c)] + o.replies)
  }

  lemma {:induction false} RunPumpIsRunPackets(s: bytes, id: u32, dev: FakeDevice, st: PumpStats)
    ensures RunPump(s, id, dev, st) == RunPackets(Packets(DecodeAll(s)), id, dev, st)
    decreases |s|
  {
    match RustRecv(s)
    case Received(env, rest) =>
      assert DecodeAll(s)[1..] == DecodeAll(rest);
      var ps := Packets(DecodeAll(rest));
      if env.channel != Usbip {
        RunPumpIsRunPackets(rest, id, dev, st);
      } else {
        assert ([env.payload] + ps)[1..] == ps;
        match Accept(id, dev, env.payload)
        case None =>
        case Some(c) => RunPumpIsRunPackets(rest, id, dev, Account(st, dev, c));
      }
    case _ =>
  }

  lemma {:induction false} PacketsServed(ps: seq<bytes>, id: u32, dev: FakeDevice, st: PumpStats)
    ensures var o := RunPackets(ps, id, dev, st); var k := |o.replies|;
            && k <= |ps|
            && (forall i | 0 <= i < k ::
                  Accept(id, dev, ps[i]).Some? && o.replies[i] == Reply(dev, Accept(id, dev, ps[i]).value))
            && (o.finished.None? <==> k < |ps|)
            && (k < |ps| ==> Accept(id, dev, ps[k]).None?)
            && (o.finished.Some? ==> o.finished.value == AccountAll(st, dev, Commands(id, dev, ps)))
  {
    hide Accept, Account, Reply;
    if ps != [] && Accept(id, dev, ps[0]).Some? {
      var st1 := Account(st, dev, Accept(id, dev, ps[0]).value);
      PacketsServed(ps[1..], id, dev, st1);
      if RunPackets(ps, id, dev, st).finished.Some? {
        assert Commands(id, dev, ps)[1..] == Commands(id, dev, ps[1..]);
      }
    }
  }

  /**
   * A run serves exactly the USB/IP packets of its input, in order, up to the first one it does not
   * accept; if it finishes there is no such packet and the statistics account for all of them.
   */
  lemma RunServesPackets(s: bytes, id: u32, dev: FakeDevice, st: PumpStats)
    ensures var o := RunPump(s, id, dev, st); var ps := Packets(DecodeAll(s)); var k := |o.replies|;
            && k <= |ps|
            && (forall i | 0 <= i < k ::
                  Accept(id, dev, ps[i]).Some? && o.replies[i] == Reply(dev, Accept(id, dev, ps[i]).value))
            && (o.finished.None? <==> k < |ps|)
            && (k < |ps| ==> Accept(id, dev, ps[k]).None?)
            && (o.finished.Some? ==> o.finished.value == AccountAll(st, dev, Commands(id, dev, ps)))
  {
    hide Accept, RunPump, RunPackets;
    RunPumpIsRunPackets(s, id, dev, st);
    PacketsServed(Packets(DecodeAll(s)), id, dev, st);
  }

  /** What a reply must look like on the wire for a command. */
  predicate Answers(c: Command, reply: bytes) {
    match c
    case Submit(cmd, _) =>
      && ParsesOnlyAs(reply, OpRetSubmit)
      && var r := ParseRetSubmit(reply).value;
         && r.seqnum == cmd.seqnum && r.direction == cmd.direction && r.ep == cmd.ep
         && r.devid == 0 && r.startFrame == 0 && r.numberOfPackets == 0 && r.errorCount == 0
         && (r.status == 0 || r.status == ENODEV || r.status == EOPNOTSUPP)
         && (r.status != 0 ==> r.actualLength == 0 && |reply| == URB_HEADER_LEN)
    case Unlink(u) =>
      && ParsesOnlyAs(reply, OpRetUnlink)
      && |reply| == URB_HEADER_LEN
      && var r := ParseRetUnlink(reply).value;
         && r.seqnum == u.seqnum && r.direction == u.direction && r.ep == u.ep
         && r.devid == 0 && r.status == 0
  }

  lemma ReplyAnswers(dev: FakeDevice, c: Command)
    requires WellFormed(c)
    ensures Answers(c, Reply(dev, c))
    ensures c.Submit? ==> var res := DispatchSubmit(dev, c.cmd, c.body);
                          ParseRetSubmit(Reply(dev, c)) == Ok(RetSubmitOf(c.cmd, res))
                          && Reply(dev, c)[URB_HEADER_LEN..] == res.data
  {
    match c
    case Submit(cmd, body) =>
      var res := DispatchSubmit(dev, cmd, body);
      RetSubmitRoundTrip(RetSubmitOf(cmd, res), res.data);
    case Unlink(u) =>
      RetUnlinkRoundTrip(RetUnlinkOf(u), []);
      assert Reply(dev, c) + [] == Reply(dev, c);
  }

  /**
   * One reply per command, on the wire. Whatever bytes come in, what goes out decodes to one envelope for
   * each served packet, in order, echoing the import id and answering that packet's command.
   */
  lemma OneReplyPerCommand(s: bytes, id: u32, dev: FakeDevice)
    ensures var o := RunPump(s, id, dev, NO_STATS);
            var ps := Packets(DecodeAll(s));
            var out := DecodeAll(FrameAll(UsbipEnvelopes(id, o.replies)));
            && |out| <= |ps|
            && (o.finished.Some? ==> |out| == |ps|)
            && forall i | 0 <= i < |out| ::
                 && out[i].channel == Usbip
                 && ParseUsbip(ps[i]).Some? && ParseUsbip(ps[i]).value.importId == id
                 && ReadCommand(ParseUsbip(ps[i]).value.raw).Some?
                 && ParseUsbip(out[i].payload).Some? && ParseUsbip(out[i].payload).value.importId == id
                 && Answers(ReadCommand(ParseUsbip(ps[i]).value.raw).value, ParseUsbip(out[i].payload).value.raw)
  {
    hide RunPump, DecodeAll, FrameAll, Packets, Reply, ParseUsbip, ReadCommand, Answers;
    var o := RunPump(s, id, dev, NO_STATS);
    var es := UsbipEnvelopes(id, o.replies);
    RunServesPackets(s, id, dev, NO_STATS);
    DecodeFrames(es, []);
    NothingToDecode();
    assert FrameAll(es) + [] == FrameAll(es) && es + [] == es;
    var ps := Packets(DecodeAll(s));
    forall i | 0 <= i < |es|
      ensures ParseUsbip(es[i].payload) == Some(UsbipFrame(id, o.replies[i]))
      ensures Answers(Accept(id, dev, ps[i]).value, o.replies[i])
    {
      UsbipRoundTrip(UsbipFrame(id, o.replies[i]), []);
      ReplyAnswers(dev, Accept(id, dev, ps[i]).value);
    }
  }

  // Statistics against the replies

  /** What can be counted on the reply side; bytes are the `actual_length` of the successful replies. */
  datatype Tally = Tally(
    submits: nat, ok: nat, nodev: nat, unsupported: nat, unlinks: nat, controlIn: nat, bulkIn: nat, out: nat)

  const NO_REPLIES := Tally(0, 0, 0, 0, 0, 0, 0, 0)

  function Count(b: bool): nat { if b then 1 else 0 }

  function Moved(b: bool, n: nat): nat { if b then n else 0 }

  /** One reply, judged by its own header. */
  function TallyReply(reply: bytes): Tally {
    match ParseRetSubmit(reply)
    case Ok(r) =>
      var ok, isIn, n := r.status == 0, r.direction == URB_DIR_IN, r.actualLength;
      Tally(1, Count(ok), Count(r.status == ENODEV), Count(r.status == EOPNOTSUPP), 0,
            Moved(ok && isIn && r.ep == 0, n), Moved(ok && isIn && r.ep != 0, n), Moved(ok && !isIn, n))
    case Err(_) => NO_REPLIES.(unlinks := Count(ParseRetUnlink(reply).Ok?))
  }

  function Plus(a: Tally, b: Tally): Tally {
    Tally(a.submits + b.submits, a.ok + b.ok, a.nodev + b.nodev, a.unsupported + b.unsupported, a.unlinks + b.unlinks,
          a.controlIn + b.controlIn, a.bulkIn + b.bulkIn, a.out + b.out)
  }

  function TallyOf(replies: seq<bytes>): Tally {
    if replies == [] then NO_REPLIES else Plus(TallyReply(replies[0]), TallyOf(replies[1..]))
  }

  function Replies(dev: FakeDevice, cs: seq<Command>): (rs: seq<bytes>)
    requires forall i | 0 <= i < |cs| :: WellFormed(cs[i])
    ensures |rs| == |cs|
  {
    seq(|cs|, i requires 0 <= i < |cs| => Reply(dev, cs[i]))
  }

  /** The statistics `st` with room for the replies tallied in `t`. */
  predicate Room(st: PumpStats, t: Tally) {
    && st.submitsSeen + t.submits < TWO32 && st.submitsOk + t.ok < TWO32
    && st.unsupported + t.unsupported < TWO32 && st.unlinksSeen + t.unlinks < TWO32
    && st.controlInBytes + t.controlIn < TWO32 && st.bulkInBytes + t.bulkIn < TWO32 && st.bulkOutBytes + t.out < TWO32
  }

  /** `f` is `st` advanced by the replies tallied in `t`. */
  predicate Advanced(st: PumpStats, t: Tally, f: PumpStats) {
    && f.submitsSeen == st.submitsSeen + t.submits
    && f.submitsOk == st.submitsOk + t.ok
    && f.unsupported == st.unsupported + t.unsupported
    && f.unlinksSeen == st.unlinksSeen + t.unlinks
    && f.controlInBytes == st.controlInBytes + t.controlIn
    && f.bulkInBytes == st.bulkInBytes + t.bulkIn
    && f.bulkOutBytes == st.bulkOutBytes + t.out
    && t.submits == t.ok + t.nodev + t.unsupported
  }

  lemma AccountOne(st: PumpStats, dev: FakeDevice, c: Command)
    requires WellFormed(c) && Room(st, TallyReply(Reply(dev, c)))
    ensures Advanced(st, TallyReply(Reply(dev, c)), Account(st, dev, c))
  {
    hide DispatchSubmit, Reply, ParseRetSubmit, ParseRetUnlink, WrapAdd, PeekUrbOp;
    ReplyAnswers(dev, c);
  }

  lemma {:induction false} StatsTally(st: PumpStats, dev: FakeDevice, cs: seq<Command>)
    requires forall i | 0 <= i < |cs| :: WellFormed(cs[i])
    requires Room(st, TallyOf(Replies(dev, cs)))
    ensures Advanced(st, TallyOf(Replies(dev, cs)), AccountAll(st, dev, cs))
    decreases |cs|
  {
    hide Account, Reply, TallyReply;
    if cs != [] {
      assert Replies(dev, cs)[1..] == Replies(dev, cs[1..]);
      AccountOne(st, dev, cs[0]);
      StatsTally(Account(st, dev, cs[0]), dev, cs[1..]);
    }
  }

  lemma TallyAnswer(dev: FakeDevice, c: Command)
    requires WellFormed(c)
    ensures var t := TallyReply(Reply(dev, c));
            t.submits + t.unlinks == 1 && t.ok <= t.submits && t.unsupported <= t.submits
  {
    hide DispatchSubmit, Reply, ParseRetSubmit, ParseRetUnlink, PeekUrbOp;
    ReplyAnswers(dev, c);
  }

  lemma {:induction false} TallyComplete(dev: FakeDevice, cs: seq<Command>)
    requires forall i | 0 <= i < |cs| :: WellFormed(cs[i])
    ensures var t := TallyOf(Replies(dev, cs));
            t.submits + t.unlinks == |cs| && t.ok <= t.submits && t.unsupported <= t.submits
  {
    hide Reply, TallyReply;
    if cs != [] {
      assert Replies(dev, cs)[1..] == Replies(dev, cs[1..]);
      TallyAnswer(dev, cs[0]);
      TallyComplete(dev, cs[1..]);
    }
  }

  /** The totals of a list of replies fit 32 bits. */
  predicate TotalsFit(replies: seq<bytes>) {
    var t := TallyOf(replies);
    |replies| < TWO32 && t.controlIn < TWO32 && t.bulkIn < TWO32 && t.out < TWO32
  }

  /**
   * Conservation: when a run finishes and its totals fit 32 bits, submits split into successes, missing
   * endpoints and unsupported ones, and each byte counter is the sum of the `actual_length` of the successful
   * replies that carry its direction and kind of endpoint.
   */
  lemma StatsConserved(s: bytes, id: u32, dev: FakeDevice)
    requires RunPump(s, id, dev, NO_STATS).finished.Some?
    requires TotalsFit(RunPump(s, id, dev, NO_STATS).replies)
    ensures var o := RunPump(s, id, dev, NO_STATS); var f := o.finished.value; var t := TallyOf(o.replies);
            Advanced(NO_STATS, t, f) && t.submits + t.unlinks == |o.replies|
  {
    hide *;
    RunServesPackets(s, id, dev, NO_STATS);
    FinishedReplies(s, id, dev);
    Conserved(dev, Commands(id, dev, Packets(DecodeAll(s))));
  }

  lemma FinishedReplies(s: bytes, id: u32, dev: FakeDevice)
    requires RunPump(s, id, dev, NO_STATS).finished.Some?
    ensures var ps := Packets(DecodeAll(s));
            && (forall i | 0 <= i < |ps| :: Accept(id, dev, ps[i]).Some?)
            && RunPump(s, id, dev, NO_STATS).replies == Replies(dev, Commands(id, dev, ps))
  {
    hide Accept, RunPump, Reply, Packets, DecodeAll;
    RunServesPackets(s, id, dev, NO_STATS);
  }

  lemma Conserved(dev: FakeDevice, cs: seq<Command>)
    requires forall i | 0 <= i < |cs| :: WellFormed(cs[i])
    requires TotalsFit(Replies(dev, cs))
    ensures Advanced(NO_STATS, TallyOf(Replies(dev, cs)), AccountAll(NO_STATS, dev, cs))
    ensures var t := TallyOf(Replies(dev, cs)); t.submits + t.unlinks == |cs|
  {
    hide TallyOf, Replies, Reply, AccountAll, Advanced;
    TallyComplete(dev, cs);
    StatsTally(NO_STATS, dev, cs);
  }

  // What a reply says

  /** The endpoint has the command's number and direction. */
  predicate Addressed(e: FakeEndpoint, cmd: CmdSubmit) {
    e.address % 0x80 == cmd.ep % 0x10 && (e.address >= 0x80 <==> cmd.direction == 1)
  }

  /** The first endpoint the command addresses has this type. */
  predicate FirstIs(eps: seq<FakeEndpoint>, cmd: CmdSubmit, xferType: XferType) {
    exists i :: 0 <= i < |eps| && Addressed(eps[i], cmd) && eps[i].xferType == xferType
                && forall j | 0 <= j < i :: !Addressed(eps[j], cmd)
  }

  /** Endpoint 0, or a data endpoint of control type. */
  predicate IsControlUrb(dev: FakeDevice, cmd: CmdSubmit) {
    cmd.ep == 0 || FirstIs(dev.endpoints, cmd, ControlXfer)
  }

  /** A standard IN GET_DESCRIPTOR, byte by byte. */
  predicate AsksDescriptor(dev: FakeDevice, cmd: CmdSubmit) {
    IsControlUrb(dev, cmd) && cmd.setup[0] >= 0x80 && cmd.setup[1] == 6
  }

  /** What it asks for: the type is the high byte of wValue. */
  function AskedFor(dev: FakeDevice, cmd: CmdSubmit): bytes {
    if cmd.setup[3] == 1 then dev.deviceDescriptor else if cmd.setup[3] == 2 then dev.configDescriptor else []
  }

  /** wLength, written out. */
  function AskedLength(cmd: CmdSubmit): nat {
    var low: nat, high: nat := cmd.setup[6], cmd.setup[7];
    low + 0x100 * high
  }

  /** Byte i is the low byte of seqnum + i. */
  predicate CountsUp(data: bytes, seqnum: u32) {
    forall i | 0 <= i < |data| :: data[i] == (seqnum + i) % 0x100
  }

  /**
   * Status and data of a reply, from the endpoint table and the bytes of the setup packet. No endpoint: -ENODEV.
   * An isochronous one or an unknown descriptor: -EOPNOTSUPP. Everything else succeeds; a descriptor is cut to
   * wLength, other control INs are empty, bulk and interrupt IN data are the bytes that count up from the seqnum,
   * and OUT transfers report all the bytes they came with.
   */
  predicate Means(dev: FakeDevice, cmd: CmdSubmit, body: bytes, r: RetSubmit, data: bytes) {
    var control, asks, isIn := IsControlUrb(dev, cmd), AsksDescriptor(dev, cmd), cmd.setup[0] >= 0x80;
    && (r.status == -19 <==> cmd.ep != 0 && forall e | e in dev.endpoints :: !Addressed(e, cmd))
    && (r.status == -95 <==>
          (asks && cmd.setup[3] !in {1, 2}) || (cmd.ep != 0 && FirstIs(dev.endpoints, cmd, IsochronousXfer)))
    && (r.status != -19 && r.status != -95 ==> r.status == 0)
    && (r.status == 0 ==>
          if asks then
            var d := AskedFor(dev, cmd);
            r.actualLength == |data| == Min(AskedLength(cmd), |d|) && data <= d
          else if control then data == [] && r.actualLength == if isIn then 0 else |body|
          else if cmd.direction == 1 then
            r.actualLength == |data| == cmd.transferBufferLength && CountsUp(data, cmd.seqnum)
          else data == [] && r.actualLength == |body|)
  }

  lemma ReplyMeaning(dev: FakeDevice, cmd: CmdSubmit, body: bytes)
    requires WellFormed(Submit(cmd, body))
    ensures var reply := Reply(dev, Submit(cmd, body));
            ParseRetSubmit(reply).Ok? && Means(dev, cmd, body, ParseRetSubmit(reply).value, reply[URB_HEADER_LEN..])
  {
    hide Reply, ParseRetSubmit, Means, PeekUrbOp, DispatchSubmit;
    ReplyAnswers(dev, Submit(cmd, body));
    DispatchMeaning(dev, cmd, body);
  }

  lemma DispatchMeaning(dev: FakeDevice, cmd: CmdSubmit, body: bytes)
    requires WellFormed(Submit(cmd, body))
    ensures var res := DispatchSubmit(dev, cmd, body); Means(dev, cmd, body, RetSubmitOf(cmd, res), res.data)
  {
    hide BulkData, FindEndpoint, EpAddress, FirstIs, Addressed, ExecuteControl, ExecuteBulk, CountsUp;
    EndpointTable(dev.endpoints, cmd);
    AddressDirection(cmd.direction, cmd.ep);
    ControlMeaning(dev, cmd, body);
    var ep := FindEndpoint(dev.endpoints, EpAddress(cmd.direction, cmd.ep));
    if ep.Some? {
      BulkMeaning(cmd, ep.value, body);
    }
  }

  lemma ControlMeaning(dev: FakeDevice, cmd: CmdSubmit, body: bytes)
    requires WellFormed(Submit(cmd, body))
    ensures var res := ExecuteControl(dev, cmd, body);
            var asks := cmd.setup[0] >= 0x80 && cmd.setup[1] == 6;
            if asks && cmd.setup[3] !in {1, 2} then res.status == -95
            else if asks then
              var d := AskedFor(dev, cmd);
              res.status == 0 && res.actualLength == |res.data| == Min(AskedLength(cmd), |d|) && res.data <= d
            else res.status == 0 && res.data == [] && res.actualLength == if cmd.setup[0] >= 0x80 then 0 else |body|
  {
    hide WLength, AskedLength;
    WrittenOut(cmd);
  }

  lemma BulkMeaning(cmd: CmdSubmit, ep: FakeEndpoint, body: bytes)
    requires WellFormed(Submit(cmd, body))
    ensures var res := ExecuteBulk(cmd, ep, body);
            && res.status == 0
            && if ep.address >= 0x80 then
                 res.actualLength == |res.data| == cmd.transferBufferLength && CountsUp(res.data, cmd.seqnum)
               else res.data == [] && res.actualLength == |body|
  {
    hide BulkData;
    BulkBytes(cmd.seqnum, cmd.transferBufferLength);
  }

  lemma WrittenOut(cmd: CmdSubmit)
    ensures WLength(cmd.setup) == AskedLength(cmd)
  {
  }

  lemma AddressedAt(e: FakeEndpoint, cmd: CmdSubmit)
    ensures Addressed(e, cmd) <==> e.address == EpAddress(cmd.direction, cmd.ep)
  {
  }

  /** What `FindEndpoint` finds, in terms of the table. */
  lemma EndpointTable(eps: seq<FakeEndpoint>, cmd: CmdSubmit)
    ensures var e := FindEndpoint(eps, EpAddress(cmd.direction, cmd.ep));
            && (e.None? <==> forall f | f in eps :: !Addressed(f, cmd))
            && (forall t: XferType :: FirstIs(eps, cmd, t) <==> e.Some? && e.value.xferType == t)
            && (e.Some? ==> e.value.address == EpAddress(cmd.direction, cmd.ep))
  {
    hide FindEndpoint, EpAddress, Addressed;
    var e := FindEndpoint(eps, EpAddress(cmd.direction, cmd.ep));
    forall f ensures Addressed(f, cmd) <==> f.address == EpAddress(cmd.direction, cmd.ep) {
      AddressedAt(f, cmd);
    }
    if e.Some? {
      var i :| 0 <= i < |eps| && eps[i] == e.value && e.value.address == EpAddress(cmd.direction, cmd.ep)
               && forall j | 0 <= j < i :: eps[j].address != EpAddress(cmd.direction, cmd.ep);
      assert FirstIs(eps, cmd, e.value.xferType);
    }
  }

  lemma BulkBytes(seqnum: u32, len: nat)
    ensures CountsUp(BulkData(seqnum, len), seqnum)
  {
  }

  lemma AddressDirection(direction: u32, ep: u32)
    ensures EpAddress(direction, ep) >= 0x80 <==> direction == URB_DIR_IN
  {
  }

  // Reply body shape

  /** An IN reply carries exactly `actual_length` bytes, within the buffer; any other reply carries none. */
  predicate BodyShape(cmd: CmdSubmit, reply: bytes)
    requires ParseRetSubmit(reply).Ok?
  {
    var r, body := ParseRetSubmit(reply).value, reply[URB_HEADER_LEN..];
    if cmd.direction == URB_DIR_IN then |body| == r.actualLength <= cmd.transferBufferLength else body == []
  }

  /**
   * Exactly one request breaks the shape: a GET_DESCRIPTOR that yields bytes although the header says OUT,
   * or more bytes than the header's buffer holds.
   */
  lemma ReplyBodyShape(dev: FakeDevice, cmd: CmdSubmit, body: bytes)
    requires WellFormed(Submit(cmd, body))
    ensures ParseRetSubmit(Reply(dev, Submit(cmd, body))).Ok?
    ensures BodyShape(cmd, Reply(dev, Submit(cmd, body))) <==>
            (AsksDescriptor(dev, cmd) ==>
               Min(AskedLength(cmd), |AskedFor(dev, cmd)|)
                 <= if cmd.direction == URB_DIR_IN then cmd.transferBufferLength else 0)
  {
    hide Reply, ParseRetSubmit, FirstIs, Addressed, PeekUrbOp;
    ReplyAnswers(dev, Submit(cmd, body));
    ReplyMeaning(dev, cmd, body);
    EndpointTable(dev.endpoints, cmd);
  }

  /** In particular the shape holds whenever header and setup packet agree on direction and length. */
  lemma ReplyBodyShapeAgreeing(dev: FakeDevice, cmd: CmdSubmit, body: bytes)
    requires WellFormed(Submit(cmd, body))
    requires cmd.direction == URB_DIR_IN <==> cmd.setup[0] >= 0x80
    requires AskedLength(cmd) <= cmd.transferBufferLength
    ensures ParseRetSubmit(Reply(dev, Submit(cmd, body))).Ok?
    ensures BodyShape(cmd, Reply(dev, Submit(cmd, body)))
  {
    hide Reply, BodyShape;
    ReplyBodyShape(dev, cmd, body);
  }
}
