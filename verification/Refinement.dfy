/** When the Rust pump is a faithful stand-in for the Kotlin one. */
module Refinement {
  import opened Bytes
  import opened Envelopes
  import opened UrbCodec
  import R = UrbPump
  import K = UsbIpHosts
  import C = CancelledSets

  // The Kotlin pump on a device that behaves like the fake one

  /** What the fake device does with a transfer, seen through `UsbDeviceConnection`; a stall is -1. */
  function FakeTransfer(dev: R.FakeDevice, tag: i32, t: K.Transfer): (c: K.Completion)
    ensures c.n <= |t.buf| == |c.buf|
  {
    match t
    case ControlTransfer(requestType, request, value, _, buf) =>
      if requestType < 0x80 then K.Completion(|buf|, buf)
      else if request != 0x06 then K.Completion(0, buf)
      else if value / 0x100 == 1 then Fill(buf, dev.deviceDescriptor)
      else if value / 0x100 == 2 then Fill(buf, dev.configDescriptor)
      else K.Completion(-1, buf)
    case BulkTransfer(address, buf) =>
      if address >= 0x80 then Fill(buf, R.BulkData(ToU32(tag), |buf|)) else K.Completion(|buf|, buf)
  }

  function Fill(buf: bytes, data: bytes): (c: K.Completion)
    ensures c.n == Min(|buf|, |data|) && |c.buf| == |buf| && c.buf[..c.n] == data[..c.n]
  {
    var n := Min(|buf|, |data|);
    K.Completion(n, data[..n] + buf[n..])
  }

  function AsDevice(dev: R.FakeDevice): (d: K.Device)
    ensures K.Honest(d)
  {
    (k: nat, tag: i32, t: K.Transfer) => FakeTransfer(dev, tag, t)
  }

  /** `UsbIpHost.init`: later endpoints overwrite earlier ones with the same address. */
  function EndpointMap(eps: seq<R.FakeEndpoint>): map<byte, R.XferType> {
    if eps == [] then map[] else map[eps[0].address := eps[0].xferType] + EndpointMap(eps[1..])
  }

  function AsHost(dev: R.FakeDevice, id: u32): K.Host {
    K.Host(ToI32(id), EndpointMap(dev.endpoints))
  }

  /** The type Kotlin knows an address by: that of the last endpoint with it. */
  function LastType(eps: seq<R.FakeEndpoint>, address: byte): Option<R.XferType> {
    if eps == [] then None
    else if eps[|eps| - 1].address == address then Some(eps[|eps| - 1].xferType)
    else LastType(eps[..|eps| - 1], address)
  }

  lemma {:induction false} EndpointMapLast(eps: seq<R.FakeEndpoint>)
    requires eps != []
    ensures var last := eps[|eps| - 1];
            EndpointMap(eps) == EndpointMap(eps[..|eps| - 1])[last.address := last.xferType]
  {
    if |eps| > 1 {
      var rest := eps[1..];
      EndpointMapLast(rest);
      assert rest[..|rest| - 1] == eps[..|eps| - 1][1..];
    }
  }

  lemma {:induction false} LastLookup(eps: seq<R.FakeEndpoint>, a: byte)
    ensures LastType(eps, a) == if a in EndpointMap(eps) then Some(EndpointMap(eps)[a]) else None
  {
    if eps != [] {
      EndpointMapLast(eps);
      LastLookup(eps[..|eps| - 1], a);
    }
  }

  /** Both pumps know the same addresses. */
  lemma {:induction false} SameAddresses(eps: seq<R.FakeEndpoint>, a: byte)
    ensures R.FindEndpoint(eps, a).Some? <==> a in EndpointMap(eps)
  {
    if eps != [] {
      SameAddresses(eps[1..], a);
    }
  }

  // Commands on both sides

  function AsCommand(c: R.Command): K.Command {
    match c
    case Submit(cmd, body) => K.Submit(AsKotlin(cmd), body)
    case Unlink(u) => K.Unlink(AsKotlinUnlink(u))
  }

  /** A packet of one command and nothing after it, small enough for an envelope. */
  predicate Exact(raw: bytes) {
    && R.ReadCommand(raw).Some?
    && |raw| == URB_HEADER_LEN + (match R.ReadCommand(raw).value case Submit(_, body) => |body| case Unlink(_) => 0)
    && 4 + |raw| <= MAX_PAYLOAD
  }

  /** Both pumps read the same command from an exact packet, the Kotlin one without packet boundaries. */
  lemma ReadsAgree(raw: bytes, rest: bytes)
    requires Exact(raw)
    ensures K.ReadCommand(raw + rest) == K.Got(AsCommand(R.ReadCommand(raw).value), rest)
  {
    hide ParseCmdSubmit, ParseCmdUnlink, AsKotlin, AsKotlinUnlink;
    var s, h := raw + rest, raw[..URB_HEADER_LEN];
    assert s[..URB_HEADER_LEN] == h;
    assert s[URB_HEADER_LEN..] == raw[URB_HEADER_LEN..] + rest;
    assert ReadU32(h, 0) == ReadU32(raw, 0);
    CommandDecidesKind(h, PeekUrbOp(raw).value);
    match R.ReadCommand(raw).value
    case Submit(cmd, body) =>
      SameBodyLength(cmd, body);
      assert (raw[URB_HEADER_LEN..] + rest)[..|body|] == body;
      assert (raw[URB_HEADER_LEN..] + rest)[|body|..] == rest;
    case Unlink(_) =>
      assert raw[URB_HEADER_LEN..] + rest == rest;
  }

  lemma SameBodyLength(cmd: CmdSubmit, body: bytes)
    requires R.WellFormed(R.Submit(cmd, body)) && |body| <= MAX_PAYLOAD
    ensures K.BodyLength(AsKotlin(cmd)) == |body|
  {
  }

  /** A reply with its direction and ep words zeroed, as the Kotlin pump leaves them. */
  function Blank(reply: bytes): bytes
    requires |reply| >= URB_HEADER_LEN
  {
    reply[..12] + Zeros(8) + reply[20..]
  }

  lemma BlankBytes(x: bytes, y: bytes, z: bytes)
    requires |x| == 12 && |y| == 8 && |z| >= 28
    ensures Blank(x + y + z) == x + Zeros(8) + z
  {
    assert (x + y + z)[..12] == x && (x + y + z)[20..] == z;
  }

  lemma BlankWords(a: seq<u32>, b: seq<u32>, c: seq<u32>, tail: bytes)
    requires |a| == 3 && |b| == 2 && |c| == 5 && |tail| >= 8
    ensures Blank(Words(a + b + c) + tail) == Words(a + [0, 0] + c) + tail
  {
    hide Words, Zeros, Blank;
    var x, y, z := Words(a), Words(b), Words(c);
    assert Words(a + b + c) == x + y + z by {
      WordsConcat(a + b, c);
      WordsConcat(a, b);
    }
    assert Words(a + [0, 0] + c) == x + Zeros(8) + z by {
      WordsConcat(a + [0, 0], c);
      WordsConcat(a, [0, 0]);
      TwoZeroWords();
    }
    Regroup(x, y, z, tail);
    Regroup(x, Zeros(8), z, tail);
    BlankBytes(x, y, z + tail);
  }

  lemma Regroup(x: bytes, y: bytes, z: bytes, t: bytes)
    ensures x + y + z + t == x + y + (z + t)
  {
  }

  lemma TwoZeroWords()
    ensures Words([0, 0]) == Zeros(8)
  {
    WordsConcat([0], [0]);
    assert [0] + [0] == [0, 0];
    assert Words([0]) == Zeros(4);
  }

  lemma BlankRetSubmit(r: RetSubmit, data: bytes)
    ensures Blank(EncodeRetSubmit(r) + data) == EncodeRetSubmit(r.(direction := 0, ep := 0)) + data
  {
    var a, b := [RET_SUBMIT, r.seqnum, r.devid], [r.direction, r.ep];
    var c := [ToU32(r.status), r.actualLength, r.startFrame, r.numberOfPackets, r.errorCount];
    BlankWords(a, b, c, Zeros(8) + data);
    assert a + b + c == [RET_SUBMIT, r.seqnum, r.devid, r.direction, r.ep, ToU32(r.status), r.actualLength,
                         r.startFrame, r.numberOfPackets, r.errorCount];
    assert a + [0, 0] + c == [RET_SUBMIT, r.seqnum, r.devid, 0, 0, ToU32(r.status), r.actualLength,
                              r.startFrame, r.numberOfPackets, r.errorCount];
    assert EncodeRetSubmit(r) + data == Words(a + b + c) + (Zeros(8) + data);
  }

  lemma BlankRetUnlink(r: RetUnlink)
    ensures Blank(EncodeRetUnlink(r)) == EncodeRetUnlink(r.(direction := 0, ep := 0))
  {
    var a, b, c := [RET_UNLINK, r.seqnum, r.devid], [r.direction, r.ep], [ToU32(r.status), 0, 0, 0, 0];
    BlankWords(a, b, c, Zeros(8));
    assert a + b + c == [RET_UNLINK, r.seqnum, r.devid, r.direction, r.ep, ToU32(r.status), 0, 0, 0, 0];
    assert a + [0, 0] + c == [RET_UNLINK, r.seqnum, r.devid, 0, 0, ToU32(r.status), 0, 0, 0, 0];
  }

  lemma RetSubmitInjective(r1: RetSubmit, d1: bytes, r2: RetSubmit, d2: bytes)
    ensures EncodeRetSubmit(r1) + d1 == EncodeRetSubmit(r2) + d2 <==> r1 == r2 && d1 == d2
  {
    RetSubmitRoundTrip(r1, d1);
    RetSubmitRoundTrip(r2, d2);
    assert (EncodeRetSubmit(r1) + d1)[URB_HEADER_LEN..] == d1;
    assert (EncodeRetSubmit(r2) + d2)[URB_HEADER_LEN..] == d2;
  }

  /** Both pumps answer a command, and the answers differ at most in the direction and ep words. */
  ghost predicate SameReply(dev: R.FakeDevice, id: u32, st: K.State, c: R.Command)
    requires R.WellFormed(c)
  {
    var k := K.Serve(AsHost(dev, id), AsDevice(dev), st, AsCommand(c));
    && Fits(R.UsbipEnvelope(id, R.Reply(dev, c)))
    && k.Served?
    && k.reply == Blank(R.Reply(dev, c))
  }

  // The condition, from the header, the setup packet and the device's endpoint table alone

  /** Control requests of endpoint 0. */
  predicate ControlAgrees(dev: R.FakeDevice, cmd: CmdSubmit) {
    R.SetupIsIn(cmd.setup) ==>
      && cmd.transferBufferLength < 0x8000_0000
      && (R.IsGetDescriptor(cmd.setup) ==>
            && R.Descriptor(dev, cmd.setup).Some?
            && var n := |R.Descriptor(dev, cmd.setup).value|;
               Min(R.WLength(cmd.setup), n) == Min(cmd.transferBufferLength, n))
  }

  /** A control-type data endpoint: Kotlin always refuses, Rust only an unknown descriptor. */
  predicate RefusedControl(dev: R.FakeDevice, cmd: CmdSubmit) {
    R.IsGetDescriptor(cmd.setup) && R.Descriptor(dev, cmd.setup).None?
  }

  predicate BulkFits(cmd: CmdSubmit) {
    cmd.direction == URB_DIR_IN ==> 4 + URB_HEADER_LEN + cmd.transferBufferLength <= MAX_PAYLOAD
  }

  /** An address listed first as control and last as bulk or interrupt: what Rust runs as control, Kotlin moves. */
  predicate ControlLikeBulk(dev: R.FakeDevice, cmd: CmdSubmit, body: bytes) {
    var moved := if cmd.direction == URB_DIR_IN then cmd.transferBufferLength else |body|;
    if R.IsGetDescriptor(cmd.setup) then
      var d := R.Descriptor(dev, cmd.setup);
      && d.Some? && Min(R.WLength(cmd.setup), |d.value|) == moved
      && if cmd.direction == URB_DIR_IN then R.BulkData(cmd.seqnum, moved) <= d.value else moved == 0
    else moved == 0 || (cmd.direction != URB_DIR_IN && !R.SetupIsIn(cmd.setup))
  }

  predicate IsData(xferType: R.XferType) { xferType == R.BulkXfer || xferType == R.InterruptXfer }

  predicate Agrees(dev: R.FakeDevice, c: R.Command) {
    match c
    case Unlink(_) => true
    case Submit(cmd, body) =>
      var address := R.EpAddress(cmd.direction, cmd.ep);
      var first, last := R.FindEndpoint(dev.endpoints, address), LastType(dev.endpoints, address);
      if cmd.IsControl() then ControlAgrees(dev, cmd)
      else if first.None? || last.None? then true
      else if IsData(last.value) then
        if IsData(first.value.xferType) then BulkFits(cmd)
        else first.value.xferType == R.ControlXfer && ControlLikeBulk(dev, cmd, body)
      else
        match first.value.xferType
        case IsochronousXfer => true
        case ControlXfer => RefusedControl(dev, cmd)
        case _ => false
  }

  /** A result that Rust can send and that says the same. */
  predicate Same(res: R.SubmitResult, status: i32, actual: u32, data: bytes) {
    status == res.status && actual == res.actualLength && data == res.data && 4 + URB_HEADER_LEN + |data| <= MAX_PAYLOAD
  }

  lemma KotlinControl(dev: R.FakeDevice, st: K.State, cmd: CmdSubmit, body: bytes)
    returns (crashed: bool, status: i32, data: bytes, actual: i32)
    requires R.WellFormed(R.Submit(cmd, body)) && |body| <= MAX_PAYLOAD
    ensures var v := K.ExecuteControl(AsDevice(dev), st, AsKotlin(cmd), body);
            && (crashed <==> v.Crashed?)
            && (!crashed ==> v.reply == KRetSubmit(ToI32(cmd.seqnum), status, actual, data))
    ensures var res := R.ExecuteControl(dev, cmd, body);
            !crashed && Same(res, status, ToU32(actual), data) <==> ControlAgrees(dev, cmd)
  {
    var k := AsKotlin(cmd);
    if !R.SetupIsIn(cmd.setup) {
      return false, 0, [], |body|;
    }
    if k.transferBufferLength < 0 {
      return true, 0, [], 0;
    }
    var buf := Zeros(k.transferBufferLength);
    var t := K.ControlRequest(k, buf);
    assert t.value / 0x100 == R.DescType(cmd.setup);
    var c := FakeTransfer(dev, k.seqnum, t);
    if c.n < 0 {
      return false, -K.ETIMEDOUT, [], 0;
    }
    crashed := 4 + URB_HEADER_LEN + c.n >= K.INT_LIMIT;
    return crashed, 0, c.buf[..c.n], c.n;
  }

  /** What the Kotlin pump makes of a transfer the fake device carries out as bulk: it crashes, or moves it all. */
  lemma KotlinBulk(dev: R.FakeDevice, st: K.State, cmd: CmdSubmit, body: bytes)
    returns (crashed: bool, status: i32, data: bytes, actual: i32)
    requires R.WellFormed(R.Submit(cmd, body)) && |body| <= MAX_PAYLOAD
    ensures var v := K.ExecuteBulk(AsDevice(dev), st, AsKotlin(cmd), body);
            && (crashed <==> v.Crashed?)
            && (!crashed ==> v.reply == KRetSubmit(ToI32(cmd.seqnum), status, actual, data))
    ensures crashed <==>
            cmd.direction == URB_DIR_IN && 4 + URB_HEADER_LEN + cmd.transferBufferLength >= K.INT_LIMIT
    ensures !crashed ==>
              if cmd.direction == URB_DIR_IN then
                && status == 0 && ToU32(actual) == cmd.transferBufferLength
                && data == R.BulkData(cmd.seqnum, cmd.transferBufferLength)
              else status == 0 && ToU32(actual) == |body| && data == []
  {
    var k := AsKotlin(cmd);
    if cmd.direction != URB_DIR_IN {
      return false, 0, [], |body|;
    }
    if k.transferBufferLength < 0 {
      return true, 0, [], 0;
    }
    var n := k.transferBufferLength;
    crashed := 4 + URB_HEADER_LEN + n >= K.INT_LIMIT;
    return crashed, 0, R.BulkData(cmd.seqnum, n), n;
  }

  /** The transfer moved as bulk, against the Rust pump running it as bulk or as control. */
  lemma MovedAsBulk(dev: R.FakeDevice, cmd: CmdSubmit, body: bytes, ep: R.FakeEndpoint)
    requires R.WellFormed(R.Submit(cmd, body)) && |body| <= MAX_PAYLOAD
    requires ep.address == R.EpAddress(cmd.direction, cmd.ep)
    ensures var isIn, n := cmd.direction == URB_DIR_IN, cmd.transferBufferLength;
            var actual, data := if isIn then n else |body|, if isIn then R.BulkData(cmd.seqnum, n) else [];
            && (Same(R.ExecuteBulk(cmd, ep, body), 0, actual, data) <==> BulkFits(cmd))
            && (Same(R.ExecuteControl(dev, cmd, body), 0, actual, data) <==> ControlLikeBulk(dev, cmd, body))
  {
    hide R.BulkData, R.Descriptor, R.WLength, R.IsGetDescriptor;
    R.AddressDirection(cmd.direction, cmd.ep);
    if R.IsGetDescriptor(cmd.setup) && R.Descriptor(dev, cmd.setup).Some? {
      var d := R.Descriptor(dev, cmd.setup).value;
      var take := Min(R.WLength(cmd.setup), |d|);
      assert |d[..take]| == take;
    }
  }

  lemma RustStatuses(dev: R.FakeDevice, cmd: CmdSubmit, body: bytes, ep: R.FakeEndpoint)
    requires R.WellFormed(R.Submit(cmd, body))
    ensures R.ExecuteBulk(cmd, ep, body).status == 0
    ensures R.ExecuteControl(dev, cmd, body) == R.SubmitResult(R.EOPNOTSUPP, 0, []) <==> RefusedControl(dev, cmd)
  {
  }

  /** The Kotlin reply to an uncancelled submit against the fake device. */
  lemma KotlinReply(dev: R.FakeDevice, id: u32, st: K.State, cmd: CmdSubmit, body: bytes)
    returns (crashed: bool, status: i32, data: bytes, actual: i32)
    requires R.WellFormed(R.Submit(cmd, body)) && |body| <= MAX_PAYLOAD
    requires ToI32(cmd.seqnum) !in st.cancelled
    ensures var v := K.Serve(AsHost(dev, id), AsDevice(dev), st, AsCommand(R.Submit(cmd, body)));
            && (crashed <==> v.Crashed?)
            && (!crashed ==> v.reply == KRetSubmit(ToI32(cmd.seqnum), status, actual, data))
    ensures var res := R.DispatchSubmit(dev, cmd, body);
            !crashed && Same(res, status, ToU32(actual), data) <==> Agrees(dev, R.Submit(cmd, body))
  {
    hide R.ExecuteControl, R.ExecuteBulk, ControlLikeBulk, ControlAgrees, RefusedControl, BulkFits;
    hide K.ExecuteControl, K.ExecuteBulk, FakeTransfer, KRetSubmit;
    var address := R.EpAddress(cmd.direction, cmd.ep);
    LastLookup(dev.endpoints, address);
    SameAddresses(dev.endpoints, address);
    var k := AsKotlin(cmd);
    assert K.EpAddress(k.direction, k.ep) == address;
    var first := R.FindEndpoint(dev.endpoints, address);
    if first.Some? {
      MovedAsBulk(dev, cmd, body, first.value);
      RustStatuses(dev, cmd, body, first.value);
    }
    if cmd.IsControl() {
      crashed, status, data, actual := KotlinControl(dev, st, cmd, body);
    } else {
      var last := LastType(dev.endpoints, address);
      if last.None? {
        return false, -K.ENODEV, [], 0;
      }
      if IsData(last.value) {
        crashed, status, data, actual := KotlinBulk(dev, st, cmd, body);
      } else {
        return false, -K.EOPNOTSUPP, [], 0;
      }
    }
  }

  /** One command: the replies agree iff the condition holds and no unlink is pending for it. */
  lemma CommandAgreement(dev: R.FakeDevice, id: u32, st: K.State, c: R.Command)
    requires R.WellFormed(c) && (c.Submit? ==> |c.body| <= MAX_PAYLOAD)
    ensures SameReply(dev, id, st, c) <==>
            Agrees(dev, c) && (c.Submit? ==> ToI32(c.cmd.seqnum) !in st.cancelled)
  {
    match c
    case Unlink(u) =>
      BlankRetUnlink(R.RetUnlinkOf(u));
    case Submit(cmd, body) =>
      var res := R.DispatchSubmit(dev, cmd, body);
      var r := R.RetSubmitOf(cmd, res);
      BlankRetSubmit(r, res.data);
      var seqnum := ToI32(cmd.seqnum);
      if seqnum in st.cancelled {
        RetSubmitInjective(r.(direction := 0, ep := 0), res.data,
                           RetSubmit(ToU32(seqnum), 0, 0, 0, -K.ECONNRESET, 0, 0, 0, 0), []);
      } else {
        var crashed, status, data, actual := KotlinReply(dev, id, st, cmd, body);
        RetSubmitInjective(r.(direction := 0, ep := 0), res.data,
                           RetSubmit(ToU32(seqnum), 0, 0, 0, status, ToU32(actual), 0, 0, 0), data);
      }
  }

  // Whole runs

  predicate AllExact(packets: seq<bytes>) {
    forall i | 0 <= i < |packets| :: Exact(packets[i])
  }

  function Concat(packets: seq<bytes>): bytes {
    if packets == [] then [] else packets[0] + Concat(packets[1..])
  }

  function KCommandsOf(packets: seq<bytes>): (cs: seq<K.Command>)
    requires AllExact(packets)
    ensures |cs| == |packets|
  {
    seq(|packets|, i requires 0 <= i < |packets| => AsCommand(R.ReadCommand(packets[i]).value))
  }

  /** Both runs serve everything, and the i-th replies differ at most in direction and ep. */
  predicate SameRun(rust: R.PumpOutcome, kotlin: K.Outcome) {
    && rust.finished.Some? && kotlin.end == K.Ran(K.NoHeader)
    && |rust.replies| == |kotlin.replies|
    && forall i | 0 <= i < |rust.replies| ::
         |rust.replies[i]| >= URB_HEADER_LEN && kotlin.replies[i] == Blank(rust.replies[i])
  }

  /** The Rust run on packets and the Kotlin run on their concatenation, from states in the middle of a run. */
  ghost predicate SameRuns(dev: R.FakeDevice, id: u32, rst: R.PumpStats, kst: K.State, packets: seq<bytes>) {
    SameRun(R.RunPackets(Payloads(id, packets), id, dev, rst),
            K.Run(AsHost(dev, id), AsDevice(dev), kst, Concat(packets)))
  }

  function Payloads(id: u32, packets: seq<bytes>): (ps: seq<bytes>)
    ensures |ps| == |packets|
  {
    seq(|packets|, i requires 0 <= i < |packets| => EncodeUsbip(UsbipFrame(id, packets[i])))
  }

  lemma SameRunCons(a: R.PumpOutcome, b: K.Outcome, x: bytes, y: bytes)
    requires |x| >= URB_HEADER_LEN
    ensures SameRun(a.(replies := [x] + a.replies), b.(replies := [y] + b.replies)) <==> y == Blank(x) && SameRun(a, b)
  {
    var a1, b1 := a.(replies := [x] + a.replies), b.(replies := [y] + b.replies);
    if SameRun(a1, b1) {
      assert a1.replies[0] == x && b1.replies[0] == y;
      forall i | 0 <= i < |a.replies|
        ensures |a.replies[i]| >= URB_HEADER_LEN && b.replies[i] == Blank(a.replies[i])
      {
        assert a1.replies[i + 1] == a.replies[i] && b1.replies[i + 1] == b.replies[i];
      }
    }
  }

  /** The first packet of two runs. */
  lemma RunsStep(dev: R.FakeDevice, id: u32, rst: R.PumpStats, kst: K.State, packets: seq<bytes>)
    requires AllExact(packets) && packets != []
    ensures var c := R.ReadCommand(packets[0]).value;
            var k := K.Serve(AsHost(dev, id), AsDevice(dev), kst, AsCommand(c));
            && R.WellFormed(c) && (c.Submit? ==> |c.body| <= MAX_PAYLOAD)
            && (SameRuns(dev, id, rst, kst, packets) <==>
                  SameReply(dev, id, kst, c) && SameRuns(dev, id, R.Account(rst, dev, c), k.st, packets[1..]))
  {
    hide K.Serve, R.DispatchSubmit, K.ReadCommand, R.ReadCommand, Blank;
    var c := R.ReadCommand(packets[0]).value;
    var k := K.Serve(AsHost(dev, id), AsDevice(dev), kst, AsCommand(c));
    var ps := Payloads(id, packets);
    assert ps[1..] == Payloads(id, packets[1..]);
    UsbipRoundTrip(UsbipFrame(id, packets[0]), []);
    ReadsAgree(packets[0], Concat(packets[1..]));
    var a := R.RunPackets(ps[1..], id, dev, R.Account(rst, dev, c));
    if k.Served? && R.Accept(id, dev, ps[0]).Some? {
      var b := K.Run(AsHost(dev, id), AsDevice(dev), k.st, Concat(packets[1..]));
      SameRunCons(a, b, R.Reply(dev, c), k.reply);
    }
  }

  /** A submit meets a pending unlink, in a run that starts with the set `cancelled`. */
  predicate MeetsUnlink(cancelled: set<i32>, cs: seq<K.Command>, i: nat)
    requires i < |cs|
  {
    cs[i].Submit? && C.Held(cancelled, cs[..i], cs[i].cmd.seqnum)
  }

  ghost predicate RunAgrees(dev: R.FakeDevice, cancelled: set<i32>, packets: seq<bytes>)
    requires AllExact(packets)
  {
    forall i | 0 <= i < |packets| ::
      Agrees(dev, R.ReadCommand(packets[i]).value) && !MeetsUnlink(cancelled, KCommandsOf(packets), i)
  }

  lemma RunAgreesCons(dev: R.FakeDevice, cancelled: set<i32>, packets: seq<bytes>)
    requires AllExact(packets) && packets != []
    ensures var c := R.ReadCommand(packets[0]).value;
            RunAgrees(dev, cancelled, packets) <==>
              && Agrees(dev, c) && (c.Submit? ==> ToI32(c.cmd.seqnum) !in cancelled)
              && RunAgrees(dev, C.After(cancelled, AsCommand(c)), packets[1..])
  {
    hide Agrees, C.Held, R.ReadCommand;
    var cs, rest := KCommandsOf(packets), KCommandsOf(packets[1..]);
    assert cs == [cs[0]] + rest;
    forall i: nat | i < |rest|
      ensures MeetsUnlink(cancelled, cs, i + 1) <==> MeetsUnlink(C.After(cancelled, cs[0]), rest, i)
    {
      if rest[i].Submit? {
        C.HeldCons(cancelled, cs[0], rest[..i], rest[i].cmd.seqnum);
        assert cs[..i + 1] == [cs[0]] + rest[..i];
      }
    }
    NothingBefore(cancelled, cs);
    if RunAgrees(dev, cancelled, packets) {
      forall i | 0 <= i < |packets[1..]|
        ensures Agrees(dev, R.ReadCommand(packets[1..][i]).value)
        ensures !MeetsUnlink(C.After(cancelled, cs[0]), rest, i)
      {
        assert packets[1..][i] == packets[i + 1];
      }
    }
    if RunAgrees(dev, C.After(cancelled, cs[0]), packets[1..]) && Agrees(dev, R.ReadCommand(packets[0]).value)
       && !MeetsUnlink(cancelled, cs, 0)
    {
      forall i | 0 <= i < |packets|
        ensures Agrees(dev, R.ReadCommand(packets[i]).value)
        ensures !MeetsUnlink(cancelled, cs, i)
      {
        if i > 0 {
          assert packets[i] == packets[1..][i - 1];
          assert !MeetsUnlink(C.After(cancelled, cs[0]), rest, i - 1);
          assert MeetsUnlink(cancelled, cs, i - 1 + 1) <==> MeetsUnlink(C.After(cancelled, cs[0]), rest, i - 1);
        }
      }
    }
  }

  lemma NothingBefore(cancelled: set<i32>, cs: seq<K.Command>)
    requires cs != []
    ensures MeetsUnlink(cancelled, cs, 0) <==> cs[0].Submit? && cs[0].cmd.seqnum in cancelled
  {
  }

  lemma {:induction false} RunsAgreement(
    dev: R.FakeDevice, id: u32, rst: R.PumpStats, kst: K.State, packets: seq<bytes>)
    requires AllExact(packets)
    ensures SameRuns(dev, id, rst, kst, packets) <==> RunAgrees(dev, kst.cancelled, packets)
    decreases |packets|
  {
    hide Agrees, SameRun, K.Serve, R.ReadCommand, C.Held;
    if packets == [] {
      NoPackets(dev, id, rst, kst);
    } else {
      var c := R.ReadCommand(packets[0]).value;
      var k := K.Serve(AsHost(dev, id), AsDevice(dev), kst, AsCommand(c));
      RunsStep(dev, id, rst, kst, packets);
      CommandAgreement(dev, id, kst, c);
      RunAgreesCons(dev, kst.cancelled, packets);
      if k.Served? {
        C.ServeCancelled(AsHost(dev, id), AsDevice(dev), kst, AsCommand(c));
        RunsAgreement(dev, id, R.Account(rst, dev, c), k.st, packets[1..]);
      }
    }
  }

  lemma NoPackets(dev: R.FakeDevice, id: u32, rst: R.PumpStats, kst: K.State)
    ensures SameRuns(dev, id, rst, kst, [])
  {
  }

  /** The packets in envelopes, as the receiver sends them. */
  function Enveloped(id: u32, packets: seq<bytes>): (s: bytes)
    requires AllExact(packets)
  {
    FrameAll(R.UsbipEnvelopes(id, packets))
  }

  lemma {:induction false} PacketsOfUsbip(id: u32, packets: seq<bytes>)
    ensures R.Packets(R.UsbipEnvelopes(id, packets)) == Payloads(id, packets)
  {
    var es := R.UsbipEnvelopes(id, packets);
    if packets != [] {
      assert es[1..] == R.UsbipEnvelopes(id, packets[1..]);
      PacketsOfUsbip(id, packets[1..]);
      assert Payloads(id, packets) == [Payloads(id, packets)[0]] + Payloads(id, packets[1..]);
    }
  }

  lemma EnvelopedPackets(id: u32, packets: seq<bytes>)
    requires AllExact(packets)
    ensures R.Packets(DecodeAll(Enveloped(id, packets))) == Payloads(id, packets)
  {
    var es := R.UsbipEnvelopes(id, packets);
    DecodeFrames(es, []);
    assert FrameAll(es) + [] == FrameAll(es) && es + DecodeAll([]) == es;
    PacketsOfUsbip(id, packets);
  }

  /**
   * Fixture refinement. Feed the same exact packets to both new pumps, the Rust one in envelopes and the Kotlin
   * one as the raw stream, over the same fake device. They produce the same replies up to the direction and ep
   * words if and only if every packet satisfies `Agrees` and no submit meets a pending unlink.
   */
  lemma FixtureRefinement(dev: R.FakeDevice, id: u32, packets: seq<bytes>)
    requires AllExact(packets)
    ensures SameRun(R.RunPump(Enveloped(id, packets), id, dev, R.NO_STATS),
                    K.Run(AsHost(dev, id), AsDevice(dev), K.State({}, 0), Concat(packets)))
            <==> RunAgrees(dev, {}, packets)
  {
    hide Agrees, SameRun, R.RunPackets, R.RunPump, K.Run;
    EnvelopedPackets(id, packets);
    R.RunPumpIsRunPackets(Enveloped(id, packets), id, dev, R.NO_STATS);
    RunsAgreement(dev, id, R.NO_STATS, K.State({}, 0), packets);
  }

  // When the bytes are the same

  /** The direction and ep words of a command are both zero. */
  predicate Bare(c: R.Command) {
    match c
    case Submit(cmd, _) => cmd.direction == 0 && cmd.ep == 0
    case Unlink(u) => u.direction == 0 && u.ep == 0
  }

  /** A reply of the Rust pump is its own blanked form iff the command it echoes is bare. */
  lemma BareReply(dev: R.FakeDevice, c: R.Command)
    requires R.WellFormed(c)
    ensures |R.Reply(dev, c)| >= URB_HEADER_LEN
    ensures Blank(R.Reply(dev, c)) == R.Reply(dev, c) <==> Bare(c)
  {
    hide R.DispatchSubmit, EncodeRetSubmit, EncodeRetUnlink, Blank;
    match c
    case Submit(cmd, body) =>
      var res := R.DispatchSubmit(dev, cmd, body);
      var r := R.RetSubmitOf(cmd, res);
      ReplyLength(r, res.data);
      BlankRetSubmit(r, res.data);
      RetSubmitInjective(r, res.data, r.(direction := 0, ep := 0), res.data);
    case Unlink(u) =>
      var r := R.RetUnlinkOf(u);
      UnlinkReplyLength(r);
      BlankRetUnlink(r);
      RetUnlinkInjective(r, r.(direction := 0, ep := 0));
  }

  lemma ReplyLength(r: RetSubmit, data: bytes)
    ensures |EncodeRetSubmit(r) + data| == URB_HEADER_LEN + |data|
  {
  }

  lemma UnlinkReplyLength(r: RetUnlink)
    ensures |EncodeRetUnlink(r)| == URB_HEADER_LEN
  {
  }

  lemma RetUnlinkInjective(r: RetUnlink, q: RetUnlink)
    ensures EncodeRetUnlink(r) == EncodeRetUnlink(q) <==> r == q
  {
    hide EncodeRetUnlink, ParseRetUnlink;
    RetUnlinkRoundTrip(r, []);
    RetUnlinkRoundTrip(q, []);
    assert EncodeRetUnlink(r) + [] == EncodeRetUnlink(r) && EncodeRetUnlink(q) + [] == EncodeRetUnlink(q);
  }

  /** Every reply of the Kotlin pump, on any device, is its own blanked form. */
  predicate IsBlank(reply: bytes) {
    |reply| >= URB_HEADER_LEN && Blank(reply) == reply
  }

  lemma KotlinIsBlank(host: K.Host, dev: K.Device, st: K.State, c: K.Command)
    requires K.Honest(dev) && K.Serve(host, dev, st, c).Served?
    ensures IsBlank(K.Serve(host, dev, st, c).reply)
  {
    hide EncodeRetSubmit, EncodeRetUnlink, Blank;
    match c
    case Submit(cmd, body) =>
      hide K.Serve;
      var status, actual, data := K.ServedAs(host, dev, st, cmd, body);
      var r := RetSubmit(ToU32(cmd.seqnum), 0, 0, 0, status, ToU32(actual), 0, 0, 0);
      ReplyLength(r, data);
      BlankRetSubmit(r, data);
    case Unlink(u) =>
      var r := RetUnlink(ToU32(u.seqnum), 0, 0, 0, 0);
      UnlinkReplyLength(r);
      BlankRetUnlink(r);
  }

  /** Both pumps answer a command with the same bytes. */
  ghost predicate IdenticalReply(dev: R.FakeDevice, id: u32, st: K.State, c: R.Command)
    requires R.WellFormed(c)
  {
    var k := K.Serve(AsHost(dev, id), AsDevice(dev), st, AsCommand(c));
    Fits(R.UsbipEnvelope(id, R.Reply(dev, c))) && k.Served? && k.reply == R.Reply(dev, c)
  }

  /** The bytes are the same iff the replies agree up to the two words and the command carries zeros there. */
  lemma CommandIdentity(dev: R.FakeDevice, id: u32, st: K.State, c: R.Command)
    requires R.WellFormed(c)
    ensures IdenticalReply(dev, id, st, c) <==> SameReply(dev, id, st, c) && Bare(c)
  {
    hide K.Serve, R.Reply, Blank, Bare;
    BareReply(dev, c);
    if K.Serve(AsHost(dev, id), AsDevice(dev), st, AsCommand(c)).Served? {
      KotlinIsBlank(AsHost(dev, id), AsDevice(dev), st, AsCommand(c));
    }
  }

  /** No IN submit, and no submit to a data endpoint, is ever answered with the same bytes. */
  lemma DataRepliesDiffer(dev: R.FakeDevice, id: u32, st: K.State, cmd: CmdSubmit, body: bytes)
    requires R.WellFormed(R.Submit(cmd, body)) && (cmd.direction == URB_DIR_IN || cmd.ep != 0)
    ensures !IdenticalReply(dev, id, st, R.Submit(cmd, body))
  {
    hide SameReply, IdenticalReply;
    CommandIdentity(dev, id, st, R.Submit(cmd, body));
  }

  lemma {:induction false} KotlinRunBlank(
    host: K.Host, dev: K.Device, st: K.State, cs: seq<K.Command>, why: K.Input)
    requires K.Honest(dev)
    ensures forall i | 0 <= i < |K.RunCommands(host, dev, st, cs, why).replies| ::
              IsBlank(K.RunCommands(host, dev, st, cs, why).replies[i])
    decreases |cs|
  {
    hide K.Serve, IsBlank;
    if cs != [] && K.Serve(host, dev, st, cs[0]).Served? {
      KotlinIsBlank(host, dev, st, cs[0]);
      KotlinRunBlank(host, dev, K.Serve(host, dev, st, cs[0]).st, cs[1..], why);
    }
  }

  /** Both runs serve everything and write the same bytes. */
  predicate SameBytes(id: u32, rust: R.PumpOutcome, kotlin: K.Outcome)
    requires AllFit(R.UsbipEnvelopes(id, rust.replies)) && K.Sendable(kotlin.replies)
  {
    && rust.finished.Some? && kotlin.end == K.Ran(K.NoHeader)
    && K.Wire(id, kotlin.replies) == FrameAll(R.UsbipEnvelopes(id, rust.replies))
  }

  lemma SameBytesIff(id: u32, rust: R.PumpOutcome, kotlin: K.Outcome)
    requires AllFit(R.UsbipEnvelopes(id, rust.replies)) && K.Sendable(kotlin.replies)
    requires forall i | 0 <= i < |kotlin.replies| :: IsBlank(kotlin.replies[i])
    ensures SameBytes(id, rust, kotlin) <==>
            SameRun(rust, kotlin) && forall i | 0 <= i < |rust.replies| :: Blank(rust.replies[i]) == rust.replies[i]
  {
    hide K.Wire, K.Sendable, FrameAll, Blank;
    K.WireIsFrames(id, rust.replies);
    if SameBytes(id, rust, kotlin) {
      K.WireInjective(id, kotlin.replies, rust.replies);
    }
    if SameRun(rust, kotlin) && forall i | 0 <= i < |rust.replies| :: Blank(rust.replies[i]) == rust.replies[i] {
      assert kotlin.replies == rust.replies;
    }
  }

  /** The replies of a finished Rust run on exact packets. */
  lemma RustReplies(dev: R.FakeDevice, id: u32, packets: seq<bytes>)
    requires AllExact(packets)
    ensures var o := R.RunPump(Enveloped(id, packets), id, dev, R.NO_STATS);
            o.finished.Some? ==>
              && |o.replies| == |packets|
              && forall i | 0 <= i < |packets| ::
                   var c := R.ReadCommand(packets[i]).value;
                   && R.WellFormed(c) && o.replies[i] == R.Reply(dev, c)
                   && |o.replies[i]| >= URB_HEADER_LEN && (Blank(o.replies[i]) == o.replies[i] <==> Bare(c))
  {
    hide R.RunPump, R.Reply, R.ReadCommand, DecodeAll, FrameAll, Blank, Bare;
    EnvelopedPackets(id, packets);
    R.RunServesPackets(Enveloped(id, packets), id, dev, R.NO_STATS);
    forall i | 0 <= i < |packets| ensures ParseUsbip(Payloads(id, packets)[i]) == Some(UsbipFrame(id, packets[i])) {
      UsbipRoundTrip(UsbipFrame(id, packets[i]), []);
    }
    forall i | 0 <= i < |packets| {
      BareReply(dev, R.ReadCommand(packets[i]).value);
    }
  }

  /**
   * When the wire formats are bit-identical: on the packets of `FixtureRefinement`, the two pumps write the same
   * bytes iff, besides, every command carries zeros in its direction and ep words.
   */
  lemma FixtureIdentity(dev: R.FakeDevice, id: u32, packets: seq<bytes>)
    requires AllExact(packets)
    ensures var rust := R.RunPump(Enveloped(id, packets), id, dev, R.NO_STATS);
            var kotlin := K.Run(AsHost(dev, id), AsDevice(dev), K.State({}, 0), Concat(packets));
            && K.Sendable(kotlin.replies)
            && (SameBytes(id, rust, kotlin) <==>
                  && RunAgrees(dev, {}, packets)
                  && forall i | 0 <= i < |packets| :: Bare(R.ReadCommand(packets[i]).value))
  {
    hide *;
    var rust := R.RunPump(Enveloped(id, packets), id, dev, R.NO_STATS);
    var kotlin := K.Run(AsHost(dev, id), AsDevice(dev), K.State({}, 0), Concat(packets));
    KotlinReplyShape(AsHost(dev, id), AsDevice(dev), K.State({}, 0), Concat(packets));
    SameBytesIff(id, rust, kotlin);
    FixtureRefinement(dev, id, packets);
    RustReplies(dev, id, packets);
    if SameRun(rust, kotlin) {
      Finished(rust, kotlin);
    }
  }

  lemma Finished(rust: R.PumpOutcome, kotlin: K.Outcome)
    requires SameRun(rust, kotlin)
    ensures rust.finished.Some?
  {
  }

  lemma KotlinReplyShape(host: K.Host, dev: K.Device, st: K.State, s: bytes)
    requires K.Honest(dev)
    ensures var replies := K.Run(host, dev, st, s).replies;
            K.Sendable(replies) && forall i | 0 <= i < |replies| :: IsBlank(replies[i])
  {
    hide *;
    K.RunIsRunCommands(host, dev, st, s);
    K.RunAnswers(host, dev, st, K.Commands(s), K.StreamEnd(s));
    KotlinRunBlank(host, dev, st, K.Commands(s), K.StreamEnd(s));
  }
}
