/** The Kotlin URB pump: the same protocol over a USB device that may answer anything, plus a cancelled set. */
module UsbIpHosts {
  import opened Bytes
  import opened Streams
  import opened Envelopes
  import opened UrbCodec
  import UrbPump

  const ENODEV: i32 := 19
  const EOPNOTSUPP: i32 := 95
  const ECONNRESET: i32 := 104
  const ETIMEDOUT: i32 := 110
  const INT_LIMIT: nat := 0x8000_0000

  // `UsbDeviceConnection`

  datatype Transfer =
    | ControlTransfer(requestType: byte, request: byte, value: u16, index: u16, buf: bytes)
    | BulkTransfer(address: byte, buf: bytes)

  /** Result of a transfer: bytes moved (negative: failed or threw) and the buffer afterwards. */
  datatype Completion = Completion(n: int, buf: bytes)

  /** A device, fixed in advance but otherwise arbitrary: its answer to the k-th transfer, made for URB `tag`. */
  type Device = (nat, i32, Transfer) -> Completion

  ghost predicate Honest(dev: Device) {
    forall k, tag, t :: dev(k, tag, t).n <= |t.buf| == |dev(k, tag, t).buf|
  }

  datatype Host = Host(importId: i32, endpoints: map<byte, UrbPump.XferType>)

  datatype State = State(cancelled: set<i32>, transfers: nat)

  datatype Command = Submit(cmd: KCmdSubmit, body: bytes) | Unlink(unlink: KCmdUnlink)

  /** `Crashed` is an unchecked exception that leaves `pumpUrbs`: a negative array size. */
  datatype Served = Crashed | Served(st: State, reply: bytes)

  function Finish(st: State, seqnum: i32, status: i32, actualLength: nat, data: bytes): Served {
    if 4 + URB_HEADER_LEN + |data| >= INT_LIMIT || actualLength >= INT_LIMIT then Crashed
    else Served(st, KRetSubmit(seqnum, status, actualLength, data))
  }

  function ControlRequest(cmd: KCmdSubmit, buf: bytes): Transfer {
    var s := cmd.setup;
    ControlTransfer(s[0], s[1], FromBe16(s[3], s[2]), FromBe16(s[5], s[4]), buf)
  }

  /** Report a completed transfer: only IN data goes back. */
  function Complete(st: State, seqnum: i32, isIn: bool, c: Completion): Served
    requires c.n <= |c.buf|
  {
    var st1 := st.(transfers := st.transfers + 1);
    if c.n < 0 then Finish(st1, seqnum, -ETIMEDOUT, 0, [])
    else Finish(st1, seqnum, 0, c.n, if isIn then c.buf[..c.n] else [])
  }

  function ExecuteControl(dev: Device, st: State, cmd: KCmdSubmit, body: bytes): Served
    requires Honest(dev)
  {
    var isIn := cmd.setup[0] >= 0x80;
    if isIn && cmd.transferBufferLength < 0 then Crashed
    else
      var buf := if isIn then Zeros(cmd.transferBufferLength) else body;
      Complete(st, cmd.seqnum, isIn, dev(st.transfers, cmd.seqnum, ControlRequest(cmd, buf)))
  }

  function EpAddress(direction: i32, ep: i32): byte {
    (if direction == 1 then 0x80 else 0x00) + ToU32(ep) % 0x10
  }

  function ExecuteBulk(dev: Device, st: State, cmd: KCmdSubmit, body: bytes): Served
    requires Honest(dev)
  {
    var isIn := cmd.direction == 1;
    if isIn && cmd.transferBufferLength < 0 then Crashed
    else
      var buf := if isIn then Zeros(cmd.transferBufferLength) else body;
      Complete(st, cmd.seqnum, isIn, dev(st.transfers, cmd.seqnum, BulkTransfer(EpAddress(cmd.direction, cmd.ep), buf)))
  }

  /** `handleSubmit` and `handleUnlink`. */
  function Serve(host: Host, dev: Device, st: State, c: Command): Served
    requires Honest(dev)
  {
    match c
    case Unlink(u) => Served(st.(cancelled := st.cancelled + {u.unlinkSeqnum}), KRetUnlink(u.seqnum, 0))
    case Submit(cmd, body) =>
      if cmd.seqnum in st.cancelled then
        Finish(st.(cancelled := st.cancelled - {cmd.seqnum}), cmd.seqnum, -ECONNRESET, 0, [])
      else if cmd.ep == 0 then ExecuteControl(dev, st, cmd, body)
      else
        var address := EpAddress(cmd.direction, cmd.ep);
        if address !in host.endpoints then Finish(st, cmd.seqnum, -ENODEV, 0, [])
        else if host.endpoints[address] == UrbPump.BulkXfer || host.endpoints[address] == UrbPump.InterruptXfer then
          ExecuteBulk(dev, st, cmd, body)
        else Finish(st, cmd.seqnum, -EOPNOTSUPP, 0, [])
  }

  // What a reply says

  predicate IsIn(cmd: KCmdSubmit) {
    if cmd.ep == 0 then cmd.setup[0] >= 0x80 else cmd.direction == 1
  }

  predicate HasData(host: Host, cmd: KCmdSubmit) {
    var address := EpAddress(cmd.direction, cmd.ep);
    address in host.endpoints && host.endpoints[address] in {UrbPump.BulkXfer, UrbPump.InterruptXfer}
  }

  /** Two bytes of a setup packet, low one first (section 9.3 of USB 2.0). */
  function Field(s: Setup, i: nat): u16
    requires i < 7
  {
    var low: u16, high: u16 := s[i], s[i + 1];
    low + 0x100 * high
  }

  lemma Fields(s: Setup)
    ensures FromBe16(s[3], s[2]) == Field(s, 2) && FromBe16(s[5], s[4]) == Field(s, 4)
  {
  }

  /** The one transfer a submit leads to: an IN buffer of the announced length, or the OUT body. */
  function TransferOf(cmd: KCmdSubmit, body: bytes): Transfer {
    var s := cmd.setup;
    var buf := if !IsIn(cmd) then body
               else if cmd.transferBufferLength < 0 then [] else Zeros(cmd.transferBufferLength);
    if cmd.ep == 0 then ControlTransfer(s[0], s[1], Field(s, 2), Field(s, 4), buf)
    else BulkTransfer((if cmd.direction == 1 then 0x80 else 0) + ToU32(cmd.ep) % 0x10, buf)
  }

  /** The request reaches the device as it was put into the setup packet. */
  lemma RequestReachesDevice(
    cmd: KCmdSubmit, body: bytes, requestType: byte, request: byte, value: u16, index: u16, length: u16)
    requires cmd.ep == 0 && cmd.setup == SetupOf(requestType, request, value, index, length)
    ensures IsIn(cmd) <==> requestType >= 0x80
    ensures TransferOf(cmd, body).ControlTransfer?
    ensures var t := TransferOf(cmd, body);
            && t == ControlTransfer(requestType, request, value, index, t.buf)
            && ControlRequest(cmd, t.buf) == t
            && |t.buf| == if !IsIn(cmd) then |body|
                          else if cmd.transferBufferLength < 0 then 0 else cmd.transferBufferLength
  {
  }

  /** The reply to a submit, in the terms it was encoded from. */
  lemma ServedAs(host: Host, dev: Device, st: State, cmd: KCmdSubmit, body: bytes)
    returns (status: i32, actual: i32, data: bytes)
    requires Honest(dev) && Serve(host, dev, st, Submit(cmd, body)).Served?
    ensures var v := Serve(host, dev, st, Submit(cmd, body));
            && v.reply == KRetSubmit(cmd.seqnum, status, actual, data)
            && v.st.cancelled == st.cancelled - {cmd.seqnum}
            && Means(host, dev, st, cmd, body, status, actual, data)
            && v.st.transfers == st.transfers + if Transfers(host, st, cmd) then 1 else 0
  {
    hide KRetSubmit, Zeros, FromBe16;
    Fields(cmd.setup);
    if cmd.seqnum in st.cancelled {
      return -ECONNRESET, 0, [];
    }
    if cmd.ep != 0 && EpAddress(cmd.direction, cmd.ep) !in host.endpoints {
      return -ENODEV, 0, [];
    }
    if cmd.ep != 0 && !HasData(host, cmd) {
      return -EOPNOTSUPP, 0, [];
    }
    var c := dev(st.transfers, cmd.seqnum, TransferOf(cmd, body));
    if c.n < 0 {
      return -ETIMEDOUT, 0, [];
    }
    return 0, c.n, if IsIn(cmd) then c.buf[..c.n] else [];
  }

  /** A submit reaches the device: not cancelled, and control or a bulk or interrupt endpoint. */
  predicate Transfers(host: Host, st: State, cmd: KCmdSubmit) {
    cmd.seqnum !in st.cancelled && (cmd.ep == 0 || HasData(host, cmd))
  }

  /**
   * Status and data of a reply: -ECONNRESET for a cancelled number; -ENODEV without an endpoint and -EOPNOTSUPP
   * for one of another type; -ETIMEDOUT when the transfer fails; otherwise what the device moved, IN data with it.
   */
  ghost predicate Means(
    host: Host, dev: Device, st: State, cmd: KCmdSubmit, body: bytes, status: i32, actual: i32, data: bytes)
    requires Honest(dev)
  {
    var c := dev(st.transfers, cmd.seqnum, TransferOf(cmd, body));
    && (status == -104 <==> cmd.seqnum in st.cancelled)
    && (status == -19 <==>
          cmd.seqnum !in st.cancelled && cmd.ep != 0 && EpAddress(cmd.direction, cmd.ep) !in host.endpoints)
    && (status == -95 <==>
          && cmd.seqnum !in st.cancelled && cmd.ep != 0 && EpAddress(cmd.direction, cmd.ep) in host.endpoints
          && !HasData(host, cmd))
    && (status == -110 <==> Transfers(host, st, cmd) && c.n < 0)
    && (status == 0 <==> Transfers(host, st, cmd) && c.n >= 0)
    && (if status != 0 then actual == 0 && data == []
        else actual == c.n && data == if IsIn(cmd) then c.buf[..c.n] else [])
  }

  /** On the wire, a reply to a submit echoes the seqnum, leaves direction and ep zero, and says what `Means` says. */
  lemma ReplyMeaning(host: Host, dev: Device, st: State, cmd: KCmdSubmit, body: bytes)
    requires Honest(dev) && Serve(host, dev, st, Submit(cmd, body)).Served?
    ensures var reply := Serve(host, dev, st, Submit(cmd, body)).reply;
            && ParsesOnlyAs(reply, OpRetSubmit)
            && var r := ParseRetSubmit(reply).value;
               && r.seqnum == ToU32(cmd.seqnum) && r.direction == 0 && r.ep == 0
               && r.devid == 0 && r.startFrame == 0 && r.numberOfPackets == 0 && r.errorCount == 0
               && Means(host, dev, st, cmd, body, r.status, ToI32(r.actualLength), reply[URB_HEADER_LEN..])
  {
    hide Serve, Means, ParseRetSubmit, PeekUrbOp;
    var status, actual, data := ServedAs(host, dev, st, cmd, body);
    var ret := RetSubmit(ToU32(cmd.seqnum), 0, 0, 0, status, ToU32(actual), 0, 0, 0);
    RetSubmitRoundTrip(ret, data);
    SignedWord(actual);
    assert (EncodeRetSubmit(ret) + data)[URB_HEADER_LEN..] == data;
  }

  /** When a submit ends the pump: an IN buffer of negative size, or a reply too big for an array. */
  lemma CrashExact(host: Host, dev: Device, st: State, c: Command)
    requires Honest(dev)
    ensures Serve(host, dev, st, c).Crashed? <==>
            && c.Submit? && Transfers(host, st, c.cmd)
            && var n := dev(st.transfers, c.cmd.seqnum, TransferOf(c.cmd, c.body)).n;
               if IsIn(c.cmd) then c.cmd.transferBufferLength < 0 || n >= 0x8000_0000 - 52 else n >= 0x8000_0000
  {
    hide KRetSubmit, KRetUnlink;
  }

  // Reading commands off the stream: no packet boundaries, only headers and announced bodies.

  datatype Input = NoHeader | BadCommand | NoBody | Got(c: Command, rest: bytes)

  function BodyLength(cmd: KCmdSubmit): nat {
    if cmd.direction == 0 && cmd.transferBufferLength > 0 then cmd.transferBufferLength else 0
  }

  function ReadCommand(s: bytes): (r: Input)
    ensures r.Got? ==> |r.rest| < |s|
  {
    if |s| < URB_HEADER_LEN then NoHeader
    else
      var header, after := s[..URB_HEADER_LEN], s[URB_HEADER_LEN..];
      match ReadU32(header, 0)
      case 1 =>
        var cmd := AsKotlin(ParseCmdSubmit(header).value);
        var n := BodyLength(cmd);
        if |after| < n then NoBody else Got(Submit(cmd, after[..n]), after[n..])
      case 2 => Got(Unlink(AsKotlinUnlink(ParseCmdUnlink(header).value)), after)
      case _ => BadCommand
  }

  /** What the next command on the stream is, word by word, and how much of the stream it takes. */
  lemma ReadCommandExact(s: bytes)
    ensures |s| < 48 ==> ReadCommand(s) == NoHeader
    ensures |s| >= 48 && ReadU32(s, 0) !in {1, 2} ==> ReadCommand(s) == BadCommand
    ensures |s| >= 48 && ReadU32(s, 0) == 2 ==>
              ReadCommand(s) == Got(
                Unlink(KCmdUnlink(ToI32(ReadU32(s, 4)), ToI32(ReadU32(s, 8)), ToI32(ReadU32(s, 12)),
                                  ToI32(ReadU32(s, 16)), ToI32(ReadU32(s, 20)))),
                s[48..])
    ensures |s| >= 48 && ReadU32(s, 0) == 1 ==>
              var n := if ReadU32(s, 12) == 0 && ReadU32(s, 24) < 0x8000_0000 then ReadU32(s, 24) else 0;
              ReadCommand(s) ==
              if |s| < 48 + n then NoBody
              else Got(
                Submit(KCmdSubmit(ToI32(ReadU32(s, 4)), ToI32(ReadU32(s, 8)), ToI32(ReadU32(s, 12)),
                                  ToI32(ReadU32(s, 16)), ToI32(ReadU32(s, 20)), ToI32(ReadU32(s, 24)),
                                  ToI32(ReadU32(s, 28)), ToI32(ReadU32(s, 32)), ToI32(ReadU32(s, 36)), s[40..48]),
                       s[48..48 + n]),
                s[48 + n..])
  {
    hide ReadU32;
    if |s| >= 48 {
      UrbPump.HeaderWords(s);
      assert s[..48][40..48] == s[40..48];
      assert forall n | 0 <= n <= |s| - 48 :: s[48..][..n] == s[48..48 + n] && s[48..][n..] == s[48 + n..];
    }
  }

  /** How a run ended: why no further command was served. */
  datatype End = Ran(why: Input) | Crash

  datatype Outcome = Outcome(end: End, replies: seq<bytes>, st: State)

  function Run(host: Host, dev: Device, st: State, s: bytes): Outcome
    requires Honest(dev)
    decreases |s|
  {
    match ReadCommand(s)
    case Got(c, rest) => (
      match Serve(host, dev, st, c)
      case Crashed => Outcome(Crash, [], st)
      case Served(st1, reply) =>
        var o := Run(host, dev, st1, rest);
        o.(replies := [reply] + o.replies))
    case why => Outcome(Ran(why), [], st)
  }

  /** The outcome of a run that has already written `sent`. */
  ghost function Resumed(sent: seq<bytes>, o: Outcome): Outcome {
    o.(replies := sent + o.replies)
  }

  lemma ResumedStep(sent: seq<bytes>, reply: bytes, o: Outcome)
    ensures Resumed(sent, Resumed([reply], o)) == Resumed(sent + [reply], o)
  {
    assert sent + ([reply] + o.replies) == sent + [reply] + o.replies;
  }

  lemma RunUnfold(host: Host, dev: Device, st: State, s: bytes)
    requires Honest(dev)
    ensures var o, r := Run(host, dev, st, s), ReadCommand(s);
            if !r.Got? then o == Outcome(Ran(r), [], st)
            else
              var v := Serve(host, dev, st, r.c);
              if v.Crashed? then o == Outcome(Crash, [], st)
              else
                var next := Run(host, dev, v.st, r.rest);
                o == Resumed([v.reply], next)
  {
  }

  predicate Sendable(replies: seq<bytes>) {
    forall i | 0 <= i < |replies| :: 4 + |replies[i]| < INT_LIMIT
  }

  /** The wire bytes of a list of replies; `writeEnvelope` sets no limit. */
  function Wire(id: u32, replies: seq<bytes>): bytes
    requires Sendable(replies)
  {
    if replies == [] then [] else Frame(UrbPump.UsbipEnvelope(id, replies[0])) + Wire(id, replies[1..])
  }

  /** Replies that fit envelopes are written as a plain run of frames. */
  lemma {:induction false} WireIsFrames(id: u32, replies: seq<bytes>)
    requires AllFit(UrbPump.UsbipEnvelopes(id, replies))
    ensures Sendable(replies) && Wire(id, replies) == FrameAll(UrbPump.UsbipEnvelopes(id, replies))
  {
    hide Frame;
    var es := UrbPump.UsbipEnvelopes(id, replies);
    forall i | 0 <= i < |replies| ensures 4 + |replies[i]| < INT_LIMIT {
      assert Fits(es[i]);
    }
    if replies != [] {
      assert es[1..] == UrbPump.UsbipEnvelopes(id, replies[1..]);
      WireIsFrames(id, replies[1..]);
    }
  }

  /** The bytes on the wire determine the replies. */
  lemma {:induction false} WireInjective(id: u32, xs: seq<bytes>, ys: seq<bytes>)
    requires Sendable(xs) && Sendable(ys) && Wire(id, xs) == Wire(id, ys)
    ensures xs == ys
  {
    hide Frame;
    if xs != [] && ys != [] {
      var e, f := UrbPump.UsbipEnvelope(id, xs[0]), UrbPump.UsbipEnvelope(id, ys[0]);
      FrameCancel(e, Wire(id, xs[1..]), f, Wire(id, ys[1..]));
      UsbipRoundTrip(UsbipFrame(id, xs[0]), []);
      UsbipRoundTrip(UsbipFrame(id, ys[0]), []);
      WireInjective(id, xs[1..], ys[1..]);
      assert xs == [xs[0]] + xs[1..] && ys == [ys[0]] + ys[1..];
    }
  }

  lemma NothingSent(id: u32)
    ensures Wire(id, []) == []
  {
  }

  lemma {:induction false} WireAppend(id: u32, replies: seq<bytes>, reply: bytes)
    requires Sendable(replies) && 4 + |reply| < INT_LIMIT
    ensures Sendable(replies + [reply])
    ensures Wire(id, replies + [reply]) == Wire(id, replies) + Frame(UrbPump.UsbipEnvelope(id, reply))
  {
    if replies == [] {
      assert Wire(id, [reply]) == Frame(UrbPump.UsbipEnvelope(id, reply)) + Wire(id, []);
      assert replies + [reply] == [reply];
    } else {
      WireAppend(id, replies[1..], reply);
      HeadTail(replies, [reply]);
    }
  }

  /** The commands a stream holds, one after the other, and why no more can be read. */
  function Commands(s: bytes): seq<Command>
    decreases |s|
  {
    match ReadCommand(s)
    case Got(c, rest) => [c] + Commands(rest)
    case _ => []
  }

  function StreamEnd(s: bytes): Input
    decreases |s|
  {
    match ReadCommand(s)
    case Got(_, rest) => StreamEnd(rest)
    case why => why
  }

  /** A run on commands that are already off the stream. */
  function RunCommands(host: Host, dev: Device, st: State, cs: seq<Command>, why: Input): Outcome
    requires Honest(dev)
    decreases |cs|
  {
    if cs == [] then Outcome(Ran(why), [], st)
    else
      match Serve(host, dev, st, cs[0])
      case Crashed => Outcome(Crash, [], st)
      case Served(st1, reply) =>
        var o := RunCommands(host, dev, st1, cs[1..], why);
        o.(replies := [reply] + o.replies)
  }

  lemma {:induction false} RunIsRunCommands(host: Host, dev: Device, st: State, s: bytes)
    requires Honest(dev)
    ensures Run(host, dev, st, s) == RunCommands(host, dev, st, Commands(s), StreamEnd(s))
    decreases |s|
  {
    hide Serve;
    match ReadCommand(s)
    case Got(c, rest) => {
      assert Commands(s)[1..] == Commands(rest);
      match Serve(host, dev, st, c) {
        case Served(st1, _) => RunIsRunCommands(host, dev, st1, rest);
        case Crashed =>
      }
    }
    case _ =>
  }

  // One reply per command

  /** What a Kotlin reply must look like on the wire for a command. */
  predicate Answers(c: Command, reply: bytes) {
    match c
    case Submit(cmd, _) =>
      && ParsesOnlyAs(reply, OpRetSubmit)
      && var r := ParseRetSubmit(reply).value;
         && r.seqnum == ToU32(cmd.seqnum) && r.direction == 0 && r.ep == 0
         && r.devid == 0 && r.startFrame == 0 && r.numberOfPackets == 0 && r.errorCount == 0
         && r.status in {0, -19, -95, -104, -110}
         && (r.status != 0 ==> r.actualLength == 0 && |reply| == URB_HEADER_LEN)
    case Unlink(u) =>
      && ParsesOnlyAs(reply, OpRetUnlink)
      && |reply| == URB_HEADER_LEN
      && var r := ParseRetUnlink(reply).value;
         r.seqnum == ToU32(u.seqnum) && r.direction == 0 && r.ep == 0 && r.devid == 0 && r.status == 0
  }

  lemma UnlinkAnswers(u: KCmdUnlink)
    ensures Answers(Unlink(u), KRetUnlink(u.seqnum, 0))
  {
    hide ParseRetUnlink, PeekUrbOp, Words;
    RetUnlinkRoundTrip(RetUnlink(ToU32(u.seqnum), 0, 0, 0, 0), []);
    assert KRetUnlink(u.seqnum, 0) + [] == KRetUnlink(u.seqnum, 0);
  }

  lemma SubmitAnswers(host: Host, dev: Device, st: State, cmd: KCmdSubmit, body: bytes)
    requires Honest(dev) && Serve(host, dev, st, Submit(cmd, body)).Served?
    ensures Answers(Submit(cmd, body), Serve(host, dev, st, Submit(cmd, body)).reply)
  {
    hide Serve, PeekUrbOp;
    ReplyMeaning(host, dev, st, cmd, body);
  }

  lemma ServedAnswers(host: Host, dev: Device, st: State, c: Command)
    requires Honest(dev) && Serve(host, dev, st, c).Served?
    ensures Answers(c, Serve(host, dev, st, c).reply)
    ensures 4 + |Serve(host, dev, st, c).reply| < INT_LIMIT
  {
    hide Answers, KRetSubmit, KRetUnlink;
    match c
    case Unlink(u) =>
      UnlinkAnswers(u);
      UnlinkSize(u.seqnum);
    case Submit(cmd, body) =>
      SubmitAnswers(host, dev, st, cmd, body);
      SubmitSize(host, dev, st, cmd, body);
  }

  lemma UnlinkSize(seqnum: i32)
    ensures |KRetUnlink(seqnum, 0)| == URB_HEADER_LEN
  {
  }

  lemma SubmitSize(host: Host, dev: Device, st: State, cmd: KCmdSubmit, body: bytes)
    requires Honest(dev) && Serve(host, dev, st, Submit(cmd, body)).Served?
    ensures 4 + |Serve(host, dev, st, Submit(cmd, body)).reply| < INT_LIMIT
  {
    hide Words;
  }

  lemma {:induction false} RunAnswers(host: Host, dev: Device, st: State, cs: seq<Command>, why: Input)
    requires Honest(dev)
    ensures var o := RunCommands(host, dev, st, cs, why);
            && |o.replies| <= |cs| && (o.end.Ran? <==> |o.replies| == |cs|)
            && Sendable(o.replies)
            && forall i | 0 <= i < |o.replies| :: Answers(cs[i], o.replies[i])
    decreases |cs|
  {
    hide Serve, Answers;
    if cs != [] && Serve(host, dev, st, cs[0]).Served? {
      ServedAnswers(host, dev, st, cs[0]);
      RunAnswers(host, dev, Serve(host, dev, st, cs[0]).st, cs[1..], why);
    }
  }

  /**
   * One reply per command, on any device. The replies answer the commands of the input in order, all of them
   * unless the pump crashes; and as long as they fit envelopes, what goes out decodes to one envelope each,
   * echoing the import id.
   */
  lemma OneReplyPerCommand(host: Host, dev: Device, st: State, s: bytes)
    requires Honest(dev)
    ensures var replies, cs := Run(host, dev, st, s).replies, Commands(s);
            var id := ToU32(host.importId);
            && |replies| <= |cs| && (Run(host, dev, st, s).end.Ran? <==> |replies| == |cs|)
            && Sendable(replies)
            && (forall i | 0 <= i < |replies| :: Answers(cs[i], replies[i]))
            && (AllFit(UrbPump.UsbipEnvelopes(id, replies)) ==>
                  var out := DecodeAll(Wire(id, replies));
                  && |out| == |replies|
                  && forall i | 0 <= i < |out| ::
                       out[i].channel == Usbip && ParseUsbip(out[i].payload) == Some(UsbipFrame(id, replies[i])))
  {
    hide Run, RunCommands, Commands, Answers, DecodeAll, FrameAll, Wire, ParseUsbip, EncodeUsbip;
    var replies, id := Run(host, dev, st, s).replies, ToU32(host.importId);
    RunIsRunCommands(host, dev, st, s);
    RunAnswers(host, dev, st, Commands(s), StreamEnd(s));
    var es := UrbPump.UsbipEnvelopes(id, replies);
    forall i | 0 <= i < |replies| ensures ParseUsbip(es[i].payload) == Some(UsbipFrame(id, replies[i])) {
      UsbipRoundTrip(UsbipFrame(id, replies[i]), []);
    }
    if AllFit(es) {
      WireIsFrames(id, replies);
      DecodeFrames(es, []);
      NothingToDecode();
      assert FrameAll(es) + [] == FrameAll(es) && es + [] == es;
    }
  }

  class UsbIpHost {
    const host: Host
    const device: Device
    var cancelled: set<i32>
    var stopped: bool
    var transfers: nat

    ghost predicate Valid() {
      Honest(device)
    }

    function Value(): State
      reads this
    {
      State(cancelled, transfers)
    }

    constructor (host: Host, device: Device)
      requires Honest(device)
      ensures Valid() && Value() == State({}, 0) && this.host == host && this.device == device
    {
      this.host, this.device := host, device;
      cancelled, stopped, transfers := {}, false, 0;
    }

    /** One call into `UsbDeviceConnection`. */
    method DoTransfer(seqnum: i32, t: Transfer) returns (c: Completion)
      requires Valid()
      modifies this`transfers
      ensures c == device(old(transfers), seqnum, t) && transfers == old(transfers) + 1
      ensures c.n <= |c.buf| == |t.buf|
    {
      c := device(transfers, seqnum, t);
      transfers := transfers + 1;
    }

    /** The reply of `v` goes out, or nothing does. */
    ghost predicate Wrote(before: bytes, after: bytes, v: Served) {
      && (v.Served? ==> 4 + |v.reply| < INT_LIMIT)
      && after == if v.Served? then before + Frame(UrbPump.UsbipEnvelope(ToU32(host.importId), v.reply)) else before
    }

    /** `writeFrame`: prefix, then envelope. */
    method WriteFrame(out: ByteSink, payload: bytes)
      requires 4 + |payload| < INT_LIMIT
      modifies out
      ensures out.data == old(out.data) + Frame(UrbPump.UsbipEnvelope(ToU32(host.importId), payload))
    {
      var wrapped := WrapImport(host.importId, payload);
      WriteEnvelope(out, Envelope(Usbip, wrapped));
    }

    method SendRetSubmit(out: ByteSink, seqnum: i32, status: i32, actualLength: nat, data: bytes) returns (ok: bool)
      modifies out
      ensures var v := Finish(Value(), seqnum, status, actualLength, data);
              ok == v.Served? && Wrote(old(out.data), out.data, v)
    {
      if 4 + URB_HEADER_LEN + |data| >= INT_LIMIT || actualLength >= INT_LIMIT {
        return false;
      }
      var ret := EncodeRetSubmitKotlin(seqnum, status, actualLength, data := data);
      WriteFrame(out, ret);
      return true;
    }

    method ReportCompletion(out: ByteSink, seqnum: i32, isIn: bool, c: Completion) returns (ok: bool)
      requires c.n <= |c.buf| && transfers > 0
      modifies out
      ensures var v := Complete(State(cancelled, transfers - 1), seqnum, isIn, c);
              ok == v.Served? && Wrote(old(out.data), out.data, v) && (ok ==> v.st == Value())
    {
      if c.n < 0 {
        ok := SendRetSubmit(out, seqnum, -ETIMEDOUT, 0, []);
        return;
      }
      var payload := if isIn then c.buf[..c.n] else [];
      ok := SendRetSubmit(out, seqnum, 0, c.n, payload);
    }

    method HandleControl(out: ByteSink, cmd: KCmdSubmit, body: bytes) returns (ok: bool)
      requires Valid()
      modifies this`transfers, out
      ensures var v := ExecuteControl(device, old(Value()), cmd, body);
              ok == v.Served? && Wrote(old(out.data), out.data, v) && (ok ==> v.st == Value())
    {
      var isIn := cmd.setup[0] >= 0x80;
      if isIn && cmd.transferBufferLength < 0 {
        return false;
      }
      var buf := if isIn then Zeros(cmd.transferBufferLength) else body;
      var c := DoTransfer(cmd.seqnum, ControlRequest(cmd, buf));
      ok := ReportCompletion(out, cmd.seqnum, isIn, c);
    }

    method HandleBulk(out: ByteSink, cmd: KCmdSubmit, body: bytes) returns (ok: bool)
      requires Valid()
      modifies this`transfers, out
      ensures var v := ExecuteBulk(device, old(Value()), cmd, body);
              ok == v.Served? && Wrote(old(out.data), out.data, v) && (ok ==> v.st == Value())
    {
      var isIn := cmd.direction == 1;
      if isIn && cmd.transferBufferLength < 0 {
        return false;
      }
      var buf := if isIn then Zeros(cmd.transferBufferLength) else body;
      var c := DoTransfer(cmd.seqnum, BulkTransfer(EpAddress(cmd.direction, cmd.ep), buf));
      ok := ReportCompletion(out, cmd.seqnum, isIn, c);
    }

    method HandleSubmit(out: ByteSink, cmd: KCmdSubmit, body: bytes) returns (ok: bool)
      requires Valid()
      modifies this`transfers, this`cancelled, out
      ensures var v := Serve(host, device, old(Value()), Submit(cmd, body));
              ok == v.Served? && Wrote(old(out.data), out.data, v) && (ok ==> v.st == Value())
    {
      if cmd.seqnum in cancelled {
        cancelled := cancelled - {cmd.seqnum};
        ok := SendRetSubmit(out, cmd.seqnum, -ECONNRESET, 0, []);
        return;
      }
      if cmd.ep == 0 {
        ok := HandleControl(out, cmd, body);
        return;
      }
      var address := EpAddress(cmd.direction, cmd.ep);
      if address !in host.endpoints {
        ok := SendRetSubmit(out, cmd.seqnum, -ENODEV, 0, []);
        return;
      }
      match host.endpoints[address]
      case BulkXfer => ok := HandleBulk(out, cmd, body);
      case InterruptXfer => ok := HandleBulk(out, cmd, body);
      case _ => ok := SendRetSubmit(out, cmd.seqnum, -EOPNOTSUPP, 0, []);
    }

    method HandleUnlink(out: ByteSink, u: KCmdUnlink)
      requires Valid()
      modifies this`cancelled, out
      ensures var v := Serve(host, device, old(Value()), Unlink(u));
              v.Served? && Wrote(old(out.data), out.data, v) && v.st == Value()
    {
      cancelled := cancelled + {u.unlinkSeqnum};
      var ret := EncodeRetUnlinkKotlin(u.seqnum, 0);
      WriteFrame(out, ret);
    }

    /** Header, then the body an OUT submit announces. On failure the rest of the stream does not matter. */
    method NextCommand(input: ByteSource) returns (c: Option<Command>)
      modifies input
      ensures c.Some? <==> ReadCommand(old(input.rest)).Got?
      ensures c.Some? ==> ReadCommand(old(input.rest)) == Got(c.value, input.rest)
    {
      ghost var s := input.rest;
      var header := new byte[URB_HEADER_LEN];
      var ok := ReadFully(input, header);
      if !ok {
        return None;
      }
      assert header[..] == s[..URB_HEADER_LEN];
      var command := ReadU32(header[..], 0);
      if command == CMD_SUBMIT {
        var cmd := ParseCmdSubmitKotlin(header);
        var buf := new byte[BodyLength(cmd.value)];
        if buf.Length > 0 {
          ok := ReadFully(input, buf);
          if !ok {
            return None;
          }
        }
        assert buf[..] == s[URB_HEADER_LEN..][..BodyLength(cmd.value)];
        assert input.rest == s[URB_HEADER_LEN..][BodyLength(cmd.value)..];
        return Some(Submit(cmd.value, buf[..]));
      }
      if command == CMD_UNLINK {
        var u := ParseCmdUnlinkKotlin(header);
        return Some(Unlink(u.value));
      }
      return None;
    }

    /**
     * The pump loop, with `stop()` called from another thread before any turn. A run that is not stopped writes
     * every reply of `Run`; a stopped one has written the first few of them.
     */
    method PumpUrbs(input: ByteSource, out: ByteSink) returns (ghost sent: seq<bytes>)
      requires Valid()
      modifies this, input, out
      ensures var o := Run(host, device, old(Value()), old(input.rest));
              && sent <= o.replies && Sendable(sent)
              && out.data == old(out.data) + Wire(ToU32(host.importId), sent)
              && (!stopped ==> sent == o.replies && (o.end.Ran? ==> Value() == o.st))
    {
      hide Run, Serve, ReadCommand, Wire;
      ghost var o := Run(host, device, Value(), input.rest);
      sent := [];
      NothingSent(ToU32(host.importId));
      var done := false;
      if * {
        stopped := true;
      }
      while !stopped && !done
        invariant sent <= o.replies && Sendable(sent)
        invariant out.data == old(out.data) + Wire(ToU32(host.importId), sent)
        invariant done ==> sent == o.replies && (o.end.Ran? ==> Value() == o.st)
        invariant !done ==> o == Resumed(sent, Run(host, device, Value(), input.rest))
        decreases !done, |input.rest|
      {
        ghost var reply;
        done, reply := Turn(input, out);
        if !done {
          WireAppend(ToU32(host.importId), sent, reply);
          ResumedStep(sent, reply, Run(host, device, Value(), input.rest));
          sent := sent + [reply];
        }
        if * {
          stopped := true;
        }
      }
    }

    /** One turn: `done` at the end of input or on a crash, otherwise one reply was written. */
    method Turn(input: ByteSource, out: ByteSink) returns (done: bool, ghost reply: bytes)
      requires Valid()
      modifies this`transfers, this`cancelled, input, out
      ensures var o := Run(host, device, old(Value()), old(input.rest));
              if done then o.replies == [] && out.data == old(out.data) && (o.end.Ran? ==> Value() == o.st)
              else
                && |input.rest| < |old(input.rest)|
                && o == Resumed([reply], Run(host, device, Value(), input.rest))
                && 4 + |reply| < INT_LIMIT
                && out.data == old(out.data) + Frame(UrbPump.UsbipEnvelope(ToU32(host.importId), reply))
    {
      hide Run, ReadCommand;
      RunUnfold(host, device, Value(), input.rest);
      var c := NextCommand(input);
      if c.None? {
        return true, [];
      }
      ghost var v := Serve(host, device, Value(), c.value);
      var ok;
      match c.value {
        case Submit(cmd, body) =>
          ok := HandleSubmit(out, cmd, body);
        case Unlink(u) =>
          HandleUnlink(out, u);
          ok := true;
      }
      done := !ok;
      reply := if ok then v.reply else [];
    }
  }
}
