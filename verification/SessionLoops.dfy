/** The two loops of a bound session as the programs write them, against the steps of the session machine. */
module SessionLoops {
  import opened Bytes
  import opened SeqGaps
  import opened Sessions
  import R = Reports

  // The receiver: read, dispatch, decode

  /** The machine's handling of a run of messages, ended by the stream, an Unbind or an unsupported device. */
  function RunLoop(rv: Receiver, inbox: seq<Msg>): (Receiver, ReceiverEnd)
    decreases |inbox|
  {
    if inbox == [] then (rv, REof)
    else
      match Handle(rv, inbox[0])
      case Continue(next) => RunLoop(next, inbox[1..])
      case Break => (rv, RUnbound)
      case Fail => (rv, RUnsupported)
  }

  ghost function Snapshot(decoder: R.ReportDecoder, device: R.UinputDevice?, lastSeq: u16, jumps: nat, ignored: nat,
                          applied: seq<bytes>): Receiver
    reads decoder, device
  {
    var log := if device == null then [] else device.log;
    Receiver(device != null, lastSeq, jumps, ignored, decoder.Value(), log, applied)
  }

  /**
   * The loop of `run_receive` from the sending of Bind on; `inbox` is what the sender writes before it closes.
   * The stop flag may be raised before any turn: `read` messages have been handled by then.
   */
  method StreamLoop(decoder: R.ReportDecoder, inbox: seq<Msg>)
    returns (device: R.UinputDevice?, lastSeq: u16, jumps: nat, ignored: nat, end: ReceiverEnd,
             ghost applied: seq<bytes>, ghost read: nat)
    modifies decoder
    ensures device != null ==> fresh(device)
    ensures var rv := Snapshot(decoder, device, lastSeq, jumps, ignored, applied);
            var start := FRESH_RECEIVER.(prev := old(decoder.Value()));
            if end == RStopped then read <= |inbox| && RunLoop(start, inbox[..read]) == (rv, REof)
            else RunLoop(start, inbox) == (rv, end)
  {
    hide R.ReportEvents, R.Next, Jump;
    device, lastSeq, jumps, ignored, end, applied, read := null, 0, 0, 0, REof, [], 0;
    ghost var start := FRESH_RECEIVER.(prev := decoder.Value());
    var i := 0;
    var stopped := false;
    if * {
      stopped := true;
    }
    while i < |inbox| && !stopped
      invariant 0 <= i <= |inbox|
      invariant device != null ==> fresh(device)
      invariant RunLoop(start, inbox[..i]) == (Snapshot(decoder, device, lastSeq, jumps, ignored, applied), REof)
      decreases |inbox| - i
    {
      var m := inbox[i];
      RunLoopConcat(start, inbox[..i], inbox[i..]);
      assert inbox == inbox[..i] + inbox[i..] && inbox[i..][0] == m;
      if m.BindAck? {
        if !m.kind.Mouse? && !m.kind.Keyboard? {
          end := RUnsupported;
          return;
        }
        device := new R.UinputDevice();
      } else if m.ReportIn? {
        if Jump(lastSeq, m.number) {
          jumps := jumps + 1;
        }
        lastSeq := m.number;
        if device != null {
          decoder.ApplyReport(device, m.body);
          applied := applied + [m.body];
        } else {
          ignored := ignored + 1;
        }
      } else if m.Unbind? {
        end := RUnbound;
        return;
      }
      RunLoopConcat(start, inbox[..i], [m]);
      assert inbox[..i + 1] == inbox[..i] + [m];
      i := i + 1;
      if * {
        stopped := true;
      }
    }
    if stopped {
      end, read := RStopped, i;
    } else {
      assert inbox[..i] == inbox;
    }
  }

  /** Messages handled without an end are followed by the rest. */
  lemma {:induction false} RunLoopConcat(rv: Receiver, a: seq<Msg>, b: seq<Msg>)
    ensures RunLoop(rv, a).1 == REof ==> RunLoop(rv, a + b) == RunLoop(RunLoop(rv, a).0, b)
    decreases |a|
  {
    hide Handle;
    if a == [] {
      assert a + b == b;
    } else {
      HeadTail(a, b);
      match Handle(rv, a[0]) {
        case Continue(next) => RunLoopConcat(next, a[1..], b);
        case _ =>
      }
    }
  }

  // The sender: read a report, number it, write it

  datatype Read = Data(body: bytes) | WouldBlock | Eof | ReadError

  datatype PumpEnd = Drained | Ended | SocketFailed | ReadFailed

  function Numbered(bindId: byte, bodies: seq<bytes>, from: nat): (ms: seq<Msg>)
    ensures |ms| == |bodies|
    decreases |bodies|
  {
    if bodies == [] then [] else [ReportIn(bindId, Number(from), bodies[0])] + Numbered(bindId, bodies[1..], from + 1)
  }

  /** The report bodies of some reads up to the first that ends the pump. */
  function Input(hidraw: seq<Read>): seq<bytes> {
    if hidraw == [] then []
    else match hidraw[0]
      case Data(body) => [body] + Input(hidraw[1..])
      case WouldBlock => Input(hidraw[1..])
      case Eof | ReadError => []
  }

  /** How the pump ends if the socket takes everything. */
  function InputEnd(hidraw: seq<Read>): PumpEnd {
    if hidraw == [] then Drained
    else match hidraw[0]
      case Data(_) | WouldBlock => InputEnd(hidraw[1..])
      case Eof => Ended
      case ReadError => ReadFailed
  }

  lemma NumberedLast(bindId: byte, bodies: seq<bytes>, from: nat, body: bytes)
    ensures Numbered(bindId, bodies + [body], from) ==
            Numbered(bindId, bodies, from) + [ReportIn(bindId, Number(from + |bodies|), body)]
    decreases |bodies|
  {
    if bodies == [] {
      assert [] + [body] == [body] && [body][1..] == [];
    } else {
      HeadTail(bodies, [body]);
      NumberedLast(bindId, bodies[1..], from + 1, body);
    }
  }

  /** `pump_reports`: numbers count up from 1 and wrap; the socket takes `room` more writes and fails on the next. */
  method PumpReports(bindId: byte, hidraw: seq<Read>, room: nat) returns (written: seq<Msg>, end: PumpEnd)
    ensures written == Numbered(bindId, Input(hidraw)[..Min(room, |Input(hidraw)|)], 1)
    ensures end == if |Input(hidraw)| > room then SocketFailed else InputEnd(hidraw)
  {
    hide Number, Successor;
    written, end := [], Drained;
    var counter: u16 := 0;
    assert Number(0) == 0 by { NumberZero(); }
    ghost var sent: seq<bytes> := [];
    var i := 0;
    while i < |hidraw|
      invariant 0 <= i <= |hidraw|
      invariant sent + Input(hidraw[i..]) == Input(hidraw)
      invariant |sent| <= room && counter == Number(|sent|)
      invariant written == Numbered(bindId, sent, 1)
      invariant end == Drained && InputEnd(hidraw[i..]) == InputEnd(hidraw)
    {
      var r := hidraw[i];
      assert hidraw[i..][1..] == hidraw[i + 1..];
      match r {
        case Eof =>
          end := Ended;
          return;
        case ReadError =>
          end := ReadFailed;
          return;
        case WouldBlock =>
        case Data(body) =>
          NumberStep(|sent|);
          counter := Successor(counter);
          if |written| == room {
            end := SocketFailed;
            assert Input(hidraw)[..room] == sent;
            return;
          }
          written := written + [ReportIn(bindId, counter, body)];
          NumberedLast(bindId, sent, 1, body);
          sent := sent + [body];
      }
      i := i + 1;
    }
  }

  /** The state after the pump has written some reports. */
  function Pumped(s: State, bodies: seq<bytes>, from: nat): State
    requires s.s.Pumping?
  {
    s.(s := s.s.(counter := Number(from + |bodies|)), down := s.down + Numbered(s.s.bindId, bodies, from + 1))
  }

  lemma OneReport(cfg: Config, s: State, body: bytes, from: nat)
    requires s.s.Pumping? && s.s.counter == Number(from)
    requires cfg.flavour.Linux? ==> 1 <= |body| <= 64
    ensures Next(cfg, s, HidReport(body, true)) == Some(Pumped(s, [body], from))
  {
    hide Number, Successor;
    NumberStep(from);
    var one := [body];
    assert one[1..] == [];
    assert Numbered(s.s.bindId, one, from + 1) == [ReportIn(s.s.bindId, Number(from + 1), body)];
  }

  lemma PumpedOn(s: State, bodies: seq<bytes>, from: nat)
    requires s.s.Pumping? && bodies != []
    ensures Pumped(Pumped(s, [bodies[0]], from), bodies[1..], from + 1) == Pumped(s, bodies, from)
  {
    hide Number;
    var b := s.s.bindId;
    var first := [bodies[0]];
    assert first[1..] == [];
    assert Numbered(b, bodies, from + 1) == Numbered(b, first, from + 1) + Numbered(b, bodies[1..], from + 2);
    assert s.down + Numbered(b, first, from + 1) + Numbered(b, bodies[1..], from + 2)
        == s.down + (Numbered(b, first, from + 1) + Numbered(b, bodies[1..], from + 2));
  }

  /** The pump's loop is the machine's: reports that it reads one after the other go out as it writes them. */
  lemma {:induction false} PumpIsMachine(cfg: Config, s: State, bodies: seq<bytes>, from: nat)
    requires s.s.Pumping? && s.s.counter == Number(from)
    requires cfg.flavour.Linux? ==> forall b | b in bodies :: 1 <= |b| <= 64
    ensures Execute(cfg, s, ReportActions(bodies)) == Some(Pumped(s, bodies, from))
    decreases |bodies|
  {
    hide Number, Next, Numbered;
    if bodies == [] {
      assert s.down + Numbered(s.s.bindId, [], from + 1) == s.down;
    } else {
      OneReport(cfg, s, bodies[0], from);
      PumpIsMachine(cfg, Pumped(s, [bodies[0]], from), bodies[1..], from + 1);
      PumpedOn(s, bodies, from);
      assert ReportActions(bodies)[1..] == ReportActions(bodies[1..]);
    }
  }

  function ReportActions(bodies: seq<bytes>): (actions: seq<Action>)
    ensures |actions| == |bodies|
  {
    if bodies == [] then [] else [HidReport(bodies[0], true)] + ReportActions(bodies[1..])
  }

  lemma NumberZero()
    ensures Number(0) == 0
  {
  }

  /** What the pump writes is, to the receiver's loop, a run without a jump: every report is applied. */
  lemma {:induction false} PumpedReportsApply(rv: Receiver, bindId: byte, bodies: seq<bytes>, from: nat)
    requires rv.bound && rv.lastSeq == Number(from)
    ensures var (end, why) := RunLoop(rv, Numbered(bindId, bodies, from + 1) + [Unbind(bindId)]);
            && why == RUnbound && end.applied == rv.applied + bodies
            && end.jumps == rv.jumps && end.ignored == rv.ignored
            && end.log == rv.log + R.Play(rv.prev, bodies)
    decreases |bodies|
  {
    hide R.ReportEvents, R.Next, Number, Successor;
    var ms := Numbered(bindId, bodies, from + 1);
    if bodies == [] {
      assert ms + [Unbind(bindId)] == [Unbind(bindId)];
    } else {
      HeadTail(ms, [Unbind(bindId)]);
      NumberStep(from);
      var next := Handle(rv, ms[0]).rv;
      assert ms[1..] == Numbered(bindId, bodies[1..], from + 2);
      PumpedReportsApply(next, bindId, bodies[1..], from + 1);
      assert rv.applied + [bodies[0]] + bodies[1..] == rv.applied + bodies;
    }
  }
}
