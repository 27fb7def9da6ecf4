/** The HID session: the receiver and a sender, Linux or Android, talking over two FIFO channels. */
module Sessions {
  import opened Bytes
  import opened HidDescriptors
  import opened SeqGaps
  import R = Reports

  // Messages

  datatype Device = Device(busid: string, isHid: bool, kind: Kind)

  datatype Msg =
    | Hello
    | HelloAck
    | ListDevices
    | DeviceList(devices: seq<Device>)
    | Attach(busid: string, mode: string)
    | AttachOk(busid: string)
    | AttachDenied(busid: string)
    | Bind(bindId: byte, busid: string)
    | BindAck(bindId: byte, kind: Kind)
    | ReportIn(bindId: byte, number: u16, body: bytes)
    | Unbind(bindId: byte)

  datatype Flavour = Linux | Android

  /** The devices the sender exposes and the receiver's `--busid`. */
  datatype Config = Config(flavour: Flavour, devices: seq<Device>, busid: Option<string>)

  // Picking a device

  /** Index of the first device from `i` on with this busid. */
  function FindBusid(devices: seq<Device>, busid: string, i: nat): (r: Option<nat>)
    requires i <= |devices|
    ensures r.Some? ==> i <= r.value < |devices| && devices[r.value].busid == busid
    ensures forall k | i <= k < (if r.Some? then r.value else |devices|) :: devices[k].busid != busid
    decreases |devices| - i
  {
    if i == |devices| then None
    else if devices[i].busid == busid then Some(i)
    else FindBusid(devices, busid, i + 1)
  }

  function FindHid(devices: seq<Device>, i: nat): (r: Option<nat>)
    requires i <= |devices|
    ensures r.Some? ==> i <= r.value < |devices| && devices[r.value].isHid
    ensures forall k | i <= k < (if r.Some? then r.value else |devices|) :: !devices[k].isHid
    decreases |devices| - i
  {
    if i == |devices| then None
    else if devices[i].isHid then Some(i)
    else FindHid(devices, i + 1)
  }

  /** A device the receiver may choose. */
  predicate Wanted(d: Device, busid: Option<string>) {
    if busid.Some? then d.busid == busid.value else d.isHid
  }

  /** `pick_hid_device`: the first wanted device, or none when there is none. */
  function Pick(devices: seq<Device>, busid: Option<string>): (r: Option<nat>)
    ensures r.Some? ==> r.value < |devices| && Wanted(devices[r.value], busid)
    ensures forall k | 0 <= k < (if r.Some? then r.value else |devices|) :: !Wanted(devices[k], busid)
  {
    if busid.Some? then FindBusid(devices, busid.value, 0) else FindHid(devices, 0)
  }

  /** `open_device` has a profile for mice and keyboards only. */
  predicate Supported(kind: Kind) { kind.Mouse? || kind.Keyboard? }

  // The receiver's loop

  /** What the receiver's loop keeps; `applied` is the history of the reports it decoded. */
  datatype Receiver = Receiver(
    bound: bool, lastSeq: u16, jumps: nat, ignored: nat, prev: R.Prev, log: seq<R.Event>, applied: seq<bytes>)

  const FRESH_RECEIVER := Receiver(false, 0, 0, 0, R.FRESH, [], [])

  datatype Handled = Continue(rv: Receiver) | Break | Fail

  /** One frame of the receiver's loop. */
  function Handle(rv: Receiver, m: Msg): Handled {
    match m
    case BindAck(_, kind) => if Supported(kind) then Continue(rv.(bound := true, log := [])) else Fail
    case ReportIn(_, number, body) =>
      var seen := rv.(jumps := rv.jumps + (if Jump(rv.lastSeq, number) then 1 else 0), lastSeq := number);
      if rv.bound then
        Continue(seen.(
          prev := R.Next(rv.prev, body), log := rv.log + R.ReportEvents(rv.prev, body), applied := rv.applied + [body]))
      else Continue(seen.(ignored := rv.ignored + 1))
    case Unbind(_) => Break
    case _ => Continue(rv)
  }

  // The two programs and their channels

  datatype ReceiverEnd = REof | RUnbound | RStopped | RUnsupported | RNoDevice | RDenied | RUnexpected | RWriteFailed

  datatype ReceiverPc =
    | Greet
    | AwaitHello
    | List
    | AwaitDevices
    | Request(chosen: nat)
    | AwaitAttach(chosen: nat)
    | SendBind(chosen: nat)
    | Streaming(chosen: nat, rv: Receiver)
    | RClosed(why: ReceiverEnd, rv: Receiver)

  datatype SenderEnd = SDone | SEof | SFailed | SUnexpected | SUnknownBusid | SWrongBusid | SDenied | SWriteFailed

  datatype SenderPc =
    | AwaitClient
    | SendHello
    | Enumerate
    | AwaitList
    | SendList
    | AwaitRequest
    | SendOk(target: nat)
    | SendDenial(busid: string)
    | AwaitBind(target: nat)
    | Claim(target: nat, bindId: byte)
    | SendBindAck(target: nat, bindId: byte)
    | Pumping(target: nat, bindId: byte, counter: u16)
    | Unbinding(bindId: byte)
    | SClosed(why: SenderEnd)

  /** `up` and `down` are all messages ever written to the sender and to the receiver; the rest of each
      after the part already read is in flight. */
  datatype State = State(r: ReceiverPc, s: SenderPc, up: seq<Msg>, upRead: nat, down: seq<Msg>, downRead: nat)

  const START := State(Greet, AwaitClient, [], 0, [], 0)

  /** A write fails only once the peer has closed; a read of a drained channel ends the session only then. */
  datatype Action =
    | ReceiverWrites(ok: bool)
    | ReceiverReads
    | ReceiverStops
    | SenderWrites(ok: bool)
    | SenderReads
    | Enumerates(ok: bool)
    | Claims(ok: bool)
    | HidReport(body: bytes, ok: bool)
    | HidEnds
    | HidFails

  function Next(cfg: Config, s: State, a: Action): Option<State> {
    match a
    case ReceiverWrites(ok) => ReceiverWrite(cfg, s, ok)
    case ReceiverReads => ReceiverRead(s, cfg)
    case ReceiverStops => if s.r.Streaming? then Some(s.(r := RClosed(RStopped, s.r.rv))) else None
    case SenderWrites(ok) => SenderWrite(cfg, s, ok)
    case SenderReads => SenderRead(cfg, s)
    case Enumerates(ok) =>
      if s.s.Enumerate? then Some(s.(s := if ok then AwaitList else SClosed(SFailed))) else None
    case Claims(ok) =>
      if s.s.Claim? then Some(s.(s := if ok then SendBindAck(s.s.target, s.s.bindId) else SClosed(SFailed))) else None
    case HidReport(body, ok) => Pump(cfg, s, body, ok)
    case HidEnds => if s.s.Pumping? then Some(s.(s := Unbinding(s.s.bindId))) else None
    case HidFails =>
      if s.s.Pumping? then Some(s.(s := if cfg.flavour.Linux? then SClosed(SFailed) else Unbinding(s.s.bindId)))
      else None
  }

  /** The message the receiver is about to write, and what it does next. */
  function ReceiverSays(cfg: Config, s: State): Option<(Msg, ReceiverPc)> {
    match s.r
    case Greet => Some((Hello, AwaitHello))
    case List => Some((ListDevices, AwaitDevices))
    case Request(c) =>
      if c < |cfg.devices| then Some((Attach(cfg.devices[c].busid, "hid"), AwaitAttach(c))) else None
    case SendBind(c) =>
      if c < |cfg.devices| then Some((Bind(1, cfg.devices[c].busid), Streaming(c, FRESH_RECEIVER))) else None
    case _ => None
  }

  function ReceiverWrite(cfg: Config, s: State, ok: bool): Option<State> {
    match ReceiverSays(cfg, s)
    case None => None
    case Some((m, pc)) =>
      if ok then Some(s.(r := pc, up := s.up + [m]))
      else if s.s.SClosed? then Some(s.(r := RClosed(RWriteFailed, FRESH_RECEIVER)))
      else None
  }

  predicate ReceiverWaits(r: ReceiverPc) {
    r.AwaitHello? || r.AwaitDevices? || r.AwaitAttach? || r.Streaming?
  }

  function ReceiverValue(r: ReceiverPc): Receiver {
    if r.Streaming? || r.RClosed? then r.rv else FRESH_RECEIVER
  }

  function ReceiverRead(s: State, cfg: Config): Option<State> {
    if !ReceiverWaits(s.r) then None
    else if s.downRead < |s.down| then
      Some(s.(r := ReceiverGets(cfg, s.r, s.down[s.downRead]), downRead := s.downRead + 1))
    else if s.s.SClosed? then Some(s.(r := RClosed(REof, ReceiverValue(s.r))))
    else None
  }

  function ReceiverGets(cfg: Config, r: ReceiverPc, m: Msg): ReceiverPc
    requires ReceiverWaits(r)
  {
    match r
    case AwaitHello => if m.HelloAck? then List else RClosed(RUnexpected, FRESH_RECEIVER)
    case AwaitDevices =>
      if !m.DeviceList? then RClosed(RUnexpected, FRESH_RECEIVER)
      else (
        var chosen := Pick(m.devices, cfg.busid);
        if chosen.Some? then Request(chosen.value) else RClosed(RNoDevice, FRESH_RECEIVER))
    case AwaitAttach(c) =>
      if m.AttachOk? then SendBind(c)
      else if m.AttachDenied? then RClosed(RDenied, FRESH_RECEIVER)
      else RClosed(RUnexpected, FRESH_RECEIVER)
    case Streaming(c, rv) =>
      (match Handle(rv, m)
       case Continue(next) => Streaming(c, next)
       case Break => RClosed(RUnbound, rv)
       case Fail => RClosed(RUnsupported, rv))
  }

  /** The message the sender is about to write, and what it does next. */
  function SenderSays(cfg: Config, s: State): Option<(Msg, SenderPc)> {
    match s.s
    case SendHello => Some((HelloAck, if cfg.flavour.Linux? then Enumerate else AwaitList))
    case SendList => Some((DeviceList(cfg.devices), AwaitRequest))
    case SendOk(j) => if j < |cfg.devices| then Some((AttachOk(cfg.devices[j].busid), AwaitBind(j))) else None
    case SendDenial(busid) => Some((AttachDenied(busid), SClosed(SDenied)))
    case SendBindAck(j, b) =>
      if j < |cfg.devices| then Some((BindAck(b, cfg.devices[j].kind), Pumping(j, b, 0))) else None
    case Unbinding(b) => Some((Unbind(b), SClosed(SDone)))
    case _ => None
  }

  /** A failed write ends the session, except that the result of the last one, of Unbind, is dropped. */
  function SenderWrite(cfg: Config, s: State, ok: bool): Option<State> {
    match SenderSays(cfg, s)
    case None => None
    case Some((m, pc)) =>
      if ok then Some(s.(s := pc, down := s.down + [m]))
      else if s.r.RClosed? then Some(s.(s := SClosed(if s.s.Unbinding? then SDone else SWriteFailed)))
      else None
  }

  /** One input report: numbered, then written; a failed write leaves the pump for the final Unbind. */
  function Pump(cfg: Config, s: State, body: bytes, ok: bool): Option<State> {
    if !s.s.Pumping? || (cfg.flavour.Linux? && !(1 <= |body| <= 64)) then None
    else (
      var number := Successor(s.s.counter);
      if ok then Some(s.(s := s.s.(counter := number), down := s.down + [ReportIn(s.s.bindId, number, body)]))
      else if s.r.RClosed? then Some(s.(s := Unbinding(s.s.bindId)))
      else None)
  }

  predicate SenderWaits(s: SenderPc) {
    s.AwaitClient? || s.AwaitList? || s.AwaitRequest? || s.AwaitBind?
  }

  function SenderRead(cfg: Config, s: State): Option<State> {
    if !SenderWaits(s.s) then None
    else if s.upRead < |s.up| then Some(s.(s := SenderGets(cfg, s.s, s.up[s.upRead]), upRead := s.upRead + 1))
    else if s.r.RClosed? then Some(s.(s := SClosed(SEof)))
    else None
  }

  function SenderGets(cfg: Config, s: SenderPc, m: Msg): SenderPc
    requires SenderWaits(s)
  {
    match s
    case AwaitClient => if m.Hello? then SendHello else SClosed(SUnexpected)
    case AwaitList => if m.ListDevices? then SendList else SClosed(SUnexpected)
    case AwaitRequest => if m.Attach? then Admit(cfg, m.busid, m.mode) else SClosed(SUnexpected)
    case AwaitBind(j) =>
      if !m.Bind? || j >= |cfg.devices| then SClosed(SUnexpected)
      else (
        var b := if m.bindId == 0 then 1 else m.bindId;
        if cfg.flavour.Android? then Claim(j, b)
        else if m.busid != cfg.devices[j].busid then SClosed(SWrongBusid)
        else SendBindAck(j, b))
  }

  /** Linux drops the connection on an unknown busid and ignores the mode; Android denies both. */
  function Admit(cfg: Config, busid: string, mode: string): SenderPc {
    var j := FindBusid(cfg.devices, busid, 0);
    if cfg.flavour.Linux? then if j.Some? then SendOk(j.value) else SClosed(SUnknownBusid)
    else if j.None? || mode != "hid" then SendDenial(busid)
    else SendOk(j.value)
  }

  function Execute(cfg: Config, s: State, actions: seq<Action>): Option<State>
    decreases |actions|
  {
    if actions == [] then Some(s)
    else (
      var n := Next(cfg, s, actions[0]);
      if n.None? then None else Execute(cfg, n.value, actions[1..]))
  }

  // What the two programs write, as constants of the configuration

  /** The device the receiver chooses, if any. */
  function Chosen(cfg: Config): (r: Option<nat>)
    ensures r.Some? ==> r.value < |cfg.devices|
  {
    Pick(cfg.devices, cfg.busid)
  }

  /** The device the sender binds: the first one with the chosen busid. */
  function Target(cfg: Config): (r: nat)
    requires Chosen(cfg).Some?
    ensures r < |cfg.devices| && cfg.devices[r].busid == cfg.devices[Chosen(cfg).value].busid
  {
    FindBusid(cfg.devices, cfg.devices[Chosen(cfg).value].busid, 0).value
  }

  function Requests(cfg: Config): seq<Msg> {
    if Chosen(cfg).None? then [Hello, ListDevices]
    else
      var busid := cfg.devices[Chosen(cfg).value].busid;
      [Hello, ListDevices, Attach(busid, "hid"), Bind(1, busid)]
  }

  function Replies(cfg: Config): seq<Msg> {
    if Chosen(cfg).None? then [HelloAck, DeviceList(cfg.devices)]
    else
      var target := cfg.devices[Target(cfg)];
      [HelloAck, DeviceList(cfg.devices), AttachOk(target.busid), BindAck(1, target.kind)]
  }

  /** Message `k` to the receiver: a fixed reply, then numbered reports, then at most one Unbind, at the very end. */
  predicate DownAt(cfg: Config, s: State, k: nat)
    requires k < |s.down|
  {
    if k < |Replies(cfg)| then s.down[k] == Replies(cfg)[k]
    else
      && k >= 4
      && if s.down[k].Unbind? then k == |s.down| - 1 && s.s.SClosed?
         else s.down[k].ReportIn? && s.down[k].number == Number(k - 3)
  }

  predicate Channels(cfg: Config, s: State) {
    && s.upRead <= |s.up| <= |Requests(cfg)|
    && s.downRead <= |s.down|
    && (forall k | 0 <= k < |s.up| :: s.up[k] == Requests(cfg)[k])
    && (forall k | 0 <= k < |s.down| :: DownAt(cfg, s, k))
  }

  /** The bodies of the reports among some messages. */
  function Bodies(ms: seq<Msg>): seq<bytes> {
    if ms == [] then []
    else
      var rest := Bodies(ms[..|ms| - 1]);
      if ms[|ms| - 1].ReportIn? then rest + [ms[|ms| - 1].body] else rest
  }

  /** The receiver has applied exactly the reports it read, without a complaint. */
  predicate Applied(s: State) {
    var rv := ReceiverValue(s.r);
    && rv.applied == Bodies(s.down[..Min(s.downRead, |s.down|)])
    && rv.log == R.Play(R.FRESH, rv.applied) && rv.prev == R.After(R.FRESH, rv.applied)
    && rv.jumps == 0 && rv.ignored == 0
  }

  predicate ReceiverAt(cfg: Config, s: State) {
    match s.r
    case Greet => |s.up| == 0 && s.downRead == 0
    case AwaitHello => |s.up| == 1 && s.downRead == 0
    case List => |s.up| == 1 && s.downRead == 1
    case AwaitDevices => |s.up| == 2 && s.downRead == 1
    case Request(c) => |s.up| == 2 && s.downRead == 2 && Chosen(cfg) == Some(c)
    case AwaitAttach(c) => |s.up| == 3 && s.downRead == 2 && Chosen(cfg) == Some(c)
    case SendBind(c) => |s.up| == 3 && s.downRead == 3 && Chosen(cfg) == Some(c)
    case Streaming(c, rv) =>
      && |s.up| == 4 && s.downRead >= 3 && Chosen(cfg) == Some(c)
      && (rv.bound <==> s.downRead > 3)
      && if rv.bound then rv.lastSeq == Number(s.downRead - 4) && Supported(cfg.devices[Target(cfg)].kind)
         else rv == FRESH_RECEIVER
    case RClosed(why, rv) =>
      && why !in {RUnexpected, RDenied}
      && (why in {REof, RUnbound} ==> s.s.SClosed? && s.downRead == |s.down|)
      && (why == RUnsupported ==> Chosen(cfg).Some? && !Supported(cfg.devices[Target(cfg)].kind))
      && (why == RNoDevice ==> Chosen(cfg).None?)
  }

  predicate SenderAt(cfg: Config, s: State) {
    match s.s
    case AwaitClient => s.upRead == 0 && |s.down| == 0
    case SendHello => s.upRead == 1 && |s.down| == 0
    case Enumerate => s.upRead == 1 && |s.down| == 1 && cfg.flavour.Linux?
    case AwaitList => s.upRead == 1 && |s.down| == 1
    case SendList => s.upRead == 2 && |s.down| == 1
    case AwaitRequest => s.upRead == 2 && |s.down| == 2
    case SendOk(j) => s.upRead == 3 && |s.down| == 2 && Chosen(cfg).Some? && j == Target(cfg)
    case SendDenial(_) => false
    case AwaitBind(j) => s.upRead == 3 && |s.down| == 3 && Chosen(cfg).Some? && j == Target(cfg)
    case Claim(j, b) =>
      cfg.flavour.Android? && s.upRead == 4 && |s.down| == 3 && Chosen(cfg).Some? && j == Target(cfg) && b == 1
    case SendBindAck(j, b) => s.upRead == 4 && |s.down| == 3 && Chosen(cfg).Some? && j == Target(cfg) && b == 1
    case Pumping(j, b, counter) =>
      && s.upRead == 4 && |s.down| >= 4 && Chosen(cfg).Some? && j == Target(cfg) && b == 1
      && counter == Number(|s.down| - 4)
    case Unbinding(b) => s.upRead == 4 && |s.down| >= 4 && b == 1
    case SClosed(why) => why !in {SUnexpected, SUnknownBusid, SWrongBusid, SDenied}
  }

  predicate Inv(cfg: Config, s: State) {
    Channels(cfg, s) && Applied(s) && ReceiverAt(cfg, s) && SenderAt(cfg, s)
  }

  lemma StartInv(cfg: Config)
    ensures Inv(cfg, START)
  {
  }

  lemma BodiesLast(ms: seq<Msg>, m: Msg)
    ensures Bodies(ms + [m]) == if m.ReportIn? then Bodies(ms) + [m.body] else Bodies(ms)
  {
    assert (ms + [m])[..|ms|] == ms;
  }

  lemma DownKept(cfg: Config, s: State, t: State)
    requires t.down == s.down && (s.s.SClosed? ==> t.s.SClosed?)
    requires forall k | 0 <= k < |s.down| :: DownAt(cfg, s, k)
    ensures forall k | 0 <= k < |t.down| :: DownAt(cfg, t, k)
  {
    hide Replies, Number;
    forall k | 0 <= k < |t.down| ensures DownAt(cfg, t, k) {
      assert DownAt(cfg, s, k);
    }
  }

  lemma ReceiverWriteInv(cfg: Config, s: State, ok: bool)
    requires Inv(cfg, s) && ReceiverWrite(cfg, s, ok).Some?
    ensures Inv(cfg, ReceiverWrite(cfg, s, ok).value)
  {
    hide Bodies, Pick, Target, DownAt, R.Play, R.After, Number;
    DownKept(cfg, s, ReceiverWrite(cfg, s, ok).value);
  }

  lemma SenderReadInv(cfg: Config, s: State)
    requires Inv(cfg, s) && SenderRead(cfg, s).Some?
    ensures Inv(cfg, SenderRead(cfg, s).value)
  {
    hide Bodies, Pick, DownAt, R.Play, R.After, Number;
    DownKept(cfg, s, SenderRead(cfg, s).value);
  }

  lemma SenderWriteInv(cfg: Config, s: State, ok: bool)
    requires Inv(cfg, s) && SenderWrite(cfg, s, ok).Some?
    ensures Inv(cfg, SenderWrite(cfg, s, ok).value)
  {
    hide Bodies, Pick, Target, R.Play, R.After;
    var t := SenderWrite(cfg, s, ok).value;
    assert s.down[..s.downRead] == t.down[..t.downRead];
    forall k | 0 <= k < |t.down| ensures DownAt(cfg, t, k) {
      assert k < |s.down| ==> DownAt(cfg, s, k);
    }
  }

  lemma PumpInv(cfg: Config, s: State, body: bytes, ok: bool)
    requires Inv(cfg, s) && Pump(cfg, s, body, ok).Some?
    ensures Inv(cfg, Pump(cfg, s, body, ok).value)
  {
    hide Bodies, Pick, Target, R.Play, R.After, Number, Successor;
    var t := Pump(cfg, s, body, ok).value;
    assert s.down[..s.downRead] == t.down[..t.downRead];
    NumberStep(|s.down| - 4);
    forall k | 0 <= k < |t.down| ensures DownAt(cfg, t, k) {
      assert k < |s.down| ==> DownAt(cfg, s, k);
    }
  }

  /** The receiver's loop meets what the channel promises at its position. */
  lemma HandleInv(cfg: Config, s: State)
    requires Inv(cfg, s) && s.r.Streaming? && s.downRead < |s.down|
    ensures var rv, m := s.r.rv, s.down[s.downRead];
            match Handle(rv, m)
            case Continue(next) =>
              && next.bound && Supported(cfg.devices[Target(cfg)].kind)
              && next.lastSeq == Number(s.downRead - 3) && next.jumps == 0 && next.ignored == 0
              && next.applied == (if m.ReportIn? then rv.applied + [m.body] else rv.applied)
              && next.log == R.Play(R.FRESH, next.applied) && next.prev == R.After(R.FRESH, next.applied)
            case Break => m.Unbind? && s.s.SClosed? && s.downRead == |s.down| - 1
            case Fail => m.BindAck? && !Supported(cfg.devices[Target(cfg)].kind)
  {
    hide Bodies, Pick, Target, R.Play, R.After, Successor, R.Next, R.ReportEvents;
    assert DownAt(cfg, s, s.downRead);
    if s.downRead > 3 {
      NumberStep(s.downRead - 4);
    }
    if s.down[s.downRead].ReportIn? {
      R.PlayLast(R.FRESH, s.r.rv.applied, s.down[s.downRead].body);
    }
  }

  /** During the handshake the next message is the reply the receiver is waiting for. */
  lemma ReplyAt(cfg: Config, s: State)
    requires Channels(cfg, s) && s.downRead < |s.down|
    ensures s.downRead < |Replies(cfg)| ==> s.down[s.downRead] == Replies(cfg)[s.downRead]
  {
    assert DownAt(cfg, s, s.downRead);
  }

  lemma ReceiverReadInv(cfg: Config, s: State)
    requires Inv(cfg, s) && ReceiverRead(s, cfg).Some?
    ensures Inv(cfg, ReceiverRead(s, cfg).value)
  {
    hide Bodies, Pick, Target, DownAt, R.Play, R.After, Number, Successor, Handle;
    var t := ReceiverRead(s, cfg).value;
    DownKept(cfg, s, t);
    if s.downRead < |s.down| {
      ReplyAt(cfg, s);
      assert t.down[..t.downRead] == s.down[..s.downRead] + [s.down[s.downRead]];
      BodiesLast(s.down[..s.downRead], s.down[s.downRead]);
      if s.r.Streaming? {
        HandleInv(cfg, s);
      }
    }
  }

  lemma StepInv(cfg: Config, s: State, a: Action)
    requires Inv(cfg, s) && Next(cfg, s, a).Some?
    ensures Inv(cfg, Next(cfg, s, a).value)
  {
    hide Inv, ReceiverWrite, ReceiverRead, SenderWrite, SenderRead, Pump;
    match a {
      case ReceiverWrites(ok) => ReceiverWriteInv(cfg, s, ok);
      case ReceiverReads => ReceiverReadInv(cfg, s);
      case SenderWrites(ok) => SenderWriteInv(cfg, s, ok);
      case SenderReads => SenderReadInv(cfg, s);
      case HidReport(body, ok) => PumpInv(cfg, s, body, ok);
      case ReceiverStops | Enumerates(_) | Claims(_) | HidEnds | HidFails => LocalInv(cfg, s, a);
    }
  }

  /** Steps that touch no channel. */
  lemma LocalInv(cfg: Config, s: State, a: Action)
    requires Inv(cfg, s) && Next(cfg, s, a).Some?
    requires a.ReceiverStops? || a.Enumerates? || a.Claims? || a.HidEnds? || a.HidFails?
    ensures Inv(cfg, Next(cfg, s, a).value)
  {
    hide Bodies, Target, DownAt, R.Play, R.After, Number, ReceiverWrite, ReceiverRead, SenderWrite, SenderRead, Pump;
    DownKept(cfg, s, Next(cfg, s, a).value);
  }

  lemma {:induction false} ExecuteInv(cfg: Config, s: State, actions: seq<Action>)
    requires Inv(cfg, s) && Execute(cfg, s, actions).Some?
    ensures Inv(cfg, Execute(cfg, s, actions).value)
    decreases |actions|
  {
    hide Inv, Next;
    if actions != [] {
      StepInv(cfg, s, actions[0]);
      ExecuteInv(cfg, Next(cfg, s, actions[0]).value, actions[1..]);
    }
  }

  // Theorems over every run of the two programs, under any interleaving and any stop, failure or end of input

  ghost predicate Reachable(cfg: Config, s: State) {
    exists actions :: Execute(cfg, START, actions) == Some(s)
  }

  lemma ReachableInv(cfg: Config, s: State)
    requires Reachable(cfg, s)
    ensures Inv(cfg, s)
  {
    hide Inv, Execute;
    var actions :| Execute(cfg, START, actions) == Some(s);
    StartInv(cfg);
    ExecuteInv(cfg, START, actions);
  }

  function InFlight(s: State): seq<Msg> {
    if s.downRead <= |s.down| then s.down[s.downRead..] else []
  }

  lemma {:induction false} BodiesConcat(a: seq<Msg>, b: seq<Msg>)
    ensures Bodies(a + b) == Bodies(a) + Bodies(b)
    decreases |b|
  {
    if b == [] {
      assert a + b == a;
    } else {
      var init, last := b[..|b| - 1], b[|b| - 1];
      BodiesConcat(a, init);
      BodiesLast(a + init, last);
      assert a + b == (a + init) + [last];
    }
  }

  /** Neither side ever meets an unexpected message, and none is denied or refused over its busid. */
  lemma NothingUnexpected(cfg: Config, s: State)
    requires Reachable(cfg, s)
    ensures s.r.RClosed? ==> s.r.why != RUnexpected && s.r.why != RDenied
    ensures s.s.SClosed? ==> s.s.why !in {SUnexpected, SUnknownBusid, SWrongBusid, SDenied}
  {
    hide Channels, Applied;
    ReachableInv(cfg, s);
  }

  /** The receiver streams from mice and keyboards only, and gives up on gamepads and other devices only. */
  lemma StreamsIffSupported(cfg: Config, s: State)
    requires Reachable(cfg, s)
    ensures s.r.Streaming? && s.r.rv.bound ==> Chosen(cfg).Some? && cfg.devices[Target(cfg)].kind in {Mouse, Keyboard}
    ensures s.r.RClosed? && s.r.why == RUnsupported ==>
              Chosen(cfg).Some? && cfg.devices[Target(cfg)].kind in {Gamepad, Other}
  {
    hide Channels, Applied, Target;
    ReachableInv(cfg, s);
  }

  /** Only the Linux sender enumerates, and only the Android sender claims. */
  lemma FlavourPhases(cfg: Config, s: State)
    requires Reachable(cfg, s)
    ensures s.s.Enumerate? ==> cfg.flavour.Linux?
    ensures s.s.Claim? ==> cfg.flavour.Android?
  {
    hide Channels, Applied, Target;
    ReachableInv(cfg, s);
  }

  // What the sender reads from the device, told by the actions alone

  /** The reports read and written, in order. */
  function ReportsRead(actions: seq<Action>): seq<bytes> {
    if actions == [] then []
    else if actions[0].HidReport? && actions[0].ok then [actions[0].body] + ReportsRead(actions[1..])
    else ReportsRead(actions[1..])
  }

  lemma StepSends(cfg: Config, s: State, a: Action)
    requires Next(cfg, s, a).Some?
    ensures Bodies(Next(cfg, s, a).value.down) == Bodies(s.down) + ReportsRead([a])
  {
    hide Bodies, Handle, Pick, Admit, Successor;
    var t := Next(cfg, s, a).value;
    assert [a][1..] == [];
    if |t.down| > |s.down| {
      BodiesLast(s.down, t.down[|s.down|]);
      assert t.down == s.down + [t.down[|s.down|]];
    }
  }

  /** The channel carries exactly the reports that were read. */
  lemma {:induction false} SentIsRead(cfg: Config, s: State, actions: seq<Action>)
    requires Execute(cfg, s, actions).Some?
    ensures Bodies(Execute(cfg, s, actions).value.down) == Bodies(s.down) + ReportsRead(actions)
    decreases |actions|
  {
    hide Next, Bodies;
    if actions != [] {
      var t := Next(cfg, s, actions[0]).value;
      StepSends(cfg, s, actions[0]);
      SentIsRead(cfg, t, actions[1..]);
      assert [actions[0]][1..] == [];
      assert Bodies(s.down) + ReportsRead([actions[0]]) + ReportsRead(actions[1..])
          == Bodies(s.down) + ReportsRead(actions);
    }
  }

  lemma RunSends(cfg: Config, s: State, actions: seq<Action>)
    requires Execute(cfg, START, actions) == Some(s)
    ensures Reachable(cfg, s) && Bodies(s.down) == ReportsRead(actions)
  {
    hide Execute;
    SentIsRead(cfg, START, actions);
    assert Bodies(START.down) == [];
  }

  /** Applied reports followed by those in flight are the reports read; the detector never fires on them, none is
      dropped for coming too early, and the device's log is what the decoder makes of the applied ones. */
  lemma ReportsInOrder(cfg: Config, s: State, actions: seq<Action>)
    requires Execute(cfg, START, actions) == Some(s)
    ensures var rv := ReceiverValue(s.r);
            && rv.applied + Bodies(InFlight(s)) == ReportsRead(actions)
            && rv.jumps == 0 && rv.ignored == 0
            && rv.log == R.Play(R.FRESH, rv.applied)
  {
    hide ReceiverAt, SenderAt, Bodies, R.Play, Execute, Reachable;
    RunSends(cfg, s, actions);
    ReachableInv(cfg, s);
    BodiesConcat(s.down[..s.downRead], s.down[s.downRead..]);
    assert s.down == s.down[..s.downRead] + s.down[s.downRead..];
  }

  /** No report is ever sent ahead of the BindAck; the i-th one sent is the i-th one read, and carries i. */
  lemma BindAckFirst(cfg: Config, s: State, actions: seq<Action>, k: nat)
    requires Execute(cfg, START, actions) == Some(s) && k < |s.down| && s.down[k].ReportIn?
    ensures k > 3 && s.down[3].BindAck? && s.down[k].number == Number(k - 3)
    ensures |ReportsRead(actions)| > k - 4 && s.down[k].body == ReportsRead(actions)[k - 4]
  {
    hide ReceiverAt, SenderAt, Applied, Number, Execute, Bodies, Reachable;
    RunSends(cfg, s, actions);
    ReachableInv(cfg, s);
    assert DownAt(cfg, s, k);
    if k > 3 {
      assert DownAt(cfg, s, 3);
      ReportPosition(cfg, s, k);
      BodiesLast(s.down[..k], s.down[k]);
      BodiesConcat(s.down[..k + 1], s.down[k + 1..]);
      assert s.down[..k + 1] == s.down[..k] + [s.down[k]] && s.down == s.down[..k + 1] + s.down[k + 1..];
    }
  }

  /** Behind the four replies every message short of an Unbind is a report. */
  lemma {:induction false} ReportPosition(cfg: Config, s: State, n: nat)
    requires Channels(cfg, s) && 4 <= n < |s.down|
    ensures |Bodies(s.down[..n])| == n - 4
  {
    hide Number, Bodies;
    if n == 4 {
      NoReportsYet(cfg, s, 4);
    } else {
      ReportPosition(cfg, s, n - 1);
      assert DownAt(cfg, s, n - 1);
      assert s.down[..n] == s.down[..n - 1] + [s.down[n - 1]];
      BodiesLast(s.down[..n - 1], s.down[n - 1]);
    }
  }

  lemma {:induction false} NoReportsYet(cfg: Config, s: State, n: nat)
    requires Channels(cfg, s) && n <= 4 && n <= |s.down|
    ensures Bodies(s.down[..n]) == []
  {
    hide Number;
    if n > 0 {
      hide Bodies;
      NoReportsYet(cfg, s, n - 1);
      assert DownAt(cfg, s, n - 1);
      assert s.down[..n] == s.down[..n - 1] + [s.down[n - 1]];
      BodiesLast(s.down[..n - 1], s.down[n - 1]);
    }
  }

  /** When the receiver leaves on an Unbind or on end of stream, it has applied every report that was read,
      and the sender is done. */
  lemma NothingLostAtTheEnd(cfg: Config, s: State, actions: seq<Action>)
    requires Execute(cfg, START, actions) == Some(s) && s.r.RClosed? && s.r.why in {REof, RUnbound}
    ensures s.s.SClosed? && s.r.rv.applied == ReportsRead(actions)
  {
    hide SenderAt, DownAt, Bodies, R.Play, Execute, Reachable;
    RunSends(cfg, s, actions);
    ReachableInv(cfg, s);
    assert s.down[..|s.down|] == s.down;
  }

  /** From hidraw to the virtual device: after such an end, held are exactly the buttons and keys of the last
      reports the sender read from its device. */
  lemma EndToEnd(cfg: Config, s: State, actions: seq<Action>, x: u16)
    requires Execute(cfg, START, actions) == Some(s) && s.r.RClosed? && s.r.why in {REof, RUnbound}
    ensures var read := ReportsRead(actions);
            x in R.Held({}, s.r.rv.log) <==>
            || R.Bits(R.BUTTON_CODES, R.LastButtons(read), x)
            || R.Bits(R.MODIFIER_CODES, R.LastKeyboard(read)[0], x)
            || R.Mapped(R.LastKeyboard(read)[2..], x)
  {
    hide *;
    NothingLostAtTheEnd(cfg, s, actions);
    ReportsInOrder(cfg, s, actions);
    ReceiverLog(s);
    R.KeyboardAgreement(ReportsRead(actions), x);
  }

  /** And the pointer has moved by the sum of all the reports read. */
  lemma EndToEndMotion(cfg: Config, s: State, actions: seq<Action>, axis: R.Axis)
    requires Execute(cfg, START, actions) == Some(s) && s.r.RClosed? && s.r.why in {REof, RUnbound}
    ensures R.Travel(s.r.rv.log, axis) == R.Sum(ReportsRead(actions), axis)
  {
    hide *;
    NothingLostAtTheEnd(cfg, s, actions);
    ReportsInOrder(cfg, s, actions);
    ReceiverLog(s);
    R.MouseConservation(ReportsRead(actions), 0, axis);
  }

  lemma ReceiverLog(s: State)
    requires s.r.RClosed?
    ensures ReceiverValue(s.r) == s.r.rv
  {
  }

  /** Steps the two programs take on their own, without the stop flag, failures or input from the device. */
  predicate Internal(a: Action) {
    match a
    case ReceiverWrites(ok) => ok
    case SenderWrites(ok) => ok
    case Enumerates(ok) => ok
    case Claims(ok) => ok
    case ReceiverReads | SenderReads => true
    case _ => false
  }

  /** Waiting for the input device only: every report sent so far has been read, or the receiver is gone. */
  predicate Idle(s: State) {
    s.s.Pumping? && (s.r.RClosed? || (s.r.Streaming? && s.downRead == |s.down|))
  }

  /** No deadlock: some program can move, unless both are closed or the session waits for the input device. */
  lemma NoDeadlock(cfg: Config, s: State)
    requires Reachable(cfg, s)
    ensures (s.r.RClosed? && s.s.SClosed?) || Idle(s) || exists a :: Internal(a) && Next(cfg, s, a).Some?
  {
    hide Bodies, DownAt, Target, R.Play, R.After, Applied, Number, Pump, Execute;
    ReachableInv(cfg, s);
    if ReceiverSays(cfg, s).Some? {
      assert Next(cfg, s, ReceiverWrites(true)).Some?;
    } else if SenderSays(cfg, s).Some? {
      assert Next(cfg, s, SenderWrites(true)).Some?;
    } else if s.s.Enumerate? {
      assert Next(cfg, s, Enumerates(true)).Some?;
    } else if s.s.Claim? {
      assert Next(cfg, s, Claims(true)).Some?;
    } else if ReceiverWaits(s.r) && (s.downRead < |s.down| || s.s.SClosed?) {
      assert Next(cfg, s, ReceiverReads).Some?;
    } else if SenderWaits(s.s) && (s.upRead < |s.up| || s.r.RClosed?) {
      assert Next(cfg, s, SenderReads).Some?;
    }
  }

  // Every run is finite between reports

  /** Grows with every step. */
  function Progress(s: State): nat {
    |s.up| + s.upRead + |s.down| + s.downRead + (if s.r.RClosed? then 1 else 0) + SenderStage(s.s)
  }

  function SenderStage(s: SenderPc): nat {
    match s
    case AwaitClient | SendHello | Enumerate => 0
    case AwaitList | SendList | AwaitRequest | SendOk(_) | SendDenial(_) | AwaitBind(_) | Claim(_, _) => 1
    case SendBindAck(_, _) | Pumping(_, _, _) => 2
    case Unbinding(_) => 3
    case SClosed(_) => 4
  }

  lemma StepProgress(cfg: Config, s: State, a: Action)
    requires Next(cfg, s, a).Some?
    ensures Progress(Next(cfg, s, a).value) > Progress(s)
  {
    hide Handle, Pick, FindBusid, Successor;
  }

  lemma {:induction false} ExecuteProgress(cfg: Config, s: State, actions: seq<Action>)
    requires Execute(cfg, s, actions).Some?
    ensures Progress(Execute(cfg, s, actions).value) >= Progress(s) + |actions|
    decreases |actions|
  {
    hide Next, Progress;
    if actions != [] {
      StepProgress(cfg, s, actions[0]);
      ExecuteProgress(cfg, Next(cfg, s, actions[0]).value, actions[1..]);
    }
  }

  /** All but at most five of the messages sent to the receiver are reports. */
  lemma {:induction false} MostAreReports(cfg: Config, s: State, n: nat)
    requires Channels(cfg, s) && n <= |s.down|
    ensures |Bodies(s.down[..n])| + (if n == |s.down| then 5 else 4) >= n
  {
    hide Replies, Number;
    if n > 0 {
      MostAreReports(cfg, s, n - 1);
      assert DownAt(cfg, s, n - 1);
      assert s.down[..n] == s.down[..n - 1] + [s.down[n - 1]];
      BodiesLast(s.down[..n - 1], s.down[n - 1]);
      FewReplies(cfg);
    }
  }

  lemma FewReplies(cfg: Config)
    ensures |Replies(cfg)| <= 4 && |Requests(cfg)| <= 4
  {
  }

  lemma ReadsBounded(cfg: Config, s: State)
    requires Channels(cfg, s)
    ensures Progress(s) <= 23 + 2 * |Bodies(s.down)|
  {
    hide Replies, Requests, Bodies, DownAt;
    MostAreReports(cfg, s, |s.down|);
    FewReplies(cfg);
    assert s.down[..|s.down|] == s.down;
  }

  /** A run that has read n reports has taken at most 23 + 2n steps: with `NoDeadlock`, every schedule finishes
      the handshake and delivers each report within a bounded number of steps. */
  lemma RunBound(cfg: Config, actions: seq<Action>)
    requires Execute(cfg, START, actions).Some?
    ensures |actions| <= 23 + 2 * |ReportsRead(actions)|
  {
    hide Execute, Applied, Bodies, ReceiverAt, SenderAt, Reachable;
    var s := Execute(cfg, START, actions).value;
    StartInv(cfg);
    ExecuteInv(cfg, START, actions);
    ExecuteProgress(cfg, START, actions);
    RunSends(cfg, s, actions);
    ReadsBounded(cfg, s);
  }

  // How a session ends, told by the actions alone

  /** What makes the sender give up. */
  predicate SenderFailure(cfg: Config, a: Action) {
    a == Enumerates(false) || a == Claims(false) || (a.HidFails? && cfg.flavour.Linux?)
  }

  /** What takes the sender from its pump to the final Unbind. */
  predicate PumpEnd(cfg: Config, a: Action) {
    a.HidEnds? || (a.HidFails? && cfg.flavour.Android?) || (a.HidReport? && !a.ok)
  }

  predicate Done(s: State) {
    s.s.Unbinding? || s.s == SClosed(SDone)
  }

  /** A sender that is done has said so, unless nobody listens any more. */
  predicate SaidGoodbye(s: State) {
    s.s == SClosed(SDone) ==> (s.down != [] && s.down[|s.down| - 1].Unbind?) || s.r.RClosed?
  }

  lemma StepEnds(cfg: Config, s: State, a: Action)
    requires Next(cfg, s, a).Some?
    ensures var t := Next(cfg, s, a).value;
            && (t.s == SClosed(SFailed) <==> s.s == SClosed(SFailed) || SenderFailure(cfg, a))
            && (t.r.RClosed? && t.r.why == RStopped <==> (s.r.RClosed? && s.r.why == RStopped) || a == ReceiverStops)
            && (Done(t) <==> Done(s) || PumpEnd(cfg, a))
            && (SaidGoodbye(s) ==> SaidGoodbye(t))
  {
    hide Handle, Pick, FindBusid, Successor;
  }

  lemma {:induction false} EndsFrom(cfg: Config, s: State, actions: seq<Action>)
    requires Execute(cfg, s, actions).Some?
    ensures var t := Execute(cfg, s, actions).value;
            && (t.s == SClosed(SFailed) <==>
                  s.s == SClosed(SFailed) || exists a :: a in actions && SenderFailure(cfg, a))
            && (t.r.RClosed? && t.r.why == RStopped <==>
                  (s.r.RClosed? && s.r.why == RStopped) || ReceiverStops in actions)
            && (Done(t) <==> Done(s) || exists a :: a in actions && PumpEnd(cfg, a))
            && (SaidGoodbye(s) ==> SaidGoodbye(t))
    decreases |actions|
  {
    hide Next, SenderFailure, PumpEnd, Done, SaidGoodbye;
    if actions != [] {
      StepEnds(cfg, s, actions[0]);
      EndsFrom(cfg, Next(cfg, s, actions[0]).value, actions[1..]);
      assert forall a :: a in actions <==> a == actions[0] || a in actions[1..];
    }
  }

  /**
   * Each end has its cause: the sender fails iff enumeration, claim or a Linux read failed; the receiver is stopped
   * iff its flag was raised; the sender heads for a polite end iff its input ended or a write failed; and having
   * ended politely it has sent an Unbind, unless the receiver was gone.
   */
  lemma EndsHaveCauses(cfg: Config, s: State, actions: seq<Action>)
    requires Execute(cfg, START, actions) == Some(s)
    ensures s.s == SClosed(SFailed) <==> exists a :: a in actions && SenderFailure(cfg, a)
    ensures s.r.RClosed? && s.r.why == RStopped <==> ReceiverStops in actions
    ensures Done(s) <==> exists a :: a in actions && PumpEnd(cfg, a)
    ensures SaidGoodbye(s)
  {
    hide Execute, SenderFailure, PumpEnd;
    EndsFrom(cfg, START, actions);
  }

  /** Any client: which device an Attach gets it, and what becomes of a Bind. */
  lemma ForeignClient(cfg: Config, busid: string, mode: string, j: nat, b: byte)
    requires j < |cfg.devices|
    ensures var known := exists k :: 0 <= k < |cfg.devices| && cfg.devices[k].busid == busid;
            var pc := SenderGets(cfg, AwaitRequest, Attach(busid, mode));
            && (pc.SendOk? <==> known && (cfg.flavour.Linux? || mode == "hid"))
            && (pc.SendOk? ==> pc.target < |cfg.devices| && cfg.devices[pc.target].busid == busid
                               && forall k | 0 <= k < pc.target :: cfg.devices[k].busid != busid)
            && (pc == SClosed(SUnknownBusid) <==> cfg.flavour.Linux? && !known)
            && (pc == SendDenial(busid) <==> cfg.flavour.Android? && !(known && mode == "hid"))
    ensures var pc := SenderGets(cfg, AwaitBind(j), Bind(b, busid));
            var bindId := if b == 0 then 1 else b;
            && (pc == Claim(j, bindId) <==> cfg.flavour.Android?)
            && (pc == SendBindAck(j, bindId) <==> cfg.flavour.Linux? && busid == cfg.devices[j].busid)
            && (pc == SClosed(SWrongBusid) <==> cfg.flavour.Linux? && busid != cfg.devices[j].busid)
  {
  }

  // Which device is bound

  /** The sender binds the very device the receiver chose iff no earlier device has the same busid. */
  lemma BoundIsChosen(cfg: Config, s: State)
    requires Reachable(cfg, s) && s.s.Pumping?
    ensures Chosen(cfg).Some?
    ensures s.s.target == Chosen(cfg).value <==>
            forall k | 0 <= k < Chosen(cfg).value :: cfg.devices[k].busid != cfg.devices[Chosen(cfg).value].busid
  {
    hide Channels, Applied, Execute, Pick;
    ReachableInv(cfg, s);
  }

  /** So it does for an explicit busid, for distinct busids, and when only HID devices are listed. */
  lemma BoundIsChosenWhen(cfg: Config, s: State)
    requires Reachable(cfg, s) && s.s.Pumping?
    requires || cfg.busid.Some?
             || (forall j, k | 0 <= j < k < |cfg.devices| :: cfg.devices[j].busid != cfg.devices[k].busid)
             || (forall k | 0 <= k < |cfg.devices| :: cfg.devices[k].isHid)
    ensures Chosen(cfg) == Some(s.s.target)
  {
    BoundIsChosen(cfg, s);
  }

  // The handshake completes

  lemma Then(cfg: Config, s: State, a: Action) returns (t: State)
    requires Reachable(cfg, s) && Next(cfg, s, a).Some?
    ensures t == Next(cfg, s, a).value && Reachable(cfg, t)
  {
    hide Next;
    t := Next(cfg, s, a).value;
    var actions :| Execute(cfg, START, actions) == Some(s);
    ExecuteLast(cfg, START, actions, a);
    assert Execute(cfg, START, actions + [a]) == Some(t);
  }

  lemma {:induction false} ExecuteLast(cfg: Config, s: State, actions: seq<Action>, a: Action)
    requires Execute(cfg, s, actions).Some? && Next(cfg, Execute(cfg, s, actions).value, a).Some?
    ensures Execute(cfg, s, actions + [a]) == Next(cfg, Execute(cfg, s, actions).value, a)
    decreases |actions|
  {
    hide Next;
    if actions == [] {
      assert [] + [a] == [a] && [a][1..] == [];
    } else {
      HeadTail(actions, [a]);
      ExecuteLast(cfg, Next(cfg, s, actions[0]).value, actions[1..], a);
    }
  }

  lemma Greeted(cfg: Config) returns (s: State)
    ensures Reachable(cfg, s) && s == State(List, AwaitList, [Hello], 1, [HelloAck], 1)
  {
    hide Reachable, Pick;
    Started(cfg);
    s := Then(cfg, START, ReceiverWrites(true));
    s := Then(cfg, s, SenderReads);
    s := Then(cfg, s, SenderWrites(true));
    if cfg.flavour.Linux? {
      s := Then(cfg, s, Enumerates(true));
    }
    s := Then(cfg, s, ReceiverReads);
  }

  lemma Started(cfg: Config)
    ensures Reachable(cfg, START)
  {
    assert Execute(cfg, START, []) == Some(START);
  }

  lemma Listed(cfg: Config) returns (s: State)
    requires Chosen(cfg).Some?
    ensures Reachable(cfg, s)
    ensures s == State(Request(Chosen(cfg).value), AwaitRequest, Requests(cfg)[..2], 2, Replies(cfg)[..2], 2)
  {
    hide Reachable, Pick, Target;
    s := Greeted(cfg);
    s := Then(cfg, s, ReceiverWrites(true));
    s := Then(cfg, s, SenderReads);
    s := Then(cfg, s, SenderWrites(true));
    s := Then(cfg, s, ReceiverReads);
  }

  lemma Attached(cfg: Config) returns (s: State)
    requires Chosen(cfg).Some?
    ensures Reachable(cfg, s)
    ensures s == State(SendBind(Chosen(cfg).value), AwaitBind(Target(cfg)), Requests(cfg)[..3], 3, Replies(cfg)[..3], 3)
  {
    hide Reachable, Pick;
    s := Listed(cfg);
    s := Then(cfg, s, ReceiverWrites(true));
    s := Then(cfg, s, SenderReads);
    s := Then(cfg, s, SenderWrites(true));
    s := Then(cfg, s, ReceiverReads);
  }

  /** Whenever the receiver finds a device to choose, some run gets both sides past the handshake. */
  lemma Acknowledged(cfg: Config) returns (s: State)
    requires Chosen(cfg).Some?
    ensures Reachable(cfg, s)
    ensures s == State(
                   Streaming(Chosen(cfg).value, FRESH_RECEIVER), Pumping(Target(cfg), 1, 0),
                   Requests(cfg), 4, Replies(cfg), 3)
  {
    hide Reachable, Pick, Target;
    s := Attached(cfg);
    s := Then(cfg, s, ReceiverWrites(true));
    s := Then(cfg, s, SenderReads);
    if cfg.flavour.Android? {
      s := Then(cfg, s, Claims(true));
    }
    s := Then(cfg, s, SenderWrites(true));
  }

  /** The receiver then opens its virtual device iff the bound one is a mouse or a keyboard. */
  lemma HandshakeCompletes(cfg: Config) returns (s: State)
    requires Chosen(cfg).Some?
    ensures Reachable(cfg, s) && s.s == Pumping(Target(cfg), 1, 0) && s.downRead == 4 == |s.down|
    ensures s.r == if cfg.devices[Target(cfg)].kind in {Mouse, Keyboard}
                   then Streaming(Chosen(cfg).value, FRESH_RECEIVER.(bound := true))
                   else RClosed(RUnsupported, FRESH_RECEIVER)
  {
    hide Reachable, Pick, Target;
    s := Acknowledged(cfg);
    s := Then(cfg, s, ReceiverReads);
  }

  /**
   * With two interfaces of one device listed, of which only the second is a HID interface, the receiver chooses
   * the second, the sender binds the first, and the receiver gives up. A Linux sender lists such a pair when the
   * first hidraw node belongs to an interface of another class, or when its bInterfaceClass cannot be read, which
   * counts as class 0.
   */
  lemma WrongDeviceBound() returns (cfg: Config, s: State)
    ensures cfg.devices == [Device("1-1", false, Other), Device("1-1", true, Keyboard)]
    ensures Reachable(cfg, s) && Chosen(cfg) == Some(1) && s.s.Pumping? && s.s.target == 0
    ensures s.r.RClosed? && s.r.why == RUnsupported
  {
    cfg := Config(Linux, [Device("1-1", false, Other), Device("1-1", true, Keyboard)], None);
    assert FindHid(cfg.devices, 0) == Some(1);
    s := HandshakeCompletes(cfg);
  }
}
