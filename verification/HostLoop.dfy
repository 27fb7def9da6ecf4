/** The scripted driver and the Kotlin pump in a closed loop, with the caller that takes envelopes off in between. */
module HostLoops {
  import opened Bytes
  import opened Envelopes
  import opened UrbCodec
  import opened Refinement
  import D = UrbDriver
  import L = Loopback
  import R = UrbPump
  import K = UsbIpHosts
  import C = CancelledSets

  datatype HostState = Serving | Ended(why: K.Input) | Crashed

  /**
   * Three processes and the bytes between them: envelopes to the caller, raw packets to the pump, and envelopes
   * back to the driver. `passing` holds until the caller has seen the driver close.
   */
  datatype World = World(
    phase: D.Phase, driver: D.DriverStats, passing: bool, host: HostState, st: K.State,
    toCaller: bytes, toHost: bytes, toDriver: bytes)

  datatype Actor = Driver | Caller | Host

  const START := World(D.Sending(0), D.NOTHING, true, Serving, K.State({}, 0), [], [], [])

  /** `None`: the driver is blocked in a read, or has returned. */
  function StepDriver(cfg: D.Config, w: World): Option<World> {
    match w.phase
    case Sending(k) =>
      if k > |cfg.script| || !Fits(D.Request(cfg.id, cfg.script, k)) then Some(w.(phase := D.Failed))
      else Some(w.(phase := D.Awaiting(k), driver := D.Issued(w.driver, cfg.script, k),
                   toCaller := w.toCaller + Frame(D.Request(cfg.id, cfg.script, k))))
    case Awaiting(k) => (
      match RustRecv(w.toDriver)
      case Received(env, rest) =>
        var j := if k <= |cfg.script| then D.Judge(cfg.id, cfg.script, k, env, w.driver) else None;
        if j.None? then Some(w.(phase := D.Failed))
        else Some(w.(phase := if k < |cfg.script| then D.Sending(k + 1) else D.Done,
                     driver := j.value, toDriver := rest))
      case Malformed => Some(w.(phase := D.Failed))
      case Starved => if w.host.Serving? then None else Some(w.(phase := D.Failed)))
    case _ => None
  }

  /** Strips envelope and import_id off the packets of this session, and closes when its input does. */
  function StepCaller(cfg: D.Config, w: World): Option<World> {
    if !w.passing then None
    else
      match KotlinRead(w.toCaller)
      case Received(env, rest) =>
        var f := ParseUsbip(env.payload);
        var raw := if env.channel == Usbip && f.Some? && f.value.importId == cfg.id then f.value.raw else [];
        Some(w.(toCaller := rest, toHost := w.toHost + raw))
      case Malformed => Some(w.(passing := false))
      case Starved => if w.phase.Done? || w.phase.Failed? then Some(w.(passing := false)) else None
  }

  /** `None`: the pump is blocked in a read, or has returned. */
  function StepHost(cfg: D.Config, w: World): Option<World> {
    if !w.host.Serving? then None
    else
      match K.ReadCommand(w.toHost)
      case Got(c, rest) => (
        match K.Serve(AsHost(cfg.dev, cfg.id), AsDevice(cfg.dev), w.st, c)
        case Crashed => Some(w.(host := Crashed, toHost := rest))
        case Served(st, reply) =>
          if 4 + |reply| >= K.INT_LIMIT then Some(w.(host := Crashed))
          else Some(w.(st := st, toHost := rest, toDriver := w.toDriver + Frame(R.UsbipEnvelope(cfg.id, reply)))))
      case BadCommand => Some(w.(host := Ended(K.BadCommand)))
      case why => if w.passing then None else Some(w.(host := Ended(why)))
  }

  function Step(cfg: D.Config, w: World, a: Actor): Option<World> {
    match a
    case Driver => StepDriver(cfg, w)
    case Caller => StepCaller(cfg, w)
    case Host => StepHost(cfg, w)
  }

  /** The state after a schedule, or `None` if the schedule lets a blocked process move. */
  function Execute(cfg: D.Config, schedule: seq<Actor>): Option<World> {
    if schedule == [] then Some(START)
    else
      match Execute(cfg, schedule[..|schedule| - 1])
      case None => None
      case Some(w) => Step(cfg, w, schedule[|schedule| - 1])
  }

  /** The device serves the script as expected, and both pumps agree on each of its URBs. */
  predicate Ready(cfg: D.Config) {
    D.Served(cfg) && forall k | 0 <= k < |cfg.script| :: Agrees(cfg.dev, D.CommandOf(cfg.script[k]))
  }

  function Packet(cfg: D.Config, k: nat): bytes
    requires k <= |cfg.script|
  {
    R.WriteCommand(D.Exchange(cfg.script, k))
  }

  /** The answer to exchange `k`: that of the Rust pump, blanked. */
  function Answer(cfg: D.Config, k: nat): Envelope
    requires D.Served(cfg) && k <= |cfg.script|
  {
    var reply := R.Reply(cfg.dev, D.Exchange(cfg.script, k));
    R.UsbipEnvelope(cfg.id, if |reply| >= URB_HEADER_LEN then Blank(reply) else reply)
  }

  /** The cancelled set once exchange `k` is served: the last one, the unlink, leaves its target behind. */
  function Cancelled(cfg: D.Config, k: nat): set<i32> {
    if k < |cfg.script| then {} else {5}
  }

  /** During exchange `k`: the request with the driver's peer, the packet with the pump, the answer on its way. */
  predicate Busy(cfg: D.Config, w: World, k: nat, toCaller: bytes, toHost: bytes, toDriver: bytes) {
    && k <= |cfg.script|
    && w.phase == D.Awaiting(k) && w.driver == D.Issued(D.DriverAfter(cfg, k), cfg.script, k)
    && w.passing && w.host == Serving
    && w.st.cancelled == (if toDriver == [] then {} else Cancelled(cfg, k))
    && w.toCaller == toCaller && w.toHost == toHost && w.toDriver == toDriver
  }

  predicate Idle(cfg: D.Config, w: World, k: nat) {
    && k <= |cfg.script|
    && w.phase == D.Sending(k) && w.driver == D.DriverAfter(cfg, k)
    && w.passing && w.host == Serving && w.st.cancelled == {}
    && w.toCaller == [] && w.toHost == [] && w.toDriver == []
  }

  /** The driver has returned; the caller and then the pump may have noticed. */
  predicate Over(cfg: D.Config, w: World, passing: bool, host: HostState) {
    && w.phase == D.Done && w.driver == D.DriverAfter(cfg, |cfg.script| + 1) && w.st.cancelled == {5}
    && w.passing == passing && w.host == host
    && w.toCaller == [] && w.toHost == [] && w.toDriver == []
  }

  /** What the loop looks like after `t` steps; every exchange takes four. */
  predicate Inv(cfg: D.Config, w: World, t: nat)
    requires D.Served(cfg)
  {
    var n := 4 * (|cfg.script| + 1);
    match w.phase
    case Sending(k) => t == 4 * k && Idle(cfg, w, k)
    case Awaiting(k) =>
      && k <= |cfg.script| && Fits(D.Request(cfg.id, cfg.script, k)) && Fits(Answer(cfg, k))
      && (|| (t == 4 * k + 1 && Busy(cfg, w, k, Frame(D.Request(cfg.id, cfg.script, k)), [], []))
          || (t == 4 * k + 2 && Busy(cfg, w, k, [], Packet(cfg, k), []))
          || (t == 4 * k + 3 && Busy(cfg, w, k, [], [], Frame(Answer(cfg, k)))))
    case Done =>
      || (t == n && Over(cfg, w, true, Serving))
      || (t == n + 1 && Over(cfg, w, false, Serving))
      || (t == n + 2 && Over(cfg, w, false, Ended(K.NoHeader)))
    case Failed => false
  }

  predicate Final(w: World) {
    w.phase.Done? && w.host.Ended?
  }

  lemma NothingToRead()
    ensures RustRecv([]) == Starved && KotlinRead([]) == Starved && K.ReadCommand([]) == K.NoHeader
  {
  }

  lemma ReadOne(e: Envelope)
    requires Fits(e)
    ensures RustRecv(Frame(e)) == KotlinRead(Frame(e)) == Received(e, [])
  {
    CrossLanguage(e, []);
    assert Frame(e) + [] == Frame(e);
  }

  lemma AnswerFits(cfg: D.Config, k: nat)
    requires D.Served(cfg) && k <= |cfg.script|
    ensures var reply := R.Reply(cfg.dev, D.Exchange(cfg.script, k));
            && |reply| >= URB_HEADER_LEN && Answer(cfg, k) == R.UsbipEnvelope(cfg.id, Blank(reply))
            && Fits(D.Request(cfg.id, cfg.script, k)) && Fits(Answer(cfg, k))
  {
    hide R.Reply, D.Exchange, Blank, D.Request;
    var c := D.Exchange(cfg.script, k);
    D.RequestWorks(cfg, k);
    L.ReplySize(cfg.dev, c);
    L.BlankSize(R.Reply(cfg.dev, c));
  }

  lemma IdleStep(cfg: D.Config, w: World, k: nat)
    requires Ready(cfg) && Idle(cfg, w, k)
    ensures StepCaller(cfg, w) == None && StepHost(cfg, w) == None
    ensures StepDriver(cfg, w).Some? && Inv(cfg, StepDriver(cfg, w).value, 4 * k + 1)
  {
    hide D.Request, Frame, RustRecv, KotlinRead, K.ReadCommand, D.Issued, D.DriverAfter, Answer;
    NothingToRead();
    AnswerFits(cfg, k);
    assert [] + Frame(D.Request(cfg.id, cfg.script, k)) == Frame(D.Request(cfg.id, cfg.script, k));
  }

  lemma RequestStep(cfg: D.Config, w: World, k: nat)
    requires Ready(cfg) && k <= |cfg.script| && Busy(cfg, w, k, Frame(D.Request(cfg.id, cfg.script, k)), [], [])
    ensures StepDriver(cfg, w) == None && StepHost(cfg, w) == None
    ensures StepCaller(cfg, w).Some? && Inv(cfg, StepCaller(cfg, w).value, 4 * k + 2)
  {
    hide Frame, RustRecv, KotlinRead, K.ReadCommand, D.Issued, D.DriverAfter, Answer, R.WriteCommand, D.Exchange;
    hide EncodeUsbip, ParseUsbip;
    NothingToRead();
    AnswerFits(cfg, k);
    ReadOne(D.Request(cfg.id, cfg.script, k));
    UsbipRoundTrip(UsbipFrame(cfg.id, Packet(cfg, k)), []);
    assert [] + Packet(cfg, k) == Packet(cfg, k);
  }

  /** The pump reads the packet's command and answers as the Rust pump would, up to the two words. */
  lemma PacketServed(cfg: D.Config, st: K.State, k: nat)
    requires Ready(cfg) && k <= |cfg.script| && st.cancelled == {}
    ensures K.ReadCommand(Packet(cfg, k)) == K.Got(AsCommand(D.Exchange(cfg.script, k)), [])
    ensures var v := K.Serve(AsHost(cfg.dev, cfg.id), AsDevice(cfg.dev), st, AsCommand(D.Exchange(cfg.script, k)));
            && v.Served? && R.UsbipEnvelope(cfg.id, v.reply) == Answer(cfg, k) && 4 + |v.reply| < K.INT_LIMIT
            && v.st.cancelled == Cancelled(cfg, k)
  {
    hide R.Reply, Blank, K.Serve, K.ReadCommand, R.ReadCommand, AsCommand;
    var c := D.Exchange(cfg.script, k);
    L.PacketIsExact(cfg, k);
    L.PacketAt(cfg.script, k);
    ReadsAgree(Packet(cfg, k), []);
    assert Packet(cfg, k) + [] == Packet(cfg, k);
    AnswerFits(cfg, k);
    ExchangeAgrees(cfg, k);
    CommandAgreement(cfg.dev, cfg.id, st, c);
    C.ServeCancelled(AsHost(cfg.dev, cfg.id), AsDevice(cfg.dev), st, AsCommand(c));
    K.ServedAnswers(AsHost(cfg.dev, cfg.id), AsDevice(cfg.dev), st, AsCommand(c));
    AfterExchange(cfg, k);
  }

  lemma AfterExchange(cfg: D.Config, k: nat)
    requires k <= |cfg.script|
    ensures C.After({}, AsCommand(D.Exchange(cfg.script, k))) == Cancelled(cfg, k)
  {
  }

  lemma ExchangeAgrees(cfg: D.Config, k: nat)
    requires Ready(cfg) && k <= |cfg.script|
    ensures var c := D.Exchange(cfg.script, k);
            && R.WellFormed(c) && (c.Submit? ==> |c.body| <= MAX_PAYLOAD) && Agrees(cfg.dev, c)
            && (k < |cfg.script| ==> c.Submit?)
  {
    hide Agrees, R.DispatchSubmit;
    L.UnlinkAgrees(cfg.dev);
    if k < |cfg.script| {
      assert D.Expected(cfg.dev, cfg.script[k]);
    }
  }

  lemma PacketStep(cfg: D.Config, w: World, k: nat)
    requires Ready(cfg) && k <= |cfg.script| && Busy(cfg, w, k, [], Packet(cfg, k), [])
    ensures StepDriver(cfg, w) == None && StepCaller(cfg, w) == None
    ensures StepHost(cfg, w).Some? && Inv(cfg, StepHost(cfg, w).value, 4 * k + 3)
  {
    hide Ready, Frame, RustRecv, KotlinRead, K.ReadCommand, K.Serve, D.Issued, D.DriverAfter, D.Request, Answer, Packet;
    NothingToRead();
    PacketServed(cfg, w.st, k);
    ReadySaysServed(cfg);
    AnswerFits(cfg, k);
    assert [] + Frame(Answer(cfg, k)) == Frame(Answer(cfg, k));
  }

  lemma ReadySaysServed(cfg: D.Config)
    requires Ready(cfg)
    ensures D.Served(cfg)
  {
  }

  lemma SubmitAnswerGood(cfg: D.Config, k: nat)
    requires D.Served(cfg) && k < |cfg.script|
    ensures Fits(Answer(cfg, k)) && D.AcceptsReply(cfg.id, cfg.script[k], Answer(cfg, k))
  {
    hide R.Reply, Blank, D.AcceptsReply;
    AnswerFits(cfg, k);
    D.RequestWorks(cfg, k);
    L.GoodAnswer(cfg, k);
    L.BlankAccepted(cfg.id, cfg.dev, cfg.script[k]);
  }

  lemma UnlinkAnswerGood(cfg: D.Config)
    requires D.Served(cfg)
    ensures D.AcceptsUnlink(Answer(cfg, |cfg.script|))
  {
    hide R.Reply, Blank, D.AcceptsUnlink;
    AnswerFits(cfg, |cfg.script|);
    L.BlankUnlinkAccepted(cfg.id, cfg.dev);
  }

  /** The driver accepts the blanked answer. */
  lemma AnswerJudged(cfg: D.Config, k: nat)
    requires D.Served(cfg) && k <= |cfg.script|
    ensures D.Judge(cfg.id, cfg.script, k, Answer(cfg, k), D.Issued(D.DriverAfter(cfg, k), cfg.script, k))
         == Some(D.DriverAfter(cfg, k + 1))
  {
    hide D.AcceptsReply, D.AcceptsUnlink, D.JudgeSubmit, D.JudgeUnlink, D.DriverAfter, D.Issued, D.Served, Answer;
    D.StatsStep(cfg, k);
    var st := D.Issued(D.DriverAfter(cfg, k), cfg.script, k);
    if k < |cfg.script| {
      SubmitAnswerGood(cfg, k);
      D.JudgeSubmitIff(cfg.id, cfg.script[k], Answer(cfg, k), st);
    } else {
      UnlinkAnswerGood(cfg);
      D.JudgeUnlinkIff(Answer(cfg, k), st);
    }
  }

  lemma AnswerStep(cfg: D.Config, w: World, k: nat)
    requires Ready(cfg) && k <= |cfg.script| && Fits(Answer(cfg, k)) && Busy(cfg, w, k, [], [], Frame(Answer(cfg, k)))
    ensures StepCaller(cfg, w) == None && StepHost(cfg, w) == None
    ensures StepDriver(cfg, w).Some? && Inv(cfg, StepDriver(cfg, w).value, 4 * k + 4)
  {
    hide Ready, Frame, RustRecv, KotlinRead, K.ReadCommand, D.Judge, D.Issued, D.DriverAfter, D.Request, Answer, Packet;
    NothingToRead();
    ReadySaysServed(cfg);
    AnswerJudged(cfg, k);
    ReadOne(Answer(cfg, k));
  }

  lemma OverStep(cfg: D.Config, w: World, t: nat)
    requires Ready(cfg) && w.phase.Done? && Inv(cfg, w, t)
    ensures StepDriver(cfg, w) == None
    ensures StepCaller(cfg, w).Some? <==> w.passing
    ensures StepHost(cfg, w).Some? <==> !w.passing && w.host.Serving?
    ensures StepCaller(cfg, w).Some? ==> Inv(cfg, StepCaller(cfg, w).value, t + 1)
    ensures StepHost(cfg, w).Some? ==> Inv(cfg, StepHost(cfg, w).value, t + 1)
  {
    hide KotlinRead, K.ReadCommand, D.DriverAfter, Answer, Packet, D.Request, Frame;
    NothingToRead();
  }

  /** In every state but the final one exactly one process can move, and its step keeps the invariant. */
  lemma StepKeepsInv(cfg: D.Config, w: World, t: nat, a: Actor)
    requires Ready(cfg) && Inv(cfg, w, t)
    ensures Final(w) ==> Step(cfg, w, a).None?
    ensures !Final(w) ==> exists b :: Step(cfg, w, b).Some?
    ensures forall b | b != a :: Step(cfg, w, a).None? || Step(cfg, w, b).None?
    ensures Step(cfg, w, a).Some? ==> Inv(cfg, Step(cfg, w, a).value, t + 1)
  {
    hide Ready, StepDriver, StepCaller, StepHost, Frame, D.Request, Packet, Answer, D.Issued, D.DriverAfter;
    ReadySaysServed(cfg);
    match w.phase {
      case Sending(k) => IdleStep(cfg, w, k);
      case Awaiting(k) =>
        if t == 4 * k + 1 {
          RequestStep(cfg, w, k);
        } else if t == 4 * k + 2 {
          PacketStep(cfg, w, k);
        } else {
          AnswerStep(cfg, w, k);
        }
      case Done => OverStep(cfg, w, t);
    }
    assert Step(cfg, w, Driver) == StepDriver(cfg, w);
    assert Step(cfg, w, Caller) == StepCaller(cfg, w);
    assert Step(cfg, w, Host) == StepHost(cfg, w);
  }

  lemma {:induction false} ExecuteInv(cfg: D.Config, schedule: seq<Actor>)
    requires Ready(cfg) && Execute(cfg, schedule).Some?
    ensures D.Served(cfg) && Inv(cfg, Execute(cfg, schedule).value, |schedule|)
  {
    hide Ready, Inv, Step;
    ReadySaysServed(cfg);
    if schedule == [] {
      StartInv(cfg);
    } else {
      var before := schedule[..|schedule| - 1];
      ExecuteInv(cfg, before);
      StepKeepsInv(cfg, Execute(cfg, before).value, |before|, schedule[|schedule| - 1]);
    }
  }

  lemma StartInv(cfg: D.Config)
    requires D.Served(cfg)
    ensures Inv(cfg, START, 0)
  {
    L.AtStart(cfg);
  }

  /** The default script on the fixture device is ready for every number of extra URBs. */
  lemma DefaultReady(vendor: u16, product: u16, id: u32, nExtra: u32)
    ensures Ready(D.Config(id, D.Script(nExtra), D.MassStorage(vendor, product)))
  {
    hide D.Script, D.MassStorage, D.Expected, Agrees;
    forall k: nat | k < |D.Script(nExtra)|
      ensures D.Expected(D.MassStorage(vendor, product), D.Script(nExtra)[k])
      ensures Agrees(D.MassStorage(vendor, product), D.CommandOf(D.Script(nExtra)[k]))
    {
      D.ScriptExpected(vendor, product, nExtra, k);
      L.ScriptAgrees(vendor, product, nExtra, k);
    }
  }

  /**
   * The closed loop with the Kotlin pump, at byte level and under every schedule. No process fails or crashes,
   * exactly one can move until the end, and the end comes after exactly four steps an exchange and two for the
   * close to pass through, with the statistics the driver has against the Rust pump. URB 5, long completed, is
   * left in the cancelled set by the final unlink.
   */
  lemma ClosedHostLoop(vendor: u16, product: u16, id: u32, nExtra: u32, schedule: seq<Actor>, a: Actor)
    requires nExtra <= 67_108_862
    requires Execute(D.Config(id, D.Script(nExtra), D.MassStorage(vendor, product)), schedule).Some?
    ensures var cfg := D.Config(id, D.Script(nExtra), D.MassStorage(vendor, product));
            var w := Execute(cfg, schedule).value;
            && !w.phase.Failed? && !w.host.Crashed?
            && (!Final(w) ==> exists b :: Step(cfg, w, b).Some?)
            && (forall b | b != a :: Step(cfg, w, a).None? || Step(cfg, w, b).None?)
            && |schedule| <= 4 * (8 + nExtra) + 2
            && (Final(w) <==> |schedule| == 4 * (8 + nExtra) + 2)
            && (Final(w) ==>
                  && w.host == Ended(K.NoHeader) && w.st.cancelled == {5}
                  && w.driver == D.DriverStats(7 + nExtra, 7 + nExtra, 1, 1, 155 + 64 * nExtra))
  {
    hide Execute, Step, Ready, D.Served, D.Script, D.MassStorage, D.DriverAfter, D.PumpAfter, D.Request;
    hide Answer, Packet, Frame;
    var cfg := D.Config(id, D.Script(nExtra), D.MassStorage(vendor, product));
    DefaultReady(vendor, product, id, nExtra);
    D.Totals(vendor, product, id, nExtra, 7 + nExtra);
    D.UnlinkCounted(cfg);
    ExecuteInv(cfg, schedule);
    StepKeepsInv(cfg, Execute(cfg, schedule).value, |schedule|, a);
  }
}
