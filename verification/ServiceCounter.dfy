/** The session counter and session list of the Android service, under every interleaving of its threads. */
module ServiceCounter {
  import opened Bytes

  /** `ServiceState`, as far as sessions go: one atomic counter for the whole process. */
  class ServiceState {
    var sessions: nat

    constructor ()
      ensures sessions == 0
    {
      sessions := 0;
    }

    method IncSessions()
      modifies this
      ensures sessions == old(sessions) + 1
    {
      sessions := sessions + 1;
    }

    method DecSessions()
      modifies this
      ensures sessions == Decremented(old(sessions))
    {
      sessions := if sessions - 1 < 0 then 0 else sessions - 1;
    }

    method Reset()
      modifies this
      ensures sessions == 0
    {
      sessions := 0;
    }
  }

  function Decremented(n: nat): nat {
    if n == 0 then 0 else n - 1
  }

  /** Where a session is between its counting and its discounting. */
  datatype Phase = Counted | Listed | Unlisted

  /** Each step of the accept loop, of a session thread or of `onDestroy`, for the session it concerns. */
  datatype Step =
    | Count(id: nat)
    | Add(id: nat)
    | Remove(id: nat)
    | Discount(id: nat)
    | StopAll
    | ClearList
    | Reset

  /** `live` are the sessions counted and not yet discounted; `list` is the list that `onDestroy` stops. */
  datatype State = State(counter: nat, live: map<nat, Phase>, list: set<nat>, stopped: set<nat>)

  const START := State(0, map[], {}, {})

  function Next(s: State, step: Step): Option<State> {
    match step
    case Count(id) => if id in s.live then None else Some(s.(counter := s.counter + 1, live := s.live[id := Counted]))
    case Add(id) =>
      if id !in s.live || s.live[id] != Counted then None
      else Some(s.(live := s.live[id := Listed], list := s.list + {id}))
    case Remove(id) =>
      if id !in s.live || s.live[id] != Listed then None
      else Some(s.(live := s.live[id := Unlisted], list := s.list - {id}))
    case Discount(id) =>
      if id !in s.live || s.live[id] != Unlisted then None
      else Some(s.(counter := Decremented(s.counter), live := s.live - {id}))
    case StopAll => Some(s.(stopped := s.stopped + s.list))
    case ClearList => Some(s.(list := {}))
    case Reset => Some(s.(counter := 0))
  }

  /** The service; where its threads stand, and whom it has stopped, are ghosts. */
  class SenderService {
    const state: ServiceState
    var sessions: set<nat>
    ghost var live: map<nat, Phase>
    ghost var stopped: set<nat>

    constructor (state: ServiceState)
      requires state.sessions == 0
      ensures Value() == START && this.state == state
    {
      this.state, sessions, live, stopped := state, {}, map[], {};
    }

    ghost function Value(): State
      reads this, state
    {
      State(state.sessions, live, sessions, stopped)
    }

    /** Accept loop: first the counter, then the list and the thread. */
    method CountSession(id: nat)
      requires Next(Value(), Count(id)).Some?
      modifies this, state
      ensures Next(old(Value()), Count(id)) == Some(Value())
    {
      state.IncSessions();
      live := live[id := Counted];
    }

    method AddSession(id: nat)
      requires Next(Value(), Add(id)).Some?
      modifies this
      ensures Next(old(Value()), Add(id)) == Some(Value())
    {
      sessions := sessions + {id};
      live := live[id := Listed];
    }

    /** Session thread, on its way out: first the list, then the counter. */
    method RemoveSession(id: nat)
      requires Next(Value(), Remove(id)).Some?
      modifies this
      ensures Next(old(Value()), Remove(id)) == Some(Value())
    {
      sessions := sessions - {id};
      live := live[id := Unlisted];
    }

    method DiscountSession(id: nat)
      requires Next(Value(), Discount(id)).Some?
      modifies this, state
      ensures Next(old(Value()), Discount(id)) == Some(Value())
    {
      state.DecSessions();
      live := live - {id};
    }

    /** `onDestroy`: stop all on the list, clear it, reset the counter. */
    method StopSessions()
      modifies this
      ensures Next(old(Value()), StopAll) == Some(Value())
    {
      stopped := stopped + sessions;
    }

    method ClearSessions()
      modifies this
      ensures Next(old(Value()), ClearList) == Some(Value())
    {
      sessions := {};
    }

    method ResetState()
      modifies state
      ensures Next(old(Value()), Reset) == Some(Value())
    {
      state.Reset();
    }
  }

  function Execute(s: State, steps: seq<Step>): Option<State>
    decreases |steps|
  {
    if steps == [] then Some(s)
    else
      var n := Next(s, steps[0]);
      if n.None? then None else Execute(n.value, steps[1..])
  }

  /** The counter agrees with the live sessions at every point of the run. */
  predicate AlwaysExact(s: State, steps: seq<Step>)
    requires Execute(s, steps).Some?
    decreases |steps|
  {
    s.counter == |s.live| && (steps == [] || AlwaysExact(Next(s, steps[0]).value, steps[1..]))
  }

  /** Every reset finds no session live. */
  predicate QuietResets(s: State, steps: seq<Step>)
    requires Execute(s, steps).Some?
    decreases |steps|
  {
    steps == [] || ((steps[0].Reset? ==> s.live == map[]) && QuietResets(Next(s, steps[0]).value, steps[1..]))
  }

  /** At most the live sessions are counted, and only running ones are listed. */
  predicate Inv(s: State) {
    s.counter <= |s.live| && forall id | id in s.list :: id in s.live && s.live[id] == Listed
  }

  /** How a step changes the number of live sessions. */
  lemma LiveSize(s: State, step: Step)
    requires Next(s, step).Some?
    ensures |Next(s, step).value.live| ==
            |s.live| + (if step.Count? then 1 else if step.Discount? then -1 else 0)
  {
    var t := Next(s, step).value;
    match step {
      case Count(id) => assert t.live.Keys == s.live.Keys + {id};
      case Add(id) => assert t.live.Keys == s.live.Keys;
      case Remove(id) => assert t.live.Keys == s.live.Keys;
      case Discount(id) => assert t.live.Keys == s.live.Keys - {id};
      case _ =>
    }
  }

  lemma StepInv(s: State, step: Step)
    requires Inv(s) && Next(s, step).Some?
    ensures Inv(Next(s, step).value)
  {
    LiveSize(s, step);
  }

  /** The counter never exceeds the live sessions; so once they have all ended it reads 0, whatever resets
      came in between. */
  lemma {:induction false} NeverOvercounts(s: State, steps: seq<Step>)
    requires Inv(s) && Execute(s, steps).Some?
    ensures Inv(Execute(s, steps).value)
    ensures Execute(s, steps).value.live == map[] ==> Execute(s, steps).value.counter == 0
    decreases |steps|
  {
    if steps == [] {
      assert s.live == map[] ==> |s.live| == 0;
    } else {
      StepInv(s, steps[0]);
      NeverOvercounts(Next(s, steps[0]).value, steps[1..]);
    }
  }

  /** The counter is exact throughout a run iff every reset of the run finds no session live. */
  lemma {:induction false} ExactIffQuietResets(s: State, steps: seq<Step>)
    requires s.counter == |s.live| && Execute(s, steps).Some?
    ensures AlwaysExact(s, steps) <==> QuietResets(s, steps)
    decreases |steps|
  {
    if steps != [] {
      var t := Next(s, steps[0]).value;
      LiveSize(s, steps[0]);
      assert |s.live| == 0 <==> s.live == map[];
      if t.counter == |t.live| {
        ExactIffQuietResets(t, steps[1..]);
      }
    }
  }

  /** Without a ClearList, the list is exactly the running sessions. */
  lemma {:induction false} ListIsRunning(s: State, steps: seq<Step>, id: nat)
    requires id in s.list <==> id in s.live && s.live[id] == Listed
    requires Execute(s, steps).Some? && ClearList !in steps
    ensures var t := Execute(s, steps).value; id in t.list <==> id in t.live && t.live[id] == Listed
    decreases |steps|
  {
    if steps != [] {
      assert steps[0] in steps;
      ListIsRunning(Next(s, steps[0]).value, steps[1..], id);
    }
  }

  // Who is on the list and who has been stopped, told by the steps alone

  /** Added, and neither removed nor cleared away since. */
  predicate OnList(steps: seq<Step>, id: nat) {
    exists j :: 0 <= j < |steps| && steps[j] == Add(id)
                && forall k | j < k < |steps| :: steps[k] != Remove(id) && steps[k] != ClearList
  }

  /** On the list at some StopAll. */
  predicate CaughtByStop(steps: seq<Step>, id: nat) {
    exists i :: 0 <= i < |steps| && steps[i] == StopAll && OnList(steps[..i], id)
  }

  lemma OnListLast(steps: seq<Step>, step: Step, id: nat)
    ensures OnList(steps + [step], id) <==>
            step == Add(id) || (OnList(steps, id) && step != Remove(id) && step != ClearList)
  {
    var all := steps + [step];
    if OnList(steps, id) && step != Remove(id) && step != ClearList {
      var j :| 0 <= j < |steps| && steps[j] == Add(id)
               && forall k | j < k < |steps| :: steps[k] != Remove(id) && steps[k] != ClearList;
      assert all[j] == Add(id);
    }
    if step == Add(id) {
      assert all[|steps|] == Add(id);
    }
    if OnList(all, id) && step != Add(id) {
      var j :| 0 <= j < |all| && all[j] == Add(id)
               && forall k | j < k < |all| :: all[k] != Remove(id) && all[k] != ClearList;
      assert steps[j] == Add(id) && all[|steps|] == step;
      assert forall k | j < k < |steps| :: steps[k] == all[k];
    }
  }

  lemma CaughtByStopLast(steps: seq<Step>, step: Step, id: nat)
    ensures CaughtByStop(steps + [step], id) <==> CaughtByStop(steps, id) || (step == StopAll && OnList(steps, id))
  {
    hide OnList;
    var all := steps + [step];
    if CaughtByStop(steps, id) {
      var i :| 0 <= i < |steps| && steps[i] == StopAll && OnList(steps[..i], id);
      assert all[..i] == steps[..i] && all[i] == StopAll;
    }
    if step == StopAll && OnList(steps, id) {
      assert all[..|steps|] == steps && all[|steps|] == StopAll;
    }
    if CaughtByStop(all, id) {
      var i :| 0 <= i < |all| && all[i] == StopAll && OnList(all[..i], id);
      if i < |steps| {
        assert steps[..i] == all[..i] && steps[i] == StopAll;
      } else {
        assert all[..i] == steps;
      }
    }
  }

  lemma {:induction false} ExecuteLast(s: State, steps: seq<Step>)
    requires steps != [] && Execute(s, steps).Some?
    ensures var before := Execute(s, steps[..|steps| - 1]);
            before.Some? && Next(before.value, steps[|steps| - 1]) == Execute(s, steps)
    decreases |steps|
  {
    hide Next;
    if |steps| > 1 {
      var rest := steps[1..];
      ExecuteLast(Next(s, steps[0]).value, rest);
      assert rest[..|rest| - 1] == steps[..|steps| - 1][1..];
    } else {
      assert steps[..0] == [] && steps[1..] == [];
    }
  }

  /**
   * The list and the stopped sessions are exact over whole runs: a session is on the list iff it was added and
   * neither removed nor cleared away since, and a destroy has stopped it iff it was on the list at a StopAll.
   */
  lemma {:induction false} StoppedExact(steps: seq<Step>, id: nat)
    requires Execute(START, steps).Some?
    ensures var s := Execute(START, steps).value;
            (id in s.list <==> OnList(steps, id)) && (id in s.stopped <==> CaughtByStop(steps, id))
  {
    hide OnList, CaughtByStop;
    if steps == [] {
      NothingYet(id);
    } else {
      var before, last := steps[..|steps| - 1], steps[|steps| - 1];
      ExecuteLast(START, steps);
      StoppedExact(before, id);
      OnListLast(before, last, id);
      CaughtByStopLast(before, last, id);
      assert steps == before + [last];
    }
  }

  lemma NothingYet(id: nat)
    ensures !OnList([], id) && !CaughtByStop([], id)
  {
  }

  /** A connection accepted just before a destroy and listed during it runs on: it is neither stopped nor listed. */
  lemma EscapesDestroy()
    ensures var end := Execute(START, [Count(1), StopAll, Add(1), ClearList, Reset]);
            && end.Some? && end.value.live.Keys == {1} && end.value.live[1] == Listed
            && end.value.list == {} && end.value.stopped == {} && end.value.counter == 0
  {
    var s1 := Next(START, Count(1)).value;
    var s2 := Next(s1, StopAll).value;
    var s3 := Next(s2, Add(1)).value;
    var s5 := Next(Next(s3, ClearList).value, Reset).value;
    assert Execute(s3, [ClearList, Reset]) == Some(s5);
    assert Execute(s1, [StopAll, Add(1), ClearList, Reset]) == Some(s5);
    assert Execute(START, [Count(1), StopAll, Add(1), ClearList, Reset]) == Some(s5);
  }

  /** A destroy while session 1 is live: as 1 ends, it takes the count of session 2 with it, and 2 goes on uncounted. */
  lemma ResetUndercounts()
    ensures var end := Execute(START, [Count(1), Add(1), ClearList, Reset, Count(2), Add(2), Remove(1), Discount(1)]);
            && end.Some? && end.value.counter == 0
            && end.value.live.Keys == {2} && end.value.live[2] == Listed
  {
    var s1 := Next(START, Count(1)).value;
    var s2 := Next(s1, Add(1)).value;
    var s4 := Next(Next(s2, ClearList).value, Reset).value;
    var s6 := Next(Next(s4, Count(2)).value, Add(2)).value;
    var s7 := Next(s6, Remove(1)).value;
    var s8 := Next(s7, Discount(1)).value;
    assert Execute(s7, [Discount(1)]) == Some(s8);
    assert Execute(s6, [Remove(1), Discount(1)]) == Some(s8);
    assert Execute(s4, [Count(2), Add(2), Remove(1), Discount(1)]) == Some(s8);
    assert Execute(s2, [ClearList, Reset, Count(2), Add(2), Remove(1), Discount(1)]) == Some(s8);
    assert Execute(START, [Count(1), Add(1), ClearList, Reset, Count(2), Add(2), Remove(1), Discount(1)]) == Some(s8);
  }
}
