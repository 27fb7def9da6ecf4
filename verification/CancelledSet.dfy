/** What the Kotlin pump's `cancelled` set means over whole runs. */
module CancelledSets {
  import opened Bytes
  import opened UrbCodec
  import opened UsbIpHosts

  predicate SubmitsSeq(c: Command, x: i32) {
    c.Submit? && c.cmd.seqnum == x
  }

  predicate UnlinksSeq(c: Command, x: i32) {
    c.Unlink? && c.unlink.unlinkSeqnum == x
  }

  predicate NoSubmit(cs: seq<Command>, from: nat, x: i32) {
    forall k | from <= k < |cs| :: !SubmitsSeq(cs[k], x)
  }

  /** Some unlink of `x` came, and no submit of `x` since. */
  predicate Pending(cs: seq<Command>, x: i32) {
    exists j :: 0 <= j < |cs| && UnlinksSeq(cs[j], x) && NoSubmit(cs, j + 1, x)
  }

  /** Membership after `cs`, when the set was `cancelled` before. */
  predicate Held(cancelled: set<i32>, cs: seq<Command>, x: i32) {
    Pending(cs, x) || (x in cancelled && NoSubmit(cs, 0, x))
  }

  /** The set after one command. */
  function After(cancelled: set<i32>, c: Command): set<i32> {
    match c
    case Unlink(u) => cancelled + {u.unlinkSeqnum}
    case Submit(cmd, _) => cancelled - {cmd.seqnum}
  }

  lemma PendingCons(c: Command, cs: seq<Command>, x: i32)
    ensures NoSubmit([c] + cs, 0, x) <==> !SubmitsSeq(c, x) && NoSubmit(cs, 0, x)
    ensures Pending([c] + cs, x) <==> Pending(cs, x) || (UnlinksSeq(c, x) && NoSubmit(cs, 0, x))
  {
    var all := [c] + cs;
    forall from: nat ensures NoSubmit(all, from + 1, x) <==> NoSubmit(cs, from, x) {
      if NoSubmit(all, from + 1, x) {
        assert forall k | from <= k < |cs| :: cs[k] == all[k + 1];
      }
    }
    assert NoSubmit(all, 1, x) <==> NoSubmit(cs, 0, x);
    assert all[0] == c;
    if Pending(cs, x) {
      var j :| 0 <= j < |cs| && UnlinksSeq(cs[j], x) && NoSubmit(cs, j + 1, x);
      assert UnlinksSeq(all[j + 1], x) && NoSubmit(all, j + 1 + 1, x);
    }
    if Pending(all, x) {
      var j :| 0 <= j < |all| && UnlinksSeq(all[j], x) && NoSubmit(all, j + 1, x);
      if j > 0 {
        assert UnlinksSeq(cs[j - 1], x) && NoSubmit(cs, j - 1 + 1, x);
      }
    }
    assert NoSubmit(all, 0, x) <==> !SubmitsSeq(c, x) && NoSubmit(all, 1, x);
  }

  lemma HeldCons(cancelled: set<i32>, c: Command, cs: seq<Command>, x: i32)
    ensures Held(cancelled, [c] + cs, x) <==> Held(After(cancelled, c), cs, x)
  {
    PendingCons(c, cs, x);
  }

  lemma HeldAtFirst(cancelled: set<i32>)
    ensures forall x :: Held(cancelled, [], x) <==> x in cancelled
  {
  }

  predicate IsReset(reply: bytes) {
    ParseRetSubmit(reply).Ok? && ParseRetSubmit(reply).value.status == -ECONNRESET
  }

  /** Serving one command: the set moves as `After` says, and only a cancelled submit is reset. */
  lemma ServeCancelled(host: Host, dev: Device, st: State, c: Command)
    requires Honest(dev) && Serve(host, dev, st, c).Served?
    ensures var v := Serve(host, dev, st, c);
            && v.st.cancelled == After(st.cancelled, c)
            && (IsReset(v.reply) <==> c.Submit? && c.cmd.seqnum in st.cancelled)
  {
    var v := Serve(host, dev, st, c);
    match c
    case Unlink(u) =>
      RetUnlinkRoundTrip(RetUnlink(ToU32(u.seqnum), 0, 0, 0, 0), []);
      assert v.reply + [] == v.reply;
    case Submit(cmd, body) =>
      var status, actual, data := ServedAs(host, dev, st, cmd, body);
      RetSubmitRoundTrip(RetSubmit(ToU32(cmd.seqnum), 0, 0, 0, status, ToU32(actual), 0, 0, 0), data);
  }

  /**
   * The cancelled set is exact. Along a whole run on any device, a reply is -ECONNRESET iff its command is a
   * submit some unlink named earlier with no submit of that number in between, and the final set holds exactly
   * the numbers still pending. `cancelled` is the set at the start (empty for a new pump).
   */
  lemma {:induction false} CancelledExact(host: Host, dev: Device, st: State, cs: seq<Command>, why: Input)
    requires Honest(dev)
    ensures var o := RunCommands(host, dev, st, cs, why);
            && |o.replies| <= |cs|
            && (o.end.Ran? <==> |o.replies| == |cs|)
            && (forall i | 0 <= i < |o.replies| ::
                  IsReset(o.replies[i]) <==> cs[i].Submit? && Held(st.cancelled, cs[..i], cs[i].cmd.seqnum))
            && (o.end.Ran? ==> forall x :: x in o.st.cancelled <==> Held(st.cancelled, cs, x))
    decreases |cs|
  {
    hide Serve, Held, IsReset;
    HeldAtFirst(st.cancelled);
    var o := RunCommands(host, dev, st, cs, why);
    if cs != [] && Serve(host, dev, st, cs[0]).Served? {
      var c, rest := cs[0], cs[1..];
      var v := Serve(host, dev, st, c);
      ServeCancelled(host, dev, st, c);
      CancelledExact(host, dev, v.st, rest, why);
      assert cs == [c] + rest;
      forall x ensures Held(st.cancelled, cs, x) <==> Held(v.st.cancelled, rest, x) {
        HeldCons(st.cancelled, c, rest, x);
      }
      forall i | 0 <= i < |o.replies|
        ensures IsReset(o.replies[i]) <==> cs[i].Submit? && Held(st.cancelled, cs[..i], cs[i].cmd.seqnum)
      {
        if i == 0 {
          assert cs[..0] == [];
        } else {
          assert cs[i] == rest[i - 1] && o.replies[i] == o.replies[1..][i - 1];
          if cs[i].Submit? {
            HeldCons(st.cancelled, c, rest[..i - 1], cs[i].cmd.seqnum);
            assert cs[..i] == [c] + rest[..i - 1];
          }
        }
      }
    }
  }

  /** Submits carry distinct numbers, and every unlink names a submit that came before it. */
  predicate Orderly(cs: seq<Command>) {
    && (forall i, j | 0 <= i < j < |cs| && cs[i].Submit? && cs[j].Submit? :: cs[i].cmd.seqnum != cs[j].cmd.seqnum)
    && (forall j | 0 <= j < |cs| && cs[j].Unlink? ::
          exists i | 0 <= i < j :: SubmitsSeq(cs[i], cs[j].unlink.unlinkSeqnum))
  }

  function UnlinkTargets(cs: seq<Command>): set<i32> {
    set j | 0 <= j < |cs| && cs[j].Unlink? :: cs[j].unlink.unlinkSeqnum
  }

  /**
   * With an orderly receiver no submit is ever cancelled, and the set ends as the set of
   * all unlink targets, although every one of those URBs has completed.
   */
  lemma OrderlyNeverCancels(host: Host, dev: Device, transfers: nat, cs: seq<Command>, why: Input)
    requires Honest(dev) && Orderly(cs)
    ensures var o := RunCommands(host, dev, State({}, transfers), cs, why);
            && (forall i | 0 <= i < |o.replies| :: !IsReset(o.replies[i]))
            && (o.end.Ran? ==> o.st.cancelled == UnlinkTargets(cs))
  {
    hide RunCommands;
    var o := RunCommands(host, dev, State({}, transfers), cs, why);
    CancelledExact(host, dev, State({}, transfers), cs, why);
    forall i | 0 <= i < |o.replies|
      ensures !IsReset(o.replies[i])
    {
      assert cs[i].Submit? ==> !Pending(cs[..i], cs[i].cmd.seqnum);
    }
    forall x ensures Pending(cs, x) <==> x in UnlinkTargets(cs) {
      if x in UnlinkTargets(cs) {
        var j :| 0 <= j < |cs| && cs[j].Unlink? && cs[j].unlink.unlinkSeqnum == x;
        var k :| 0 <= k < j && SubmitsSeq(cs[k], cs[j].unlink.unlinkSeqnum);
        assert UnlinksSeq(cs[j], x) && NoSubmit(cs, j + 1, x);
      }
    }
  }

  /** A run on the first commands is the first part of the run. */
  lemma {:induction false} RunPrefix(host: Host, dev: Device, st: State, cs: seq<Command>, why: Input, k: nat)
    requires Honest(dev) && k <= |RunCommands(host, dev, st, cs, why).replies|
    ensures |RunCommands(host, dev, st, cs, why).replies| <= |cs|
    ensures var o := RunCommands(host, dev, st, cs[..k], why);
            o.end == Ran(why) && o.replies == RunCommands(host, dev, st, cs, why).replies[..k]
    decreases |cs|
  {
    hide Serve;
    var o := RunCommands(host, dev, st, cs, why);
    if cs != [] && Serve(host, dev, st, cs[0]).Served? {
      var v := Serve(host, dev, st, cs[0]);
      if k > 0 {
        RunPrefix(host, dev, v.st, cs[1..], why, k - 1);
        assert cs[..k][1..] == cs[1..][..k - 1];
        assert o.replies[..k] == [o.replies[0]] + o.replies[1..][..k - 1];
      } else {
        RunPrefix(host, dev, v.st, cs[1..], why, 0);
      }
    }
  }

  /** The set after the first `k` commands of a run of a new pump. */
  function SetAfter(host: Host, dev: Device, transfers: nat, cs: seq<Command>, k: nat): set<i32>
    requires Honest(dev) && k <= |cs|
  {
    RunCommands(host, dev, State({}, transfers), cs[..k], NoHeader).st.cancelled
  }

  /**
   * With an orderly receiver the set never loses a number: after every prefix of the run it holds the unlink
   * targets of that prefix, so it only grows.
   */
  lemma OrderlyOnlyGrows(host: Host, dev: Device, transfers: nat, cs: seq<Command>, why: Input, j: nat, k: nat)
    requires Honest(dev) && Orderly(cs)
    requires j <= k <= |RunCommands(host, dev, State({}, transfers), cs, why).replies| <= |cs|
    ensures SetAfter(host, dev, transfers, cs, j) == UnlinkTargets(cs[..j])
    ensures SetAfter(host, dev, transfers, cs, j) <= SetAfter(host, dev, transfers, cs, k) == UnlinkTargets(cs[..k])
  {
    hide RunCommands;
    var st := State({}, transfers);
    SameReplies(host, dev, st, cs, why, NoHeader);
    forall i | i == j || i == k ensures SetAfter(host, dev, transfers, cs, i) == UnlinkTargets(cs[..i]) {
      RunPrefix(host, dev, st, cs, NoHeader, i);
      OrderlyPrefix(cs, i);
      OrderlyNeverCancels(host, dev, transfers, cs[..i], NoHeader);
    }
    forall x | x in UnlinkTargets(cs[..j]) ensures x in UnlinkTargets(cs[..k]) {
      var i :| 0 <= i < j && cs[..j][i].Unlink? && cs[..j][i].unlink.unlinkSeqnum == x;
      assert cs[..k][i] == cs[..j][i];
    }
  }

  /** Why the input ends does not matter to what is served before. */
  lemma {:induction false} SameReplies(host: Host, dev: Device, st: State, cs: seq<Command>, a: Input, b: Input)
    requires Honest(dev)
    ensures RunCommands(host, dev, st, cs, a).replies == RunCommands(host, dev, st, cs, b).replies
    decreases |cs|
  {
    hide Serve;
    if cs != [] && Serve(host, dev, st, cs[0]).Served? {
      SameReplies(host, dev, Serve(host, dev, st, cs[0]).st, cs[1..], a, b);
    }
  }

  lemma OrderlyPrefix(cs: seq<Command>, k: nat)
    requires Orderly(cs) && k <= |cs|
    ensures Orderly(cs[..k])
  {
    forall j | 0 <= j < k && cs[..k][j].Unlink?
      ensures exists i | 0 <= i < j :: SubmitsSeq(cs[..k][i], cs[..k][j].unlink.unlinkSeqnum)
    {
      var i :| 0 <= i < j && SubmitsSeq(cs[i], cs[j].unlink.unlinkSeqnum);
      assert cs[..k][i] == cs[i];
    }
  }
}
