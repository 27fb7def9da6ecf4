/** Report numbering by the sender and the receiver's gap detector, over 16-bit sequence numbers that wrap. */
module SeqGaps {
  import opened Bytes

  const SEQ_MOD: nat := 0x1_0000

  /** `wrapping_add(1)`. */
  function Successor(seq_: u16): u16 {
    (seq_ + 1) % SEQ_MOD
  }

  /** The number the sender gives its i-th report, counted from 1. */
  function Number(i: nat): u16 {
    i % SEQ_MOD
  }

  predicate Jump(last: u16, got: u16) {
    got != Successor(last) && last != 0
  }

  function Jumps(last: u16, got: seq<u16>): seq<bool>
    decreases |got|
  {
    if got == [] then [] else [Jump(last, got[0])] + Jumps(got[0], got[1..])
  }

  /** The sender's counter: starts at 0 and is bumped before each report. */
  method NumberReports(n: nat) returns (numbers: seq<u16>)
    ensures |numbers| == n && forall k | 0 <= k < n :: numbers[k] == (k + 1) % 65536
  {
    numbers := [];
    var counter: u16 := 0;
    for i := 0 to n
      invariant counter == Number(i)
      invariant |numbers| == i && forall k | 0 <= k < i :: numbers[k] == Number(k + 1)
    {
      NumberStep(i);
      counter := Successor(counter);
      numbers := numbers + [counter];
    }
  }

  /** The receiver's detector: `last_seq` starts at 0 and follows every report. */
  method DetectJumps(got: seq<u16>) returns (flags: seq<bool>)
    ensures flags == Jumps(0, got)
  {
    flags := [];
    var last: u16 := 0;
    var i := 0;
    while i < |got|
      invariant 0 <= i <= |got|
      invariant flags + Jumps(last, got[i..]) == Jumps(0, got)
    {
      assert got[i..][1..] == got[i + 1..];
      flags := flags + [Jump(last, got[i])];
      last := got[i];
      i := i + 1;
    }
  }

  lemma NumberStep(i: nat)
    ensures Number(i + 1) == Successor(Number(i))
  {
    var q, r := i / SEQ_MOD, i % SEQ_MOD;
    if r == SEQ_MOD - 1 {
      assert i + 1 == SEQ_MOD * (q + 1);
    } else {
      assert i + 1 == SEQ_MOD * q + (r + 1);
      DivModUnique(i + 1, q, r + 1);
    }
  }

  lemma DivModUnique(x: nat, q: nat, r: nat)
    requires x == SEQ_MOD * q + r && r < SEQ_MOD
    ensures x % SEQ_MOD == r
  {
  }

  /** Two reports look consecutive iff the gap between their indices is 1 modulo 65536. */
  lemma ConsecutiveIff(a: nat, gap: nat)
    ensures Number(a + gap) == Successor(Number(a)) <==> gap % SEQ_MOD == 1
  {
    var qa, ra, qg, rg := a / SEQ_MOD, a % SEQ_MOD, gap / SEQ_MOD, gap % SEQ_MOD;
    assert a == SEQ_MOD * qa + ra && gap == SEQ_MOD * qg + rg;
    assert a + gap == SEQ_MOD * (qa + qg) + (ra + rg);
    if ra + rg < SEQ_MOD {
      DivModUnique(a + gap, qa + qg, ra + rg);
    } else {
      DivModUnique(a + gap, qa + qg + 1, ra + rg - SEQ_MOD);
    }
  }

  /** A subsequence of the sent reports: strictly increasing indices, counted from 1. */
  predicate Subsequence(idx: seq<nat>) {
    (forall k | 0 <= k < |idx| :: 1 <= idx[k]) && forall j, k | 0 <= j < k < |idx| :: idx[j] < idx[k]
  }

  function Numbers(idx: seq<nat>): (ns: seq<u16>)
    ensures |ns| == |idx| && forall k | 0 <= k < |idx| :: ns[k] == Number(idx[k])
  {
    if idx == [] then [] else [Number(idx[0])] + Numbers(idx[1..])
  }

  lemma {:induction false} JumpAt(last: u16, got: seq<u16>, k: nat)
    requires k < |got|
    ensures |Jumps(last, got)| == |got|
    ensures Jumps(last, got)[k] <==> Jump(if k == 0 then last else got[k - 1], got[k])
    decreases |got|
  {
    if k > 0 {
      JumpAt(got[0], got[1..], k - 1);
    } else if |got| > 1 {
      JumpAt(got[0], got[1..], 0);
    }
  }

  /** When a subsequence of the reports is delivered, a jump is flagged iff the index gap is not 1 modulo 65536
      and the previous number is not 0; the first report is never flagged. */
  lemma DetectorExact(idx: seq<nat>, k: nat)
    requires Subsequence(idx) && k < |idx|
    ensures |Jumps(0, Numbers(idx))| == |idx|
    ensures Jumps(0, Numbers(idx))[k] <==>
            k > 0 && (idx[k] - idx[k - 1]) % 65536 != 1 && idx[k - 1] % 65536 != 0
  {
    JumpAt(0, Numbers(idx), k);
    if k > 0 {
      ConsecutiveIff(idx[k - 1], idx[k] - idx[k - 1]);
    }
  }

  /** A lossless stretch of any length, starting anywhere, never flags: also not across the wrap-around. */
  lemma LosslessNeverFlags(first: nat, idx: seq<nat>, k: nat)
    requires 1 <= first && k < |idx| && forall j | 0 <= j < |idx| :: idx[j] == first + j
    ensures |Jumps(0, Numbers(idx))| == |idx| && !Jumps(0, Numbers(idx))[k]
  {
    DetectorExact(idx, k);
  }

  /** Up to 65535 lost reports are noticed unless the report before the gap had number 0. */
  lemma ShortLossNoticed(idx: seq<nat>, k: nat)
    requires Subsequence(idx) && 0 < k < |idx| && 2 <= idx[k] - idx[k - 1] <= 65536
    ensures |Jumps(0, Numbers(idx))| == |idx|
    ensures Jumps(0, Numbers(idx))[k] <==> idx[k - 1] % 65536 != 0
  {
    DetectorExact(idx, k);
  }
}
