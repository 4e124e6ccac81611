/**
 * The last irreversible block: the block number that enough of the active miners have confirmed,
 * an order statistic of the last block each of them signed.
 */
module Irreversibility {

  type MinerId = nat

  const WHOLE: nat := 10000
  const THRESHOLD: nat := 7000

  // ---- order statistics ----

  function CountBelow(s: seq<nat>, v: nat): (c: nat)
    ensures c <= |s|
  {
    if |s| == 0 then 0 else CountBelow(s[..|s| - 1], v) + if s[|s| - 1] < v then 1 else 0
  }

  /** The element at k of the sorted sequence: fewer than k + 1 are below it, more than k are not above it. */
  predicate IsNth(s: seq<nat>, k: nat, v: nat) {
    v in s && CountBelow(s, v) <= k < CountBelow(s, v + 1)
  }

  lemma {:induction false} CountMonotone(s: seq<nat>, v: nat, w: nat)
    requires v <= w
    ensures CountBelow(s, v) <= CountBelow(s, w)
  {
    if |s| > 0 { CountMonotone(s[..|s| - 1], v, w); }
  }

  lemma NthUnique(s: seq<nat>, k: nat, v: nat, w: nat)
    requires IsNth(s, k, v) && IsNth(s, k, w)
    ensures v == w
  {
    if v < w { CountMonotone(s, v + 1, w); }
    if w < v { CountMonotone(s, w + 1, v); }
  }

  /** The count depends only on the elements, not on their order. */
  lemma {:induction false} CountRemove(s: seq<nat>, i: nat, v: nat)
    requires i < |s|
    ensures CountBelow(s, v) == CountBelow(s[..i] + s[i + 1..], v) + if s[i] < v then 1 else 0
  {
    var n := |s| - 1;
    if i == n {
      assert s[..i] + s[i + 1..] == s[..n];
    } else {
      CountRemove(s[..n], i, v);
      var r := s[..i] + s[i + 1..];
      assert r[..n - 1] == s[..n][..i] + s[..n][i + 1..];
      assert r[n - 1] == s[n];
    }
  }

  lemma {:induction false} CountPermuted(s: seq<nat>, t: seq<nat>, v: nat)
    requires multiset(s) == multiset(t)
    ensures CountBelow(s, v) == CountBelow(t, v)
  {
    assert |multiset(s)| == |s| && |multiset(t)| == |t|;
    if |s| > 0 {
      var x := s[|s| - 1];
      assert x in multiset(t);
      var i :| 0 <= i < |t| && t[i] == x;
      CountRemove(t, i, v);
      RemoveOne(s, |s| - 1);
      RemoveOne(t, i);
      var s', t' := s[..|s| - 1], t[..i] + t[i + 1..];
      assert s' == s[..|s| - 1] + s[|s| - 1 + 1..];
      CountPermuted(s', t', v);
    }
  }

  lemma RemoveOne(s: seq<nat>, i: nat)
    requires i < |s|
    ensures multiset(s[..i] + s[i + 1..]) == multiset(s) - multiset{s[i]}
  {
    assert s == s[..i] + [s[i]] + s[i + 1..];
  }

  /** What nth_element leaves behind: nothing greater before k, nothing smaller after it. */
  predicate Partitioned(s: seq<nat>, k: nat) {
    k < |s| && (forall i :: 0 <= i < k ==> s[i] <= s[k]) && (forall i :: k < i < |s| ==> s[k] <= s[i])
  }

  lemma {:induction false} CountPrefix(s: seq<nat>, v: nat, k: nat)
    requires k <= |s|
    ensures (forall i :: k <= i < |s| ==> s[i] >= v) ==> CountBelow(s, v) <= k
    ensures (forall i :: 0 <= i < k ==> s[i] < v) ==> CountBelow(s, v) >= k
  {
    if |s| > 0 {
      if k < |s| { CountPrefix(s[..|s| - 1], v, k); } else { CountPrefix(s[..|s| - 1], v, k - 1); }
    }
  }

  lemma PartitionedNth(s: seq<nat>, k: nat)
    requires Partitioned(s, k)
    ensures IsNth(s, k, s[k])
  {
    CountPrefix(s, s[k], k);
    CountPrefix(s, s[k] + 1, k + 1);
  }

  method LeastFrom(a: array<nat>, i: nat) returns (least: nat)
    requires i < a.Length
    ensures i <= least < a.Length && forall q :: i <= q < a.Length ==> a[least] <= a[q]
  {
    least := i;
    for j := i + 1 to a.Length
      invariant i <= least < a.Length
      invariant forall q :: i <= q < j ==> a[least] <= a[q]
    {
      if a[j] < a[least] { least := j; }
    }
  }

  method Swap(a: array<nat>, i: nat, j: nat)
    requires i < a.Length && j < a.Length
    modifies a
    ensures a[i] == old(a[j]) && a[j] == old(a[i])
    ensures forall q :: 0 <= q < a.Length && q != i && q != j ==> a[q] == old(a[q])
    ensures multiset(a[..]) == multiset(old(a[..]))
  {
    a[i], a[j] := a[j], a[i];
  }

  /** The k + 1 smallest are brought to the front, one after the other. */
  method NthElement(a: array<nat>, k: nat)
    requires k < a.Length
    modifies a
    ensures multiset(a[..]) == multiset(old(a[..])) && Partitioned(a[..], k)
  {
    for i := 0 to k + 1
      invariant multiset(a[..]) == multiset(old(a[..]))
      invariant forall p, q :: 0 <= p < i && p <= q < a.Length ==> a[p] <= a[q]
    {
      var least := LeastFrom(a, i);
      Swap(a, i, least);
    }
  }

  // ---- the last irreversible block ----

  function Offset(n: nat): (k: nat)
    ensures n > 0 ==> k < n
    ensures WHOLE * k <= (WHOLE - THRESHOLD) * n
  {
    (WHOLE - THRESHOLD) * n / WHOLE
  }

  /** The chain's part in it: the head, the last irreversible block, and each miner's last signed block. */
  datatype State = State(head: nat, irreversible: nat, confirmed: map<MinerId, nat>)

  function ConfirmedBy(s: State, m: MinerId): nat {
    if m in s.confirmed then s.confirmed[m] else 0
  }

  function Confirmations(s: State, active: seq<MinerId>): (c: seq<nat>)
    ensures |c| == |active| && forall i :: 0 <= i < |c| ==> c[i] == ConfirmedBy(s, active[i])
  {
    if |active| == 0 then []
    else Confirmations(s, active[..|active| - 1]) + [ConfirmedBy(s, active[|active| - 1])]
  }

  /** A block signed by a miner, judged by the active miners. */
  datatype Block = Block(miner: MinerId, active: seq<MinerId>, skipChecks: bool)

  function Signed(s: State, b: Block): State {
    State(s.head + 1, s.irreversible, s.confirmed[b.miner := s.head + 1])
  }

  /** After a block: the head, if checks are skipped, and otherwise the order statistic if it is an advance. */
  ghost predicate Updated(s: State, b: Block, s': State) {
    var signed := Signed(s, b);
    if b.skipChecks then s' == signed.(irreversible := signed.head)
    else
      |b.active| > 0
      && exists v: nat :: IsNth(Confirmations(signed, b.active), Offset(|b.active|), v)
           && s' == if v > signed.irreversible then signed.(irreversible := v) else signed
  }

  class Chain {
    var head: nat
    var irreversible: nat
    var confirmed: map<MinerId, nat>

    ghost function Value(): State
      reads this
    {
      State(head, irreversible, confirmed)
    }

    constructor ()
      ensures Value() == State(0, 0, map[])
    {
      head, irreversible, confirmed := 0, 0, map[];
    }

    method UpdateSigningMiner(miner: MinerId)
      modifies this
      ensures head == old(head) + 1 && irreversible == old(irreversible) && confirmed == old(confirmed)[miner := old(head) + 1]
    {
      head := head + 1;
      confirmed := confirmed[miner := head];
    }

    method UpdateLastIrreversibleBlock(active: seq<MinerId>, skipChecks: bool) returns (ghost nth: nat)
      requires |active| > 0
      modifies this`irreversible
      ensures skipChecks ==> irreversible == head
      ensures !skipChecks ==> IsNth(Confirmations(old(Value()), active), Offset(|active|), nth)
      ensures !skipChecks ==> irreversible == if nth > old(irreversible) then nth else old(irreversible)
    {
      nth := 0;
      if skipChecks {
        irreversible := head;
        return;
      }
      var miners := new nat[|active|](i requires 0 <= i < |active| reads this => ConfirmedBy(State(head, irreversible, confirmed), active[i]));
      ghost var all := miners[..];
      assert all == Confirmations(Value(), active);
      var offset := Offset(|active|);
      NthElement(miners, offset);
      NthOfPermuted(miners[..], all, offset);
      nth := miners[offset];
      if miners[offset] > irreversible {
        irreversible := miners[offset];
      }
    }

    method ApplyBlock(b: Block)
      requires |b.active| > 0
      modifies this
      ensures Updated(old(Value()), b, Value())
    {
      UpdateSigningMiner(b.miner);
      assert Value() == Signed(old(Value()), b);
      ghost var nth := UpdateLastIrreversibleBlock(b.active, b.skipChecks);
    }
  }

  lemma NthOfPermuted(s: seq<nat>, t: seq<nat>, k: nat)
    requires Partitioned(s, k) && multiset(s) == multiset(t)
    ensures IsNth(t, k, s[k])
  {
    PartitionedNth(s, k);
    CountPermuted(s, t, s[k]);
    CountPermuted(s, t, s[k] + 1);
    assert s[k] in multiset(t);
  }

  // ---- safety ----

  /** Nobody has confirmed, and nothing is irreversible, beyond the head. */
  ghost predicate Safe(s: State) {
    s.irreversible <= s.head && forall m :: m in s.confirmed ==> s.confirmed[m] <= s.head
  }

  lemma StepIsSafe(s: State, b: Block, s': State)
    requires Safe(s) && Updated(s, b, s')
    ensures Safe(s') && s.irreversible <= s'.irreversible && s'.head == s.head + 1
  {
    var signed := Signed(s, b);
    if !b.skipChecks {
      var c := Confirmations(signed, b.active);
      assert forall i :: 0 <= i < |c| ==> c[i] <= signed.head;
    }
  }

  /** A run of blocks, with the states it goes through. */
  ghost predicate Run(states: seq<State>, blocks: seq<Block>) {
    |states| == |blocks| + 1 && forall i :: 0 <= i < |blocks| ==> Updated(states[i], blocks[i], states[i + 1])
  }

  /** Over every run the last irreversible block never goes back and never passes the head. */
  lemma {:induction false} NeverGoesBack(states: seq<State>, blocks: seq<Block>, i: nat, j: nat)
    requires Run(states, blocks) && Safe(states[0]) && i <= j < |states|
    ensures Safe(states[j]) && states[i].irreversible <= states[j].irreversible <= states[j].head
    decreases j
  {
    if j > 0 {
      NeverGoesBack(states, blocks, if i < j then i else i - 1, j - 1);
      StepIsSafe(states[j - 1], blocks[j - 1], states[j]);
    }
  }

  /** How many of the active miners have signed a block of a number or a later one. */
  function ConfirmedCount(c: seq<nat>, num: nat): nat {
    |c| - CountBelow(c, num)
  }

  predicate ThresholdMet(c: seq<nat>, num: nat) {
    WHOLE * ConfirmedCount(c, num) >= THRESHOLD * |c|
  }

  /** The order statistic is the last block number that the threshold fraction has confirmed. */
  lemma NthMeetsThresholdExactly(c: seq<nat>, v: nat, num: nat)
    requires |c| > 0 && IsNth(c, Offset(|c|), v)
    ensures ThresholdMet(c, num) <==> num <= v
  {
    var k := Offset(|c|);
    assert (WHOLE - THRESHOLD) * |c| < WHOLE * (k + 1);
    if num <= v { CountMonotone(c, num, v); } else { CountMonotone(c, v + 1, num); }
  }

  /**
   * A block moves the last irreversible number to the last one that the threshold fraction of the active miners has
   * confirmed, if that is an advance: it is confirmed by them, and nothing after it is.
   */
  lemma AdvanceExactly(s: State, b: Block, s': State, num: nat)
    requires Updated(s, b, s') && !b.skipChecks
    ensures var c := Confirmations(Signed(s, b), b.active);
            && (s'.irreversible > s.irreversible ==> ThresholdMet(c, s'.irreversible))
            && (num > s'.irreversible ==> !ThresholdMet(c, num))
            && (s'.irreversible >= s.irreversible)
  {
    var c := Confirmations(Signed(s, b), b.active);
    var v: nat :| IsNth(c, Offset(|b.active|), v)
      && s' == if v > Signed(s, b).irreversible then Signed(s, b).(irreversible := v) else Signed(s, b);
    NthMeetsThresholdExactly(c, v, num);
    NthMeetsThresholdExactly(c, v, v);
  }
}
