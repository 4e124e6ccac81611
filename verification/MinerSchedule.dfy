/**
 * Which miner may produce a block when: slots of time, absolute slot numbers, and the shuffled order
 * of the miners.
 */
module MinerSchedules {
  import opened ModularArithmetic

  type MinerId = nat

  /** The head block, the flag that it was a maintenance block, and its absolute slot number. */
  datatype Head = Head(num: nat, time: nat, maintenance: bool, aslot: nat)

  datatype Params = Params(interval: nat, skip: nat)

  // ---- slots and times ----

  function SkippedSlots(h: Head, p: Params): nat {
    if h.num > 0 && h.maintenance then p.skip else 0
  }

  function SlotTime(h: Head, p: Params, slot: nat): (t: nat)
    requires p.interval > 0
  {
    if slot == 0 then 0
    else if h.num == 0 then h.time + Product(slot, p.interval)
    else Product(h.time / p.interval, p.interval) + Product(slot + SkippedSlots(h, p), p.interval)
  }

  function SlotAt(h: Head, p: Params, when: nat): nat
    requires p.interval > 0
  {
    var first := SlotTime(h, p, 1);
    if when < first then 0 else (when - first) / p.interval + 1
  }

  /** Where slot 0 would be. */
  function Origin(h: Head, p: Params): nat
    requires p.interval > 0
  {
    if h.num == 0 then h.time else Product(h.time / p.interval, p.interval) + Product(SkippedSlots(h, p), p.interval)
  }

  lemma SlotTimeFromOrigin(h: Head, p: Params, slot: nat)
    requires p.interval > 0 && slot > 0
    ensures SlotTime(h, p, slot) == Origin(h, p) + slot * p.interval
  {
    Distribute(slot, SkippedSlots(h, p), p.interval);
  }

  lemma QuotientIs(x: nat, m: nat, q: nat)
    requires m > 0
    ensures x / m == q <==> q * m <= x < q * m + m
  {
    assert x == (x / m) * m + x % m;
    Distribute(x / m - q, q, m);
    MulBound(x / m - q, m);
  }

  /** A time lies in a slot exactly when it is between the slot's time and the next one's. */
  lemma SlotAtExactly(h: Head, p: Params, when: nat, slot: nat)
    requires p.interval > 0
    ensures slot > 0 ==> (SlotAt(h, p, when) == slot <==> SlotTime(h, p, slot) <= when < SlotTime(h, p, slot + 1))
    ensures SlotAt(h, p, when) == 0 <==> when < SlotTime(h, p, 1)
  {
    SlotTimeFromOrigin(h, p, 1);
    SlotTimeFromOrigin(h, p, slot + 1);
    Distribute(slot, 1, p.interval);
    if slot > 0 {
      SlotTimeFromOrigin(h, p, slot);
      Distribute(slot - 1, 1, p.interval);
      if when >= SlotTime(h, p, 1) {
        QuotientIs(when - SlotTime(h, p, 1), p.interval, slot - 1);
      } else {
        MulBound(slot, p.interval);
      }
    }
  }

  /** The slot at a slot's time is the slot. */
  lemma SlotInverse(h: Head, p: Params, slot: nat)
    requires p.interval > 0 && slot >= 1
    ensures SlotAt(h, p, SlotTime(h, p, slot)) == slot
  {
    SlotTimeFromOrigin(h, p, slot);
    SlotTimeFromOrigin(h, p, slot + 1);
    Distribute(slot, 1, p.interval);
    SlotAtExactly(h, p, SlotTime(h, p, slot), slot);
  }

  // ---- applying a block ----

  /** The head after a block that is not too early. */
  function Applied(h: Head, p: Params, time: nat, maintenance: bool): Head
    requires p.interval > 0 && SlotAt(h, p, time) > 0
  {
    Head(h.num + 1, time, maintenance, h.aslot + SlotAt(h, p, time))
  }

  /** The start of the slot that a time lies in, for slots counted from a multiple of the interval. */
  lemma SlotStart(h: Head, p: Params, time: nat)
    requires p.interval > 0 && SlotAt(h, p, time) > 0 && Origin(h, p) % p.interval == 0
    ensures (time / p.interval) * p.interval == SlotTime(h, p, SlotAt(h, p, time))
  {
    var k, m := SlotAt(h, p, time), p.interval;
    SlotAtExactly(h, p, time, k);
    SlotTimeFromOrigin(h, p, k);
    SlotTimeFromOrigin(h, p, k + 1);
    var o := Origin(h, p) / m;
    assert Origin(h, p) == o * m;
    Distribute(k, 1, m);
    Distribute(o, k, m);
    FloorShift(o + k, time - (o + k) * m, m);
  }

  lemma OriginAligned(h: Head, p: Params)
    requires p.interval > 0 && h.num > 0
    ensures Origin(h, p) % p.interval == 0
  {
    Distribute(h.time / p.interval, SkippedSlots(h, p), p.interval);
    MultipleMod(h.time / p.interval + SkippedSlots(h, p), p.interval);
  }

  /**
   * The slots after a block are the slots that followed it before; a maintenance block skips some.
   * From genesis on this asks for a genesis time on a multiple of the interval.
   */
  lemma SlotsShift(h: Head, p: Params, time: nat, maintenance: bool, slot: nat)
    requires p.interval > 0 && slot > 0 && SlotAt(h, p, time) > 0
    requires h.num == 0 ==> h.time % p.interval == 0
    ensures SlotTime(Applied(h, p, time, maintenance), p, slot)
            == SlotTime(h, p, SlotAt(h, p, time) + slot + if maintenance then p.skip else 0)
  {
    if h.num > 0 { OriginAligned(h, p); }
    var h', k, m := Applied(h, p, time, maintenance), SlotAt(h, p, time), p.interval;
    SlotStart(h, p, time);
    SlotTimeFromOrigin(h', p, slot);
    SlotTimeFromOrigin(h, p, k);
    var s := SkippedSlots(h', p);
    SlotTimeFromOrigin(h, p, k + slot + s);
    Distribute(k + slot, s, m);
    Distribute(k, slot, m);
  }

  /** Whose turn it is at a time. */
  function MinerAt(h: Head, p: Params, miners: seq<MinerId>, when: nat): MinerId
    requires p.interval > 0 && |miners| > 0
  {
    miners[(h.aslot + SlotAt(h, p, when)) % |miners|]
  }

  lemma SlotAtShifts(h: Head, p: Params, time: nat, when: nat)
    requires p.interval > 0 && SlotAt(h, p, time) > 0 && (h.num == 0 ==> h.time % p.interval == 0)
    requires var h' := Applied(h, p, time, false); when >= SlotTime(h', p, 1)
    ensures SlotAt(h, p, when) == SlotAt(h, p, time) + SlotAt(Applied(h, p, time, false), p, when)
  {
    var h' := Applied(h, p, time, false);
    var k, n := SlotAt(h, p, time), SlotAt(h', p, when);
    SlotAtExactly(h', p, when, n);
    SlotsShift(h, p, time, false, n);
    SlotsShift(h, p, time, false, n + 1);
    SlotAtExactly(h, p, when, k + n);
  }

  /** A block without maintenance leaves everyone's turn at every later slot as it was. */
  lemma ScheduleStable(h: Head, p: Params, miners: seq<MinerId>, time: nat, when: nat)
    requires p.interval > 0 && |miners| > 0 && SlotAt(h, p, time) > 0 && (h.num == 0 ==> h.time % p.interval == 0)
    requires when >= SlotTime(Applied(h, p, time, false), p, 1)
    ensures MinerAt(Applied(h, p, time, false), p, miners, when) == MinerAt(h, p, miners, when)
  {
    SlotAtShifts(h, p, time, when);
  }

  /** A whole run of blocks without maintenance: each is in a slot after the one before. */
  predicate InSlots(h: Head, p: Params, times: seq<nat>)
    requires p.interval > 0
    decreases |times|
  {
    |times| > 0 ==> SlotAt(h, p, times[0]) > 0 && InSlots(Applied(h, p, times[0], false), p, times[1..])
  }

  function AppliedAll(h: Head, p: Params, times: seq<nat>): Head
    requires p.interval > 0 && InSlots(h, p, times)
    decreases |times|
  {
    if |times| == 0 then h else AppliedAll(Applied(h, p, times[0], false), p, times[1..])
  }

  lemma {:induction false} NextSlotLater(h: Head, p: Params, times: seq<nat>)
    requires p.interval > 0 && InSlots(h, p, times) && (h.num == 0 ==> h.time % p.interval == 0)
    ensures SlotTime(AppliedAll(h, p, times), p, 1) >= SlotTime(h, p, 1)
    decreases |times|
  {
    if |times| > 0 {
      var h' := Applied(h, p, times[0], false);
      NextSlotLater(h', p, times[1..]);
      SlotsShift(h, p, times[0], false, 1);
      var k := SlotAt(h, p, times[0]);
      SlotTimeFromOrigin(h, p, 1);
      SlotTimeFromOrigin(h, p, k + 1);
      Distribute(k, 1, p.interval);
    }
  }

  /** Until the next reshuffle or maintenance, no number of blocks changes anyone's turn in the slots to come. */
  lemma {:induction false} ScheduleStableForRun(h: Head, p: Params, miners: seq<MinerId>, times: seq<nat>, when: nat)
    requires p.interval > 0 && |miners| > 0 && InSlots(h, p, times) && (h.num == 0 ==> h.time % p.interval == 0)
    requires when >= SlotTime(AppliedAll(h, p, times), p, 1)
    ensures MinerAt(AppliedAll(h, p, times), p, miners, when) == MinerAt(h, p, miners, when)
    decreases |times|
  {
    if |times| > 0 {
      var h' := Applied(h, p, times[0], false);
      NextSlotLater(h', p, times[1..]);
      ScheduleStable(h, p, miners, times[0], when);
      ScheduleStableForRun(h', p, miners, times[1..], when);
    }
  }

  /**
   * The first block shifts the slots of an unaligned genesis, so the condition above is needed. In the node that
   * block is a maintenance block.
   */
  lemma UnalignedGenesis(p: Params, time: nat, aslot: nat, maintenance: bool)
    requires p.interval > 0
    ensures var h, s := Head(0, time, false, aslot), if maintenance then p.skip else 0;
            (forall t :: SlotAt(h, p, t) == 1 ==> SlotTime(Applied(h, p, t, maintenance), p, 1) == SlotTime(h, p, 2 + s))
            <==> time % p.interval == 0
  {
    var h := Head(0, time, false, aslot);
    var m, s := p.interval, if maintenance then p.skip else 0;
    if time % m == 0 {
      forall t | SlotAt(h, p, t) == 1 ensures SlotTime(Applied(h, p, t, maintenance), p, 1) == SlotTime(h, p, 2 + s) {
        SlotsShift(h, p, t, maintenance, 1);
      }
    } else {
      SlotInverse(h, p, 1);
      UnalignedShift(h, p, maintenance);
    }
  }

  /** The first slot's own time is an example. */
  lemma UnalignedShift(h: Head, p: Params, maintenance: bool)
    requires p.interval > 0 && h.num == 0 && h.time % p.interval != 0 && SlotAt(h, p, SlotTime(h, p, 1)) == 1
    ensures SlotTime(Applied(h, p, SlotTime(h, p, 1), maintenance), p, 1)
            != SlotTime(h, p, 2 + if maintenance then p.skip else 0)
  {
    var m, s := p.interval, if maintenance then p.skip else 0;
    var t := SlotTime(h, p, 1);
    var h' := Applied(h, p, t, maintenance);
    SlotTimeFromOrigin(h', p, 1);
    SlotTimeFromOrigin(h, p, 2 + s);
    assert Origin(h', p) == (t / m) * m + s * m;
    Distribute(2, s, m);
    ShiftMod(h.time, m);
    if (t / m) * m == t {
      MultipleMod(t / m, m);
    }
  }

  lemma ShiftMod(a: nat, m: nat)
    requires m > 0
    ensures (a + m) % m == a % m
  {
    Distribute(a / m, 1, m);
    FloorShift(a / m + 1, a % m, m);
    assert a + m == (a / m + 1) * m + a % m;
  }

  // ---- the shuffle ----

  /** A 64-bit xorshift step, for a position and a block's time. */
  function Random(now: nat, i: nat): nat {
    var hi := (now % 0x1_0000_0000) as bv64 << 32;
    var k0 := hi + ((i % 0x1_0000_0000) as bv64) * 2685821657736338717;
    var k1 := k0 ^ (k0 >> 12);
    var k2 := k1 ^ (k1 << 25);
    var k3 := k2 ^ (k2 >> 27);
    (k3 * 2685821657736338717) as nat
  }

  function RandomAt(now: nat): nat -> nat {
    i => Random(now, i)
  }

  /** The place to swap with is at or after i. */
  function Pick(random: nat -> nat, i: nat, n: nat): (j: nat)
    requires i < n
    ensures i <= j < n
  {
    i + random(i) % (n - i)
  }

  function Swapped(s: seq<MinerId>, i: nat, j: nat): (r: seq<MinerId>)
    requires i < |s| && j < |s|
    ensures |r| == |s| && multiset(r) == multiset(s)
  {
    var t := s[i := s[j]];
    assert multiset(t) == multiset(s) - multiset{s[i]} + multiset{s[j]};
    assert multiset(t[j := s[i]]) == multiset(t) - multiset{t[j]} + multiset{s[i]};
    t[j := s[i]]
  }

  /** The swaps of the first n places: whatever the generator, a permutation of the active miners. */
  function Shuffled(miners: seq<MinerId>, random: nat -> nat, n: nat): (r: seq<MinerId>)
    requires n <= |miners|
    ensures |r| == |miners| && multiset(r) == multiset(miners)
  {
    if n == 0 then miners
    else
      var front := Shuffled(miners, random, n - 1);
      Swapped(front, n - 1, Pick(random, n - 1, |miners|))
  }

  class MinerSchedule {
    var miners: array<MinerId>

    constructor ()
      ensures miners.Length == 0
    {
      miners := new MinerId[0];
    }

    /** Every round of as many blocks as there are active miners, they are shuffled anew. */
    method UpdateMinerSchedule(head: Head, active: seq<MinerId>)
      requires |active| > 0
      modifies this
      ensures head.num % |active| != 0 ==> miners == old(miners)
      ensures head.num % |active| == 0 ==> fresh(miners) && miners[..] == Shuffled(active, RandomAt(head.time), |active|)
    {
      if head.num % |active| == 0 {
        var a := new MinerId[|active|](i requires 0 <= i < |active| => active[i]);
        assert a[..] == active;
        for i := 0 to a.Length
          invariant a[..] == Shuffled(active, RandomAt(head.time), i)
        {
          var j := Pick(RandomAt(head.time), i, a.Length);
          a[i], a[j] := a[j], a[i];
        }
        miners := a;
      }
    }
  }

  // ---- fairness ----

  predicate Distinct(s: seq<MinerId>) {
    forall i, j :: 0 <= i < j < |s| ==> s[i] != s[j]
  }

  lemma DistinctByCount(s: seq<MinerId>)
    requires forall m :: m in s ==> multiset(s)[m] == 1
    ensures Distinct(s)
  {
    forall i, j | 0 <= i < j < |s| ensures s[i] != s[j] {
      if s[i] == s[j] { CountedTwice(s, i, j); }
    }
  }

  lemma CountedTwice(s: seq<MinerId>, i: nat, j: nat)
    requires i < j < |s| && s[i] == s[j]
    ensures multiset(s)[s[i]] >= 2
  {
    assert s == s[..j] + [s[j]] + s[j + 1..];
    assert s[i] in s[..j];
  }

  lemma {:induction false} CountsOfDistinct(s: seq<MinerId>, m: MinerId)
    requires Distinct(s) && m in s
    ensures multiset(s)[m] == 1
  {
    var n := |s| - 1;
    assert s == s[..n] + [s[n]];
    if s[n] == m {
      assert m !in s[..n];
    } else {
      assert m in s[..n];
      CountsOfDistinct(s[..n], m);
    }
  }

  /** A permutation of distinct miners has them all, each once. */
  lemma PermutationDistinct(s: seq<MinerId>, t: seq<MinerId>)
    requires multiset(s) == multiset(t) && Distinct(s)
    ensures Distinct(t) && (forall m :: m in s <==> m in t) && |s| == |t|
  {
    forall m ensures m in s <==> m in t {
      assert m in s <==> m in multiset(s);
      assert m in t <==> m in multiset(t);
    }
    forall m | m in t ensures multiset(t)[m] == 1 { CountsOfDistinct(s, m); }
    DistinctByCount(t);
    assert |multiset(s)| == |s| && |multiset(t)| == |t|;
  }

  /** The absolute slot of a round that falls on a place of the schedule. */
  lemma SlotOfPlace(first: nat, n: nat, place: nat) returns (slot: nat)
    requires place < n
    ensures first <= slot < first + n && slot % n == place
  {
    QuotientBelow(first, n);
    ModBelow(first, n);
    assert first == (first / n) * n + first % n;
    slot := (first / n) * n + place;
    if slot < first {
      slot := slot + n;
      Distribute(first / n, 1, n);
      FloorShift(first / n + 1, place, n);
    } else {
      FloorShift(first / n, place, n);
    }
  }

  lemma SamePlace(a: nat, b: nat, n: nat)
    requires n > 0 && a <= b < a + n && a % n == b % n
    ensures a == b
  {
    assert (b / n - a / n) * n == b - a by { Distribute(b / n - a / n, a / n, n); }
    MulBound(b / n - a / n, n);
  }

  /** In every round of absolute slots, each miner of a schedule has exactly one. */
  lemma OncePerRound(s: seq<MinerId>, first: nat, m: MinerId) returns (slot: nat)
    requires Distinct(s) && m in s
    ensures first <= slot < first + |s| && s[slot % |s|] == m
    ensures forall other :: first <= other < first + |s| && s[other % |s|] == m ==> other == slot
  {
    var n := |s|;
    var place :| 0 <= place < n && s[place] == m;
    slot := SlotOfPlace(first, n, place);
    forall other | first <= other < first + n && s[other % n] == m ensures other == slot {
      SamePlace(if other < slot then other else slot, if other < slot then slot else other, n);
    }
  }

  /** Of as many consecutive absolute slots as there are active miners, each active miner has exactly one. */
  lemma EachMinerOnce(active: seq<MinerId>, random: nat -> nat, first: nat, m: MinerId) returns (slot: nat)
    requires Distinct(active) && m in active
    ensures var s, n := Shuffled(active, random, |active|), |active|;
            && first <= slot < first + n && s[slot % n] == m
            && (forall other :: first <= other < first + n && s[other % n] == m ==> other == slot)
  {
    var s := Shuffled(active, random, |active|);
    PermutationDistinct(active, s);
    slot := OncePerRound(s, first, m);
  }
}
