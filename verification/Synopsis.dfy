/**
 * How two nodes find where their chains part: one sends a synopsis, ids of its blocks at positions that come
 * closer to each other towards the head; the other answers with the ids that follow the last one they share.
 */
module Synopses {
  import opened Wrappers
  import opened Forks

  /** A node: its main chain by number, the blocks it knows on any branch, and the last block it cannot undo. */
  datatype Node = Node(chain: seq<BlockId>, known: set<BlockId>, lastNonUndoable: nat)

  datatype NetError = NumberNotFound | ForkTooOld | UnreachableFork | ForkUnknown

  /** Every block names its predecessor; the first one names none. */
  predicate Linked(c: seq<BlockId>) {
    forall k :: 0 <= k < |c| ==> LinkAt(c, k)
  }

  predicate LinkAt(c: seq<BlockId>, k: nat)
    requires k < |c|
  {
    c[k].IdOf? && c[k].block.previous == (if k == 0 then Zero else c[k - 1])
  }

  predicate ValidNode(n: Node) {
    Linked(n.chain) && n.lastNonUndoable <= |n.chain| && forall k :: 0 <= k < |n.chain| ==> n.chain[k] in n.known
  }

  lemma {:induction false} LinkedNumbers(c: seq<BlockId>, k: nat)
    requires Linked(c) && k < |c|
    ensures NumFromId(c[k]) == k + 1
  {
    assert LinkAt(c, k);
    var b := c[k].block;
    assert c[k] == IdOf(b) && b.previous == (if k == 0 then Zero else c[k - 1]);
    NumOfId(b);
    assert BlockNum(b) == NumFromId(b.previous) + 1;
    if k > 0 { LinkedNumbers(c, k - 1); }
  }

  /** The id of the main chain's block of a number. */
  function IdForNum(n: Node, num: nat): Result<BlockId, NetError> {
    if 0 < num <= |n.chain| then Ok(n.chain[num - 1]) else Err(NumberNotFound)
  }

  function Included(n: Node, id: BlockId): Result<bool, NetError> {
    match IdForNum(n, NumFromId(id))
    case Ok(own) => Ok(own == id)
    case Err(e) => Err(e)
  }

  // ---- the synopsis ----

  /** The next position: past half of the way to the end. */
  function Next(p: nat, end: nat): nat
    requires p <= end
  {
    p + (end - p + 2) / 2
  }

  /** Positions from p on, up to the last block that can be named; end also counts blocks the network knows of. */
  function Positions(p: nat, last: nat, end: nat): (ps: seq<nat>)
    requires last <= end
    ensures |ps| > 0 <==> p <= last
    ensures |ps| > 0 ==> ps[0] == p
    ensures forall i :: 0 <= i < |ps| ==> p <= ps[i] <= last
    decreases last + 1 - p
  {
    if p > last then [] else [p] + Positions(Next(p, end), last, end)
  }

  /** The ids of a chain at its positions from p on. */
  function Walk(c: seq<BlockId>, p: nat, end: nat): (ids: seq<BlockId>)
    requires 1 <= p && |c| <= end
    decreases |c| + 1 - p
  {
    if p > |c| then [] else [c[p - 1]] + Walk(c, Next(p, end), end)
  }

  lemma {:induction false} WalkIs(c: seq<BlockId>, p: nat, end: nat)
    requires 1 <= p && |c| <= end
    ensures SampledAt(c, Positions(p, |c|, end), Walk(c, p, end))
    decreases |c| + 1 - p
  {
    if p <= |c| {
      WalkIs(c, Next(p, end), end);
      SampledCons(c, p, Positions(Next(p, end), |c|, end), Walk(c, Next(p, end), end));
    }
  }

  lemma SampledCons(c: seq<BlockId>, p: nat, ps: seq<nat>, ids: seq<BlockId>)
    requires 1 <= p <= |c| && SampledAt(c, ps, ids)
    ensures SampledAt(c, [p] + ps, [c[p - 1]] + ids)
  {
  }

  /** The ids are those of the chain at the positions. */
  predicate SampledAt(c: seq<BlockId>, ps: seq<nat>, ids: seq<BlockId>) {
    |ids| == |ps| && forall i :: 0 <= i < |ps| ==> 1 <= ps[i] <= |c| && ids[i] == c[ps[i] - 1]
  }

  /** The branch of a fork, from its head down to and including the block it shares with the main chain. */
  predicate ForkHistory(n: Node, reference: BlockId, f: seq<BlockId>) {
    && |f| >= 2 && f[0] == reference
    && (forall i :: 0 <= i < |f| - 1 ==> f[i].IdOf? && f[i].block.previous == f[i + 1])
    && var ancestor := f[|f| - 1];
       ancestor == Zero || (NumFromId(ancestor) <= |n.chain| && NumFromId(ancestor) > 0 && n.chain[NumFromId(ancestor) - 1] == ancestor)
  }

  function Reversed(s: seq<BlockId>): (r: seq<BlockId>)
    ensures |r| == |s| && forall i :: 0 <= i < |s| ==> r[i] == s[|s| - 1 - i]
  {
    seq(|s|, i requires 0 <= i < |s| => s[|s| - 1 - i])
  }

  /** The chain that ends in the reference point, or in the head if there is none, and its first position. */
  function Summarised(n: Node, reference: BlockId, fork: Result<seq<BlockId>, NetError>): Result<(seq<BlockId>, nat), NetError>
    requires ValidNode(n) && (fork.Ok? ==> ForkHistory(n, reference, fork.value))
  {
    if reference == Zero then Ok((n.chain, n.lastNonUndoable))
    else
      match Included(n, reference)
      case Err(e) => Err(e)
      case Ok(true) =>
        var num := NumFromId(reference);
        Ok((n.chain[..num], if num < n.lastNonUndoable then num else n.lastNonUndoable))
      case Ok(false) =>
        if fork.Err? then Err(ForkUnknown)
        else
          var f := fork.value;
          var shared := NumFromId(f[|f| - 1]);
          if shared < n.lastNonUndoable then Err(ForkTooOld)
          else Ok((n.chain[..shared] + Reversed(f[..|f| - 1]), n.lastNonUndoable))
  }

  /** Whatever is summarised is a chain, and its first position is within it. */
  lemma SummarisedIsChain(n: Node, reference: BlockId, fork: Result<seq<BlockId>, NetError>)
    requires ValidNode(n) && (fork.Ok? ==> ForkHistory(n, reference, fork.value))
    ensures var s := Summarised(n, reference, fork);
            s.Ok? ==> Linked(s.value.0) && s.value.1 <= |s.value.0| && (reference != Zero ==> |s.value.0| > 0)
  {
    if reference != Zero && Included(n, reference) == Ok(false) && fork.Ok? {
      ForkIsChain(n, reference, fork.value);
    } else if reference != Zero && Included(n, reference) == Ok(true) {
      PrefixLinked(n.chain, NumFromId(reference));
    }
  }

  lemma PrefixLinked(c: seq<BlockId>, n: nat)
    requires Linked(c) && n <= |c|
    ensures Linked(c[..n])
  {
    forall k | 0 <= k < n ensures LinkAt(c[..n], k) { assert LinkAt(c, k); }
  }

  lemma ForkIsChain(n: Node, reference: BlockId, f: seq<BlockId>)
    requires ValidNode(n) && ForkHistory(n, reference, f)
    ensures var shared := NumFromId(f[|f| - 1]); shared <= |n.chain| && Linked(n.chain[..shared] + Reversed(f[..|f| - 1]))
  {
    var ancestor := f[|f| - 1];
    var shared := NumFromId(ancestor);
    assert NumFromId(Zero) == 0;
    var main, fork := n.chain[..shared], Reversed(f[..|f| - 1]);
    assert forall i :: 0 <= i < |fork| ==> fork[i] == f[|f| - 2 - i];
    var c := main + fork;
    forall k | 0 <= k < |c| ensures LinkAt(c, k) {
      if k >= shared {
        var i := |f| - 2 - (k - shared);
        assert c[k] == f[i] && f[i].block.previous == f[i + 1];
        if k == shared {
          assert f[i + 1] == ancestor;
        } else {
          assert c[k - 1] == fork[k - 1 - shared] == f[i + 1];
        }
      } else {
        assert LinkAt(n.chain, k);
      }
    }
  }

  method GetBlockchainSynopsis(n: Node, reference: BlockId, after: nat, fork: Result<seq<BlockId>, NetError>)
    returns (result: Result<seq<BlockId>, NetError>)
    requires ValidNode(n) && (fork.Ok? ==> ForkHistory(n, reference, fork.value))
    ensures match Summarised(n, reference, fork)
            case Err(e) => result == Err(e)
            case Ok((c, low)) =>
              && low <= |c| && result.Ok?
              && result.value == if |c| == 0 then [] else Sampled(c, low, after)
  {
    SummarisedIsChain(n, reference, fork);
    var low := n.lastNonUndoable;
    var nonForkHigh := |n.chain|;
    var history: seq<BlockId> := [];
    if reference != Zero {
      var included := Included(n, reference);
      if included.Err? { return Err(included.error); }
      if included.value {
        nonForkHigh := NumFromId(reference);
        if nonForkHigh < low { low := nonForkHigh; }
      } else {
        if fork.Err? { return Err(ForkUnknown); }
        var f := fork.value;
        nonForkHigh := NumFromId(f[|f| - 1]);
        history := Reversed(f[..|f| - 1]);
        if nonForkHigh < low { return Err(ForkTooOld); }
      }
    } else if |n.chain| == 0 {
      return Ok([]);
    }
    ghost var c := Summarised(n, reference, fork).value.0;
    assert n.chain[..nonForkHigh] + history == c;
    var synopsis := Sample(n.chain, nonForkHigh, history, low, after);
    result := Ok(synopsis);
  }

  /** Ids up to the fork come from the main chain, the others from the fork's history. */
  function IdAt(chain: seq<BlockId>, nonForkHigh: nat, history: seq<BlockId>, at: nat): (id: BlockId)
    requires nonForkHigh <= |chain| && 1 <= at <= nonForkHigh + |history|
    ensures id == (chain[..nonForkHigh] + history)[at - 1]
  {
    if at <= nonForkHigh then chain[at - 1] else history[at - nonForkHigh - 1]
  }

  method Sample(chain: seq<BlockId>, nonForkHigh: nat, history: seq<BlockId>, low: nat, after: nat) returns (synopsis: seq<BlockId>)
    requires nonForkHigh <= |chain| && low <= nonForkHigh + |history| && nonForkHigh + |history| > 0
    ensures var c := chain[..nonForkHigh] + history; |c| == nonForkHigh + |history| && synopsis == Sampled(c, low, after)
  {
    ghost var c := chain[..nonForkHigh] + history;
    var high := nonForkHigh + |history|;
    var end := high + after;
    var at := low;
    if at == 0 { at := 1; }
    ghost var all := Walk(c, at, end);
    synopsis := [];
    while true
      invariant 1 <= at <= high
      invariant all == synopsis + Walk(c, at, end)
      decreases high - at
    {
      synopsis := synopsis + [IdAt(chain, nonForkHigh, history, at)];
      at := Next(at, end);
      if at > high { break; }
    }
  }

  /** The ids of a chain at the positions from low on; position 0 counts as 1. */
  function Sampled(c: seq<BlockId>, low: nat, after: nat): seq<BlockId>
    requires low <= |c| && |c| > 0
  {
    Walk(c, First(low), |c| + after)
  }

  function First(low: nat): (p: nat)
    ensures p >= 1 && p >= low && (p == low || p == 1)
  {
    if low == 0 then 1 else low
  }

  // ---- the shape of a synopsis ----

  function Exp2(n: nat): (r: nat)
    ensures r >= 1
  {
    if n == 0 then 1 else 2 * Exp2(n - 1)
  }

  predicate Ascending(ps: seq<nat>) {
    forall i, j :: 0 <= i < j < |ps| ==> ps[i] < ps[j]
  }

  lemma {:induction false} Increasing(p: nat, last: nat, end: nat)
    requires last <= end
    ensures Ascending(Positions(p, last, end))
    decreases last + 1 - p
  {
    if p <= last {
      Increasing(Next(p, end), last, end);
      var rest := Positions(Next(p, end), last, end);
      var ps := Positions(p, last, end);
      assert ps == [p] + rest && Next(p, end) > p;
      forall i, j | 0 <= i < j < |ps| ensures ps[i] < ps[j] {
        assert ps[j] == rest[j - 1] && rest[j - 1] >= Next(p, end);
        if i > 0 { assert ps[i] == rest[i - 1] && rest[i - 1] < rest[j - 1]; }
      }
    }
  }

  /**
   * Without trailing ids a synopsis ends at the last block, and its length is one more than the binary logarithm
   * of the number of blocks it spans.
   */
  lemma {:induction false} EndsAndLength(p: nat, last: nat)
    requires p <= last
    ensures var ps := Positions(p, last, last);
            && |ps| > 0 && ps[|ps| - 1] == last
            && Exp2(|ps| - 1) <= last - p + 1 < Exp2(|ps|)
    decreases last - p
  {
    var q := Next(p, last);
    if q <= last {
      EndsAndLength(q, last);
    } else {
      assert p == last;
      assert Positions(q, last, last) == [];
    }
  }

  /** With trailing ids it is no longer than that of the whole span. */
  lemma {:induction false} LengthBound(p: nat, last: nat, end: nat)
    requires p <= last <= end
    ensures Exp2(|Positions(p, last, end)| - 1) <= end - p + 1
    decreases last - p
  {
    var q := Next(p, end);
    if q <= last {
      LengthBound(q, last, end);
    } else {
      assert Positions(q, last, end) == [];
    }
  }

  /**
   * A synopsis without trailing ids starts at its first position, goes up the chain, ends at the last block, and
   * has one id more than the binary logarithm of the number of blocks.
   */
  lemma SynopsisShape(c: seq<BlockId>, low: nat)
    requires |c| > 0 && low <= |c|
    ensures var ids := Sampled(c, low, 0); var ps := Positions(First(low), |c|, |c|);
            && SampledAt(c, ps, ids) && Ascending(ps)
            && ids[0] == c[First(low) - 1] && ids[|ids| - 1] == c[|c| - 1]
            && Exp2(|ids| - 1) <= |c| - First(low) + 1 < Exp2(|ids|)
  {
    WalkIs(c, First(low), |c|);
    Increasing(First(low), |c|, |c|);
    EndsAndLength(First(low), |c|);
  }

  /** How many positions are at most f. */
  function UpTo(ps: seq<nat>, f: nat): (k: nat)
    ensures k <= |ps|
    ensures forall i :: 0 <= i < k ==> ps[i] <= f
    ensures k < |ps| ==> ps[k] > f
  {
    if |ps| > 0 && ps[0] <= f then 1 + UpTo(ps[1..], f) else 0
  }

  /**
   * If the chains part after block f, the last position that is still shared is at most twice as far from the end
   * as f is.
   */
  lemma {:induction false} GapBound(p: nat, last: nat, end: nat, f: nat)
    requires p <= f <= last <= end
    ensures var ps := Positions(p, last, end); var k := UpTo(ps, f);
            k > 0 && end - ps[k - 1] <= 2 * (end - f)
    decreases last - p
  {
    var q := Next(p, end);
    var ps := Positions(p, last, end);
    assert ps[1..] == Positions(q, last, end);
    if q <= f {
      GapBound(q, last, end, f);
      assert UpTo(ps, f) == 1 + UpTo(ps[1..], f);
    } else {
      assert UpTo(ps[1..], f) == 0 by {
        if q <= last { assert ps[1..][0] == q; }
      }
      assert UpTo(ps, f) == 1;
    }
  }

  // ---- the answer ----

  /** Whether the answering node takes an id of the synopsis for its own; it may not find the number it looks up. */
  function Recognised(b: Node, id: BlockId): Result<bool, NetError> {
    if id == Zero then Ok(true)
    else if id !in b.known then Ok(false)
    else Included(b, id)
  }

  /** The last id that is recognised, unless a lookup fails before. */
  function LastKnown(b: Node, synopsis: seq<BlockId>): Result<BlockId, NetError> {
    if |synopsis| == 0 then Err(UnreachableFork)
    else
      var id := synopsis[|synopsis| - 1];
      match Recognised(b, id)
      case Err(e) => Err(e)
      case Ok(known) => if known then Ok(id) else LastKnown(b, synopsis[..|synopsis| - 1])
  }

  /** The ids of a chain from a number on, at most limit of them. */
  function Slice(c: seq<BlockId>, from: nat, limit: nat): seq<BlockId>
    requires 1 <= from
  {
    if from > |c| then []
    else c[from - 1..if from - 1 + limit < |c| then from - 1 + limit else |c|]
  }

  /** A peer without blocks sends nothing, or the zero id. */
  function StartOf(b: Node, synopsis: seq<BlockId>): Result<BlockId, NetError> {
    if synopsis == [] || synopsis == [Zero] then Ok(Zero) else LastKnown(b, synopsis)
  }

  /** The answer is the consecutive ids from the last recognised one on; remaining counts those after it. */
  method GetBlockIds(b: Node, synopsis: seq<BlockId>, limit: nat) returns (result: Result<seq<BlockId>, NetError>, remaining: nat)
    requires ValidNode(b)
    ensures |b.chain| == 0 ==> result == Ok([])
    ensures |b.chain| > 0 ==>
      match StartOf(b, synopsis)
      case Err(e) => result == Err(e)
      case Ok(id) => result == Ok(Slice(b.chain, First(NumFromId(id)), limit))
    ensures result.Ok? && result.value != [] ==> NumFromId(result.value[|result.value| - 1]) + remaining == |b.chain|
    ensures result.Ok? && result.value == [] ==> remaining == 0
  {
    remaining := 0;
    if |b.chain| == 0 { return Ok([]), 0; }
    var start: Result<BlockId, NetError> := Ok(Zero);
    if !(|synopsis| == 0 || (|synopsis| == 1 && synopsis[0] == Zero)) {
      start := ScanSynopsis(b, synopsis);
    }
    if start.Err? { return Err(start.error), 0; }
    var num := NumFromId(start.value);
    var ids := IdsFrom(b, num, limit);
    if |ids| > 0 {
      LinkedNumbers(b.chain, First(num) - 1 + |ids| - 1);
      remaining := |b.chain| - NumFromId(ids[|ids| - 1]);
    }
    result := Ok(ids);
  }

  /** From the end of the synopsis to its start. */
  method ScanSynopsis(b: Node, synopsis: seq<BlockId>) returns (found: Result<BlockId, NetError>)
    ensures found == LastKnown(b, synopsis)
  {
    var i := |synopsis|;
    assert synopsis[..i] == synopsis;
    while i > 0
      invariant 0 <= i <= |synopsis|
      invariant LastKnown(b, synopsis) == LastKnown(b, synopsis[..i])
    {
      var id := synopsis[i - 1];
      assert synopsis[..i][..i - 1] == synopsis[..i - 1];
      var r := Recognised(b, id);
      if r.Err? { return Err(r.error); }
      if r.value { return Ok(id); }
      i := i - 1;
    }
    found := Err(UnreachableFork);
  }

  method IdsFrom(b: Node, start: nat, limit: nat) returns (ids: seq<BlockId>)
    requires |b.chain| > 0
    ensures ids == Slice(b.chain, First(start), limit)
  {
    ids := [];
    var num := start;
    ghost var from := First(start);
    while num <= |b.chain| && |ids| < limit
      invariant num >= start && (num < from ==> ids == [])
      invariant from <= num && start <= |b.chain| ==> num <= |b.chain| + 1 && ids == b.chain[from - 1..num - 1]
      invariant |ids| <= limit && (start > |b.chain| ==> ids == [])
      decreases |b.chain| + 1 - num
    {
      if num > 0 {
        ids := ids + [b.chain[num - 1]];
      }
      num := num + 1;
    }
  }

  // ---- the protocol ----

  /** Two chains agree up to where they part, and nowhere after it. */
  predicate PartAfter(a: seq<BlockId>, b: seq<BlockId>, f: nat) {
    f <= |a| && f <= |b| && a[..f] == b[..f] && (f < |a| && f < |b| ==> a[f] != b[f])
  }

  lemma {:induction false} NeverAgain(a: seq<BlockId>, b: seq<BlockId>, f: nat, k: nat)
    requires Linked(a) && Linked(b) && PartAfter(a, b, f) && f <= k < |a| && k < |b|
    ensures a[k] != b[k]
  {
    assert LinkAt(a, k) && LinkAt(b, k);
    if k > f { NeverAgain(a, b, f, k - 1); }
  }

  /** The answering node knows the block of a position beyond its own head, and finds nothing under its number. */
  predicate Beyond(a: seq<BlockId>, b: Node, p: nat) {
    |b.chain| < p <= |a| && a[p - 1] in b.known
  }

  ghost predicate LookupThrows(a: seq<BlockId>, b: Node, ps: seq<nat>) {
    exists i :: 0 <= i < |ps| && Beyond(a, b, ps[i])
  }

  lemma RecognisedExactly(a: seq<BlockId>, b: Node, f: nat, p: nat)
    requires Linked(a) && ValidNode(b) && PartAfter(a, b.chain, f) && 1 <= p <= |a|
    ensures Recognised(b, a[p - 1]) == if Beyond(a, b, p) then Err(NumberNotFound) else Ok(p <= f)
  {
    LinkedNumbers(a, p - 1);
    if p <= f {
      assert a[p - 1] == a[..f][p - 1] == b.chain[..f][p - 1];
    } else if p <= |b.chain| {
      NeverAgain(a, b.chain, f, p - 1);
    }
  }

  lemma {:induction false} LastKnownIs(a: seq<BlockId>, b: Node, f: nat, ps: seq<nat>, ids: seq<BlockId>, k: nat)
    requires Linked(a) && ValidNode(b) && PartAfter(a, b.chain, f) && SampledAt(a, ps, ids) && !LookupThrows(a, b, ps)
    requires k <= |ps| && (k > 0 ==> ps[k - 1] <= f) && forall i :: k <= i < |ps| ==> ps[i] > f
    ensures LastKnown(b, ids) == if k == 0 then Err(UnreachableFork) else Ok(a[ps[k - 1] - 1])
    decreases |ids|
  {
    var n := |ids|;
    if n > 0 {
      RecognisedExactly(a, b, f, ps[n - 1]);
      assert !Beyond(a, b, ps[n - 1]);
      if n > k {
        assert forall i :: 0 <= i < n - 1 ==> ps[..n - 1][i] == ps[i];
        LastKnownIs(a, b, f, ps[..n - 1], ids[..n - 1], k);
      }
    }
  }

  lemma {:induction false} LastKnownThrows(a: seq<BlockId>, b: Node, f: nat, ps: seq<nat>, ids: seq<BlockId>, i: nat)
    requires Linked(a) && ValidNode(b) && PartAfter(a, b.chain, f) && SampledAt(a, ps, ids) && Ascending(ps)
    requires i < |ps| && Beyond(a, b, ps[i])
    ensures LastKnown(b, ids) == Err(NumberNotFound)
    decreases |ids|
  {
    var n := |ids|;
    RecognisedExactly(a, b, f, ps[n - 1]);
    if !Beyond(a, b, ps[n - 1]) {
      assert ps[n - 1] > ps[i];
      LastKnownThrows(a, b, f, ps[..n - 1], ids[..n - 1], i);
    }
  }

  /**
   * One node's synopsis, another one's answer. The answer is an exception exactly when the other node knows a block of
   * the synopsis beyond its own head. Otherwise, if the chains share the first block of the synopsis, it is the other
   * chain's consecutive ids from a shared block on, at most twice as far from the end of the synopsis as the last shared
   * block; and if they do not, an unreachable fork.
   */
  method AskAndAnswer(a: seq<BlockId>, low: nat, after: nat, b: Node, f: nat, limit: nat) returns (result: Result<seq<BlockId>, NetError>, ghost s: nat)
    requires Linked(a) && low <= |a| && |a| > 0 && ValidNode(b) && |b.chain| > 0 && PartAfter(a, b.chain, f)
    ensures result == Err(NumberNotFound) <==> LookupThrows(a, b, Positions(First(low), |a|, |a| + after))
    ensures result == Err(UnreachableFork)
            <==> First(low) > f && !LookupThrows(a, b, Positions(First(low), |a|, |a| + after))
    ensures First(low) <= f && !LookupThrows(a, b, Positions(First(low), |a|, |a| + after)) ==>
      && First(low) <= s <= f && |a| + after - s <= 2 * (|a| + after - f)
      && result == Ok(Slice(b.chain, s, limit))
  {
    var remaining;
    result, remaining := GetBlockIds(b, Sampled(a, low, after), limit);
    WalkIs(a, First(low), |a| + after);
    s := LastShared(a, First(low), |a| + after, Sampled(a, low, after), b, f);
    if First(low) <= f {
      LinkedNumbers(a, s - 1);
    }
  }

  /** The answering node starts at the last position that is shared, if no lookup throws before. */
  lemma LastShared(a: seq<BlockId>, p: nat, end: nat, ids: seq<BlockId>, b: Node, f: nat) returns (s: nat)
    requires Linked(a) && 1 <= p <= |a| <= end && ValidNode(b) && PartAfter(a, b.chain, f)
    requires SampledAt(a, Positions(p, |a|, end), ids)
    ensures p <= f ==> p <= s <= f && end - s <= 2 * (end - f)
    ensures StartOf(b, ids) == if LookupThrows(a, b, Positions(p, |a|, end)) then Err(NumberNotFound)
                               else if p > f then Err(UnreachableFork) else Ok(a[s - 1])
  {
    var ps := Positions(p, |a|, end);
    Increasing(p, |a|, end);
    s := StartAtLastShared(a, b, f, ps, ids);
    if p <= f {
      var t := LastPosition(p, |a|, end, f);
    }
  }

  lemma LastPosition(p: nat, last: nat, end: nat, f: nat) returns (s: nat)
    requires p <= f <= last <= end
    ensures var ps := Positions(p, last, end); var k := UpTo(ps, f); k > 0 && s == ps[k - 1]
    ensures p <= s <= f && end - s <= 2 * (end - f)
  {
    GapBound(p, last, end, f);
    var ps := Positions(p, last, end);
    s := ps[UpTo(ps, f) - 1];
  }

  lemma StartAtLastShared(a: seq<BlockId>, b: Node, f: nat, ps: seq<nat>, ids: seq<BlockId>) returns (s: nat)
    requires Linked(a) && ValidNode(b) && PartAfter(a, b.chain, f) && SampledAt(a, ps, ids)
    requires Ascending(ps) && |ps| > 0
    ensures ps[0] <= f ==> UpTo(ps, f) > 0 && s == ps[UpTo(ps, f) - 1] && 1 <= s <= |a|
    ensures StartOf(b, ids) == if LookupThrows(a, b, ps) then Err(NumberNotFound)
                               else if ps[0] > f then Err(UnreachableFork) else Ok(a[s - 1])
  {
    var k := UpTo(ps, f);
    AfterUpTo(ps, f);
    assert LinkAt(a, ps[0] - 1);
    s := if k > 0 then ps[k - 1] else 0;
    if LookupThrows(a, b, ps) {
      var i :| 0 <= i < |ps| && Beyond(a, b, ps[i]);
      LastKnownThrows(a, b, f, ps, ids, i);
    } else {
      LastKnownIs(a, b, f, ps, ids, k);
    }
  }

  lemma AfterUpTo(ps: seq<nat>, f: nat)
    requires Ascending(ps)
    ensures forall i :: UpTo(ps, f) <= i < |ps| ==> ps[i] > f
  {
  }
}
