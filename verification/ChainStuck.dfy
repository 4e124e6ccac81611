/**
 * When a push can get stuck half way through a fork switch.
 *
 * pop_block also moves the head of the fork database one node back, and throws when
 * that node has no reachable predecessor. During a restore this walks back along the
 * old branch, so a restore can need the nodes under the fork point although the undo
 * history is deep enough.
 */
module ChainStuck {
  import opened Wrappers
  import opened UndoDeltas
  import opened UndoSpec
  import opened Forks
  import opened ChainSpec
  import opened ChainTheorems

  /** How many blocks under `id` the copies in `saved` lead back through. */
  ghost function Covered(rules: Rules, genesis: Store<Object>, saved: seq<Store<Object>>, id: BlockId): nat
    decreases |saved|
  {
    if saved == [] || id == Zero then 0
    else if Replay(rules, genesis, id.block.previous) == Some(saved[|saved| - 1]) then
      1 + Covered(rules, genesis, saved[..|saved| - 1], id.block.previous)
    else 0
  }

  lemma {:induction false} CoveredTrim(rules: Rules, genesis: Store<Object>, saved: seq<Store<Object>>, id: BlockId, n: nat)
    ensures Covered(rules, genesis, Trim(saved, n), id) >= Covered(rules, genesis, saved, id)
            || Covered(rules, genesis, Trim(saved, n), id) >= n
    decreases |saved|
  {
    if saved != [] && id != Zero && n > 0 && |saved| > n
       && Replay(rules, genesis, id.block.previous) == Some(saved[|saved| - 1]) {
      var t := Trim(saved, n);
      assert t[..|t| - 1] == Trim(saved[..|saved| - 1], n - 1);
      CoveredTrim(rules, genesis, saved[..|saved| - 1], id.block.previous, n - 1);
    }
  }

  // ---- popping ----

  ghost predicate Known(c: Chain, id: BlockId) {
    id in c.fork.index || id in c.log
  }

  /** The head of the fork database can be moved back `k` times from `item`. */
  ghost predicate CanWalk(f: ForkState, held: set<ForkItem>, item: ForkItem, k: nat)
    decreases k
  {
    k == 0 || (item.prev.Some? && (item.prev.value in held || item.prev.value in f.index.Values)
               && CanWalk(f, held, item.prev.value, k - 1))
  }

  /** Where it is then. */
  function Back(item: ForkItem, k: nat): ForkItem
    decreases k
  {
    if k == 0 || item.prev.None? then item else Back(item.prev.value, k - 1)
  }

  lemma {:induction false} CanWalkIndex(f: ForkState, g: ForkState, held: set<ForkItem>, item: ForkItem, k: nat)
    requires f.index == g.index
    ensures CanWalk(f, held, item, k) == CanWalk(g, held, item, k)
    decreases k
  {
    if k > 0 && item.prev.Some? { CanWalkIndex(f, g, held, item.prev.value, k - 1); }
  }

  lemma {:induction false} LinkedNums(path: seq<ForkItem>, k: nat)
    requires Linked(path) && k < |path|
    ensures Num(path[k]) == Num(path[0]) - k
    decreases k
  {
    if k > 0 {
      LinkedNums(path, k - 1);
      assert path[k - 1].block.previous == Id(path[k]);
      NumOfId(path[k].block);
    }
  }

  lemma PopOnce(rules: Rules, genesis: Store<Object>, c: Chain, block: SignedBlock, h: ForkItem, held: set<ForkItem>)
    requires Sound(rules, genesis, c)
    requires HeadId(c.store) == IdOf(block) && Known(c, IdOf(block))
    requires c.fork.head == Some(h)
    requires Covered(rules, genesis, c.saved, HeadId(c.store)) > 0
    ensures var (c1, ok) := PopBlock(c, held);
            && ok == CanWalk(c.fork, held, h, 1)
            && (ok ==>
                  && Sound(rules, genesis, c1)
                  && c1.saved == c.saved[..|c.saved| - 1] && c1.maxSize == c.maxSize
                  && c1.fork == c.fork.(head := h.prev)
                  && HeadId(c1.store) == block.previous
                  && Covered(rules, genesis, c1.saved, HeadId(c1.store)) == Covered(rules, genesis, c.saved, HeadId(c.store)) - 1
                  && (forall id :: id in c.log && id != IdOf(block) ==> id in c1.log))
  {
    assert CanWalk(c.fork, held, h, 1) == (h.prev.Some? && (h.prev.value in held || h.prev.value in c.fork.index.Values));
    PopKeepsSound(rules, genesis, c, held);
    ReplayHead(rules, genesis, block.previous);
  }

  /** What popping a path of blocks leaves. */
  ghost predicate Popped(rules: Rules, genesis: Store<Object>, c: Chain, k: nat, h: ForkItem, target: BlockId, ck: Chain) {
    && Sound(rules, genesis, ck) && HeadId(ck.store) == target
    && ck.saved <= c.saved && ck.maxSize == c.maxSize
    && ck.fork == c.fork.(head := Some(Back(h, k)))
    && Covered(rules, genesis, ck.saved, target) + k >= Covered(rules, genesis, c.saved, HeadId(c.store))
  }

  /** A stretch of the chain that the undo history covers and whose blocks can be found. */
  ghost predicate Poppable(rules: Rules, genesis: Store<Object>, c: Chain, path: seq<ForkItem>, target: BlockId) {
    && Sound(rules, genesis, c) && Linked(path)
    && (if path == [] then HeadId(c.store) == target
        else HeadId(c.store) == Id(path[0]) && target == path[|path| - 1].block.previous)
    && Covered(rules, genesis, c.saved, HeadId(c.store)) >= |path|
    && (forall i :: 0 <= i < |path| ==> Known(c, Id(path[i])))
  }

  /** It is popped down to its end exactly when the head of the fork database can be moved back as often. */
  lemma {:induction false} PopExactly(rules: Rules, genesis: Store<Object>, c: Chain, path: seq<ForkItem>, h: ForkItem,
                                      held: set<ForkItem>, target: BlockId)
    requires Poppable(rules, genesis, c, path, target) && c.fork.head == Some(h)
    ensures PopUntil(c, target, held).1 == CanWalk(c.fork, held, h, |path|)
    ensures PopUntil(c, target, held).1 ==> Popped(rules, genesis, c, |path|, h, target, PopUntil(c, target, held).0)
    decreases |path|
  {
    if path != [] {
      FirstPopped(rules, genesis, c, path, h, held, target);
      var (c1, ok) := PopBlock(c, held);
      PopUntilUnfolds(c, target, held);
      if ok {
        PopExactly(rules, genesis, c1, path[1..], h.prev.value, held, target);
        CanWalkIndex(c.fork, c1.fork, held, h.prev.value, |path| - 1);
        if PopUntil(c1, target, held).1 {
          PoppedFirst(rules, genesis, c, c1, |path|, h, target, PopUntil(c1, target, held).0);
        }
      }
    }
  }

  lemma FirstPopped(rules: Rules, genesis: Store<Object>, c: Chain, path: seq<ForkItem>, h: ForkItem,
                    held: set<ForkItem>, target: BlockId)
    requires path != [] && Poppable(rules, genesis, c, path, target) && c.fork.head == Some(h)
    ensures HeadId(c.store) != target
    ensures var (c1, ok) := PopBlock(c, held);
            && ok == CanWalk(c.fork, held, h, 1)
            && (ok ==>
                  && Poppable(rules, genesis, c1, path[1..], target)
                  && c.saved != [] && c1.saved == c.saved[..|c.saved| - 1] && c1.maxSize == c.maxSize
                  && c1.fork == c.fork.(head := h.prev)
                  && Covered(rules, genesis, c1.saved, HeadId(c1.store)) == Covered(rules, genesis, c.saved, HeadId(c.store)) - 1)
  {
    TargetBelow(path, target);
    assert Known(c, Id(path[0]));
    PopOnce(rules, genesis, c, path[0].block, h, held);
    var (c1, ok) := PopBlock(c, held);
    if ok {
      PoppableTail(rules, genesis, c, c1, path, target);
    }
  }

  lemma PopUntilUnfolds(c: Chain, target: BlockId, held: set<ForkItem>)
    requires HeadId(c.store) != target
    ensures var (c1, ok) := PopBlock(c, held); PopUntil(c, target, held) == if ok then PopUntil(c1, target, held) else (c1, false)
  {
  }

  lemma PoppedFirst(rules: Rules, genesis: Store<Object>, c: Chain, c1: Chain, k: nat, h: ForkItem, target: BlockId, ck: Chain)
    requires k > 0 && h.prev.Some? && c.saved != [] && c1.saved == c.saved[..|c.saved| - 1] && c1.maxSize == c.maxSize
    requires c1.fork == c.fork.(head := h.prev)
    requires Covered(rules, genesis, c1.saved, HeadId(c1.store)) == Covered(rules, genesis, c.saved, HeadId(c.store)) - 1
    requires Popped(rules, genesis, c1, k - 1, h.prev.value, target, ck)
    ensures Popped(rules, genesis, c, k, h, target, ck)
  {
  }

  lemma PoppableTail(rules: Rules, genesis: Store<Object>, c: Chain, c1: Chain, path: seq<ForkItem>, target: BlockId)
    requires path != [] && Poppable(rules, genesis, c, path, target)
    requires Sound(rules, genesis, c1) && c1.fork.index == c.fork.index && HeadId(c1.store) == path[0].block.previous
    requires Covered(rules, genesis, c1.saved, HeadId(c1.store)) == Covered(rules, genesis, c.saved, HeadId(c.store)) - 1
    requires forall id :: id in c.log && id != Id(path[0]) ==> id in c1.log
    ensures Poppable(rules, genesis, c1, path[1..], target)
  {
    SuffixLinked(path, 1);
    if |path| > 1 {
      assert path[0].block.previous == Id(path[1]);
    }
    KnownTail(c, c1, path);
  }

  /** The blocks under the popped one are not taken from the log with it. */
  lemma KnownTail(c: Chain, c1: Chain, path: seq<ForkItem>)
    requires path != [] && Linked(path) && c1.fork.index == c.fork.index
    requires forall i :: 0 <= i < |path| ==> Known(c, Id(path[i]))
    requires forall id :: id in c.log && id != Id(path[0]) ==> id in c1.log
    ensures forall i :: 0 <= i < |path[1..]| ==> Known(c1, Id(path[1..][i]))
  {
    forall i | 0 <= i < |path| - 1
      ensures Known(c1, Id(path[1..][i]))
    {
      LinkedNums(path, i + 1);
      NumOfId(path[i + 1].block);
      NumOfId(path[0].block);
      assert Known(c, Id(path[i + 1]));
    }
  }

  lemma TargetBelow(path: seq<ForkItem>, target: BlockId)
    requires path != [] && Linked(path) && target == path[|path| - 1].block.previous
    ensures Id(path[0]) != target
  {
    LinkedNums(path, |path| - 1);
    NumOfId(path[0].block);
  }

  lemma SuffixLinked(path: seq<ForkItem>, i: nat)
    requires Linked(path) && i <= |path|
    ensures Linked(path[i..])
  {
    forall k {:trigger path[i..][k]} | 0 <= k < |path[i..]| - 1
      ensures path[i..][k].prev == Some(path[i..][k + 1]) && path[i..][k].block.previous == Id(path[i..][k + 1])
    {
      assert path[i + k].prev == Some(path[i + k + 1]);
    }
  }

  // ---- pushing the new branch ----

  /** What the fork switch relies on before it starts. */
  ghost predicate Branching(r: Branches) {
    && r.first != [] && r.second != []
    && Linked(r.first) && Linked(r.second) && WellLinked(r.second[0])
    && r.first[|r.first| - 1].block.previous == Fork(r)
  }

  /** The block under node `i` of the new branch. */
  function Below(r: Branches, i: nat): BlockId
    requires i < |r.first|
  {
    r.first[i].block.previous
  }

  /**
   * Blocks of the new branch that are accepted keep those applied so far undoable. In the node the
   * size limit is the distance to the last irreversible block and one more, so this holds where that
   * block is not after the fork.
   */
  ghost predicate WindowsCover(rules: Rules, genesis: Store<Object>, r: Branches) {
    forall i :: 0 < i < |r.first| ==> WindowCovers(rules, genesis, r, i)
  }

  ghost predicate WindowCovers(rules: Rules, genesis: Store<Object>, r: Branches, i: nat)
    requires i < |r.first|
  {
    var before := Replay(rules, genesis, Below(r, i));
    before.Some? ==>
      var a := ApplyBlock(rules, r.first[i].block, before.value);
      a.ok ==> a.window.value >= |r.first| - i
  }

  /** The fork database after the nodes from the fork up to node `i` were tried: their size limits have cut it. */
  ghost function Sized(rules: Rules, genesis: Store<Object>, f: ForkState, r: Branches, i: nat): ForkState
    requires i <= |r.first|
    decreases |r.first| - i
  {
    if i == |r.first| then f
    else
      var before := Replay(rules, genesis, Below(r, i));
      var g := Sized(rules, genesis, f, r, i + 1);
      if before.None? then g
      else
        var w := ApplyBlock(rules, r.first[i].block, before.value).window;
        if w.None? then g else WithMaxSize(g, w.value)
  }

  /** The state while the new branch is being pushed: `i` nodes are still to come. */
  ghost predicate Advancing(rules: Rules, genesis: Store<Object>, c: Chain, f: ForkState, r: Branches, i: nat)
    requires Branching(r) && i <= |r.first|
  {
    var j := |r.first| - i;
    && Sound(rules, genesis, c)
    && HeadId(c.store) == (if j > 0 then Id(r.first[i]) else Fork(r))
    && Covered(rules, genesis, c.saved, HeadId(c.store)) >= j
    && (i > 0 ==> c.maxSize >= j)
    && (forall k :: i <= k < |r.first| ==> Id(r.first[k]) in c.log)
    && c.fork == Sized(rules, genesis, f, r, i)
  }

  /** The state right after node `i - 1` of the new branch was refused. */
  ghost predicate Failed(rules: Rules, genesis: Store<Object>, c: Chain, f: ForkState, r: Branches, i: nat)
    requires Branching(r) && 0 < i <= |r.first|
  {
    && Sound(rules, genesis, c)
    && HeadId(c.store) == Below(r, i - 1)
    && Covered(rules, genesis, c.saved, HeadId(c.store)) >= |r.first| - i
    && (forall k :: i <= k < |r.first| ==> Id(r.first[k]) in c.log)
    && c.fork == Sized(rules, genesis, f, r, i - 1)
  }

  lemma TryAdvances(rules: Rules, genesis: Store<Object>, c: Chain, f: ForkState, r: Branches, i: nat)
    requires Branching(r) && 0 < i <= |r.first| && WindowsCover(rules, genesis, r)
    requires Advancing(rules, genesis, c, f, r, i)
    ensures var item := r.first[i - 1];
            var (c1, ok) := TryBlock(rules, c, item.block, Id(item));
            && ok == Replay(rules, genesis, Id(item)).Some?
            && Replay(rules, genesis, Below(r, i - 1)).Some?
            && (ok ==> Advancing(rules, genesis, c1, f, r, i - 1))
            && (!ok ==> Failed(rules, genesis, c1, f, r, i))
  {
    var item := r.first[i - 1];
    var (c1, ok) := TryBlock(rules, c, item.block, Id(item));
    HeadBelow(rules, genesis, c, f, r, i);
    TryKeepsSound(rules, genesis, c, item.block, Id(item));
    KeptCovers(rules, genesis, c, |r.first| - i);
    TrySized(rules, genesis, c, f, r, i);
    if ok {
      AcceptedKeeps(rules, genesis, c, item.block, |r.first| - i);
      if i > 1 { assert WindowCovers(rules, genesis, r, i - 1); }
    } else {
      RefusedKeeps(rules, c, item.block, Id(item));
    }
  }

  lemma AcceptedKeeps(rules: Rules, genesis: Store<Object>, c: Chain, b: SignedBlock, j: nat)
    requires TryBlock(rules, c, b, IdOf(b)).1 && Replay(rules, genesis, b.previous) == Some(c.store)
    requires Covered(rules, genesis, Trim(c.saved, c.maxSize), b.previous) >= j
    ensures var c1 := TryBlock(rules, c, b, IdOf(b)).0;
            && HeadId(c1.store) == IdOf(b) && c1.log == c.log[IdOf(b) := b]
            && Some(c1.maxSize) == ApplyBlock(rules, b, c.store).window
            && Covered(rules, genesis, c1.saved, IdOf(b)) >= j + 1
  {
    var c1 := TryBlock(rules, c, b, IdOf(b)).0;
    assert c1.saved[..|c1.saved| - 1] == Trim(c.saved, c.maxSize);
  }

  lemma HeadBelow(rules: Rules, genesis: Store<Object>, c: Chain, f: ForkState, r: Branches, i: nat)
    requires Branching(r) && 0 < i <= |r.first| && Advancing(rules, genesis, c, f, r, i)
    ensures HeadId(c.store) == Below(r, i - 1) && Replay(rules, genesis, Below(r, i - 1)) == Some(c.store)
  {
    if i < |r.first| {
      assert r.first[i - 1].block.previous == Id(r.first[i]);
    }
  }

  /** What the next session trims away was not needed. */
  lemma KeptCovers(rules: Rules, genesis: Store<Object>, c: Chain, j: nat)
    requires Covered(rules, genesis, c.saved, HeadId(c.store)) >= j && c.maxSize >= j
    ensures Covered(rules, genesis, Trim(c.saved, c.maxSize), HeadId(c.store)) >= j
  {
    CoveredTrim(rules, genesis, c.saved, HeadId(c.store), c.maxSize);
  }

  lemma TrySized(rules: Rules, genesis: Store<Object>, c: Chain, f: ForkState, r: Branches, i: nat)
    requires 0 < i <= |r.first| && c.fork == Sized(rules, genesis, f, r, i)
    requires Replay(rules, genesis, Below(r, i - 1)) == Some(c.store)
    ensures TryBlock(rules, c, r.first[i - 1].block, Id(r.first[i - 1])).0.fork == Sized(rules, genesis, f, r, i - 1)
  {
  }

  lemma RefusedKeeps(rules: Rules, c: Chain, b: SignedBlock, logAs: BlockId)
    requires !TryBlock(rules, c, b, logAs).1
    ensures var c1 := TryBlock(rules, c, b, logAs).0;
            && c1.store == c.store && c1.log == c.log
            && (c1.saved == Trim(c.saved, c.maxSize) || Trim(c.saved, c.maxSize) == [])
  {
  }

  /** Node `i - 1` of the new branch is the first that is refused. */
  ghost predicate RefusedAt(rules: Rules, genesis: Store<Object>, r: Branches, i: nat) {
    && 0 < i <= |r.first|
    && Replay(rules, genesis, Below(r, i - 1)).Some? && Replay(rules, genesis, Id(r.first[i - 1])).None?
  }

  /**
   * Node `i - 1` of the new branch was refused and `f` was left. Popping the applied nodes again needs more
   * steps back from the tip of the old branch than there are nodes left: the rejected ones are removed, and
   * size limits have cut the others.
   */
  ghost predicate Blocked(f: ForkState, r: Branches, i: nat)
    requires r.second != [] && 0 < i <= |r.first|
  {
    !CanWalk(RemoveAll(f, r.first[..i]), Held(r), r.second[0], |r.first| - i)
  }

  lemma PopBadBranch(rules: Rules, genesis: Store<Object>, c: Chain, f: ForkState, r: Branches, i: nat)
    requires Branching(r) && 0 < i <= |r.first|
    requires Failed(rules, genesis, c, f, r, i)
    ensures PopUntil(AfterFailure(c, r, i), Fork(r), Held(r)).1 == !Blocked(Sized(rules, genesis, f, r, i - 1), r, i)
  {
    var c1 := AfterFailure(c, r, i);
    BadPoppable(rules, genesis, c, f, r, i);
    PopExactly(rules, genesis, c1, r.first[i..], r.second[0], Held(r), Fork(r));
    CanWalkIndex(c1.fork, RemoveAll(c.fork, r.first[..i]), Held(r), r.second[0], |r.first| - i);
  }

  lemma BadPoppable(rules: Rules, genesis: Store<Object>, c: Chain, f: ForkState, r: Branches, i: nat)
    requires Branching(r) && 0 < i <= |r.first|
    requires Failed(rules, genesis, c, f, r, i)
    ensures Poppable(rules, genesis, AfterFailure(c, r, i), r.first[i..], Fork(r))
  {
    var c1 := AfterFailure(c, r, i);
    AfterFailureSound(rules, genesis, c, r, i);
    SuffixLinked(r.first, i);
    var path := r.first[i..];
    if path != [] { assert Below(r, i - 1) == Id(r.first[i]); }
    forall k | 0 <= k < |path| ensures Known(c1, Id(path[k])) {
      assert Id(r.first[i + k]) in c.log;
    }
  }

  /** A refused node of the first `i` blocks the restore. */
  ghost predicate BlockedWithin(rules: Rules, genesis: Store<Object>, f: ForkState, r: Branches, i: nat)
    requires r.second != [] && i <= |r.first|
  {
    exists m :: 0 < m <= i && RefusedAt(rules, genesis, r, m) && Blocked(Sized(rules, genesis, f, r, m - 1), r, m)
  }

  lemma {:induction false} PushBranchStuck(rules: Rules, genesis: Store<Object>, c: Chain, f: ForkState, r: Branches, i: nat,
                                           newId: BlockId, old0: Store<Object>)
    requires Branching(r) && i <= |r.first| && WindowsCover(rules, genesis, r)
    requires Advancing(rules, genesis, c, f, r, i)
    requires Replay(rules, genesis, Id(r.second[0])) == Some(old0)
    ensures PushBranch(rules, c, r, i, newId).1 == Stuck <==> BlockedWithin(rules, genesis, f, r, i)
    decreases i
  {
    if i > 0 {
      TryAdvances(rules, genesis, c, f, r, i);
      var (c1, ok) := TryBlock(rules, c, r.first[i - 1].block, Id(r.first[i - 1]));
      if ok {
        PushBranchStuck(rules, genesis, c1, f, r, i - 1, newId, old0);
        AcceptedWithin(rules, genesis, f, r, i);
      } else {
        RefusedStuck(rules, genesis, c, f, r, i, newId, old0);
      }
    }
  }

  lemma AcceptedWithin(rules: Rules, genesis: Store<Object>, f: ForkState, r: Branches, i: nat)
    requires r.second != [] && 0 < i <= |r.first| && Replay(rules, genesis, Id(r.first[i - 1])).Some?
    ensures BlockedWithin(rules, genesis, f, r, i) == BlockedWithin(rules, genesis, f, r, i - 1)
  {
    assert !RefusedAt(rules, genesis, r, i);
  }

  lemma RefusedStuck(rules: Rules, genesis: Store<Object>, c: Chain, f: ForkState, r: Branches, i: nat, newId: BlockId, old0: Store<Object>)
    requires Branching(r) && 0 < i <= |r.first|
    requires Replay(rules, genesis, Below(r, i - 1)).Some? && Replay(rules, genesis, Id(r.first[i - 1])).None?
    requires var (c1, ok) := TryBlock(rules, c, r.first[i - 1].block, Id(r.first[i - 1])); !ok && Failed(rules, genesis, c1, f, r, i)
    requires Replay(rules, genesis, Id(r.second[0])) == Some(old0)
    ensures PushBranch(rules, c, r, i, newId).1 == Stuck <==> BlockedWithin(rules, genesis, f, r, i)
  {
    var c1 := TryBlock(rules, c, r.first[i - 1].block, Id(r.first[i - 1])).0;
    PopBadBranch(rules, genesis, c1, f, r, i);
    GiveUpRestores(rules, genesis, c1, r, i, newId, old0);
    assert PushBranch(rules, c, r, i, newId).1 == GiveUp(rules, c1, r, i, newId).1;
    assert RefusedAt(rules, genesis, r, i);
    OnlyRefused(rules, genesis, f, r, i);
  }

  lemma OnlyRefused(rules: Rules, genesis: Store<Object>, f: ForkState, r: Branches, i: nat)
    requires Linked(r.first) && r.second != [] && 0 < i <= |r.first|
    requires RefusedAt(rules, genesis, r, i)
    ensures BlockedWithin(rules, genesis, f, r, i) == Blocked(Sized(rules, genesis, f, r, i - 1), r, i)
  {
    RefusedOnce(rules, genesis, r, i);
  }

  lemma RefusedOnce(rules: Rules, genesis: Store<Object>, r: Branches, i: nat)
    requires Linked(r.first) && RefusedAt(rules, genesis, r, i)
    ensures forall m :: 0 < m < i ==> !RefusedAt(rules, genesis, r, m)
  {
    forall m | 0 < m < i ensures !RefusedAt(rules, genesis, r, m) {
      ReplayStops(rules, genesis, r.first, i - 1, m);
    }
  }

  /** Above a refused block nothing is replayed. */
  lemma {:induction false} ReplayStops(rules: Rules, genesis: Store<Object>, path: seq<ForkItem>, k: nat, m: nat)
    requires Linked(path) && 0 < m <= k < |path|
    requires Replay(rules, genesis, Id(path[k])).None?
    ensures Replay(rules, genesis, path[m - 1].block.previous).None?
    decreases k
  {
    assert path[k - 1].block.previous == Id(path[k]);
    if k > m {
      ReplayStops(rules, genesis, path, k - 1, m);
    }
  }

  // ---- the whole switch ----

  /** The old branch is within the undo history, and its blocks are the chain's. */
  ghost predicate SwitchCovered(rules: Rules, genesis: Store<Object>, c: Chain, r: Branches) {
    && Covered(rules, genesis, c.saved, HeadId(c.store)) >= |r.second|
    && WindowsCover(rules, genesis, r)
  }

  /**
   * The walk back fails: down the old branch, from the new head of the fork database, or, when a node
   * of the new branch is refused, over those already applied, from the tip of the old branch.
   */
  ghost predicate GetsStuck(rules: Rules, genesis: Store<Object>, f: ForkState, newHead: ForkItem, r: Branches)
    requires r.second != []
  {
    || !CanWalk(f, Held(r), newHead, |r.second|)
    || BlockedWithin(rules, genesis, f.(head := Some(Back(newHead, |r.second|))), r, |r.first|)
  }

  /**
   * A switch that the undo history covers neither switches nor restores exactly when the fork database
   * does not reach back far enough.
   */
  lemma SwitchStuckExactly(rules: Rules, genesis: Store<Object>, c: Chain, newHead: ForkItem, r: Branches, newId: BlockId)
    requires Sound(rules, genesis, c) && c.fork.head == Some(newHead)
    requires FetchBranch(c.fork, Id(newHead), HeadId(c.store)) == Ok(r)
    requires SwitchCovered(rules, genesis, c, r)
    ensures Branching(r)
    ensures Switch(rules, c, newHead, newId).1 == Stuck <==> GetsStuck(rules, genesis, c.fork, newHead, r)
  {
    var d := |r.second|;
    BranchesLinked(c, newHead);
    SecondKnown(c, newHead, r);
    PopExactly(rules, genesis, c, r.second, newHead, Held(r), Fork(r));
    var (ck, popped) := PopUntil(c, Fork(r), Held(r));
    if popped {
      var f := c.fork.(head := Some(Back(newHead, d)));
      assert Advancing(rules, genesis, ck, f, r, |r.first|);
      PushBranchStuck(rules, genesis, ck, f, r, |r.first|, newId, c.store);
    }
  }

  lemma SecondKnown(c: Chain, newHead: ForkItem, r: Branches)
    requires ValidTree(c.fork) && c.fork.head == Some(newHead)
    requires FetchBranch(c.fork, Id(newHead), HeadId(c.store)) == Ok(r)
    ensures forall k :: 0 <= k < |r.second| ==> Known(c, Id(r.second[k]))
  {
    FetchBranchAlive(c.fork, Id(newHead), HeadId(c.store));
    forall k | 0 <= k < |r.second| ensures Known(c, Id(r.second[k])) {
      assert r.second[k] in r.second;
      assert IsAlive(c.fork, {}, r.second[k]);
    }
  }

  /** The branches of the switch that a push leads to, if it leads to one. */
  function SwitchOf(rules: Rules, c: Chain, b: SignedBlock): Option<(ForkState, ForkItem, Branches)> {
    if rules.skipForkDb then None
    else
      match PushItem(c.fork, b)
      case Err(_) => None
      case Ok(f) =>
        if f.head.None? || f.head.value.block.previous == HeadId(c.store) || Num(f.head.value) <= HeadNum(c.store) then None
        else
          match FetchBranch(f, Id(f.head.value), HeadId(c.store))
          case Err(_) => None
          case Ok(r) => Some((f, f.head.value, r))
  }

  /**
   * A push throws with the chain neither switched nor restored exactly when it leads to a switch that
   * gets stuck; everything else returns or leaves the store as it was.
   */
  lemma PushStuckExactly(rules: Rules, genesis: Store<Object>, c: Chain, b: SignedBlock)
    requires Sound(rules, genesis, c)
    requires var s := SwitchOf(rules, c, b); s.Some? ==> SwitchCovered(rules, genesis, c, s.value.2)
    ensures var s := SwitchOf(rules, c, b);
            && (s.Some? ==> Branching(s.value.2))
            && (Push(rules, c, b).1 == Stuck
                <==> s.Some? && GetsStuck(rules, genesis, s.value.0, s.value.1, s.value.2))
  {
    PushKeepsTree(c.fork, b);
    var s := SwitchOf(rules, c, b);
    if s.Some? {
      var (f, newHead, r) := s.value;
      SwitchStuckExactly(rules, genesis, c.(fork := f), newHead, r, IdOf(b));
    }
  }

  // ---- a new branch one block longer ----

  /** The node under the fork point on the old branch can be reached through the fork database. */
  ghost predicate AncestorLive(f: ForkState, r: Branches)
    requires r.second != []
  {
    var last := r.second[|r.second| - 1];
    last.prev.Some? && last.prev.value in f.index.Values
  }

  lemma ForkNums(r: Branches)
    requires Branching(r)
    ensures Num(r.first[|r.first| - 1]) == NumFromId(Fork(r)) + 1
    ensures var last := r.second[|r.second| - 1]; last.prev.Some? ==> Num(last.prev.value) == NumFromId(Fork(r))
    ensures forall k :: 0 <= k < |r.first| ==> Num(r.first[k]) > NumFromId(Fork(r))
  {
    var last := r.second[|r.second| - 1];
    LastWellLinked(r.second, |r.second| - 1);
    if last.prev.Some? {
      NumOfId(last.prev.value.block);
    }
    forall k | 0 <= k < |r.first|
      ensures Num(r.first[k]) > NumFromId(Fork(r))
    {
      LinkedNums(r.first, k);
      LinkedNums(r.first, |r.first| - 1);
    }
  }

  lemma {:induction false} LastWellLinked(path: seq<ForkItem>, k: nat)
    requires Linked(path) && k < |path| && WellLinked(path[0])
    ensures WellLinked(path[k])
    decreases k
  {
    if k > 0 {
      LastWellLinked(path, k - 1);
      assert path[k - 1].prev == Some(path[k]);
    }
  }

  lemma ResizeKeepsAncestor(f: ForkState, r: Branches, size: nat)
    requires Branching(r) && ValidTree(f) && size >= 1
    requires f.head.Some? && Num(f.head.value) == NumFromId(Fork(r)) + 1
    ensures var g := WithMaxSize(f, size); ValidTree(g) && g.head == f.head && AncestorLive(g, r) == AncestorLive(f, r)
  {
    ForkNums(r);
    WithMaxSizeKeepsTree(f, size);
    if AncestorLive(f, r) {
      var anc := r.second[|r.second| - 1].prev.value;
      var id :| id in f.index && f.index[id] == anc;
      var g := WithMaxSize(f, size);
      assert id in g.index && g.index[id] == anc;
    }
    if AncestorLive(WithMaxSize(f, size), r) {
      var anc := r.second[|r.second| - 1].prev.value;
      var g := WithMaxSize(f, size);
      var id :| id in g.index && g.index[id] == anc;
      assert id in f.index && f.index[id] == anc;
    }
  }

  lemma {:induction false} RemoveAllKeepsItem(f: ForkState, items: seq<ForkItem>, id: BlockId)
    requires forall k :: 0 <= k < |items| ==> Id(items[k]) != id
    ensures id in f.index <==> id in RemoveAll(f, items).index
    ensures id in f.index ==> RemoveAll(f, items).index[id] == f.index[id]
    decreases |items|
  {
    if items != [] {
      RemoveAllKeepsItem(RemoveId(f, Id(items[|items| - 1])), items[..|items| - 1], id);
    }
  }

  lemma RemoveAllKeepsAncestor(f: ForkState, r: Branches, i: nat)
    requires Branching(r) && ValidTree(f) && i <= |r.first|
    ensures AncestorLive(RemoveAll(f, r.first[..i]), r) == AncestorLive(f, r)
  {
    ForkNums(r);
    RemoveAllKeepsTree(f, r.first[..i]);
    var g := RemoveAll(f, r.first[..i]);
    var last := r.second[|r.second| - 1];
    if last.prev.Some? {
      var anc := last.prev.value;
      NumOfId(anc.block);
      forall k | 0 <= k < i ensures Id(r.first[..i][k]) != Id(anc) {
        NumOfId(r.first[k].block);
      }
      RemoveAllKeepsItem(f, r.first[..i], Id(anc));
      if anc in f.index.Values {
        var id :| id in f.index && f.index[id] == anc;
        assert id == Id(anc) && g.index[id] == anc;
      }
      if anc in g.index.Values {
        var id :| id in g.index && g.index[id] == anc;
        assert id == Id(anc) && f.index[id] == anc;
      }
    }
  }

  lemma {:induction false} SizedKeepsAncestor(rules: Rules, genesis: Store<Object>, f: ForkState, r: Branches, i: nat)
    requires Branching(r) && ValidTree(f) && i <= |r.first|
    requires f.head.Some? && Num(f.head.value) == NumFromId(Fork(r)) + 1
    ensures var g := Sized(rules, genesis, f, r, i);
            ValidTree(g) && g.head == f.head && AncestorLive(g, r) == AncestorLive(f, r)
    decreases |r.first| - i
  {
    if i < |r.first| {
      SizedKeepsAncestor(rules, genesis, f, r, i + 1);
      var size := SizedIs(rules, genesis, f, r, i);
      if size > 0 {
        ResizeKeepsAncestor(Sized(rules, genesis, f, r, i + 1), r, size);
      }
    }
  }

  lemma SizedIs(rules: Rules, genesis: Store<Object>, f: ForkState, r: Branches, i: nat) returns (size: nat)
    requires i < |r.first|
    ensures var g := Sized(rules, genesis, f, r, i + 1);
            Sized(rules, genesis, f, r, i) == if size > 0 then WithMaxSize(g, size) else g
  {
    size := 0;
    var before := Replay(rules, genesis, Below(r, i));
    if before.Some? && ApplyBlock(rules, r.first[i].block, before.value).window.Some? {
      size := ApplyBlock(rules, r.first[i].block, before.value).window.value;
    }
  }

  lemma AncestorNotHeld(r: Branches)
    requires Branching(r) && r.second[|r.second| - 1].prev.Some?
    ensures r.second[|r.second| - 1].prev.value !in Held(r)
  {
    ForkNums(r);
    var anc := r.second[|r.second| - 1].prev.value;
    forall x | x in r.second
      ensures Num(x) > Num(anc)
    {
      var k :| 0 <= k < |r.second| && r.second[k] == x;
      LinkedNums(r.second, k);
      LinkedNums(r.second, |r.second| - 1);
    }
    forall x | x in r.first
      ensures Num(x) > Num(anc)
    {
      var k :| 0 <= k < |r.first| && r.first[k] == x;
    }
  }

  /** Along a branch that is held the head can be moved back to its last node, and further only to the ancestor. */
  lemma {:induction false} WalkHeld(f: ForkState, held: set<ForkItem>, path: seq<ForkItem>, i: nat, k: nat)
    requires Linked(path) && i + k < |path| && forall x :: x in path ==> x in held
    ensures CanWalk(f, held, path[i], k) && Back(path[i], k) == path[i + k]
    decreases k
  {
    if k > 0 {
      assert path[i].prev == Some(path[i + 1]);
      WalkHeld(f, held, path, i + 1, k - 1);
    }
  }

  lemma {:induction false} WalkPast(f: ForkState, held: set<ForkItem>, path: seq<ForkItem>, i: nat)
    requires Linked(path) && i < |path| && forall x :: x in path ==> x in held
    ensures var last := path[|path| - 1];
            CanWalk(f, held, path[i], |path| - i)
            <==> last.prev.Some? && (last.prev.value in held || last.prev.value in f.index.Values)
    decreases |path| - i
  {
    if i < |path| - 1 {
      assert path[i].prev == Some(path[i + 1]);
      WalkPast(f, held, path, i + 1);
    } else {
      var last := path[|path| - 1];
      assert CanWalk(f, held, last, 1) <==> last.prev.Some? && (last.prev.value in held || last.prev.value in f.index.Values);
    }
  }

  /** The last block is refused and all before it are accepted. */
  ghost predicate OnlyTipRefused(rules: Rules, genesis: Store<Object>, r: Branches)
    requires Branching(r)
  {
    RefusedAt(rules, genesis, r, 1)
  }

  /** From the tip of the old branch the head can be moved back over all of it but its first block, and further only to the ancestor. */
  lemma WalkBranch(f: ForkState, r: Branches, k: nat)
    requires Branching(r) && k <= |r.second|
    ensures CanWalk(f, Held(r), r.second[0], k) <==> k < |r.second| || AncestorLive(f, r)
  {
    if k < |r.second| {
      WalkHeld(f, Held(r), r.second, 0, k);
    } else {
      WalkPast(f, Held(r), r.second, 0);
      if r.second[k - 1].prev.Some? { AncestorNotHeld(r); }
    }
  }

  lemma BlockedExactly(f: ForkState, r: Branches, m: nat)
    requires Branching(r) && ValidTree(f) && |r.first| == |r.second| + 1 && 0 < m <= |r.first|
    ensures Blocked(f, r, m) <==> m == 1 && !AncestorLive(f, r)
  {
    RemoveAllKeepsAncestor(f, r, m);
    WalkBranch(RemoveAll(f, r.first[..m]), r, |r.first| - m);
  }

  /**
   * For a new branch one block longer, whose tip the fork database holds as its head: stuck exactly when only
   * the new tip is refused and the fork database does not hold the block under the fork point.
   */
  lemma OneLongerStuckExactly(rules: Rules, genesis: Store<Object>, f: ForkState, r: Branches)
    requires Branching(r) && ValidTree(f) && |r.first| == |r.second| + 1 && f.head == Some(r.first[0])
    ensures GetsStuck(rules, genesis, f, r.first[0], r)
            <==> !AncestorLive(f, r) && OnlyTipRefused(rules, genesis, r)
  {
    var d := |r.second|;
    WalkHeld(f, Held(r), r.first, 0, d);
    ForkNums(r);
    var g := f.(head := Some(r.first[d]));
    LastWellLinked(r.first, d);
    LongerWithin(rules, genesis, g, r);
  }

  lemma LongerWithin(rules: Rules, genesis: Store<Object>, f: ForkState, r: Branches)
    requires Branching(r) && ValidTree(f) && |r.first| == |r.second| + 1
    requires f.head.Some? && Num(f.head.value) == NumFromId(Fork(r)) + 1
    ensures BlockedWithin(rules, genesis, f, r, |r.first|) <==> !AncestorLive(f, r) && OnlyTipRefused(rules, genesis, r)
  {
    forall m: nat | 0 < m <= |r.first|
      ensures RefusedAt(rules, genesis, r, m)
              ==> (Blocked(Sized(rules, genesis, f, r, m - 1), r, m) <==> m == 1 && !AncestorLive(f, r))
    {
      LongerBlocked(rules, genesis, f, r, m);
    }
  }

  lemma LongerBlocked(rules: Rules, genesis: Store<Object>, f: ForkState, r: Branches, m: nat)
    requires Branching(r) && ValidTree(f) && |r.first| == |r.second| + 1 && 0 < m <= |r.first|
    requires f.head.Some? && Num(f.head.value) == NumFromId(Fork(r)) + 1
    ensures Blocked(Sized(rules, genesis, f, r, m - 1), r, m) <==> m == 1 && !AncestorLive(f, r)
  {
    SizedKeepsAncestor(rules, genesis, f, r, m - 1);
    BlockedExactly(Sized(rules, genesis, f, r, m - 1), r, m);
  }
}
