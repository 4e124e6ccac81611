/** What pushing blocks guarantees: the store is always a replay, and a rejected block leaves no trace in it. */
module ChainTheorems {
  import opened Wrappers
  import opened UndoDeltas
  import opened Forks
  import opened ChainSpec

  ghost predicate IsReplay(rules: Rules, genesis: Store<Object>, st: Store<Object>) {
    Replay(rules, genesis, HeadId(st)) == Some(st)
  }

  /** The store, and every copy pop_block could put back, is the replay of the chain its own head names. */
  ghost predicate Sound(rules: Rules, genesis: Store<Object>, c: Chain) {
    && HeadId(genesis) == Zero
    && IsReplay(rules, genesis, c.store)
    && (forall st :: st in c.saved ==> IsReplay(rules, genesis, st))
    && ValidTree(c.fork)
  }

  lemma AppliedHead(rules: Rules, b: SignedBlock, st: Store<Object>)
    ensures ApplyBlock(rules, b, st).ok ==> HeadId(ApplyBlock(rules, b, st).store) == IdOf(b) && HeadId(st) == b.previous
  {
  }

  lemma ReplayHead(rules: Rules, genesis: Store<Object>, id: BlockId)
    requires HeadId(genesis) == Zero
    ensures Replay(rules, genesis, id).Some? ==> HeadId(Replay(rules, genesis, id).value) == id
  {
    if id.IdOf? && Replay(rules, genesis, id).Some? {
      AppliedHead(rules, id.block, Replay(rules, genesis, id.block.previous).value);
    }
  }

  // ---- each step keeps the state sound ----

  lemma ApplyReplays(rules: Rules, genesis: Store<Object>, st: Store<Object>, b: SignedBlock)
    requires IsReplay(rules, genesis, st)
    requires ApplyBlock(rules, b, st).ok
    ensures Replay(rules, genesis, IdOf(b)) == Some(ApplyBlock(rules, b, st).store)
    ensures IsReplay(rules, genesis, ApplyBlock(rules, b, st).store)
  {
    AppliedHead(rules, b, st);
  }

  lemma TryKeepsSound(rules: Rules, genesis: Store<Object>, c: Chain, b: SignedBlock, logAs: BlockId)
    requires Sound(rules, genesis, c)
    ensures var (c1, ok) := TryBlock(rules, c, b, logAs);
            && Sound(rules, genesis, c1)
            && (ok ==> HeadId(c1.store) == IdOf(b) && HeadId(c.store) == b.previous)
            && (!ok ==> c1.store == c.store)
  {
    var a := ApplyBlock(rules, b, c.store);
    if a.window.Some? {
      WithMaxSizeKeepsTree(c.fork, a.window.value);
    }
    if a.ok {
      ApplyReplays(rules, genesis, c.store, b);
      AppliedHead(rules, b, c.store);
    }
  }

  lemma PopKeepsSound(rules: Rules, genesis: Store<Object>, c: Chain, held: set<ForkItem>)
    requires Sound(rules, genesis, c)
    ensures Sound(rules, genesis, PopBlock(c, held).0)
  {
    PopKeepsTree(c.fork, held);
  }

  lemma {:induction false} PopUntilKeepsSound(rules: Rules, genesis: Store<Object>, c: Chain, target: BlockId, held: set<ForkItem>)
    requires Sound(rules, genesis, c)
    ensures var (c1, ok) := PopUntil(c, target, held);
            Sound(rules, genesis, c1) && (ok ==> HeadId(c1.store) == target)
    decreases |c.saved|
  {
    if HeadId(c.store) != target {
      PopKeepsSound(rules, genesis, c, held);
      var (c1, ok) := PopBlock(c, held);
      if ok {
        PopUntilKeepsSound(rules, genesis, c1, target, held);
      }
    }
  }

  lemma {:induction false} RemoveAllKeepsTree(f: ForkState, items: seq<ForkItem>)
    requires ValidTree(f)
    ensures ValidTree(RemoveAll(f, items))
    decreases |items|
  {
    if items != [] {
      RemoveKeepsTree(f, Id(items[|items| - 1]));
      RemoveAllKeepsTree(RemoveId(f, Id(items[|items| - 1])), items[..|items| - 1]);
    }
  }

  lemma {:induction false} RestoreKeepsSound(rules: Rules, genesis: Store<Object>, c: Chain, r: Branches, i: nat, newId: BlockId)
    requires Sound(rules, genesis, c) && i <= |r.second|
    ensures Sound(rules, genesis, Restore(rules, c, r, i, newId).0)
    decreases i
  {
    if i > 0 {
      TryKeepsSound(rules, genesis, c, r.second[i - 1].block, newId);
      var (c1, ok) := TryBlock(rules, c, r.second[i - 1].block, newId);
      if ok {
        RestoreKeepsSound(rules, genesis, c1, r, i - 1, newId);
      }
    }
  }

  /** The fork database after the bad part of the new branch was thrown out. */
  function AfterFailure(c: Chain, r: Branches, i: nat): Chain
    requires i <= |r.first| && r.second != []
  {
    c.(fork := RemoveAll(c.fork, r.first[..i]).(head := Some(r.second[0])))
  }

  lemma AfterFailureSound(rules: Rules, genesis: Store<Object>, c: Chain, r: Branches, i: nat)
    requires Sound(rules, genesis, c) && i <= |r.first| && r.second != [] && WellLinked(r.second[0])
    ensures Sound(rules, genesis, AfterFailure(c, r, i))
  {
    RemoveAllKeepsTree(c.fork, r.first[..i]);
  }

  /** What follows a refused node of the new branch. */
  function GiveUp(rules: Rules, c: Chain, r: Branches, i: nat, newId: BlockId): (Chain, Outcome)
    requires i <= |r.first| && r.second != []
  {
    var (c1, popped) := PopUntil(AfterFailure(c, r, i), Fork(r), Held(r));
    if popped then Restore(rules, c1, r, |r.second|, newId) else (c1, Stuck)
  }

  lemma PushBranchUnfolds(rules: Rules, c: Chain, r: Branches, i: nat, newId: BlockId)
    requires 0 < i <= |r.first| && r.second != []
    ensures var (c1, ok) := TryBlock(rules, c, r.first[i - 1].block, Id(r.first[i - 1]));
            PushBranch(rules, c, r, i, newId) == if ok then PushBranch(rules, c1, r, i - 1, newId) else GiveUp(rules, c1, r, i, newId)
  {
  }

  lemma {:induction false} PushBranchKeepsSound(rules: Rules, genesis: Store<Object>, c: Chain, r: Branches, i: nat, newId: BlockId)
    requires Sound(rules, genesis, c) && i <= |r.first| && r.second != [] && WellLinked(r.second[0])
    ensures Sound(rules, genesis, PushBranch(rules, c, r, i, newId).0)
    decreases i
  {
    if i > 0 {
      PushBranchUnfolds(rules, c, r, i, newId);
      TryKeepsSound(rules, genesis, c, r.first[i - 1].block, Id(r.first[i - 1]));
      var (c1, ok) := TryBlock(rules, c, r.first[i - 1].block, Id(r.first[i - 1]));
      if ok {
        PushBranchKeepsSound(rules, genesis, c1, r, i - 1, newId);
      } else {
        GiveUpKeepsSound(rules, genesis, c1, r, i, newId);
      }
    }
  }

  lemma GiveUpKeepsSound(rules: Rules, genesis: Store<Object>, c: Chain, r: Branches, i: nat, newId: BlockId)
    requires Sound(rules, genesis, c) && i <= |r.first| && r.second != [] && WellLinked(r.second[0])
    ensures Sound(rules, genesis, GiveUp(rules, c, r, i, newId).0)
  {
    AfterFailureSound(rules, genesis, c, r, i);
    PopUntilKeepsSound(rules, genesis, AfterFailure(c, r, i), Fork(r), Held(r));
    var (c1, popped) := PopUntil(AfterFailure(c, r, i), Fork(r), Held(r));
    if popped {
      RestoreKeepsSound(rules, genesis, c1, r, |r.second|, newId);
    }
  }

  lemma BranchesLinked(c: Chain, newHead: ForkItem)
    requires ValidTree(c.fork)
    requires FetchBranch(c.fork, Id(newHead), HeadId(c.store)).Ok?
    ensures var r := FetchBranch(c.fork, Id(newHead), HeadId(c.store)).value;
            && r.first != [] && r.second != []
            && Id(r.first[0]) == Id(newHead) && Id(r.second[0]) == HeadId(c.store)
            && Linked(r.first) && Linked(r.second) && WellLinked(r.second[0])
            && r.first[|r.first| - 1].block.previous == Fork(r)
  {
    FetchBranchFinds(c.fork, Id(newHead), HeadId(c.store));
  }

  lemma SwitchKeepsSound(rules: Rules, genesis: Store<Object>, c: Chain, newHead: ForkItem, newId: BlockId)
    requires Sound(rules, genesis, c)
    ensures Sound(rules, genesis, Switch(rules, c, newHead, newId).0)
  {
    var branch := FetchBranch(c.fork, Id(newHead), HeadId(c.store));
    if branch.Ok? {
      BranchesLinked(c, newHead);
      var r := branch.value;
      PopUntilKeepsSound(rules, genesis, c, Fork(r), Held(r));
      var (c1, popped) := PopUntil(c, Fork(r), Held(r));
      if popped {
        PushBranchKeepsSound(rules, genesis, c1, r, |r.first|, newId);
      }
    }
  }

  lemma ExtendKeepsSound(rules: Rules, genesis: Store<Object>, c: Chain, b: SignedBlock)
    requires Sound(rules, genesis, c)
    ensures Sound(rules, genesis, Extend(rules, c, b).0)
  {
    TryKeepsSound(rules, genesis, c, b, IdOf(b));
    var (c1, ok) := TryBlock(rules, c, b, IdOf(b));
    RemoveKeepsTree(c1.fork, IdOf(b));
  }

  /**
   * After any push, whichever way it ends, the store is the plain replay of the
   * chain from genesis to its head, and stays so for every block popped later.
   */
  lemma PushKeepsReplay(rules: Rules, genesis: Store<Object>, c: Chain, b: SignedBlock)
    requires Sound(rules, genesis, c)
    ensures Sound(rules, genesis, Push(rules, c, b).0)
  {
    PushKeepsTree(c.fork, b);
    if rules.skipForkDb {
      ExtendKeepsSound(rules, genesis, c, b);
    } else if PushItem(c.fork, b).Ok? {
      var c1 := c.(fork := PushItem(c.fork, b).value);
      ExtendKeepsSound(rules, genesis, c1, b);
      SwitchKeepsSound(rules, genesis, c1, c1.fork.head.value, IdOf(b));
    }
  }

  function PushAll(rules: Rules, c: Chain, blocks: seq<SignedBlock>): Chain
    decreases |blocks|
  {
    if blocks == [] then c else PushAll(rules, Push(rules, c, blocks[0]).0, blocks[1..])
  }

  lemma {:induction false} RunKeepsReplay(rules: Rules, genesis: Store<Object>, c: Chain, blocks: seq<SignedBlock>)
    requires Sound(rules, genesis, c)
    ensures IsReplay(rules, genesis, PushAll(rules, c, blocks).store)
    ensures Sound(rules, genesis, PushAll(rules, c, blocks))
    decreases |blocks|
  {
    if blocks != [] {
      PushKeepsReplay(rules, genesis, c, blocks[0]);
      RunKeepsReplay(rules, genesis, Push(rules, c, blocks[0]).0, blocks[1..]);
    }
  }

  // ---- a rejected block leaves the store as it was ----

  /** Blocks under a replayed head are replayed too. */
  lemma {:induction false} ReplayBelow(rules: Rules, genesis: Store<Object>, path: seq<ForkItem>, k: nat)
    requires k < |path| && Linked(path)
    requires Replay(rules, genesis, Id(path[0])).Some?
    ensures Replay(rules, genesis, Id(path[k])).Some?
    ensures Replay(rules, genesis, path[k].block.previous).Some?
    decreases k
  {
    if k > 0 {
      ReplayBelow(rules, genesis, path, k - 1);
      assert path[k - 1].block.previous == Id(path[k]);
    }
  }

  /** A block whose replay exists is accepted again on the store under it. */
  lemma TryReapplies(rules: Rules, genesis: Store<Object>, c: Chain, b: SignedBlock, logAs: BlockId)
    requires Sound(rules, genesis, c)
    requires HeadId(c.store) == b.previous && Replay(rules, genesis, IdOf(b)).Some?
    ensures var (c1, ok) := TryBlock(rules, c, b, logAs);
            ok && Sound(rules, genesis, c1) && HeadId(c1.store) == IdOf(b)
  {
    TryKeepsSound(rules, genesis, c, b, logAs);
  }

  /** Re-applying the old branch cannot fail, and ends at the old store. */
  lemma {:induction false} RestoreRestores(rules: Rules, genesis: Store<Object>, c: Chain, r: Branches, i: nat, newId: BlockId, old0: Store<Object>)
    requires Sound(rules, genesis, c) && 0 < |r.second| && i <= |r.second| && Linked(r.second)
    requires Replay(rules, genesis, Id(r.second[0])) == Some(old0)
    requires HeadId(c.store) == if i < |r.second| then Id(r.second[i]) else Fork(r)
    ensures var (c1, outcome) := Restore(rules, c, r, i, newId);
            outcome == Rejected && c1.store == old0
    decreases i
  {
    if i == 0 {
      assert IsReplay(rules, genesis, c.store);
    } else {
      RestoreStep(rules, genesis, c, r, i, newId);
      var c1 := TryBlock(rules, c, r.second[i - 1].block, newId).0;
      RestoreRestores(rules, genesis, c1, r, i - 1, newId, old0);
      RestoreUnfolds(rules, c, r, i, newId);
    }
  }

  lemma RestoreStep(rules: Rules, genesis: Store<Object>, c: Chain, r: Branches, i: nat, newId: BlockId)
    requires Sound(rules, genesis, c) && 0 < i <= |r.second| && Linked(r.second)
    requires Replay(rules, genesis, Id(r.second[0])).Some?
    requires HeadId(c.store) == if i < |r.second| then Id(r.second[i]) else Fork(r)
    ensures var (c1, ok) := TryBlock(rules, c, r.second[i - 1].block, newId);
            ok && Sound(rules, genesis, c1) && HeadId(c1.store) == Id(r.second[i - 1])
  {
    var b := r.second[i - 1].block;
    assert i < |r.second| ==> r.second[i - 1].block.previous == Id(r.second[i]);
    ReplayBelow(rules, genesis, r.second, i - 1);
    TryReapplies(rules, genesis, c, b, newId);
  }

  lemma RestoreUnfolds(rules: Rules, c: Chain, r: Branches, i: nat, newId: BlockId)
    requires 0 < i <= |r.second|
    ensures var (c1, ok) := TryBlock(rules, c, r.second[i - 1].block, newId);
            Restore(rules, c, r, i, newId) == if ok then Restore(rules, c1, r, i - 1, newId) else (c1, Stuck)
  {
  }

  lemma {:induction false} PushBranchRestores(rules: Rules, genesis: Store<Object>, c: Chain, r: Branches, i: nat, newId: BlockId, old0: Store<Object>)
    requires Sound(rules, genesis, c) && i <= |r.first| && r.first != [] && r.second != []
    requires Linked(r.second) && WellLinked(r.second[0])
    requires Replay(rules, genesis, Id(r.second[0])) == Some(old0)
    requires i < |r.first| ==> HeadId(c.store) == Id(r.first[i])
    ensures var (c1, outcome) := PushBranch(rules, c, r, i, newId);
            && (outcome == Rejected ==> c1.store == old0)
            && (outcome.Pushed? ==> outcome.switched && HeadId(c1.store) == Id(r.first[0]))
    decreases i
  {
    if i > 0 {
      var item := r.first[i - 1];
      TryKeepsSound(rules, genesis, c, item.block, Id(item));
      var (c1, ok) := TryBlock(rules, c, item.block, Id(item));
      if ok {
        PushBranchRestores(rules, genesis, c1, r, i - 1, newId, old0);
      } else {
        GiveUpRestores(rules, genesis, c1, r, i, newId, old0);
      }
    }
  }

  lemma GiveUpRestores(rules: Rules, genesis: Store<Object>, c: Chain, r: Branches, i: nat, newId: BlockId, old0: Store<Object>)
    requires Sound(rules, genesis, c) && i <= |r.first| && r.second != []
    requires Linked(r.second) && WellLinked(r.second[0])
    requires Replay(rules, genesis, Id(r.second[0])) == Some(old0)
    ensures var (c1, outcome) := GiveUp(rules, c, r, i, newId);
            && outcome == (if PopUntil(AfterFailure(c, r, i), Fork(r), Held(r)).1 then Rejected else Stuck)
            && (outcome == Rejected ==> c1.store == old0)
  {
    AfterFailureSound(rules, genesis, c, r, i);
    PopUntilKeepsSound(rules, genesis, AfterFailure(c, r, i), Fork(r), Held(r));
    var (c1, popped) := PopUntil(AfterFailure(c, r, i), Fork(r), Held(r));
    if popped {
      RestoreRestores(rules, genesis, c1, r, |r.second|, newId, old0);
    }
  }

  lemma SwitchRestores(rules: Rules, genesis: Store<Object>, c: Chain, newHead: ForkItem, newId: BlockId)
    requires Sound(rules, genesis, c)
    ensures var (c1, outcome) := Switch(rules, c, newHead, newId);
            && (outcome == Rejected ==> c1.store == c.store)
            && (outcome.Pushed? ==> outcome.switched && HeadId(c1.store) == Id(newHead))
  {
    var branch := FetchBranch(c.fork, Id(newHead), HeadId(c.store));
    if branch.Ok? {
      BranchesLinked(c, newHead);
      var r := branch.value;
      PopUntilKeepsSound(rules, genesis, c, Fork(r), Held(r));
      var (c1, popped) := PopUntil(c, Fork(r), Held(r));
      if popped {
        PushBranchRestores(rules, genesis, c1, r, |r.first|, newId, c.store);
      }
    }
  }

  /**
   * How a push ends. A rejected block changes nothing in the store, even after a
   * failed fork switch. A switch ends at the tip of the new branch; otherwise the
   * block is the new head, or it only joined the fork database.
   */
  lemma PushOutcome(rules: Rules, genesis: Store<Object>, c: Chain, b: SignedBlock)
    requires Sound(rules, genesis, c)
    ensures var (c1, outcome) := Push(rules, c, b);
            && (outcome == Rejected ==> c1.store == c.store)
            && (outcome == Pushed(true) ==> PushItem(c.fork, b).Ok? && PushItem(c.fork, b).value.head.Some?
                                            && HeadId(c1.store) == Id(PushItem(c.fork, b).value.head.value))
            && (outcome == Pushed(false) ==> c1.store == c.store || HeadId(c1.store) == IdOf(b))
  {
    PushKeepsTree(c.fork, b);
    if rules.skipForkDb || PushItem(c.fork, b).Err? {
      ExtendOutcome(rules, genesis, c, b);
    } else {
      LinkedOutcome(rules, genesis, c, b, PushItem(c.fork, b).value);
    }
  }

  lemma LinkedOutcome(rules: Rules, genesis: Store<Object>, c: Chain, b: SignedBlock, f: ForkState)
    requires Sound(rules, genesis, c) && !rules.skipForkDb
    requires PushItem(c.fork, b) == Ok(f) && ValidTree(f) && f.head.Some?
    ensures var (c1, outcome) := Push(rules, c, b);
            && (outcome == Rejected ==> c1.store == c.store)
            && (outcome == Pushed(true) ==> HeadId(c1.store) == Id(f.head.value))
            && (outcome == Pushed(false) ==> c1.store == c.store || HeadId(c1.store) == IdOf(b))
  {
    var c1 := c.(fork := f);
    if f.head.value.block.previous == HeadId(c.store) {
      ExtendOutcome(rules, genesis, c1, b);
    } else {
      SwitchRestores(rules, genesis, c1, f.head.value, IdOf(b));
    }
  }

  lemma ExtendOutcome(rules: Rules, genesis: Store<Object>, c: Chain, b: SignedBlock)
    requires Sound(rules, genesis, c)
    ensures var (c1, outcome) := Extend(rules, c, b);
            (outcome == Rejected && c1.store == c.store) || (outcome == Pushed(false) && HeadId(c1.store) == IdOf(b))
  {
    TryKeepsSound(rules, genesis, c, b, IdOf(b));
  }
}
