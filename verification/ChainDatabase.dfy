/**
 * The chain database: pushing and popping blocks in place, on top of the undo
 * database and the fork database. Each method is proved to do what `ChainSpec` says.
 */
module ChainDatabases {
  import opened Wrappers
  import opened UndoDeltas
  import US = UndoSpec
  import opened Forks
  import opened ChainSpec
  import opened ChainTheorems
  import opened UndoDatabases
  import opened ForkDatabases

  /** Makes changes until one is impossible. Only the store changes; open sessions record it. */
  method MakeChanges(undo: UndoDatabase<Object>, changes: seq<Change>) returns (ok: bool)
    requires undo.Tracked() && !undo.disabled && undo.saved != []
    modifies undo
    ensures undo.Tracked()
    ensures undo.Abs() == old(undo.Abs()).(current := ApplyChanges(old(undo.Content()), changes).0)
    ensures ok == ApplyChanges(old(undo.Content()), changes).1
  {
    var rest := changes;
    while rest != []
      invariant undo.Tracked()
      invariant undo.Abs() == old(undo.Abs()).(current := undo.Content())
      invariant ApplyChanges(undo.Content(), rest) == ApplyChanges(old(undo.Content()), changes)
      decreases |rest|
    {
      var done := false;
      match rest[0] {
        case Create(k, v) => var ok', _ := undo.Create(k, v); done := ok';
        case Modify(id, v) => done := undo.Modify(id, v);
        case Remove(id) => done := undo.Remove(id);
      }
      if !done { return false; }
      rest := rest[1..];
    }
    return true;
  }

  class ChainDatabase {
    const rules: Rules
    const undo: UndoDatabase<Object>
    const forkDb: ForkDatabase
    var blockLog: map<BlockId, SignedBlock>
    var poppedTx: seq<nat>

    ghost function State(): Chain reads this, undo, forkDb {
      Chain(undo.Content(), undo.saved, undo.maxSize, forkDb.State(), blockLog, poppedTx)
    }

    /** Between calls no session is open and every change is being recorded. */
    ghost predicate Ready() reads this, undo {
      undo.Tracked() && !undo.disabled && undo.activeSessions == 0
    }

    /** `undo` holds the genesis objects; the block log and the fork database start empty. */
    constructor (rules: Rules, undo: UndoDatabase<Object>, forkDb: ForkDatabase)
      requires undo.Tracked() && !undo.disabled && undo.activeSessions == 0
      ensures this.rules == rules && this.undo == undo && this.forkDb == forkDb
      ensures Ready()
      ensures State() == Chain(undo.Content(), undo.saved, undo.maxSize, forkDb.State(), map[], [])
    {
      this.rules, this.undo, this.forkDb := rules, undo, forkDb;
      blockLog, poppedTx := map[], [];
    }

    method HeadBlockId() returns (id: BlockId)
      ensures id == HeadId(undo.Content())
    {
      id := if PropsId in undo.objects && undo.objects[PropsId].Props? then undo.objects[PropsId].headId else Zero;
    }

    method HeadBlockNum() returns (num: nat)
      ensures num == HeadNum(undo.Content())
    {
      num := if PropsId in undo.objects && undo.objects[PropsId].Props? then undo.objects[PropsId].headNum else 0;
    }

    /** The size limits follow the distance to the last irreversible block. */
    method Resize(window: nat)
      requires undo.Tracked()
      modifies undo, forkDb
      ensures undo.Tracked()
      ensures undo.Abs() == old(undo.Abs()).(maxSize := window)
      ensures forkDb.State() == WithMaxSize(old(forkDb.State()), window)
    {
      undo.SetMaxSize(window);
      forkDb.SetMaxSize(window);
    }

    /** apply_block: on an exception the changes made so far are left to the session around it. */
    method Apply(b: SignedBlock) returns (ok: bool)
      requires undo.Tracked() && !undo.disabled && undo.saved != []
      modifies undo, forkDb
      ensures undo.Tracked()
      ensures var a := ApplyBlock(rules, b, old(undo.Content()));
              && ok == a.ok
              && undo.Abs() == old(undo.Abs()).(current := a.store,
                                                maxSize := if a.window.Some? then a.window.value else old(undo.maxSize))
              && forkDb.State() == (if a.window.Some? then WithMaxSize(old(forkDb.State()), a.window.value)
                                    else old(forkDb.State()))
    {
      var head := HeadBlockId();
      if head != b.previous {
        return false;
      }
      var script := rules.body(b, Store(undo.objects, undo.nextIds));
      var done := MakeChanges(undo, script.changes);
      match script
      case Throw(_, reached) =>
        if reached.Some? {
          Resize(reached.value + 1);
        }
        return false;
      case Accept(_, undoable) =>
        if !done {
          return false;
        }
        var updated := undo.Modify(PropsId, Props(BlockNum(b), IdOf(b)));
        if !updated {
          return false;
        }
        Resize(undoable + 1);
        return true;
    }

    /** A session around one block: committed and logged if the block applies, undone if it throws. */
    method TryApply(b: SignedBlock, logAs: BlockId) returns (ok: bool)
      requires Ready()
      modifies this, undo, forkDb
      ensures Ready()
      ensures (State(), ok) == TryBlock(rules, old(State()), b, logAs)
    {
      ghost var c := State();
      var _, _ := undo.StartUndoSession(false);
      ok := Apply(b);
      TrySession(rules, c, b);
      if ok {
        blockLog := blockLog[logAs := b];
        var _ := undo.Commit();
      } else {
        var _ := undo.Undo();
      }
    }

    /** pop_block: false when one of its assertions throws. `held` are nodes the caller keeps alive. */
    method Pop(held: set<ForkItem>) returns (ok: bool)
      requires Ready()
      modifies this, undo, forkDb
      ensures Ready()
      ensures (State(), ok) == PopBlock(old(State()), held)
    {
      var id := HeadBlockId();
      if id == Zero || (id !in forkDb.index && id !in blockLog) {
        return false;
      }
      var r := forkDb.PopBlock(held);
      if r.Err? {
        return false;
      }
      blockLog := blockLog - {id};
      ok := undo.PopCommit();
      if ok {
        poppedTx := id.block.transactions + poppedTx;
      }
    }

    method PopDownTo(target: BlockId, held: set<ForkItem>) returns (ok: bool)
      requires Ready()
      modifies this, undo, forkDb
      ensures Ready()
      ensures (State(), ok) == PopUntil(old(State()), target, held)
    {
      var head := HeadBlockId();
      while head != target
        invariant Ready()
        invariant head == HeadId(undo.Content())
        invariant PopUntil(State(), target, held) == PopUntil(old(State()), target, held)
        decreases |undo.saved|
      {
        var popped := Pop(held);
        if !popped { return false; }
        head := HeadBlockId();
      }
      return true;
    }

    /** The exception path of a switch: throw out the bad blocks, go back, re-apply the old branch. */
    method RestoreBranch(r: Branches, i: nat, newId: BlockId) returns (outcome: Outcome)
      requires Ready() && 0 < i <= |r.first| && r.second != []
      modifies this, undo, forkDb
      ensures Ready()
      ensures (State(), outcome) == GiveUp(rules, old(State()), r, i, newId)
    {
      RemoveItems(r.first[..i]);
      forkDb.SetHead(r.second[0]);
      var popped := PopDownTo(Fork(r), Held(r));
      if !popped {
        return Stuck;
      }
      outcome := ReapplyBranch(r, newId);
    }

    method RemoveItems(items: seq<ForkItem>)
      modifies forkDb
      ensures forkDb.State() == RemoveAll(old(forkDb.State()), items)
    {
      var k := |items|;
      assert items[..k] == items;
      while k > 0
        invariant 0 <= k <= |items|
        invariant RemoveAll(forkDb.State(), items[..k]) == RemoveAll(old(forkDb.State()), items)
      {
        assert items[..k][..k - 1] == items[..k - 1];
        forkDb.Remove(Id(items[k - 1]));
        k := k - 1;
      }
    }

    method ReapplyBranch(r: Branches, newId: BlockId) returns (outcome: Outcome)
      requires Ready()
      modifies this, undo, forkDb
      ensures Ready()
      ensures (State(), outcome) == Restore(rules, old(State()), r, |r.second|, newId)
    {
      var k := |r.second|;
      while k > 0
        invariant 0 <= k <= |r.second|
        invariant Ready()
        invariant Restore(rules, State(), r, k, newId) == Restore(rules, old(State()), r, |r.second|, newId)
      {
        var ok := ReapplyBlock(r, k, newId);
        if !ok {
          outcome := Stuck;
          return;
        }
        k := k - 1;
      }
      outcome := Rejected;
    }

    method ReapplyBlock(r: Branches, k: nat, newId: BlockId) returns (ok: bool)
      requires Ready() && 0 < k <= |r.second|
      modifies this, undo, forkDb
      ensures Ready()
      ensures Restore(rules, old(State()), r, k, newId)
           == if ok then Restore(rules, State(), r, k - 1, newId) else (State(), Stuck)
    {
      RestoreUnfolds(rules, State(), r, k, newId);
      ok := TryApply(r.second[k - 1].block, newId);
    }

    method PushNewBlock(r: Branches, i: nat, newId: BlockId) returns (ok: bool)
      requires Ready() && 0 < i <= |r.first| && r.second != []
      modifies this, undo, forkDb
      ensures Ready()
      ensures PushBranch(rules, old(State()), r, i, newId)
           == if ok then PushBranch(rules, State(), r, i - 1, newId) else GiveUp(rules, State(), r, i, newId)
    {
      PushBranchUnfolds(rules, State(), r, i, newId);
      ok := TryApply(r.first[i - 1].block, Id(r.first[i - 1]));
    }

    method PushNewBranch(r: Branches, newId: BlockId) returns (outcome: Outcome)
      requires Ready() && r.second != []
      modifies this, undo, forkDb
      ensures Ready()
      ensures (State(), outcome) == PushBranch(rules, old(State()), r, |r.first|, newId)
    {
      var i := |r.first|;
      while i > 0
        invariant 0 <= i <= |r.first|
        invariant Ready()
        invariant PushBranch(rules, State(), r, i, newId) == PushBranch(rules, old(State()), r, |r.first|, newId)
      {
        var ok := PushNewBlock(r, i, newId);
        if !ok {
          outcome := RestoreBranch(r, i, newId);
          return;
        }
        i := i - 1;
      }
      outcome := Pushed(true);
    }

    method SwitchTo(newHead: ForkItem, newId: BlockId) returns (outcome: Outcome)
      requires Ready()
      modifies this, undo, forkDb
      ensures Ready()
      ensures (State(), outcome) == Switch(rules, old(State()), newHead, newId)
    {
      var head := HeadBlockId();
      var branches := forkDb.FetchBranchFrom(Id(newHead), head);
      if branches.Err? {
        return Rejected;
      }
      var r := branches.value;
      if r.first == [] || r.second == [] {
        return Rejected;
      }
      var popped := PopDownTo(Fork(r), Held(r));
      if !popped {
        return Stuck;
      }
      outcome := PushNewBranch(r, newId);
    }

    method ExtendHead(b: SignedBlock) returns (outcome: Outcome)
      requires Ready()
      modifies this, undo, forkDb
      ensures Ready()
      ensures (State(), outcome) == Extend(rules, old(State()), b)
    {
      TriedWindow(rules, State(), b, IdOf(b));
      var ok := TryApply(b, IdOf(b));
      if !ok {
        forkDb.Remove(IdOf(b));
        return Rejected;
      }
      SecondSession(undo.Abs());
      // the session around the commit listeners, merged into the block's own
      var _, _ := undo.StartUndoSession(false);
      var _ := undo.Merge();
      return Pushed(false);
    }

    method PushBlock(b: SignedBlock) returns (outcome: Outcome)
      requires Ready()
      modifies this, undo, forkDb
      ensures Ready()
      ensures (State(), outcome) == Push(rules, old(State()), b)
    {
      if !rules.skipForkDb {
        var r := forkDb.PushBlock(b);
        if r.Err? {
          return Rejected;
        }
        var newHead := r.value;
        var head := HeadBlockId();
        if newHead.block.previous != head {
          var num := HeadBlockNum();
          if Num(newHead) > num {
            outcome := SwitchTo(newHead, IdOf(b));
            return;
          }
          return Pushed(false);
        }
      }
      outcome := ExtendHead(b);
    }
  }

  /** What closing the session around a block gives. */
  lemma TrySession(rules: Rules, c: Chain, b: SignedBlock)
    ensures var a := ApplyBlock(rules, b, c.store);
            var kept := US.Trim(c.saved, c.maxSize);
            var size := if a.window.Some? then a.window.value else c.maxSize;
            var s := US.Snapshots(a.store, kept + [c.store], 1, false, size);
            && US.Step(s, US.Commit) == s.(active := 0)
            && US.Step(s, US.Undo) == s.(current := c.store, saved := if kept == [] then [c.store] else kept, active := 0)
  {
    var kept := US.Trim(c.saved, c.maxSize);
    assert (kept + [c.store])[..|kept|] == kept;
  }

  lemma TriedWindow(rules: Rules, c: Chain, b: SignedBlock, logAs: BlockId)
    ensures var (c1, ok) := TryBlock(rules, c, b, logAs);
            ok ==> c1.maxSize >= 1 && c1.saved != []
  {
  }

  /** Opening a session and merging it at once only trims the history. */
  lemma SecondSession<V>(s: US.Snapshots<V>)
    requires !s.disabled && s.active == 0 && s.saved != [] && s.maxSize >= 1
    ensures US.Step(US.Step(s, US.Start(false)), US.Merge) == s.(saved := US.Trim(s.saved, s.maxSize))
  {
    var t := US.Trim(s.saved, s.maxSize);
    var s1 := US.Step(s, US.Start(false));
    assert s1 == s.(saved := t + [s.current], active := 1);
    assert s1.saved[..|s1.saved| - 1] == t;
  }
}
