/**
 * The undo database over an object database: an in-place stack of deltas.
 *
 * `objects` and `nextIds` are the content of the object database it refers to.
 * The ghost stack `saved` remembers the store at the time each state on `stack`
 * was opened; every method is proved to act on (store, saved) as the stack of
 * full copies of `UndoSpec` does, although it keeps deltas only.
 */
module UndoDatabases {
  import opened UndoDeltas
  import Spec = UndoSpec

  class UndoDatabase<V(==)> {
    var objects: map<ObjectId, V>
    var nextIds: map<IndexId, nat>
    var disabled: bool
    var activeSessions: nat
    var stack: seq<UndoState<V>>
    var maxSize: nat
    ghost var saved: seq<Store<V>>

    ghost function Content(): Store<V> reads this {
      Store(objects, nextIds)
    }

    ghost function Abs(): Spec.Snapshots<V> reads this {
      Spec.Snapshots(Content(), saved, activeSessions, disabled, maxSize)
    }

    /** Every change since the oldest state on the stack was recorded. */
    ghost predicate Tracked() reads this {
      && Chain(saved, stack, Content())
      && (activeSessions > 0 ==> stack != [])
    }

    constructor (indexes: set<IndexId>)
      ensures Tracked()
      ensures Abs() == Spec.Snapshots(Store(map[], map k | k in indexes :: 0), [], 0, true, 256)
      ensures stack == []
    {
      objects, nextIds := map[], map k | k in indexes :: 0;
      disabled, activeSessions, stack, maxSize := true, 0, [], 256;
      saved := [];
    }

    method EnableUndo()
      modifies this
      ensures Abs() == Spec.Step(old(Abs()), Spec.Enable)
      ensures old(Tracked()) ==> Tracked()
      ensures stack == old(stack)
    {
      disabled := false;
    }

    method DisableUndo()
      modifies this
      ensures Abs() == Spec.Step(old(Abs()), Spec.Disable)
      ensures old(Tracked()) ==> Tracked()
      ensures stack == old(stack)
    {
      disabled := true;
    }

    method SetMaxSize(n: nat)
      modifies this
      ensures Abs() == Spec.Step(old(Abs()), Spec.SetMaxSize(n))
      ensures old(Tracked()) ==> Tracked()
      ensures stack == old(stack)
    {
      maxSize := n;
    }

    /** Returns whether a live session was opened, and whether closing it must disable tracking again. */
    method StartUndoSession(force: bool) returns (live: bool, disableOnExit: bool)
      requires Tracked()
      modifies this
      ensures Tracked()
      ensures Abs() == Spec.Step(old(Abs()), Spec.Start(force))
      ensures live == (!old(disabled) || force)
      ensures disableOnExit == (old(disabled) && force)
    {
      if disabled && !force {
        return false, false;
      }
      live, disableOnExit := true, disabled && force;
      if force {
        disabled := false;
      }
      while |stack| > maxSize
        modifies `stack, `saved
        invariant Chain(saved, stack, Content())
        invariant |old(stack)| > maxSize ==> |stack| >= maxSize
        invariant |old(stack)| <= maxSize ==> |stack| == |old(stack)|
        invariant |saved| <= |old(saved)| && saved == old(saved)[|old(saved)| - |saved|..]
      {
        ChainDropOldest(saved, stack, Content());
        stack := stack[1..];
        saved := saved[1..];
      }
      assert saved == Spec.Trim(old(saved), maxSize);
      ChainPush(saved, stack, Content());
      stack := stack + [EmptyState()];
      saved := saved + [Content()];
      activeSessions := activeSessions + 1;
    }

    // ---- the recording hooks ----

    /** Opens a first state when the stack is empty; `base` is the store it starts from. */
    method EnsureState(ghost base: Store<V>)
      modifies `stack, `saved
      ensures stack == TopOrEmpty(old(stack))
      ensures saved == if old(stack) == [] then [base] else old(saved)
    {
      if stack == [] {
        stack := [EmptyState()];
        saved := [base];
      }
    }

    method OnCreate(id: ObjectId, ghost before: Store<V>)
      modifies `stack, `saved
      ensures disabled ==> stack == old(stack) && saved == old(saved)
      ensures !disabled ==> stack == WithTop(old(stack), RecordCreate(Top(old(stack)), id))
      ensures !disabled ==> saved == if old(stack) == [] then [before] else old(saved)
    {
      if disabled { return; }
      EnsureState(before);
      var state := stack[|stack| - 1];
      var k := IndexOf(id);
      if k !in state.oldNextIds {
        state := state.(oldNextIds := state.oldNextIds[k := id.instance]);
      }
      state := state.(newIds := state.newIds + {id});
      stack := stack[|stack| - 1 := state];
    }

    method OnModify(id: ObjectId)
      requires id in objects
      modifies `stack, `saved
      ensures disabled ==> stack == old(stack) && saved == old(saved)
      ensures !disabled ==> stack == WithTop(old(stack), RecordModify(Top(old(stack)), id, objects[id]))
      ensures !disabled ==> saved == if old(stack) == [] then [Content()] else old(saved)
    {
      if disabled { return; }
      EnsureState(Content());
      var state := stack[|stack| - 1];
      if id in state.newIds { return; }
      if id in state.oldValues { return; }
      state := state.(oldValues := state.oldValues[id := objects[id]]);
      stack := stack[|stack| - 1 := state];
    }

    method OnRemove(id: ObjectId)
      requires id in objects
      modifies `stack, `saved
      ensures disabled ==> stack == old(stack) && saved == old(saved)
      ensures !disabled ==> stack == WithTop(old(stack), RecordRemove(Top(old(stack)), id, objects[id]))
      ensures !disabled ==> saved == if old(stack) == [] then [Content()] else old(saved)
    {
      if disabled { return; }
      EnsureState(Content());
      var state := stack[|stack| - 1];
      if id in state.newIds {
        state := state.(newIds := state.newIds - {id});
      } else if id in state.oldValues {
        state := state.(removed := state.removed[id := state.oldValues[id]]);
        state := state.(oldValues := state.oldValues - {id});
      } else if id in state.removed {
        return;
      } else {
        state := state.(removed := state.removed[id := objects[id]]);
      }
      stack := stack[|stack| - 1 := state];
    }

    // ---- changes to the object database ----

    /** The index hands out its next id and inserts the object; then the creation is recorded. */
    method Create(k: IndexId, value: V) returns (ok: bool, id: ObjectId)
      requires Tracked()
      modifies this
      ensures Abs() == Spec.Step(old(Abs()), Spec.Create(k, value))
      ensures ok == (k in old(nextIds))
      ensures ok ==> id == ObjectId(k.space, k.typ, old(nextIds)[k])
      ensures !disabled || stack == [] ==> Tracked()
      ensures disabled ==> stack == old(stack)
    {
      id := ObjectId(k.space, k.typ, 0);
      if k !in nextIds {
        return false, id;
      }
      ok, id := true, ObjectId(k.space, k.typ, nextIds[k]);
      ghost var before := Content();
      objects, nextIds := objects[id := value], nextIds[k := nextIds[k] + 1];
      OnCreate(id, before);
      assert Content() == CreateIn(before, k, value);
      if !disabled {
        ChainCreate(old(saved), old(stack), before, k, value);
        assert Chain(saved, stack, Content());
      } else {
        CreateValid(before, k, value);
      }
    }

    /** The value is recorded, then changed. */
    method Modify(id: ObjectId, value: V) returns (ok: bool)
      requires Tracked()
      modifies this
      ensures Abs() == Spec.Step(old(Abs()), Spec.Modify(id, value))
      ensures ok == (id in old(objects))
      ensures !disabled || stack == [] ==> Tracked()
      ensures disabled ==> stack == old(stack)
    {
      if id !in objects {
        return false;
      }
      ghost var before := Content();
      OnModify(id);
      if !disabled {
        ChainModify(old(saved), old(stack), before, id, value);
      }
      objects := objects[id := value];
      return true;
    }

    /** The value is recorded, then the object erased. */
    method Remove(id: ObjectId) returns (ok: bool)
      requires Tracked()
      modifies this
      ensures Abs() == Spec.Step(old(Abs()), Spec.Remove(id))
      ensures ok == (id in old(objects))
      ensures !disabled || stack == [] ==> Tracked()
      ensures disabled ==> stack == old(stack)
    {
      if id !in objects {
        return false;
      }
      ghost var before := Content();
      OnRemove(id);
      if !disabled {
        ChainRemove(old(saved), old(stack), before, id);
      }
      objects := objects - {id};
      return true;
    }

    // ---- closing sessions ----

    /** Puts back what `state` recorded, container by container. Shared by undo and pop_commit. */
    method Revert(state: UndoState<V>, ghost before: Store<V>)
      requires Delta(before, state, Content())
      modifies `objects, `nextIds
      ensures Content() == before
    {
      ghost var after := Content();
      objects := AssignAll(objects, state.oldValues);
      objects := EraseAll(objects, state.newIds);
      nextIds := AssignAll(nextIds, state.oldNextIds);
      objects := AssignAll(objects, state.removed);
      RevertedIs(before, state, after, Content());
    }

    method Undo() returns (ok: bool)
      requires Tracked()
      modifies this
      ensures Tracked()
      ensures Abs() == Spec.Step(old(Abs()), Spec.Undo)
      ensures ok == (!old(disabled) && old(activeSessions) > 0)
    {
      if disabled || activeSessions == 0 {
        return false;
      }
      disabled := true;
      ChainTop(saved, stack, Content());
      ChainPop(saved, stack, Content());
      Revert(stack[|stack| - 1], saved[|saved| - 1]);
      stack := stack[..|stack| - 1];
      saved := saved[..|saved| - 1];
      if stack == [] {
        EmptyDelta(Content());
        stack := [EmptyState()];
        saved := [Content()];
      }
      disabled := false;
      activeSessions := activeSessions - 1;
      return true;
    }

    /** Folds the newest state into the one under it. */
    method Merge() returns (ok: bool)
      requires Tracked()
      modifies this
      ensures Tracked()
      ensures Abs() == Spec.Step(old(Abs()), Spec.Merge)
      ensures ok == (old(activeSessions) > 0 && |old(stack)| >= 2)
      ensures ok ==> stack == MergedStack(old(stack))
    {
      if activeSessions == 0 || |stack| < 2 {
        return false;
      }
      var n := |stack|;
      ChainTopTwo(saved, stack, Content());
      ChainMerge(saved, stack, Content());
      var merged := MergeInto(stack[n - 2], stack[n - 1], saved[n - 2], saved[n - 1], Content());
      stack := stack[..n - 2] + [merged];
      saved := saved[..n - 1];
      activeSessions := activeSessions - 1;
      return true;
    }

    method Commit() returns (ok: bool)
      requires Tracked()
      modifies this
      ensures Tracked()
      ensures Abs() == Spec.Step(old(Abs()), Spec.Commit)
      ensures stack == old(stack)
      ensures ok == (old(activeSessions) > 0)
    {
      if activeSessions == 0 {
        return false;
      }
      activeSessions := activeSessions - 1;
      return true;
    }

    method PopCommit() returns (ok: bool)
      requires Tracked()
      modifies this
      ensures Tracked()
      ensures Abs() == Spec.Step(old(Abs()), Spec.PopCommit)
      ensures ok == (old(activeSessions) == 0 && old(stack) != [])
    {
      if activeSessions != 0 || stack == [] {
        return false;
      }
      disabled := true;
      ChainTop(saved, stack, Content());
      ChainPop(saved, stack, Content());
      Revert(stack[|stack| - 1], saved[|saved| - 1]);
      stack := stack[..|stack| - 1];
      saved := saved[..|saved| - 1];
      disabled := false;
      return true;
    }

    // ---- whole runs ----

    /** Any run of calls leaves the database where the stack of full copies would be. */
    method Perform(es: seq<Spec.Event<V>>)
      requires Tracked()
      requires Spec.Trackable(Abs(), es)
      modifies this
      ensures Tracked()
      ensures Abs() == Spec.Run(old(Abs()), es)
    {
      var rest := es;
      while rest != []
        invariant Tracked()
        invariant Spec.Trackable(Abs(), rest)
        invariant Spec.Run(Abs(), rest) == Spec.Run(old(Abs()), es)
        decreases |rest|
      {
        PerformOne(rest[0]);
        rest := rest[1..];
      }
    }

    method PerformOne(e: Spec.Event<V>)
      requires Tracked()
      requires Spec.IsChange(e) ==> !disabled || saved == []
      modifies this
      ensures Tracked()
      ensures Abs() == Spec.Step(old(Abs()), e)
    {
      match e
      case Start(force) => var _, _ := StartUndoSession(force);
      case Create(k, v) => var _, _ := Create(k, v);
      case Modify(id, v) => var _ := Modify(id, v);
      case Remove(id) => var _ := Remove(id);
      case Undo => var _ := Undo();
      case Merge => var _ := Merge();
      case Commit => var _ := Commit();
      case PopCommit => var _ := PopCommit();
      case SetMaxSize(n) => SetMaxSize(n);
      case Enable => EnableUndo();
      case Disable => DisableUndo();
    }
  }

  // ---- the loops over unordered containers: entries are visited in any order ----

  method AssignAll<K(==), W>(target: map<K, W>, values: map<K, W>) returns (m: map<K, W>)
    ensures m == target + values
  {
    m := target;
    var keys := values.Keys;
    while keys != {}
      invariant keys <= values.Keys
      invariant m == target + (values - keys)
    {
      var k :| k in keys;
      m := m[k := values[k]];
      keys := keys - {k};
    }
  }

  method AddMissing<K(==), W>(target: map<K, W>, values: map<K, W>) returns (m: map<K, W>)
    ensures m == values + target
  {
    m := target;
    var keys := values.Keys;
    while keys != {}
      invariant keys <= values.Keys
      invariant m == (values - keys) + target
    {
      var k :| k in keys;
      if k !in m {
        m := m[k := values[k]];
      }
      keys := keys - {k};
    }
    assert values - keys == values;
  }

  method EraseAll<K(==), W>(target: map<K, W>, erased: set<K>) returns (m: map<K, W>)
    ensures m == target - erased
  {
    m := target;
    var keys := erased;
    while keys != {}
      invariant keys <= erased
      invariant m == target - (erased - keys)
    {
      var k :| k in keys;
      m := m - {k};
      keys := keys - {k};
    }
  }

  lemma RevertedIs<V>(before: Store<V>, state: UndoState<V>, after: Store<V>, st: Store<V>)
    requires Delta(before, state, after)
    requires st.objects == ((after.objects + state.oldValues) - state.newIds) + state.removed
    requires st.nextIds == after.nextIds + state.oldNextIds
    ensures st == before
  {
    forall id
      ensures id in st.objects <==> id in before.objects
      ensures id in st.objects ==> st.objects[id] == before.objects[id]
    {
      assert Cell(before, state, after, id);
    }
    assert st.objects == before.objects;
    assert st.nextIds == before.nextIds;
  }

  /**
   * The loops of merge. Creations and next ids of the child are copied where the
   * parent has none; updates and removals follow the table.
   */
  method MergeInto<V>(parent: UndoState<V>, child: UndoState<V>,
                      ghost a: Store<V>, ghost b: Store<V>, ghost c: Store<V>) returns (state: UndoState<V>)
    requires Delta(a, parent, b) && Delta(b, child, c)
    ensures state == MergeStates(parent, child)
  {
    MergeCausality(a, parent, b, child, c);
    var oldValues := MergeUpdates(parent, child.oldValues);
    var newIds := parent.newIds + child.newIds;
    var oldNextIds := AddMissing(parent.oldNextIds, child.oldNextIds);
    state := MergeRemovals(UndoState(oldValues, oldNextIds, newIds, parent.removed), child.removed);
    MergedIs(parent, child);
  }

  /** What the table relies on: the N/A cells do not occur, and a state's containers are disjoint. */
  ghost predicate Causal<V>(parent: UndoState<V>, child: UndoState<V>) {
    && child.oldValues.Keys !! parent.removed.Keys
    && child.removed.Keys !! parent.removed.Keys
    && child.newIds !! parent.newIds && child.newIds !! parent.oldValues.Keys && child.newIds !! parent.removed.Keys
    && child.newIds !! child.oldValues.Keys !! child.removed.Keys
    && parent.newIds !! parent.oldValues.Keys !! parent.removed.Keys
  }

  lemma MergeCausality<V>(a: Store<V>, parent: UndoState<V>, b: Store<V>, child: UndoState<V>, c: Store<V>)
    requires Delta(a, parent, b) && Delta(b, child, c)
    ensures Causal(parent, child)
  {
    ContainersDisjoint(a, parent, b);
    ContainersDisjoint(b, child, c);
    forall id
      ensures id in parent.removed ==> id !in child.oldValues && id !in child.removed
      ensures id in child.newIds ==> id !in parent.newIds && id !in parent.oldValues && id !in parent.removed
    {
      NotApplicableUnreachable(a, parent, b, child, c, id);
    }
  }

  method MergeUpdates<V>(parent: UndoState<V>, updates: map<ObjectId, V>) returns (m: map<ObjectId, V>)
    requires updates.Keys !! parent.removed.Keys
    ensures m == (updates - parent.newIds) + parent.oldValues
  {
    m := parent.oldValues;
    var ids := updates.Keys;
    while ids != {}
      invariant ids <= updates.Keys
      invariant m == ((updates - ids) - parent.newIds) + parent.oldValues
    {
      var id :| id in ids;
      if id in parent.newIds {
        // new + upd -> new
      } else if id in m {
        // upd + upd -> upd, the older value stays
      } else {
        assert id !in parent.removed;
        m := m[id := updates[id]];
      }
      ids := ids - {id};
    }
    assert updates - ids == updates;
  }

  method MergeRemovals<V>(before: UndoState<V>, removals: map<ObjectId, V>) returns (state: UndoState<V>)
    requires removals.Keys !! before.removed.Keys
    requires before.newIds !! before.oldValues.Keys
    ensures state == WithoutRemoved(before, removals)
  {
    state := before;
    var ids := removals.Keys;
    assert removals - ids == map[];
    assert WithoutRemoved(before, map[]) == before;
    while ids != {}
      invariant ids <= removals.Keys
      invariant state == WithoutRemoved(before, removals - ids)
    {
      var id :| id in ids;
      WithoutOneMore(before, removals - ids, id, removals[id]);
      assert (removals - ids)[id := removals[id]] == removals - (ids - {id});
      if id in state.newIds {
        // new + del -> nop
        state := state.(newIds := state.newIds - {id});
      } else if id in state.oldValues {
        // upd + del -> del, with the older value
        state := state.(removed := state.removed[id := state.oldValues[id]]);
        state := state.(oldValues := state.oldValues - {id});
      } else {
        assert id !in before.removed;
        state := state.(removed := state.removed[id := removals[id]]);
      }
      ids := ids - {id};
    }
    assert removals - ids == removals;
  }

  function WithoutRemoved<V>(before: UndoState<V>, removals: map<ObjectId, V>): UndoState<V> {
    UndoState(before.oldValues - removals.Keys, before.oldNextIds, before.newIds - removals.Keys,
      before.removed + RemovedWith(before, removals))
  }

  function RemovedWith<V>(before: UndoState<V>, removals: map<ObjectId, V>): map<ObjectId, V> {
    map id | id in removals && id !in before.newIds ::
      if id in before.oldValues then before.oldValues[id] else removals[id]
  }

  lemma WithoutOneMore<V>(before: UndoState<V>, removals: map<ObjectId, V>, id: ObjectId, value: V)
    requires id !in removals
    requires before.newIds !! before.oldValues.Keys
    ensures var w := WithoutRemoved(before, removals);
            WithoutRemoved(before, removals[id := value])
            == if id in w.newIds then w.(newIds := w.newIds - {id})
               else if id in w.oldValues then w.(removed := w.removed[id := w.oldValues[id]], oldValues := w.oldValues - {id})
               else w.(removed := w.removed[id := value])
  {
    var more := removals[id := value];
    KeysOneMore(before, removals, id, value);
    RemovedWithOneMore(before, removals, id, value);
    if id !in before.newIds {
      var v := if id in before.oldValues then before.oldValues[id] else value;
      UnionOneMore(before.removed, RemovedWith(before, removals), id, v);
      if id !in before.oldValues {
        assert before.oldValues - more.Keys == before.oldValues - removals.Keys;
      }
    }
  }

  lemma KeysOneMore<V>(before: UndoState<V>, removals: map<ObjectId, V>, id: ObjectId, value: V)
    requires id !in removals
    ensures before.newIds - removals[id := value].Keys == (before.newIds - removals.Keys) - {id}
    ensures before.oldValues - removals[id := value].Keys == (before.oldValues - removals.Keys) - {id}
  {
    assert removals[id := value].Keys == removals.Keys + {id};
  }

  lemma UnionOneMore<V>(m: map<ObjectId, V>, r: map<ObjectId, V>, id: ObjectId, v: V)
    ensures m + r[id := v] == (m + r)[id := v]
  {
  }

  lemma RemovedWithOneMore<V>(before: UndoState<V>, removals: map<ObjectId, V>, id: ObjectId, value: V)
    requires id !in removals
    ensures RemovedWith(before, removals[id := value])
         == if id in before.newIds then RemovedWith(before, removals)
            else RemovedWith(before, removals)[id := if id in before.oldValues then before.oldValues[id] else value]
  {
  }

  lemma MergedIs<V>(parent: UndoState<V>, child: UndoState<V>)
    requires Causal(parent, child)
    ensures WithoutRemoved(
              UndoState((child.oldValues - parent.newIds) + parent.oldValues,
                        child.oldNextIds + parent.oldNextIds,
                        parent.newIds + child.newIds,
                        parent.removed),
              child.removed)
            == MergeStates(parent, child)
  {
    var before := UndoState((child.oldValues - parent.newIds) + parent.oldValues,
                            child.oldNextIds + parent.oldNextIds, parent.newIds + child.newIds, parent.removed);
    MergedOldValuesAre(parent, child);
    MergedRemovedIs(parent, child, before);
  }

  lemma MergedOldValuesAre<V>(parent: UndoState<V>, child: UndoState<V>)
    requires child.oldValues.Keys !! child.removed.Keys
    ensures ((child.oldValues - parent.newIds) + parent.oldValues) - child.removed.Keys
            == MergeStates(parent, child).oldValues
  {
    var left := ((child.oldValues - parent.newIds) + parent.oldValues) - child.removed.Keys;
    var right := MergeStates(parent, child).oldValues;
    forall id
      ensures id in left <==> id in right
      ensures id in left ==> left[id] == right[id]
    {
    }
  }

  lemma MergedRemovedIs<V>(parent: UndoState<V>, child: UndoState<V>, before: UndoState<V>)
    requires Causal(parent, child)
    requires before.newIds == parent.newIds + child.newIds
    requires before.oldValues == (child.oldValues - parent.newIds) + parent.oldValues
    requires before.removed == parent.removed
    ensures before.removed + RemovedWith(before, child.removed) == MergeStates(parent, child).removed
  {
    forall id | id in child.removed
      ensures id in before.newIds <==> id in parent.newIds
      ensures id in before.oldValues <==> id in parent.oldValues
      ensures id !in parent.removed
    {
    }
  }

  /** The stack the hooks write to: never empty. */
  function TopOrEmpty<V>(stack: seq<UndoState<V>>): (r: seq<UndoState<V>>)
    ensures r != []
  {
    if stack == [] then [EmptyState()] else stack
  }

  lemma ChainOpen<V>(saved: seq<Store<V>>, stack: seq<UndoState<V>>, current: Store<V>)
    requires Chain(saved, stack, current)
    ensures Chain(if stack == [] then [current] else saved, TopOrEmpty(stack), current)
    ensures stack == [] ==> Delta(current, Top(stack), current)
    ensures stack != [] ==> Delta(saved[|saved| - 1], Top(stack), current)
  {
    EmptyDelta(current);
    if stack != [] {
      ChainTop(saved, stack, current);
    }
  }

  lemma ChainCreate<V>(saved: seq<Store<V>>, stack: seq<UndoState<V>>, current: Store<V>, k: IndexId, value: V)
    requires Chain(saved, stack, current) && k in current.nextIds
    ensures var id := ObjectId(k.space, k.typ, current.nextIds[k]);
            Chain(if stack == [] then [current] else saved,
                  WithTop(stack, RecordCreate(Top(stack), id)), CreateIn(current, k, value))
  {
    ChainOpen(saved, stack, current);
    var saved' := if stack == [] then [current] else saved;
    CreateKeepsDelta(saved'[|saved'| - 1], Top(stack), current, k, value);
    var id := ObjectId(k.space, k.typ, current.nextIds[k]);
    ChainReplaceTop(saved', TopOrEmpty(stack), current, RecordCreate(Top(stack), id), CreateIn(current, k, value));
  }

  lemma CreateValid<V>(st: Store<V>, k: IndexId, value: V)
    requires st.Valid() && k in st.nextIds
    ensures CreateIn(st, k, value).Valid()
  {
    assert IndexOf(ObjectId(k.space, k.typ, st.nextIds[k])) == k;
  }

  lemma ChainModify<V>(saved: seq<Store<V>>, stack: seq<UndoState<V>>, current: Store<V>, id: ObjectId, value: V)
    requires Chain(saved, stack, current) && id in current.objects
    ensures Chain(if stack == [] then [current] else saved,
                  WithTop(stack, RecordModify(Top(stack), id, current.objects[id])), ModifyIn(current, id, value))
  {
    ChainOpen(saved, stack, current);
    var saved' := if stack == [] then [current] else saved;
    ModifyKeepsDelta(saved'[|saved'| - 1], Top(stack), current, id, value);
    ChainReplaceTop(saved', TopOrEmpty(stack), current, RecordModify(Top(stack), id, current.objects[id]),
                    ModifyIn(current, id, value));
  }

  lemma ChainRemove<V>(saved: seq<Store<V>>, stack: seq<UndoState<V>>, current: Store<V>, id: ObjectId)
    requires Chain(saved, stack, current) && id in current.objects
    ensures Chain(if stack == [] then [current] else saved,
                  WithTop(stack, RecordRemove(Top(stack), id, current.objects[id])), RemoveFrom(current, id))
  {
    ChainOpen(saved, stack, current);
    var saved' := if stack == [] then [current] else saved;
    RemoveKeepsDelta(saved'[|saved'| - 1], Top(stack), current, id);
    ChainReplaceTop(saved', TopOrEmpty(stack), current, RecordRemove(Top(stack), id, current.objects[id]),
                    RemoveFrom(current, id));
  }

  function Top<V>(stack: seq<UndoState<V>>): UndoState<V> {
    TopOrEmpty(stack)[|TopOrEmpty(stack)| - 1]
  }

  function WithTop<V>(stack: seq<UndoState<V>>, s: UndoState<V>): seq<UndoState<V>> {
    TopOrEmpty(stack)[|TopOrEmpty(stack)| - 1 := s]
  }
}
