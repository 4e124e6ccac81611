/**
 * The per-session deltas of the undo database, as values.
 *
 * A store is the content of every object index together with the next free
 * instance number of each index. An undo state records how to get back from a
 * store to an earlier one. `Delta` says when it does so correctly; the lemmas
 * say that recording a change, merging two states and undoing one respect it.
 */
module UndoDeltas {

  datatype ObjectId = ObjectId(space: nat, typ: nat, instance: nat)

  datatype IndexId = IndexId(space: nat, typ: nat)

  function IndexOf(id: ObjectId): IndexId {
    IndexId(id.space, id.typ)
  }

  datatype Store<V> = Store(objects: map<ObjectId, V>, nextIds: map<IndexId, nat>) {

    /** Every live object sits in a registered index, below that index's next free number. */
    ghost predicate Valid() {
      forall id :: id in objects ==> IndexOf(id) in nextIds && id.instance < nextIds[IndexOf(id)]
    }
  }

  datatype UndoState<V> = UndoState(
    oldValues: map<ObjectId, V>,
    oldNextIds: map<IndexId, nat>,
    newIds: set<ObjectId>,
    removed: map<ObjectId, V>)

  function EmptyState<V>(): UndoState<V> {
    UndoState(map[], map[], {}, map[])
  }

  /** `s` leads back from the store `after` to the earlier store `before`. */
  ghost predicate Delta<V>(before: Store<V>, s: UndoState<V>, after: Store<V>) {
    && before.Valid() && after.Valid()
    && DeltaIds(before, s, after)
    && forall id :: Cell(before, s, after, id)
  }

  ghost predicate DeltaIds<V>(before: Store<V>, s: UndoState<V>, after: Store<V>) {
    && before.nextIds.Keys == after.nextIds.Keys
    && s.oldNextIds.Keys <= before.nextIds.Keys
    && (forall k :: k in before.nextIds ==> before.nextIds[k] <= after.nextIds[k])
    && (forall k :: k in before.nextIds ==>
          before.nextIds[k] == if k in s.oldNextIds then s.oldNextIds[k] else after.nextIds[k])
  }

  /** What `s` must say about one object. An id made since `before` lies above its next free ids. */
  ghost predicate Cell<V>(before: Store<V>, s: UndoState<V>, after: Store<V>, id: ObjectId) {
    && (id in s.newIds <==> id in after.objects && id !in before.objects)
    && (id in s.removed <==> id in before.objects && id !in after.objects)
    && (id in s.oldValues ==> id in before.objects && id in after.objects)
    && (id in s.removed ==> s.removed[id] == before.objects[id])
    && (id in before.objects && id in after.objects ==>
          before.objects[id] == if id in s.oldValues then s.oldValues[id] else after.objects[id])
    && (id in s.newIds && IndexOf(id) in before.nextIds ==> before.nextIds[IndexOf(id)] <= id.instance)
  }

  // ---- what the three recording hooks write ----

  function RecordCreate<V>(s: UndoState<V>, id: ObjectId): UndoState<V> {
    var k := IndexOf(id);
    s.(oldNextIds := if k in s.oldNextIds then s.oldNextIds else s.oldNextIds[k := id.instance],
       newIds := s.newIds + {id})
  }

  function RecordModify<V>(s: UndoState<V>, id: ObjectId, value: V): UndoState<V> {
    if id in s.newIds || id in s.oldValues then s
    else s.(oldValues := s.oldValues[id := value])
  }

  function RecordRemove<V>(s: UndoState<V>, id: ObjectId, value: V): UndoState<V> {
    if id in s.newIds then s.(newIds := s.newIds - {id})
    else if id in s.oldValues then
      s.(removed := s.removed[id := s.oldValues[id]], oldValues := s.oldValues - {id})
    else if id in s.removed then s
    else s.(removed := s.removed[id := value])
  }

  // ---- what the store operations do ----

  function CreateIn<V>(st: Store<V>, k: IndexId, value: V): Store<V>
    requires k in st.nextIds
  {
    var n := st.nextIds[k];
    Store(st.objects[ObjectId(k.space, k.typ, n) := value], st.nextIds[k := n + 1])
  }

  function ModifyIn<V>(st: Store<V>, id: ObjectId, value: V): Store<V> {
    st.(objects := st.objects[id := value])
  }

  function RemoveFrom<V>(st: Store<V>, id: ObjectId): Store<V> {
    st.(objects := st.objects - {id})
  }

  // ---- composing and undoing states ----

  /** The state that undoes `child` and then `parent`. */
  function MergeStates<V>(parent: UndoState<V>, child: UndoState<V>): UndoState<V> {
    UndoState(
      (map id | id in child.oldValues && id !in parent.newIds :: child.oldValues[id])
      + (parent.oldValues - child.removed.Keys),
      child.oldNextIds + parent.oldNextIds,
      (parent.newIds + child.newIds) - child.removed.Keys,
      (map id | id in child.removed && id !in parent.newIds ::
        if id in parent.oldValues then parent.oldValues[id] else child.removed[id])
      + parent.removed)
  }

  /** The store reached by putting back what `s` recorded. */
  function UndoStore<V>(s: UndoState<V>, st: Store<V>): Store<V> {
    Store(
      map id | id in st.objects.Keys + s.removed.Keys && id !in s.newIds ::
        if id in s.removed then s.removed[id]
        else if id in s.oldValues then s.oldValues[id]
        else st.objects[id],
      map k | k in st.nextIds :: if k in s.oldNextIds then s.oldNextIds[k] else st.nextIds[k])
  }

  // ---- recording keeps the delta ----

  lemma EmptyDelta<V>(st: Store<V>)
    requires st.Valid()
    ensures Delta(st, EmptyState(), st)
  {
  }

  lemma CreateKeepsDelta<V>(before: Store<V>, s: UndoState<V>, st: Store<V>, k: IndexId, value: V)
    requires Delta(before, s, st)
    requires k in st.nextIds
    ensures var id := ObjectId(k.space, k.typ, st.nextIds[k]);
            id !in st.objects && id !in before.objects
            && Delta(before, RecordCreate(s, id), CreateIn(st, k, value))
  {
    var made := ObjectId(k.space, k.typ, st.nextIds[k]);
    assert IndexOf(made) == k;
    var s', st' := RecordCreate(s, made), CreateIn(st, k, value);
    forall id
      ensures Cell(before, s', st', id)
    {
      assert Cell(before, s, st, id);
    }
  }

  lemma ModifyKeepsDelta<V>(before: Store<V>, s: UndoState<V>, st: Store<V>, target: ObjectId, value: V)
    requires Delta(before, s, st)
    requires target in st.objects
    ensures Delta(before, RecordModify(s, target, st.objects[target]), ModifyIn(st, target, value))
  {
    forall id
      ensures Cell(before, RecordModify(s, target, st.objects[target]), ModifyIn(st, target, value), id)
    {
      assert Cell(before, s, st, id) && Cell(before, s, st, target);
    }
  }

  lemma RemoveKeepsDelta<V>(before: Store<V>, s: UndoState<V>, st: Store<V>, target: ObjectId)
    requires Delta(before, s, st)
    requires target in st.objects
    ensures Delta(before, RecordRemove(s, target, st.objects[target]), RemoveFrom(st, target))
  {
    forall id
      ensures Cell(before, RecordRemove(s, target, st.objects[target]), RemoveFrom(st, target), id)
    {
      assert Cell(before, s, st, id) && Cell(before, s, st, target);
    }
  }

  // ---- undo is exact ----

  /** Undoing a delta gives back exactly the store it was opened on. */
  lemma UndoRestores<V>(before: Store<V>, s: UndoState<V>, after: Store<V>)
    requires Delta(before, s, after)
    ensures UndoStore(s, after) == before
  {
    var u := UndoStore(s, after);
    forall id
      ensures id in u.objects <==> id in before.objects
      ensures id in u.objects ==> u.objects[id] == before.objects[id]
    {
      assert Cell(before, s, after, id);
    }
    assert u.objects == before.objects;
    assert u.nextIds == before.nextIds;
  }

  /** The three containers of a delta never share an object id. */
  lemma ContainersDisjoint<V>(before: Store<V>, s: UndoState<V>, after: Store<V>)
    requires Delta(before, s, after)
    ensures s.newIds !! s.oldValues.Keys !! s.removed.Keys
  {
    forall id
      ensures !(id in s.newIds && id in s.oldValues)
      ensures !(id in s.newIds && id in s.removed)
      ensures !(id in s.oldValues && id in s.removed)
    {
      assert Cell(before, s, after, id);
    }
  }

  // ---- merge composes ----

  /** Ids are never reused: what the parent removed the child neither sees nor makes again. */
  lemma RemovedNotRecreated<V>(a: Store<V>, parent: UndoState<V>, b: Store<V>, child: UndoState<V>, c: Store<V>, id: ObjectId)
    requires Delta(a, parent, b) && Delta(b, child, c)
    requires id in parent.removed
    ensures id !in b.objects && id !in c.objects
  {
    assert Cell(a, parent, b, id) && Cell(b, child, c, id);
  }

  /** What a merged state says about one object, read off the definition. */
  lemma MergeMembers<V>(parent: UndoState<V>, child: UndoState<V>, id: ObjectId)
    ensures var m := MergeStates(parent, child);
            && (id in m.newIds <==> (id in parent.newIds || id in child.newIds) && id !in child.removed)
            && (id in m.oldValues <==> (id in child.oldValues && id !in parent.newIds) || (id in parent.oldValues && id !in child.removed))
            && (id in m.removed <==> id in parent.removed || (id in child.removed && id !in parent.newIds))
            && (id in m.oldValues ==>
                  m.oldValues[id] == (if id in parent.oldValues && id !in child.removed then parent.oldValues[id]
                                      else child.oldValues[id]))
            && (id in m.removed ==>
                  m.removed[id] == (if id in parent.removed then parent.removed[id]
                                    else if id in parent.oldValues then parent.oldValues[id]
                                    else child.removed[id]))
  {
  }

  lemma MergeCell<V>(a: Store<V>, parent: UndoState<V>, b: Store<V>, child: UndoState<V>, c: Store<V>, id: ObjectId)
    requires Delta(a, parent, b) && Delta(b, child, c)
    ensures Cell(a, MergeStates(parent, child), c, id)
  {
    assert Cell(a, parent, b, id) && Cell(b, child, c, id);
    MergeMembers(parent, child, id);
    if id in parent.removed {
      RemovedNotRecreated(a, parent, b, child, c, id);
    }
  }

  lemma MergeKeepsDelta<V>(a: Store<V>, parent: UndoState<V>, b: Store<V>, child: UndoState<V>, c: Store<V>)
    requires Delta(a, parent, b) && Delta(b, child, c)
    ensures Delta(a, MergeStates(parent, child), c)
  {
    forall id ensures Cell(a, MergeStates(parent, child), c, id) {
      MergeCell(a, parent, b, child, c, id);
    }
    assert DeltaIds(a, MergeStates(parent, child), c);
  }

  /** Merging composes: one undo of the merged state does the work of both. */
  lemma MergeComposes<V>(a: Store<V>, parent: UndoState<V>, b: Store<V>, child: UndoState<V>, c: Store<V>)
    requires Delta(a, parent, b) && Delta(b, child, c)
    ensures UndoStore(MergeStates(parent, child), c) == UndoStore(parent, UndoStore(child, c))
  {
    MergeKeepsDelta(a, parent, b, child, c);
    UndoRestores(a, MergeStates(parent, child), c);
    UndoRestores(a, parent, b);
    UndoRestores(b, child, c);
  }

  // ---- chains of states ----

  /** The store state `i` of a stack leads back from: where state `i + 1` was opened, or the present. */
  ghost function After<V>(saved: seq<Store<V>>, current: Store<V>, i: nat): Store<V>
    requires i < |saved|
  {
    if i + 1 < |saved| then saved[i + 1] else current
  }

  /** Undoing the stack from the top passes through the stores `saved`, newest first. */
  ghost predicate Chain<V>(saved: seq<Store<V>>, stack: seq<UndoState<V>>, current: Store<V>) {
    && |saved| == |stack|
    && current.Valid()
    && forall i {:trigger stack[i]} :: 0 <= i < |stack| ==> Delta(saved[i], stack[i], After(saved, current, i))
  }

  lemma ChainPush<V>(saved: seq<Store<V>>, stack: seq<UndoState<V>>, current: Store<V>)
    requires Chain(saved, stack, current)
    ensures Chain(saved + [current], stack + [EmptyState()], current)
  {
    EmptyDelta(current);
    forall i | 0 <= i < |stack|
      ensures Delta((saved + [current])[i], (stack + [EmptyState()])[i], After(saved + [current], current, i))
    {
      assert Delta(saved[i], stack[i], After(saved, current, i));
    }
  }

  lemma ChainDropOldest<V>(saved: seq<Store<V>>, stack: seq<UndoState<V>>, current: Store<V>)
    requires Chain(saved, stack, current) && stack != []
    ensures Chain(saved[1..], stack[1..], current)
  {
    forall i | 0 <= i < |stack[1..]|
      ensures Delta(saved[1..][i], stack[1..][i], After(saved[1..], current, i))
    {
      assert Delta(saved[i + 1], stack[i + 1], After(saved, current, i + 1));
    }
  }

  lemma ChainTop<V>(saved: seq<Store<V>>, stack: seq<UndoState<V>>, current: Store<V>)
    requires Chain(saved, stack, current) && stack != []
    ensures Delta(saved[|saved| - 1], stack[|stack| - 1], current)
  {
    assert stack[|stack| - 1] in stack;
  }

  lemma ChainReplaceTop<V>(saved: seq<Store<V>>, stack: seq<UndoState<V>>, current: Store<V>,
                           top: UndoState<V>, current': Store<V>)
    requires Chain(saved, stack, current) && stack != []
    requires Delta(saved[|saved| - 1], top, current')
    ensures Chain(saved, stack[|stack| - 1 := top], current')
  {
    forall i | 0 <= i < |stack| - 1
      ensures Delta(saved[i], stack[i], After(saved, current', i))
    {
      assert Delta(saved[i], stack[i], After(saved, current, i));
    }
  }

  lemma ChainPop<V>(saved: seq<Store<V>>, stack: seq<UndoState<V>>, current: Store<V>)
    requires Chain(saved, stack, current) && stack != []
    ensures Chain(saved[..|saved| - 1], stack[..|stack| - 1], saved[|saved| - 1])
  {
    ChainTop(saved, stack, current);
    forall i | 0 <= i < |stack| - 1
      ensures Delta(saved[i], stack[i], After(saved[..|saved| - 1], saved[|saved| - 1], i))
    {
      assert Delta(saved[i], stack[i], After(saved, current, i));
    }
  }

  function MergedStack<V>(stack: seq<UndoState<V>>): seq<UndoState<V>>
    requires |stack| >= 2
  {
    stack[..|stack| - 2] + [MergeStates(stack[|stack| - 2], stack[|stack| - 1])]
  }

  lemma ChainTopTwo<V>(saved: seq<Store<V>>, stack: seq<UndoState<V>>, current: Store<V>)
    requires Chain(saved, stack, current) && |stack| >= 2
    ensures Delta(saved[|saved| - 2], stack[|stack| - 2], saved[|saved| - 1])
    ensures Delta(saved[|saved| - 1], stack[|stack| - 1], current)
  {
    ChainTop(saved, stack, current);
    assert stack[|stack| - 2] in stack;
  }

  lemma ChainMerge<V>(saved: seq<Store<V>>, stack: seq<UndoState<V>>, current: Store<V>)
    requires Chain(saved, stack, current) && |stack| >= 2
    ensures Chain(saved[..|saved| - 1], MergedStack(stack), current)
  {
    var n := |stack|;
    ChainTop(saved, stack, current);
    ChainPop(saved, stack, current);
    ChainTop(saved[..n - 1], stack[..n - 1], saved[n - 1]);
    MergeKeepsDelta(saved[n - 2], stack[n - 2], saved[n - 1], stack[n - 1], current);
    ChainReplaceTop(saved[..n - 1], stack[..n - 1], saved[n - 1], MergeStates(stack[n - 2], stack[n - 1]), current);
    assert stack[..n - 1][n - 2 := MergeStates(stack[n - 2], stack[n - 1])] == MergedStack(stack);
  }

  // ---- the documented table ----

  /** How one object stands in a state. */
  datatype Mark<V> = New | Upd(was: V) | Del(was: V) | Nop

  function MarkOf<V>(s: UndoState<V>, id: ObjectId): Mark<V> {
    if id in s.newIds then New
    else if id in s.oldValues then Upd(s.oldValues[id])
    else if id in s.removed then Del(s.removed[id])
    else Nop
  }

  /** The cells the table marks N/A. */
  predicate NotApplicable<V>(parent: Mark<V>, child: Mark<V>) {
    || (child.New? && !parent.Nop?)
    || (parent.Del? && !child.Nop?)
  }

  /** The remaining cells: row `parent`, column `child`. */
  function Table<V>(parent: Mark<V>, child: Mark<V>): Mark<V>
    requires !NotApplicable(parent, child)
  {
    match (parent, child)
    case (New, Upd(_)) => New
    case (New, Del(_)) => Nop
    case (Upd(x), Upd(_)) => Upd(x)
    case (Upd(x), Del(_)) => Del(x)
    case (Nop, _) => child
    case (_, Nop) => parent
  }

  /** The cells marked N/A are unreachable. */
  lemma NotApplicableUnreachable<V>(a: Store<V>, parent: UndoState<V>, b: Store<V>, child: UndoState<V>, c: Store<V>, id: ObjectId)
    requires Delta(a, parent, b) && Delta(b, child, c)
    ensures !NotApplicable(MarkOf(parent, id), MarkOf(child, id))
  {
    assert Cell(a, parent, b, id) && Cell(b, child, c, id);
    if id in parent.removed {
      RemovedNotRecreated(a, parent, b, child, c, id);
    }
  }

  /** Merging gives every object the mark its cell of the table prescribes. */
  lemma MergeFollowsTable<V>(a: Store<V>, parent: UndoState<V>, b: Store<V>, child: UndoState<V>, c: Store<V>, id: ObjectId)
    requires Delta(a, parent, b) && Delta(b, child, c)
    ensures !NotApplicable(MarkOf(parent, id), MarkOf(child, id))
    ensures MarkOf(MergeStates(parent, child), id) == Table(MarkOf(parent, id), MarkOf(child, id))
  {
    NotApplicableUnreachable(a, parent, b, child, c, id);
    assert Cell(a, parent, b, id) && Cell(b, child, c, id);
    var m := MergeStates(parent, child);
    if id in child.newIds {
      assert id in m.newIds;
    } else if id in child.oldValues {
      assert id !in parent.newIds ==> id in m.oldValues;
    } else if id in child.removed {
      assert id !in m.newIds && id !in m.oldValues;
    } else {
      assert id in m.removed <==> id in parent.removed;
    }
  }
}
