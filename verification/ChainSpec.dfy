/**
 * Pushing a block: the normal path, the fork switch and the restore of a failed
 * switch, as functions on values, and what they guarantee.
 *
 * Applying a block is an arbitrary deterministic partial step: `Rules.body` says,
 * for a block and a store, which changes are made and whether the block is then
 * accepted or an exception ends it. The undo database appears through its meaning,
 * the stack of full copies.
 */
module ChainSpec {
  import opened Wrappers
  import opened UndoDeltas
  import opened UndoSpec
  import opened Forks

  /** `Props` is the dynamic global property object, which holds the head block. */
  datatype Object = Props(headNum: nat, headId: BlockId) | Opaque(data: nat)

  const PropsId := ObjectId(2, 1, 0)

  type Change = e: Event<Object> | IsChange(e) witness Remove(PropsId)

  /**
   * What applying a block does. `undoable` is the distance from the head to the last
   * irreversible block once the dynamic properties are updated; the size limits of the
   * undo and fork databases become one more than that.
   */
  datatype Script =
    | Accept(changes: seq<Change>, undoable: nat)
    | Throw(changes: seq<Change>, reached: Option<nat>)

  datatype Rules = Rules(body: (SignedBlock, Store<Object>) -> Script, skipForkDb: bool)

  function HeadId(st: Store<Object>): BlockId {
    if PropsId in st.objects && st.objects[PropsId].Props? then st.objects[PropsId].headId else Zero
  }

  function HeadNum(st: Store<Object>): nat {
    if PropsId in st.objects && st.objects[PropsId].Props? then st.objects[PropsId].headNum else 0
  }

  // ---- applying a block ----

  predicate Possible(st: Store<Object>, e: Change) {
    match e
    case Create(k, _) => k in st.nextIds
    case Modify(id, _) => id in st.objects
    case Remove(id) => id in st.objects
  }

  function Changed(st: Store<Object>, e: Change): Store<Object>
    requires Possible(st, e)
  {
    match e
    case Create(k, v) => CreateIn(st, k, v)
    case Modify(id, v) => ModifyIn(st, id, v)
    case Remove(id) => RemoveFrom(st, id)
  }

  /** The store after as many of the changes as are possible, and whether all were. */
  function ApplyChanges(st: Store<Object>, changes: seq<Change>): (Store<Object>, bool)
    decreases |changes|
  {
    if changes == [] then (st, true)
    else if !Possible(st, changes[0]) then (st, false)
    else ApplyChanges(Changed(st, changes[0]), changes[1..])
  }

  datatype Applied = Applied(store: Store<Object>, window: Option<nat>, ok: bool)

  function ApplyBlock(rules: Rules, b: SignedBlock, st: Store<Object>): Applied {
    if HeadId(st) != b.previous then Applied(st, None, false)
    else
      var s := rules.body(b, st);
      var (st1, done) := ApplyChanges(st, s.changes);
      match s
      case Throw(_, reached) =>
        Applied(st1, if reached.Some? then Some(reached.value + 1) else None, false)
      case Accept(_, undoable) =>
        if !done || PropsId !in st1.objects then Applied(st1, None, false)
        else Applied(ModifyIn(st1, PropsId, Props(BlockNum(b), IdOf(b))), Some(undoable + 1), true)
  }

  /** Plain replay of the chain that ends in `id`, from genesis. */
  function Replay(rules: Rules, genesis: Store<Object>, id: BlockId): Option<Store<Object>> {
    match id
    case Zero => Some(genesis)
    case IdOf(b) =>
      var before := Replay(rules, genesis, b.previous);
      if before.None? then None
      else
        var a := ApplyBlock(rules, b, before.value);
        if a.ok then Some(a.store) else None
  }

  // ---- the node's state ----

  /** `log` is the block log by id; `popped` the transactions of blocks taken off the chain. */
  datatype Chain = Chain(
    store: Store<Object>,
    saved: seq<Store<Object>>,
    maxSize: nat,
    fork: ForkState,
    log: map<BlockId, SignedBlock>,
    popped: seq<nat>)

  /**
   * Pushed: returned normally. Rejected: the exception of the bad block was thrown.
   * Stuck: another exception ended the call in the middle of a switch or a restore.
   */
  datatype Outcome = Pushed(switched: bool) | Rejected | Stuck

  function Resized(c: Chain, window: Option<nat>): Chain {
    if window.None? then c
    else c.(maxSize := window.value, fork := WithMaxSize(c.fork, window.value))
  }

  /** One undo session around one block: committed if the block applies, undone if not. */
  function TryBlock(rules: Rules, c: Chain, b: SignedBlock, logAs: BlockId): (Chain, bool) {
    var a := ApplyBlock(rules, b, c.store);
    var kept := Trim(c.saved, c.maxSize);
    var c1 := Resized(c, a.window);
    if a.ok then (c1.(store := a.store, saved := kept + [c.store], log := c.log[logAs := b]), true)
    else (c1.(saved := if kept == [] then [c.store] else kept), false)
  }

  /** The path of a block that builds on the head. The second session is merged into the first. */
  function Extend(rules: Rules, c: Chain, b: SignedBlock): (Chain, Outcome) {
    var (c1, ok) := TryBlock(rules, c, b, IdOf(b));
    if ok then (c1.(saved := Trim(c1.saved, c1.maxSize)), Pushed(false))
    else (c1.(fork := RemoveId(c1.fork, IdOf(b))), Rejected)
  }

  /** pop_block. False when one of its assertions throws. */
  function PopBlock(c: Chain, held: set<ForkItem>): (Chain, bool) {
    var id := HeadId(c.store);
    if id == Zero || (id !in c.fork.index && id !in c.log) then (c, false)
    else
      var f := PopHead(c.fork, held);
      if f.Err? then (c, false)
      else
        var c1 := c.(fork := f.value, log := c.log - {id});
        if c.saved == [] then (c1, false)
        else (c1.(store := c.saved[|c.saved| - 1],
                  saved := c.saved[..|c.saved| - 1],
                  popped := id.block.transactions + c.popped), true)
  }

  function PopUntil(c: Chain, target: BlockId, held: set<ForkItem>): (Chain, bool)
    decreases |c.saved|
  {
    if HeadId(c.store) == target then (c, true)
    else
      var (c1, ok) := PopBlock(c, held);
      if ok then PopUntil(c1, target, held) else (c1, false)
  }

  function Held(r: Branches): set<ForkItem> {
    (set x | x in r.first) + (set x | x in r.second)
  }

  function Fork(r: Branches): BlockId
    requires r.second != []
  {
    r.second[|r.second| - 1].block.previous
  }

  function RemoveAll(f: ForkState, items: seq<ForkItem>): ForkState
    decreases |items|
  {
    if items == [] then f else RemoveAll(RemoveId(f, Id(items[|items| - 1])), items[..|items| - 1])
  }

  /** Pushes the first `i` nodes of the new branch, deepest (`i - 1`) first. */
  function PushBranch(rules: Rules, c: Chain, r: Branches, i: nat, newId: BlockId): (Chain, Outcome)
    requires i <= |r.first| && r.second != []
    decreases i
  {
    if i == 0 then (c, Pushed(true))
    else
      var (c1, ok) := TryBlock(rules, c, r.first[i - 1].block, Id(r.first[i - 1]));
      if ok then PushBranch(rules, c1, r, i - 1, newId)
      else
        var bad := RemoveAll(c1.fork, r.first[..i]).(head := Some(r.second[0]));
        var (c2, popped) := PopUntil(c1.(fork := bad), Fork(r), Held(r));
        if popped then Restore(rules, c2, r, |r.second|, newId) else (c2, Stuck)
  }

  /** Puts the old branch back. The log entry is written under the id of the block being pushed. */
  function Restore(rules: Rules, c: Chain, r: Branches, i: nat, newId: BlockId): (Chain, Outcome)
    requires i <= |r.second|
    decreases i
  {
    if i == 0 then (c, Rejected)
    else
      var (c1, ok) := TryBlock(rules, c, r.second[i - 1].block, newId);
      if ok then Restore(rules, c1, r, i - 1, newId) else (c1, Stuck)
  }

  function Switch(rules: Rules, c: Chain, newHead: ForkItem, newId: BlockId): (Chain, Outcome) {
    match FetchBranch(c.fork, Id(newHead), HeadId(c.store))
    case Err(_) => (c, Rejected)
    case Ok(r) =>
      if r.first == [] || r.second == [] then (c, Rejected)
      else
        var (c1, popped) := PopUntil(c, Fork(r), Held(r));
        if popped then PushBranch(rules, c1, r, |r.first|, newId) else (c1, Stuck)
  }

  function Push(rules: Rules, c: Chain, b: SignedBlock): (Chain, Outcome) {
    if rules.skipForkDb then Extend(rules, c, b)
    else
      match PushItem(c.fork, b)
      case Err(_) => (c, Rejected)
      case Ok(f) =>
        var c1 := c.(fork := f);
        if f.head.None? then (c1, Rejected)
        else
          var newHead := f.head.value;
          if newHead.block.previous == HeadId(c.store) then Extend(rules, c1, b)
          else if Num(newHead) > HeadNum(c.store) then Switch(rules, c1, newHead, IdOf(b))
          else (c1, Pushed(false))
  }
}
