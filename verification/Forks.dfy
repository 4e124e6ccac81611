/**
 * Blocks, and the tree of recent blocks the fork database keeps, as values.
 *
 * A block id stands for the hash of its block: `IdOf` makes it injective, and the
 * block number embedded in the id is the one computed from the previous id.
 */
module Forks {
  import opened Wrappers

  datatype BlockId = Zero | IdOf(block: SignedBlock)

  /** `body` stands for the header fields and signature besides the previous id. */
  datatype SignedBlock = SignedBlock(previous: BlockId, body: nat, transactions: seq<nat>)

  function NumFromId(id: BlockId): nat {
    match id
    case Zero => 0
    case IdOf(b) => BlockNum(b)
  }

  function BlockNum(b: SignedBlock): nat {
    NumFromId(b.previous) + 1
  }

  lemma NumOfId(b: SignedBlock)
    ensures NumFromId(IdOf(b)) == BlockNum(b)
  {
  }

  /**
   * A node of the tree. `serial` tells apart two nodes made for the same block.
   * `prev` is the node the weak pointer was set to; whether it can still be
   * reached depends on the database (see `Lock`).
   */
  datatype ForkItem = ForkItem(serial: nat, block: SignedBlock, prev: Option<ForkItem>)

  function Id(item: ForkItem): BlockId {
    IdOf(item.block)
  }

  function Num(item: ForkItem): nat {
    BlockNum(item.block)
  }

  datatype ForkState = ForkState(
    head: Option<ForkItem>,
    index: map<BlockId, ForkItem>,
    maxSize: nat,
    nextSerial: nat)

  datatype ForkError = TooOld | Unlinkable | NotFound | DeadLink

  /** Following the weak pointer: `held` are the nodes the caller keeps alive. */
  function Lock(f: ForkState, held: set<ForkItem>, item: ForkItem): Option<ForkItem> {
    if item.prev.Some? && IsAlive(f, held, item.prev.value) then item.prev else None
  }

  predicate IsAlive(f: ForkState, held: set<ForkItem>, item: ForkItem) {
    item in f.index.Values || f.head == Some(item) || item in held
  }

  // ---- the operations ----

  function Erased(index: map<BlockId, ForkItem>, minNum: nat): map<BlockId, ForkItem> {
    map id | id in index && Num(index[id]) >= minNum :: index[id]
  }

  function MinNum(headNum: nat, maxSize: nat): nat {
    if headNum > maxSize then headNum - maxSize else 0
  }

  function PushItem(f: ForkState, b: SignedBlock): Result<ForkState, ForkError> {
    if f.head.Some? && BlockNum(b) <= MinNum(Num(f.head.value), f.maxSize) then Err(TooOld)
    else if f.head.Some? && b.previous != Zero && b.previous !in f.index then Err(Unlinkable)
    else
      var link := if f.head.Some? && b.previous != Zero then Some(f.index[b.previous]) else None;
      Ok(Inserted(f.(nextSerial := f.nextSerial + 1), ForkItem(f.nextSerial, b, link)))
  }

  /** A new node: it becomes the head if it is higher, and what is then below the window is erased. */
  function Inserted(f: ForkState, item: ForkItem): ForkState {
    var g := f.(index := if Id(item) in f.index then f.index else f.index[Id(item) := item]);
    if f.head.None? then g.(head := Some(item))
    else if Num(item) > Num(f.head.value) then
      g.(head := Some(item), index := Erased(g.index, MinNum(Num(item), f.maxSize)))
    else g
  }

  function WithMaxSize(f: ForkState, size: nat): ForkState {
    if f.head.None? then f.(maxSize := size)
    else f.(maxSize := size, index := Erased(f.index, MinNum(Num(f.head.value), size)))
  }

  function RemoveId(f: ForkState, id: BlockId): ForkState {
    f.(index := f.index - {id})
  }

  function PopHead(f: ForkState, held: set<ForkItem>): Result<ForkState, ForkError> {
    if f.head.None? then Err(NotFound)
    else
      var prev := Lock(f, held, f.head.value);
      if prev.None? then Err(DeadLink) else Ok(f.(head := prev))
  }

  // ---- the branch between two blocks ----

  datatype Branches = Branches(first: seq<ForkItem>, second: seq<ForkItem>)

  /** Walks back from `item` while its number exceeds `num`: the nodes passed and the one reached. */
  function Descend(f: ForkState, item: ForkItem, num: nat): Result<(seq<ForkItem>, ForkItem), ForkError>
    decreases item
  {
    if Num(item) <= num then Ok(([], item))
    else
      var prev := Lock(f, {}, item);
      if prev.None? then Err(DeadLink)
      else
        match Descend(f, prev.value, num)
        case Err(e) => Err(e)
        case Ok((path, last)) => Ok(([item] + path, last))
  }

  /** Walks both branches back in step until they agree on the previous id. */
  function Meet(f: ForkState, a: ForkItem, b: ForkItem): Result<Branches, ForkError>
    decreases a
  {
    if a.block.previous == b.block.previous then Ok(Branches([a], [b]))
    else
      var pa, pb := Lock(f, {}, a), Lock(f, {}, b);
      if pa.None? || pb.None? then Err(DeadLink)
      else
        match Meet(f, pa.value, pb.value)
        case Err(e) => Err(e)
        case Ok(r) => Ok(Branches([a] + r.first, [b] + r.second))
  }

  function FetchBranch(f: ForkState, first: BlockId, second: BlockId): Result<Branches, ForkError> {
    if first !in f.index || second !in f.index then Err(NotFound)
    else
      match Descend(f, f.index[first], Num(f.index[second]))
      case Err(e) => Err(e)
      case Ok((pathA, a)) =>
        match Descend(f, f.index[second], Num(a))
        case Err(e) => Err(e)
        case Ok((pathB, b)) =>
          match Meet(f, a, b)
          case Err(e) => Err(e)
          case Ok(r) => Ok(Branches(pathA + r.first, pathB + r.second))
  }

  // ---- the tree stays linked ----

  /** A weak pointer, where set, points to the node of the block's previous id. */
  predicate WellLinked(item: ForkItem) {
    item.prev.Some? ==> Id(item.prev.value) == item.block.previous && WellLinked(item.prev.value)
  }

  ghost predicate ValidTree(f: ForkState) {
    && (forall id :: id in f.index ==> Id(f.index[id]) == id && WellLinked(f.index[id]))
    && (f.head.Some? ==> WellLinked(f.head.value))
  }

  lemma PushKeepsTree(f: ForkState, b: SignedBlock)
    requires ValidTree(f)
    ensures PushItem(f, b).Ok? ==> ValidTree(PushItem(f, b).value) && PushItem(f, b).value.head.Some?
  {
  }

  lemma WithMaxSizeKeepsTree(f: ForkState, size: nat)
    requires ValidTree(f)
    ensures ValidTree(WithMaxSize(f, size))
  {
  }

  lemma RemoveKeepsTree(f: ForkState, id: BlockId)
    requires ValidTree(f)
    ensures ValidTree(RemoveId(f, id))
  {
  }

  lemma PopKeepsTree(f: ForkState, held: set<ForkItem>)
    requires ValidTree(f)
    ensures PopHead(f, held).Ok? ==> ValidTree(PopHead(f, held).value)
  {
  }

  // ---- what fetch_branch_from returns ----

  ghost predicate Linked(path: seq<ForkItem>) {
    forall i {:trigger path[i]} :: 0 <= i < |path| - 1 ==>
      path[i].prev == Some(path[i + 1]) && path[i].block.previous == Id(path[i + 1])
  }

  /** Nodes of the two paths at one height, above the lowest, disagree on the previous id. */
  ghost predicate DisagreeAbove(r: Branches) {
    forall i, j :: 0 <= i < |r.first| - 1 && 0 <= j < |r.second| - 1 && Num(r.first[i]) == Num(r.second[j]) ==>
      r.first[i].block.previous != r.second[j].block.previous
  }

  ghost predicate CommonBranches(a: ForkItem, b: ForkItem, r: Branches) {
    && |r.first| > 0 && |r.second| > 0
    && r.first[0] == a && r.second[0] == b
    && Linked(r.first) && Linked(r.second)
    && r.first[|r.first| - 1].block.previous == r.second[|r.second| - 1].block.previous
    && DisagreeAbove(r)
  }

  /** What walking back to height `num` yields: the nodes passed, above `num`, and the node reached. */
  ghost predicate DescentTo(item: ForkItem, num: nat, path: seq<ForkItem>, last: ForkItem) {
    && WellLinked(last) && Linked(path + [last]) && (path + [last])[0] == item
    && Num(last) <= num && (Num(item) >= num ==> Num(last) == num)
    && (forall i :: 0 <= i < |path| ==> Num(path[i]) > num)
  }

  lemma {:induction false} DescendPath(f: ForkState, item: ForkItem, num: nat)
    requires WellLinked(item)
    requires Descend(f, item, num).Ok?
    ensures var (path, last) := Descend(f, item, num).value; DescentTo(item, num, path, last)
    decreases item
  {
    if Num(item) > num {
      var prev := item.prev.value;
      NumOfId(prev.block);
      DescendPath(f, prev, num);
      var (path, last) := Descend(f, prev, num).value;
      DescentCons(item, prev, num, path, last);
    } else {
      assert [] + [item] == [item];
    }
  }

  lemma DescentCons(item: ForkItem, prev: ForkItem, num: nat, path: seq<ForkItem>, last: ForkItem)
    requires item.prev == Some(prev) && item.block.previous == Id(prev) && Num(item) == Num(prev) + 1 && Num(item) > num
    requires DescentTo(prev, num, path, last)
    ensures DescentTo(item, num, [item] + path, last)
  {
    assert ([item] + path) + [last] == [item] + (path + [last]);
    LinkedJoin([item], path + [last]);
  }

  /** Two paths that go down in step from height `num`. */
  ghost predicate Aligned(r: Branches, num: nat) {
    && |r.first| == |r.second|
    && (forall i :: 0 <= i < |r.first| ==> Num(r.first[i]) == num - i)
    && (forall i :: 0 <= i < |r.second| ==> Num(r.second[i]) == num - i)
  }

  lemma {:induction false} MeetPaths(f: ForkState, a: ForkItem, b: ForkItem)
    requires WellLinked(a) && WellLinked(b) && Num(a) == Num(b)
    requires Meet(f, a, b).Ok?
    ensures var r := Meet(f, a, b).value;
            Aligned(r, Num(a)) && CommonBranches(a, b, r)
    decreases a
  {
    if a.block.previous != b.block.previous {
      var pa, pb := a.prev.value, b.prev.value;
      NumOfId(pa.block);
      NumOfId(pb.block);
      MeetPaths(f, pa, pb);
      CommonCons(a, b, pa, pb, Meet(f, pa, pb).value);
    }
  }

  lemma AlignedCons(a: ForkItem, b: ForkItem, num: nat, s: Branches)
    requires Aligned(s, num) && Num(a) == num + 1 && Num(b) == num + 1
    ensures Aligned(Branches([a] + s.first, [b] + s.second), num + 1)
  {
  }

  lemma DisagreeCons(a: ForkItem, b: ForkItem, num: nat, s: Branches)
    requires Aligned(s, num) && Num(a) == num + 1 && Num(b) == num + 1
    requires DisagreeAbove(s) && a.block.previous != b.block.previous
    ensures DisagreeAbove(Branches([a] + s.first, [b] + s.second))
  {
    var r := Branches([a] + s.first, [b] + s.second);
    forall i, j | 0 <= i < |r.first| - 1 && 0 <= j < |r.second| - 1
      ensures Num(r.first[i]) == Num(r.second[j]) ==> r.first[i].block.previous != r.second[j].block.previous
    {
      if i > 0 && j > 0 {
        assert r.first[i] == s.first[i - 1] && r.second[j] == s.second[j - 1];
      } else if i > 0 {
        assert r.first[i] == s.first[i - 1];
      } else if j > 0 {
        assert r.second[j] == s.second[j - 1];
      }
    }
  }

  lemma CommonCons(a: ForkItem, b: ForkItem, pa: ForkItem, pb: ForkItem, s: Branches)
    requires a.prev == Some(pa) && Id(pa) == a.block.previous && Num(a) == Num(pa) + 1
    requires b.prev == Some(pb) && Id(pb) == b.block.previous && Num(b) == Num(pb) + 1
    requires Num(a) == Num(b) && a.block.previous != b.block.previous
    requires Aligned(s, Num(pa)) && CommonBranches(pa, pb, s)
    ensures var r := Branches([a] + s.first, [b] + s.second);
            Aligned(r, Num(a)) && CommonBranches(a, b, r)
  {
    AlignedCons(a, b, Num(pa), s);
    DisagreeCons(a, b, Num(pa), s);
    LinkedJoin([a], s.first);
    LinkedJoin([b], s.second);
  }

  /**
   * On a linked tree, what fetch_branch_from returns are the paths from the two
   * given blocks down to the highest pair of blocks that agree on their previous id.
   */
  lemma FetchBranchFinds(f: ForkState, first: BlockId, second: BlockId)
    requires ValidTree(f)
    requires FetchBranch(f, first, second).Ok?
    ensures CommonBranches(f.index[first], f.index[second], FetchBranch(f, first, second).value)
  {
    var a0, b0 := f.index[first], f.index[second];
    DescendPath(f, a0, Num(b0));
    var (pathA, a) := Descend(f, a0, Num(b0)).value;
    DescendPath(f, b0, Num(a));
    var (pathB, b) := Descend(f, b0, Num(a)).value;
    MeetPaths(f, a, b);
    var m := Meet(f, a, b).value;
    CommonJoin(a0, b0, pathA, pathB, a, b, m);
  }

  lemma CommonJoin(a0: ForkItem, b0: ForkItem, pathA: seq<ForkItem>, pathB: seq<ForkItem>, a: ForkItem, b: ForkItem, m: Branches)
    requires DescentTo(a0, Num(b0), pathA, a) && DescentTo(b0, Num(a), pathB, b) && Num(a) == Num(b)
    requires Aligned(m, Num(a)) && CommonBranches(a, b, m)
    ensures CommonBranches(a0, b0, Branches(pathA + m.first, pathB + m.second))
  {
    assert pathA == [] || pathB == [];
    LinkedJoin(pathA, m.first);
    LinkedJoin(pathB, m.second);
    DisagreeJoin(pathA, pathB, a, b, m);
  }

  /** Every node of the branches is held by the database itself. */
  lemma FetchBranchAlive(f: ForkState, first: BlockId, second: BlockId)
    requires FetchBranch(f, first, second).Ok?
    ensures var r := FetchBranch(f, first, second).value;
            (forall x :: x in r.first ==> IsAlive(f, {}, x)) && (forall x :: x in r.second ==> IsAlive(f, {}, x))
  {
    var a0, b0 := f.index[first], f.index[second];
    DescendAlive(f, a0, Num(b0));
    var (pathA, a) := Descend(f, a0, Num(b0)).value;
    DescendAlive(f, b0, Num(a));
    var (pathB, b) := Descend(f, b0, Num(a)).value;
    MeetAlive(f, a, b);
  }

  lemma {:induction false} DescendAlive(f: ForkState, item: ForkItem, num: nat)
    requires IsAlive(f, {}, item)
    ensures match Descend(f, item, num)
            case Err(_) => true
            case Ok((path, last)) => IsAlive(f, {}, last) && forall x :: x in path ==> IsAlive(f, {}, x)
    decreases item
  {
    if Num(item) > num && Lock(f, {}, item).Some? {
      DescendAlive(f, item.prev.value, num);
    }
  }

  lemma {:induction false} MeetAlive(f: ForkState, a: ForkItem, b: ForkItem)
    requires IsAlive(f, {}, a) && IsAlive(f, {}, b)
    requires Meet(f, a, b).Ok?
    ensures var r := Meet(f, a, b).value;
            (forall x :: x in r.first ==> IsAlive(f, {}, x)) && (forall x :: x in r.second ==> IsAlive(f, {}, x))
    decreases a
  {
    if a.block.previous != b.block.previous {
      MeetAlive(f, a.prev.value, b.prev.value);
    }
  }

  lemma DisagreeJoin(pathA: seq<ForkItem>, pathB: seq<ForkItem>, a: ForkItem, b: ForkItem, m: Branches)
    requires pathA == [] || pathB == []
    requires Num(a) == Num(b)
    requires forall i :: 0 <= i < |pathA| ==> Num(pathA[i]) > Num(a)
    requires forall i :: 0 <= i < |pathB| ==> Num(pathB[i]) > Num(a)
    requires Aligned(m, Num(a))
    requires DisagreeAbove(m)
    ensures DisagreeAbove(Branches(pathA + m.first, pathB + m.second))
  {
    var r := Branches(pathA + m.first, pathB + m.second);
    forall i, j | 0 <= i < |r.first| - 1 && 0 <= j < |r.second| - 1
      ensures Num(r.first[i]) == Num(r.second[j]) ==> r.first[i].block.previous != r.second[j].block.previous
    {
      if i < |pathA| {
        assert r.second[j] == m.second[j];
      } else if j < |pathB| {
        assert r.first[i] == m.first[i];
      } else {
        assert r.first[i] == m.first[i - |pathA|] && r.second[j] == m.second[j - |pathB|];
      }
    }
  }

  lemma LinkedJoin(path: seq<ForkItem>, rest: seq<ForkItem>)
    requires rest != [] && Linked(path + [rest[0]]) && Linked(rest)
    ensures Linked(path + rest)
  {
    forall i | 0 <= i < |path + rest| - 1
      ensures (path + rest)[i].prev == Some((path + rest)[i + 1])
      ensures (path + rest)[i].block.previous == Id((path + rest)[i + 1])
    {
      if i < |path| {
        assert (path + [rest[0]])[i] == (path + rest)[i];
        assert (path + [rest[0]])[i + 1] == (path + rest)[i + 1];
      } else {
        assert rest[i - |path|] == (path + rest)[i];
      }
    }
  }
}
