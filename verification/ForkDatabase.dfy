/** The fork database: the tree of recent blocks, updated in place. */
module ForkDatabases {
  import opened Wrappers
  import opened Forks

  class ForkDatabase {
    var head: Option<ForkItem>
    var index: map<BlockId, ForkItem>
    var maxSize: nat
    var nextSerial: nat

    ghost function State(): ForkState reads this {
      ForkState(head, index, maxSize, nextSerial)
    }

    constructor ()
      ensures State() == ForkState(None, map[], 1024, 0)
    {
      head, index, maxSize, nextSerial := None, map[], 1024, 0;
    }

    method PushBlock(b: SignedBlock) returns (r: Result<ForkItem, ForkError>)
      modifies this
      ensures match PushItem(old(State()), b)
              case Err(e) => r == Err(e) && State() == old(State())
              case Ok(f) => State() == f && f.head.Some? && r == Ok(f.head.value)
    {
      if head.Some? {
        var oldest := Num(head.value) as int - maxSize;
        if BlockNum(b) <= if oldest > 0 then oldest else 0 {
          return Err(TooOld);
        }
      }
      var item := ForkItem(nextSerial, b, None);
      if head.Some? && b.previous != Zero {
        if b.previous !in index {
          return Err(Unlinkable);
        }
        item := item.(prev := Some(index[b.previous]));
      }
      nextSerial := nextSerial + 1;
      Insert(item);
      return Ok(head.value);
    }

    method Insert(item: ForkItem)
      modifies this
      ensures State() == Inserted(old(State()), item)
    {
      if Id(item) !in index {
        index := index[Id(item) := item];
      }
      if head.None? {
        head := Some(item);
      } else if Num(item) > Num(head.value) {
        head := Some(item);
        var minNum := Num(item) - if maxSize < Num(item) then maxSize else Num(item);
        EraseBelow(minNum);
      }
    }

    /** Erases the oldest node until none is below `minNum`. */
    method EraseBelow(minNum: nat)
      modifies `index
      ensures index == Erased(old(index), minNum)
    {
      while exists id :: id in index && Num(index[id]) < minNum
        invariant forall id :: id in index ==> id in old(index) && index[id] == old(index)[id]
        invariant forall id :: id in old(index) && Num(old(index)[id]) >= minNum ==> id in index
        decreases |index|
      {
        var id :| id in index && Num(index[id]) < minNum;
        ghost var before := index;
        index := index - {id};
        assert before.Keys == index.Keys + {id};
        assert |before| == |index| + 1;
      }
    }

    method SetMaxSize(size: nat)
      modifies this
      ensures State() == WithMaxSize(old(State()), size)
    {
      maxSize := size;
      if head.None? {
        return;
      }
      var minNum := Num(head.value) as int - maxSize;
      EraseBelow(if minNum > 0 then minNum else 0);
    }

    method Remove(id: BlockId)
      modifies this
      ensures State() == RemoveId(old(State()), id)
    {
      index := index - {id};
    }

    method SetHead(item: ForkItem)
      modifies this
      ensures State() == old(State()).(head := Some(item))
    {
      head := Some(item);
    }

    /** `held` are the nodes the caller keeps alive through its own pointers. */
    method PopBlock(held: set<ForkItem>) returns (r: Result<(), ForkError>)
      modifies this
      ensures match PopHead(old(State()), held)
              case Err(e) => r == Err(e) && State() == old(State())
              case Ok(f) => r == Ok(()) && State() == f
    {
      if head.None? {
        return Err(NotFound);
      }
      var prev := Follow(held, head.value);
      if prev.None? {
        return Err(DeadLink);
      }
      head := prev;
      return Ok(());
    }

    /** Locks the weak pointer of `item`. */
    method Follow(held: set<ForkItem>, item: ForkItem) returns (prev: Option<ForkItem>)
      ensures prev == Lock(State(), held, item)
    {
      prev := None;
      if item.prev.Some? {
        var p := item.prev.value;
        if p in index.Values || head == Some(p) || p in held {
          prev := item.prev;
        }
      }
    }

    /** The two branches that lead from the given blocks back to where they part. */
    method FetchBranchFrom(first: BlockId, second: BlockId) returns (r: Result<Branches, ForkError>)
      ensures r == FetchBranch(State(), first, second)
    {
      if first !in index || second !in index {
        return Err(NotFound);
      }
      var a, b := index[first], index[second];
      var pathA, pathB := [], [];
      ghost var f := State();
      PrependNothing(Descend(f, a, Num(b)));
      while Num(a) > Num(b)
        invariant Descend(f, index[first], Num(b)) == Prepend(pathA, Descend(f, a, Num(b)))
        decreases a
      {
        var prev := Follow({}, a);
        if prev.None? { return Err(DeadLink); }
        PrependMore(pathA, a, Descend(f, prev.value, Num(b)));
        pathA := pathA + [a];
        a := prev.value;
      }
      PrependNothing(Descend(f, b, Num(a)));
      while Num(b) > Num(a)
        invariant Descend(f, index[second], Num(a)) == Prepend(pathB, Descend(f, b, Num(a)))
        decreases b
      {
        var prev := Follow({}, b);
        if prev.None? { return Err(DeadLink); }
        PrependMore(pathB, b, Descend(f, prev.value, Num(a)));
        pathB := pathB + [b];
        b := prev.value;
      }
      assert pathA + [] == pathA && pathB + [] == pathB;
      var rest := WalkTogether(a, b);
      if rest.Err? { return rest; }
      return Ok(Branches(pathA + rest.value.first, pathB + rest.value.second));
    }

    /** The last loop: both branches step back until they agree on the previous id. */
    method WalkTogether(a0: ForkItem, b0: ForkItem) returns (r: Result<Branches, ForkError>)
      ensures r == Meet(State(), a0, b0)
    {
      var a, b := a0, b0;
      var pathA, pathB: seq<ForkItem> := [], [];
      ghost var f := State();
      PrependBothNothing(Meet(f, a, b));
      while a.block.previous != b.block.previous
        invariant Meet(f, a0, b0) == PrependBoth(pathA, pathB, Meet(f, a, b))
        decreases a
      {
        var pa := Follow({}, a);
        if pa.None? { return Err(DeadLink); }
        var pb := Follow({}, b);
        if pb.None? { return Err(DeadLink); }
        PrependBothMore(pathA, pathB, a, b, Meet(f, pa.value, pb.value));
        pathA, pathB := pathA + [a], pathB + [b];
        a, b := pa.value, pb.value;
      }
      return Ok(Branches(pathA + [a], pathB + [b]));
    }
  }

  function Prepend(path: seq<ForkItem>, r: Result<(seq<ForkItem>, ForkItem), ForkError>)
    : Result<(seq<ForkItem>, ForkItem), ForkError>
  {
    match r
    case Err(e) => Err(e)
    case Ok((p, last)) => Ok((path + p, last))
  }

  lemma PrependNothing(r: Result<(seq<ForkItem>, ForkItem), ForkError>)
    ensures Prepend([], r) == r
  {
    if r.Ok? {
      assert [] + r.value.0 == r.value.0;
    }
  }

  lemma PrependBothNothing(r: Result<Branches, ForkError>)
    ensures PrependBoth([], [], r) == r
  {
    if r.Ok? {
      assert [] + r.value.first == r.value.first && [] + r.value.second == r.value.second;
    }
  }

  lemma PrependBothMore(a: seq<ForkItem>, b: seq<ForkItem>, x: ForkItem, y: ForkItem, r: Result<Branches, ForkError>)
    ensures PrependBoth(a, b, PrependBoth([x], [y], r)) == PrependBoth(a + [x], b + [y], r)
  {
    if r.Ok? {
      assert a + ([x] + r.value.first) == (a + [x]) + r.value.first;
      assert b + ([y] + r.value.second) == (b + [y]) + r.value.second;
    }
  }

  lemma PrependMore(path: seq<ForkItem>, item: ForkItem, r: Result<(seq<ForkItem>, ForkItem), ForkError>)
    ensures Prepend(path, Prepend([item], r)) == Prepend(path + [item], r)
  {
    if r.Ok? {
      assert path + ([item] + r.value.0) == (path + [item]) + r.value.0;
    }
  }

  function PrependBoth(a: seq<ForkItem>, b: seq<ForkItem>, r: Result<Branches, ForkError>): Result<Branches, ForkError> {
    match r
    case Err(e) => Err(e)
    case Ok(s) => Ok(Branches(a + s.first, b + s.second))
  }
}
