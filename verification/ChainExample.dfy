/**
 * The stuck restore on an actual run: two blocks compete for height one, the other
 * one gets a successor, and that successor is refused.
 */
module ChainExample {
  import opened Wrappers
  import opened UndoDeltas
  import opened Forks
  import opened ChainSpec

  /** Three blocks on top of genesis: `first`, and a branch of `other` and the refused `bad`. */
  datatype Scene = Scene(rules: Rules, genesis: Store<Object>, first: SignedBlock, other: SignedBlock, bad: SignedBlock) {

    ghost predicate Valid() {
      && !rules.skipForkDb
      && HeadId(genesis) == Zero
      && first.previous == Zero && other.previous == Zero && first != other
      && bad.previous == IdOf(other)
      && OnFirst().ok && OnOther().ok
      && !ApplyBlock(rules, bad, OnOther().store).ok
    }

    function OnFirst(): Applied { ApplyBlock(rules, first, genesis) }

    function OnOther(): Applied { ApplyBlock(rules, other, genesis) }

    function ItemFirst(): ForkItem { ForkItem(0, first, None) }

    function ItemOther(): ForkItem { ForkItem(1, other, None) }

    function ItemBad(): ForkItem { ForkItem(2, bad, Some(ItemOther())) }

    function Start(): Chain {
      Chain(genesis, [], 256, ForkState(None, map[], 1024, 0), map[], [])
    }

    function Both(): Branches { Branches([ItemBad(), ItemOther()], [ItemFirst()]) }
  }

  lemma Numbers(s: Scene)
    requires s.Valid()
    ensures BlockNum(s.first) == 1 && BlockNum(s.other) == 1 && BlockNum(s.bad) == 2
    ensures HeadId(s.OnFirst().store) == IdOf(s.first) && HeadNum(s.OnFirst().store) == 1
    ensures HeadId(s.OnOther().store) == IdOf(s.other) && HeadNum(s.OnOther().store) == 1
    ensures s.OnFirst().window.Some? && s.OnFirst().window.value >= 1
    ensures s.OnOther().window.Some? && s.OnOther().window.value >= 1
  {
    NumOfId(s.other);
  }

  /** The node on `first`, having seen nothing else. */
  ghost predicate SawFirst(s: Scene, c: Chain) {
    && c.store == s.OnFirst().store
    && c.saved == [s.genesis]
    && c.fork.head == Some(s.ItemFirst())
    && c.fork.index == map[IdOf(s.first) := s.ItemFirst()]
    && c.fork.nextSerial == 1
    && c.fork.maxSize >= 1
  }

  lemma PushFirst(s: Scene)
    requires s.Valid()
    ensures SawFirst(s, Push(s.rules, s.Start(), s.first).0)
  {
    Numbers(s);
    var c := s.Start();
    var f := PushItem(c.fork, s.first).value;
    assert f.index == map[IdOf(s.first) := s.ItemFirst()];
    var w := s.OnFirst().window.value;
    assert WithMaxSize(f, w).index == f.index;
  }

  /** The node on `first`, with `other` in its fork database. */
  ghost predicate SawOther(s: Scene, c: Chain) {
    && c.store == s.OnFirst().store
    && c.saved == [s.genesis]
    && c.fork.head == Some(s.ItemFirst())
    && c.fork.index == map[IdOf(s.first) := s.ItemFirst(), IdOf(s.other) := s.ItemOther()]
    && c.fork.nextSerial == 2
    && c.fork.maxSize >= 1
  }

  lemma PushOther(s: Scene, c: Chain)
    requires s.Valid() && SawFirst(s, c)
    ensures SawOther(s, Push(s.rules, c, s.other).0)
  {
    Numbers(s);
    assert IdOf(s.other) !in c.fork.index;
  }

  /** The tree once `bad` joined it. */
  ghost predicate Forked(s: Scene, f: ForkState) {
    && f.head == Some(s.ItemBad())
    && f.index == map[IdOf(s.first) := s.ItemFirst(), IdOf(s.other) := s.ItemOther(), IdOf(s.bad) := s.ItemBad()]
  }

  lemma PushItemBad(s: Scene, c: Chain)
    requires s.Valid() && SawOther(s, c)
    ensures PushItem(c.fork, s.bad).Ok? && Forked(s, PushItem(c.fork, s.bad).value)
  {
    Numbers(s);
    var f := c.fork;
    assert f.index[IdOf(s.other)] == s.ItemOther();
    assert IdOf(s.bad) != IdOf(s.first) && IdOf(s.bad) != IdOf(s.other);
    var index := f.index[IdOf(s.bad) := s.ItemBad()];
    assert Erased(index, MinNum(2, f.maxSize)) == index;
  }

  lemma FetchBoth(s: Scene, f: ForkState)
    requires s.Valid() && Forked(s, f)
    ensures FetchBranch(f, IdOf(s.bad), IdOf(s.first)) == Ok(s.Both())
  {
    Numbers(s);
    assert f.index[IdOf(s.bad)] == s.ItemBad();
    assert f.index[IdOf(s.first)] == s.ItemFirst();
    assert f.index[IdOf(s.other)] == s.ItemOther();
    assert Lock(f, {}, s.ItemBad()) == Some(s.ItemOther());
    assert Descend(f, s.ItemOther(), 1) == Ok(([], s.ItemOther()));
    assert Descend(f, s.ItemBad(), 1) == Ok(([s.ItemBad()] + [], s.ItemOther()));
    assert Descend(f, s.ItemFirst(), 1) == Ok(([], s.ItemFirst()));
    assert Meet(f, s.ItemOther(), s.ItemFirst()) == Ok(Branches([s.ItemOther()], [s.ItemFirst()]));
    assert ([s.ItemBad()] + []) + [s.ItemOther()] == s.Both().first;
    assert [] + [s.ItemFirst()] == s.Both().second;
  }

  /** `first` popped: back at genesis, with the fork head on the other branch. */
  lemma PopFirst(s: Scene, c: Chain)
    requires s.Valid() && c.store == s.OnFirst().store && c.saved == [s.genesis] && Forked(s, c.fork)
    ensures var (c1, ok) := PopUntil(c, Zero, Held(s.Both()));
            ok && c1.store == s.genesis && c1.fork == c.fork.(head := Some(s.ItemOther()))
  {
    Numbers(s);
    assert s.ItemOther() in s.Both().first;
    assert Lock(c.fork, Held(s.Both()), s.ItemBad()) == Some(s.ItemOther());
    var (c1, ok) := PopBlock(c, Held(s.Both()));
    assert ok && c1.store == s.genesis;
    assert PopUntil(c1, Zero, Held(s.Both())) == (c1, true);
  }

  /** On `other`, with `first` as fork head and no node under it, pop_block throws. */
  lemma PopOtherFails(s: Scene, c: Chain)
    requires s.Valid() && HeadId(c.store) == IdOf(s.other) && c.fork.head == Some(s.ItemFirst())
    ensures PopUntil(c, Zero, Held(s.Both())).1 == false
    ensures PopUntil(c, Zero, Held(s.Both())).0.store == c.store
  {
    assert PopHead(c.fork, Held(s.Both())) == Err(DeadLink);
    assert !PopBlock(c, Held(s.Both())).1;
  }

  lemma SwitchStuck(s: Scene, c: Chain, newId: BlockId)
    requires s.Valid() && c.store == s.OnFirst().store && c.saved == [s.genesis] && Forked(s, c.fork)
    ensures var (c1, outcome) := Switch(s.rules, c, s.ItemBad(), newId);
            outcome == Stuck && c1.store == s.OnOther().store
  {
    Numbers(s);
    FetchBoth(s, c.fork);
    PopFirst(s, c);
    var r := s.Both();
    assert Fork(r) == Zero;
    var c1 := PopUntil(c, Zero, Held(r)).0;
    var (c2, ok2) := TryBlock(s.rules, c1, s.other, IdOf(s.other));
    assert ok2 && c2.store == s.OnOther().store;
    var (c3, ok3) := TryBlock(s.rules, c2, s.bad, IdOf(s.bad));
    assert !ok3 && c3.store == c2.store;
    var c4 := c3.(fork := RemoveAll(c3.fork, r.first[..1]).(head := Some(r.second[0])));
    PopOtherFails(s, c4);
    assert PushBranch(s.rules, c2, r, 1, newId) == (PopUntil(c4, Zero, Held(r)).0, Stuck);
    assert PushBranch(s.rules, c1, r, 2, newId) == PushBranch(s.rules, c2, r, 1, newId);
  }

  /**
   * On a fresh node: the third push neither switches to the new branch nor restores
   * the old one. It throws with the chain left on `other`.
   */
  lemma RestoreCanFail(s: Scene)
    requires s.Valid()
    ensures var c := Push(s.rules, Push(s.rules, s.Start(), s.first).0, s.other).0;
            var (c1, outcome) := Push(s.rules, c, s.bad);
            outcome == Stuck && HeadId(c.store) == IdOf(s.first) && HeadId(c1.store) == IdOf(s.other)
  {
    Numbers(s);
    PushFirst(s);
    var c0 := Push(s.rules, s.Start(), s.first).0;
    PushOther(s, c0);
    var c := Push(s.rules, c0, s.other).0;
    PushItemBad(s, c);
    SwitchStuck(s, c.(fork := PushItem(c.fork, s.bad).value), IdOf(s.bad));
  }
}
