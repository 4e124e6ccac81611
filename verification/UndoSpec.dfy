/**
 * The meaning of the undo database: a stack of full copies of the store.
 *
 * Opening a session pushes a copy, undo puts the top copy back, merge drops it,
 * commit keeps it for a later pop. A call the real database rejects by throwing
 * leaves everything as it was.
 */
module UndoSpec {
  import opened UndoDeltas

  datatype Event<V> =
    | Start(force: bool)
    | Create(index: IndexId, value: V)
    | Modify(id: ObjectId, value: V)
    | Remove(id: ObjectId)
    | Undo
    | Merge
    | Commit
    | PopCommit
    | SetMaxSize(size: nat)
    | Enable
    | Disable

  datatype Snapshots<V> = Snapshots(
    current: Store<V>,
    saved: seq<Store<V>>,
    active: nat,
    disabled: bool,
    maxSize: nat)

  /** Drops the oldest copies until at most `n` are left. */
  function Trim<V>(saved: seq<Store<V>>, n: nat): seq<Store<V>> {
    if |saved| > n then saved[|saved| - n..] else saved
  }

  /** A change made with an empty stack opens a state of its own. */
  function Opened<V>(s: Snapshots<V>): seq<Store<V>> {
    if !s.disabled && s.saved == [] then [s.current] else s.saved
  }

  function Step<V>(s: Snapshots<V>, e: Event<V>): Snapshots<V> {
    match e
    case Start(force) =>
      if s.disabled && !force then s
      else s.(saved := Trim(s.saved, s.maxSize) + [s.current], active := s.active + 1, disabled := false)
    case Create(k, v) =>
      if k !in s.current.nextIds then s
      else s.(current := CreateIn(s.current, k, v), saved := Opened(s))
    case Modify(id, v) =>
      if id !in s.current.objects then s
      else s.(current := ModifyIn(s.current, id, v), saved := Opened(s))
    case Remove(id) =>
      if id !in s.current.objects then s
      else s.(current := RemoveFrom(s.current, id), saved := Opened(s))
    case Undo =>
      if s.disabled || s.active == 0 || s.saved == [] then s
      else
        var top := s.saved[|s.saved| - 1];
        var rest := s.saved[..|s.saved| - 1];
        s.(current := top, saved := if rest == [] then [top] else rest, active := s.active - 1)
    case Merge =>
      if s.active == 0 || |s.saved| < 2 then s
      else s.(saved := s.saved[..|s.saved| - 1], active := s.active - 1)
    case Commit =>
      if s.active == 0 then s else s.(active := s.active - 1)
    case PopCommit =>
      if s.active != 0 || s.saved == [] then s
      else s.(current := s.saved[|s.saved| - 1], saved := s.saved[..|s.saved| - 1], disabled := false)
    case SetMaxSize(n) => s.(maxSize := n)
    case Enable => s.(disabled := false)
    case Disable => s.(disabled := true)
  }

  function Run<V>(s: Snapshots<V>, es: seq<Event<V>>): Snapshots<V>
    decreases |es|
  {
    if es == [] then s else Run(Step(s, es[0]), es[1..])
  }

  predicate IsChange<V>(e: Event<V>) {
    e.Create? || e.Modify? || e.Remove?
  }

  /** No object is changed behind the back of an open state: tracking is on, or there is no state. */
  ghost predicate Trackable<V>(s: Snapshots<V>, es: seq<Event<V>>)
    decreases |es|
  {
    es != [] ==>
      && (IsChange(es[0]) ==> !s.disabled || s.saved == [])
      && Trackable(Step(s, es[0]), es[1..])
  }

  // ---- nested sessions ----

  /**
   * The events `es`, run from `s`, stay inside the session that is innermost in
   * `s` when `depth + 1` sessions are active: it is not closed, nothing is
   * committed under it, tracking stays on, and the size limit never falls below
   * the number of active sessions.
   */
  ghost predicate StaysInside<V>(s: Snapshots<V>, es: seq<Event<V>>, depth: nat)
    decreases |es|
  {
    && s.active > depth && !s.disabled && s.active <= s.maxSize
    && (es != [] ==>
          && !es[0].Commit? && !es[0].Disable?
          && StaysInside(Step(s, es[0]), es[1..], depth))
  }

  /** The copy taken when session `depth + 1` opened is still on the stack, at that session's place. */
  ghost predicate Holds<V>(s: Snapshots<V>, depth: nat, base: Store<V>) {
    && depth < s.active <= |s.saved|
    && s.saved[|s.saved| - (s.active - depth)] == base
  }

  lemma StepHolds<V>(s: Snapshots<V>, e: Event<V>, depth: nat, base: Store<V>)
    requires Holds(s, depth, base)
    requires !s.disabled && s.active <= s.maxSize
    requires !e.Commit? && !e.Disable?
    requires Step(s, e).active > depth
    ensures Holds(Step(s, e), depth, base)
  {
    match e
    case Start(_) =>
      var t := Trim(s.saved, s.maxSize);
      assert t[|t| - (s.active - depth)] == base;
    case _ =>
  }

  lemma {:induction false} RunHolds<V>(s: Snapshots<V>, es: seq<Event<V>>, depth: nat, base: Store<V>)
    requires Holds(s, depth, base)
    requires StaysInside(s, es, depth)
    ensures Holds(Run(s, es), depth, base)
    ensures StaysInside(Run(s, es), [], depth)
    decreases |es|
  {
    if es != [] {
      StepHolds(s, es[0], depth, base);
      RunHolds(Step(s, es[0]), es[1..], depth, base);
    }
  }

  lemma {:induction false} RunAppend<V>(s: Snapshots<V>, es: seq<Event<V>>, fs: seq<Event<V>>)
    ensures Run(s, es + fs) == Run(Run(s, es), fs)
    decreases |es|
  {
    if es == [] {
      assert es + fs == fs;
    } else {
      assert (es + fs)[1..] == es[1..] + fs;
      RunAppend(Step(s, es[0]), es[1..], fs);
    }
  }

  /**
   * Whatever a session does, with any nesting of further sessions inside it,
   * undoing it puts back exactly the store that was current when it opened.
   */
  lemma UndoRestoresSessionStart<V>(s: Snapshots<V>, es: seq<Event<V>>)
    requires !s.disabled && s.active + 1 <= s.maxSize && s.active <= |s.saved|
    requires StaysInside(Step(s, Start(false)), es, s.active)
    requires Run(s, [Start(false)] + es).active == s.active + 1
    ensures Run(s, [Start(false)] + es + [Undo]).current == s.current
    ensures Run(s, [Start(false)] + es + [Undo]).active == s.active
  {
    var s1 := Step(s, Start(false));
    assert Run(s, [Start(false)] + es) == Run(s1, es) by {
      assert ([Start(false)] + es)[1..] == es;
    }
    RunHolds(s1, es, s.active, s.current);
    RunAppend(s, [Start(false)] + es, [Undo]);
    UndoGives(Run(s1, es), s.active, s.current);
  }

  lemma UndoGives<V>(s: Snapshots<V>, depth: nat, base: Store<V>)
    requires Holds(s, depth, base) && s.active == depth + 1 && !s.disabled
    ensures Run(s, [Undo]).current == base && Run(s, [Undo]).active == depth
  {
    assert Run(s, [Undo]) == Step(s, Undo);
  }

  /** A committed outermost session is taken back whole by pop_commit, nested work included. */
  lemma PopCommitRestoresSessionStart<V>(s: Snapshots<V>, es: seq<Event<V>>)
    requires !s.disabled && s.active == 0 && 1 <= s.maxSize
    requires StaysInside(Step(s, Start(false)), es, 0)
    requires Run(s, [Start(false)] + es).active == 1
    ensures Run(s, [Start(false)] + es + [Commit, PopCommit]).current == s.current
  {
    var s1 := Step(s, Start(false));
    assert Run(s, [Start(false)] + es) == Run(s1, es) by {
      assert ([Start(false)] + es)[1..] == es;
    }
    RunHolds(s1, es, 0, s.current);
    RunAppend(s, [Start(false)] + es, [Commit, PopCommit]);
    PopCommitGives(Run(s1, es), s.current);
  }

  lemma PopCommitGives<V>(s: Snapshots<V>, base: Store<V>)
    requires Holds(s, 0, base) && s.active == 1
    ensures Run(s, [Commit, PopCommit]).current == base
  {
    var closing: seq<Event<V>> := [Commit, PopCommit];
    assert closing[1..] == [PopCommit];
    assert Run(s, closing) == Step(Step(s, Commit), PopCommit);
  }

  // ---- several committed sessions ----

  function FromEnd<T>(s: seq<T>, j: nat): T
    requires j < |s|
  {
    s[|s| - 1 - j]
  }

  /** Below the `k` topmost elements, the stack ends with `olds`. */
  ghost predicate Under<T>(stack: seq<T>, k: nat, olds: seq<T>) {
    && k + |olds| <= |stack|
    && forall j :: 0 <= j < |olds| ==> FromEnd(stack, k + j) == FromEnd(olds, j)
  }

  lemma UnderPushed<T>(stack: seq<T>, k: nat, olds: seq<T>, x: T)
    requires Under(stack, k, olds)
    ensures Under(stack + [x], k + 1, olds)
  {
    forall j | 0 <= j < |olds| ensures FromEnd(stack + [x], k + 1 + j) == FromEnd(olds, j) {
      assert FromEnd(stack + [x], k + 1 + j) == FromEnd(stack, k + j);
    }
  }

  lemma UnderPopped<T>(stack: seq<T>, k: nat, olds: seq<T>)
    requires Under(stack, k, olds) && k > 0
    ensures Under(stack[..|stack| - 1], k - 1, olds)
  {
    forall j | 0 <= j < |olds| ensures FromEnd(stack[..|stack| - 1], k - 1 + j) == FromEnd(olds, j) {
      assert FromEnd(stack[..|stack| - 1], k - 1 + j) == FromEnd(stack, k + j);
    }
  }

  lemma UnderTrimmed<V>(stack: seq<Store<V>>, k: nat, olds: seq<Store<V>>, n: nat)
    requires Under(stack, k, olds) && k + |olds| <= n
    ensures Under(Trim(stack, n), k, olds)
  {
    forall j | 0 <= j < |olds| ensures FromEnd(Trim(stack, n), k + j) == FromEnd(olds, j) {
      assert FromEnd(Trim(stack, n), k + j) == FromEnd(stack, k + j);
    }
  }

  /** The events stay inside the one outermost session, and the size limit keeps `n` older copies besides. */
  ghost predicate StaysDeep<V>(s: Snapshots<V>, es: seq<Event<V>>, n: nat)
    decreases |es|
  {
    && s.active > 0 && !s.disabled && s.active + n <= s.maxSize
    && (es != [] ==> !es[0].Commit? && !es[0].Disable? && StaysDeep(Step(s, es[0]), es[1..], n))
  }

  /** Below the copies of the sessions inside it, the stack ends with the copies `olds`. */
  ghost predicate HoldsAll<V>(s: Snapshots<V>, olds: seq<Store<V>>) {
    s.active > 0 && Under(s.saved, s.active - 1, olds)
  }

  lemma StepHoldsAll<V>(s: Snapshots<V>, e: Event<V>, olds: seq<Store<V>>)
    requires HoldsAll(s, olds) && !s.disabled && |olds| > 0 && s.active - 1 + |olds| <= s.maxSize
    requires !e.Commit? && !e.Disable? && Step(s, e).active > 0
    ensures HoldsAll(Step(s, e), olds)
  {
    if e.Start? {
      StartHoldsAll(s, e, olds);
    } else if e.Undo? || (e.Merge? && |s.saved| >= 2) {
      CloseHoldsAll(s, e, olds);
    } else {
      SavedKept(s, e);
    }
  }

  lemma StartHoldsAll<V>(s: Snapshots<V>, e: Event<V>, olds: seq<Store<V>>)
    requires HoldsAll(s, olds) && !s.disabled && s.active - 1 + |olds| <= s.maxSize && e.Start?
    ensures HoldsAll(Step(s, e), olds)
  {
    UnderTrimmed(s.saved, s.active - 1, olds, s.maxSize);
    UnderPushed(Trim(s.saved, s.maxSize), s.active - 1, olds, s.current);
  }

  lemma CloseHoldsAll<V>(s: Snapshots<V>, e: Event<V>, olds: seq<Store<V>>)
    requires HoldsAll(s, olds) && !s.disabled && |olds| > 0 && (e.Undo? || (e.Merge? && |s.saved| >= 2))
    requires Step(s, e).active > 0
    ensures HoldsAll(Step(s, e), olds)
  {
    UnderPopped(s.saved, s.active - 1, olds);
    assert Step(s, e).saved == s.saved[..|s.saved| - 1] && Step(s, e).active == s.active - 1;
  }

  lemma SavedKept<V>(s: Snapshots<V>, e: Event<V>)
    requires 0 < s.active <= |s.saved|
    requires !e.Start? && !e.Undo? && !e.Commit? && (e.Merge? ==> |s.saved| < 2) && Step(s, e).active > 0
    ensures Step(s, e).saved == s.saved && Step(s, e).active == s.active
  {
  }

  lemma {:induction false} RunHoldsAll<V>(s: Snapshots<V>, es: seq<Event<V>>, olds: seq<Store<V>>)
    requires HoldsAll(s, olds) && |olds| > 0 && StaysDeep(s, es, |olds| - 1)
    ensures HoldsAll(Run(s, es), olds) && !Run(s, es).disabled
    decreases |es|
  {
    if es != [] {
      StepHoldsAll(s, es[0], olds);
      RunHoldsAll(Step(s, es[0]), es[1..], olds);
    }
  }

  /** An outermost session with what happens inside it, committed. */
  function Committed<V>(s: Snapshots<V>, es: seq<Event<V>>): Snapshots<V> {
    Step(Run(Step(s, Start(false)), es), Commit)
  }

  function AllCommitted<V>(s: Snapshots<V>, sessions: seq<seq<Event<V>>>): Snapshots<V>
    decreases |sessions|
  {
    if sessions == [] then s else AllCommitted(Committed(s, sessions[0]), sessions[1..])
  }

  function Popped<V>(s: Snapshots<V>, k: nat): Snapshots<V>
    decreases k
  {
    if k == 0 then s else Popped(Step(s, PopCommit), k - 1)
  }

  /** Each session in turn ends where it began, and the size limit keeps the copies of the `n` before it. */
  ghost predicate InTurn<V>(s: Snapshots<V>, sessions: seq<seq<Event<V>>>, n: nat)
    decreases |sessions|
  {
    sessions != [] ==>
      && !s.disabled && s.active == 0 && n < s.maxSize
      && StaysDeep(Step(s, Start(false)), sessions[0], n)
      && Run(Step(s, Start(false)), sessions[0]).active == 1
      && InTurn(Committed(s, sessions[0]), sessions[1..], n + 1)
  }

  /** The stores that the sessions started from. */
  ghost function Starts<V>(s: Snapshots<V>, sessions: seq<seq<Event<V>>>): (starts: seq<Store<V>>)
    ensures |starts| == |sessions|
    decreases |sessions|
  {
    if sessions == [] then [] else [s.current] + Starts(Committed(s, sessions[0]), sessions[1..])
  }

  lemma CommittedHolds<V>(s: Snapshots<V>, es: seq<Event<V>>, olds: seq<Store<V>>)
    requires !s.disabled && s.active == 0 && |olds| < s.maxSize && Under(s.saved, 0, olds)
    requires StaysDeep(Step(s, Start(false)), es, |olds|) && Run(Step(s, Start(false)), es).active == 1
    ensures var t := Committed(s, es); t.active == 0 && !t.disabled && Under(t.saved, 0, olds + [s.current])
  {
    var s1 := Step(s, Start(false));
    var kept := Trim(s.saved, s.maxSize);
    UnderTrimmed(s.saved, 0, olds, s.maxSize);
    UnderBoth(kept, olds, s.current);
    assert s1.saved == kept + [s.current] && s1.active == 1;
    RunHoldsAll(s1, es, olds + [s.current]);
  }

  lemma UnderBoth<T>(stack: seq<T>, olds: seq<T>, x: T)
    requires Under(stack, 0, olds)
    ensures Under(stack + [x], 0, olds + [x])
  {
    forall j | 0 <= j < |olds + [x]| ensures FromEnd(stack + [x], 0 + j) == FromEnd(olds + [x], j) {
      if j > 0 {
        assert FromEnd(olds + [x], j) == FromEnd(olds, j - 1) == FromEnd(stack, 0 + (j - 1));
      }
    }
  }

  lemma {:induction false} AllCommittedHold<V>(s: Snapshots<V>, sessions: seq<seq<Event<V>>>, olds: seq<Store<V>>)
    requires s.active == 0 && Under(s.saved, 0, olds) && InTurn(s, sessions, |olds|)
    ensures var t := AllCommitted(s, sessions); t.active == 0 && Under(t.saved, 0, olds + Starts(s, sessions))
    decreases |sessions|
  {
    if sessions == [] {
      assert olds + [] == olds;
    } else {
      CommittedHolds(s, sessions[0], olds);
      AllCommittedHold(Committed(s, sessions[0]), sessions[1..], olds + [s.current]);
      assert olds + [s.current] + Starts(Committed(s, sessions[0]), sessions[1..]) == olds + Starts(s, sessions);
    }
  }

  lemma {:induction false} PopsGive<V>(s: Snapshots<V>, olds: seq<Store<V>>, k: nat)
    requires s.active == 0 && Under(s.saved, 0, olds) && 0 < k <= |olds|
    ensures Popped(s, k).current == FromEnd(olds, k - 1)
    decreases k
  {
    assert FromEnd(s.saved, 0 + 0) == FromEnd(olds, 0);
    if k > 1 {
      var below := olds[..|olds| - 1];
      UnderBelow(s.saved, olds);
      PopsGive(Step(s, PopCommit), below, k - 1);
      assert FromEnd(below, k - 2) == FromEnd(olds, k - 1);
    }
  }

  lemma UnderBelow<T>(stack: seq<T>, olds: seq<T>)
    requires Under(stack, 0, olds) && olds != []
    ensures Under(stack[..|stack| - 1], 0, olds[..|olds| - 1])
  {
    var lower, below := stack[..|stack| - 1], olds[..|olds| - 1];
    forall j | 0 <= j < |below| ensures FromEnd(lower, 0 + j) == FromEnd(below, j) {
      assert FromEnd(below, j) == FromEnd(olds, j + 1) == FromEnd(stack, 0 + (j + 1));
    }
  }

  lemma {:induction false} StartsAre<V>(s: Snapshots<V>, sessions: seq<seq<Event<V>>>, i: nat)
    requires i < |sessions|
    ensures Starts(s, sessions)[i] == AllCommitted(s, sessions[..i]).current
    decreases |sessions|
  {
    if i > 0 {
      StartsAre(Committed(s, sessions[0]), sessions[1..], i - 1);
      assert sessions[..i][1..] == sessions[1..][..i - 1];
    }
  }

  /**
   * Any number of committed sessions, with any work and nesting inside them, is taken back one by one: `k` calls of
   * pop_commit restore the store that was current before the last `k` of them.
   */
  lemma PopsRestoreInTurn<V>(s: Snapshots<V>, sessions: seq<seq<Event<V>>>, k: nat)
    requires s.active == 0 && InTurn(s, sessions, 0) && k <= |sessions|
    ensures Popped(AllCommitted(s, sessions), k).current == AllCommitted(s, sessions[..|sessions| - k]).current
  {
    var t := AllCommitted(s, sessions);
    var none: seq<Store<V>> := [];
    AllCommittedHold(s, sessions, none);
    assert none + Starts(s, sessions) == Starts(s, sessions);
    if k == 0 {
      assert sessions[..|sessions|] == sessions;
    } else {
      PopsGive(t, Starts(s, sessions), k);
      StartsAre(s, sessions, |sessions| - k);
    }
  }

  /**
   * Why a commit inside another session is excluded: the outer undo then takes
   * back only what came after the inner session opened.
   */
  lemma InnerCommitDefeatsOuterUndo<V>(s: Snapshots<V>, e: Event<V>)
    requires !s.disabled && s.active == 0 && 2 <= s.maxSize
    requires e.Create? || e.Modify? || e.Remove?
    ensures var inner := Step(Step(Step(s, Start(false)), e), Start(false));
            Step(Step(inner, Commit), Undo).current == Step(s, e).current
  {
    var s2 := Step(Step(s, Start(false)), e);
    assert s2.current == Step(s, e).current && s2.active == 1 && !s2.disabled;
    var s3 := Step(s2, Start(false));
    assert s3.saved[|s3.saved| - 1] == s2.current && s3.active == 2;
  }
}
