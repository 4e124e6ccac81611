/**
 * Transactions that wait for a block: they are applied on top of the head in a session of their own,
 * each in a temporary session that is merged into it, and proposals that are executed in a session.
 */
module PendingTransactions {
  import opened Wrappers
  import opened UndoDeltas
  import US = UndoSpec
  import opened ChainSpec
  import opened UndoDatabases
  import opened ChainDatabases

  /** What applying a transaction does: its changes, and whether it is then accepted. */
  type TxRules = (nat, Store<Object>) -> (seq<Change>, bool)

  function ApplyTx(rules: TxRules, tx: nat, st: Store<Object>): (Store<Object>, bool) {
    var (changes, accepted) := rules(tx, st);
    var (st1, done) := ApplyChanges(st, changes);
    (st1, done && accepted)
  }

  /** Transactions applied one after the other to a store, if all are accepted. */
  function ApplyAll(rules: TxRules, txs: seq<nat>, st: Store<Object>): Option<Store<Object>> {
    if |txs| == 0 then Some(st)
    else
      var before :- ApplyAll(rules, txs[..|txs| - 1], st);
      var (st1, ok) := ApplyTx(rules, txs[|txs| - 1], before);
      if ok then Some(st1) else None
  }

  /** Changes in a session of their own: merged into the one around it, or undone. */
  method InTemporarySession(undo: UndoDatabase<Object>, changes: seq<Change>, accepted: bool) returns (ok: bool)
    requires undo.Tracked() && !undo.disabled && undo.saved != [] && undo.maxSize >= 1
    modifies undo
    ensures undo.Tracked() && ok == (ApplyChanges(old(undo.Content()), changes).1 && accepted)
    ensures undo.Abs() == old(undo.Abs()).(
      current := if ok then ApplyChanges(old(undo.Content()), changes).0 else old(undo.Content()),
      saved := US.Trim(old(undo.saved), old(undo.maxSize)))
  {
    ghost var before := undo.Abs();
    var _, _ := undo.StartUndoSession(false);
    var done := MakeChanges(undo, changes);
    ok := done && accepted;
    assert undo.saved == US.Trim(before.saved, before.maxSize) + [before.current];
    if ok {
      var _ := undo.Merge();
    } else {
      var _ := undo.Undo();
    }
  }

  lemma OneMore(rules: TxRules, txs: seq<nat>, tx: nat, st: Store<Object>)
    requires ApplyAll(rules, txs, st).Some?
    ensures var (st1, ok) := ApplyTx(rules, tx, ApplyAll(rules, txs, st).value);
            ApplyAll(rules, txs + [tx], st) == if ok then Some(st1) else None
  {
    assert (txs + [tx])[..|txs|] == txs;
  }

  lemma TrimLast<T>(saved: seq<Store<T>>, n: nat)
    requires saved != [] && n >= 1
    ensures var kept := US.Trim(saved, n); kept != [] && kept[|kept| - 1] == saved[|saved| - 1]
  {
  }

  class PendingPool {
    const rules: TxRules
    const undo: UndoDatabase<Object>
    var pending: seq<nat>
    var sessionOpen: bool
    /** The store of the head block. */
    ghost var head: Store<Object>

    /**
     * The store is the head's with the pending transactions applied, and the session that would undo them
     * holds the head's.
     */
    ghost predicate Valid()
      reads this, undo
    {
      && undo.Tracked() && !undo.disabled && undo.maxSize >= 1
      && (if sessionOpen then
            undo.activeSessions == 1 && |undo.saved| >= 1 && undo.saved[|undo.saved| - 1] == head
          else undo.activeSessions == 0 && pending == [])
      && ApplyAll(rules, pending, head) == Some(undo.Content())
    }

    constructor (rules: TxRules, undo: UndoDatabase<Object>)
      requires undo.Tracked() && !undo.disabled && undo.activeSessions == 0 && undo.maxSize >= 1
      ensures Valid() && pending == [] && head == undo.Content()
      ensures this.undo == undo && this.rules == rules
    {
      this.rules, this.undo := rules, undo;
      pending, sessionOpen, head := [], false, undo.Content();
    }

    method OpenSession()
      requires Valid()
      modifies this`sessionOpen, undo
      ensures Valid() && sessionOpen && undo.Content() == old(undo.Content())
    {
      if !sessionOpen {
        var _, _ := undo.StartUndoSession(false);
        sessionOpen := true;
      }
    }

    /** A transaction is added if it applies; otherwise nothing has changed. */
    method PushTransaction(tx: nat) returns (ok: bool)
      requires Valid()
      modifies this`pending, this`sessionOpen, undo
      ensures Valid()
      ensures ok == ApplyTx(rules, tx, old(undo.Content())).1
      ensures pending == if ok then old(pending) + [tx] else old(pending)
      ensures undo.Content() == if ok then ApplyTx(rules, tx, old(undo.Content())).0 else old(undo.Content())
    {
      OpenSession();
      OneMore(rules, pending, tx, head);
      TrimLast(undo.saved, undo.maxSize);
      var (changes, accepted) := rules(tx, Store(undo.objects, undo.nextIds));
      ok := InTemporarySession(undo, changes, accepted);
      if ok {
        pending := pending + [tx];
      }
    }

    /** clear_pending: the store is the head's again. */
    method ClearPending()
      requires Valid()
      modifies this`pending, this`sessionOpen, undo
      ensures Valid() && pending == [] && !sessionOpen && undo.Content() == head
    {
      pending := [];
      if sessionOpen {
        sessionOpen := false;
        var _ := undo.Undo();
      }
    }
  }

  /**
   * push_proposal: a session that is forced open around the proposal's operations. It is merged, or committed
   * if undoing was disabled before; if an operation throws, it is undone. Undoing is as it was afterwards.
   */
  method PushProposal(undo: UndoDatabase<Object>, changes: seq<Change>, accepted: bool) returns (ok: bool)
    requires undo.Tracked()
    requires !undo.disabled ==> undo.saved != [] && undo.maxSize >= 1
    modifies undo
    ensures undo.disabled == old(undo.disabled) && undo.activeSessions == old(undo.activeSessions)
    ensures ok == (ApplyChanges(old(undo.Content()), changes).1 && accepted)
    ensures undo.Content() == if ok then ApplyChanges(old(undo.Content()), changes).0 else old(undo.Content())
    ensures undo.Tracked() && undo.maxSize == old(undo.maxSize)
    ensures var kept := US.Trim(old(undo.saved), undo.maxSize);
            undo.saved == if undo.disabled then Closed(kept, old(undo.Content()), ok) else kept
  {
    if !undo.disabled {
      ok := InTemporarySession(undo, changes, accepted);
    } else {
      ok := InForcedSession(undo, changes, accepted);
      undo.DisableUndo();
    }
  }

  /** The copies under a closed session: a committed one leaves its own, an undone one only if there is no other. */
  function Closed(kept: seq<Store<Object>>, start: Store<Object>, committed: bool): seq<Store<Object>> {
    if committed then kept + [start] else if kept == [] then [start] else kept
  }

  /** Undoing was disabled: the session turns it on, and its state is committed and not merged. */
  method InForcedSession(undo: UndoDatabase<Object>, changes: seq<Change>, accepted: bool) returns (ok: bool)
    requires undo.Tracked() && undo.disabled
    modifies undo
    ensures undo.Tracked() && undo.maxSize == old(undo.maxSize)
    ensures !undo.disabled && undo.activeSessions == old(undo.activeSessions)
    ensures undo.saved == Closed(US.Trim(old(undo.saved), undo.maxSize), old(undo.Content()), ok)
    ensures ok == (ApplyChanges(old(undo.Content()), changes).1 && accepted)
    ensures undo.Content() == if ok then ApplyChanges(old(undo.Content()), changes).0 else old(undo.Content())
  {
    ghost var before := undo.Abs();
    var _, _ := undo.StartUndoSession(true);
    var done := MakeChanges(undo, changes);
    ok := done && accepted;
    assert undo.saved == US.Trim(before.saved, before.maxSize) + [before.current];
    if ok {
      var _ := undo.Commit();
    } else {
      var _ := undo.Undo();
    }
  }
}
