/**
 * The index from an account or a key to the accounts whose authorities name it, kept up to date by
 * hooks on every insert, removal and change of an account.
 */
module AccountIndexes {

  type AccountId = nat
  type Key = nat

  /** The key of an account that has none. */
  const NoKey: Key := 0

  datatype Authority = Authority(accounts: map<AccountId, nat>, keys: map<Key, nat>)

  datatype Account = Account(owner: Authority, active: Authority, memo: Key)

  type Members = set<nat>
  type Memberships = map<nat, set<AccountId>>

  function AccountMembers(a: Account): Members {
    a.owner.accounts.Keys + a.active.accounts.Keys
  }

  function KeyMembers(a: Account): Members {
    a.owner.keys.Keys + a.active.keys.Keys + if a.memo == NoKey then {} else {a.memo}
  }

  /** A missing entry reads as the empty set. */
  function Entry(m: Memberships, member: nat): set<AccountId> {
    if member in m then m[member] else {}
  }

  // ---- what the index should say ----

  /** A full scan: the accounts with a member among those that f names. */
  function Scan(accounts: map<AccountId, Account>, f: Account -> Members, member: nat): set<AccountId> {
    set id | id in accounts && member in f(accounts[id])
  }

  ghost predicate Agrees(m: Memberships, accounts: map<AccountId, Account>, f: Account -> Members) {
    forall member: nat :: Entry(m, member) == Scan(accounts, f, member)
  }

  /** The entries of some members with an account added, or erased. */
  ghost predicate AddedFor(m: Memberships, m': Memberships, members: Members, id: AccountId) {
    forall member: nat :: Entry(m', member) == if member in members then Entry(m, member) + {id} else Entry(m, member)
  }

  ghost predicate ErasedFor(m: Memberships, m': Memberships, members: Members, id: AccountId) {
    forall member: nat :: Entry(m', member) == if member in members then Entry(m, member) - {id} else Entry(m, member)
  }

  lemma InsertAgrees(m: Memberships, m': Memberships, accounts: map<AccountId, Account>, f: Account -> Members, id: AccountId, a: Account)
    requires Agrees(m, accounts, f) && id !in accounts && AddedFor(m, m', f(a), id)
    ensures Agrees(m', accounts[id := a], f)
  {
    forall member: nat ensures Entry(m', member) == Scan(accounts[id := a], f, member) {
      assert Entry(m, member) == Scan(accounts, f, member);
    }
  }

  lemma RemoveAgrees(m: Memberships, m': Memberships, accounts: map<AccountId, Account>, f: Account -> Members, id: AccountId)
    requires Agrees(m, accounts, f) && id in accounts && ErasedFor(m, m', f(accounts[id]), id)
    ensures Agrees(m', accounts - {id}, f)
  {
    forall member: nat ensures Entry(m', member) == Scan(accounts - {id}, f, member) {
      assert Entry(m, member) == Scan(accounts, f, member);
    }
  }

  /** The entries of the members that went without an account, and of those that came with it. */
  ghost predicate ChangedFor(m: Memberships, m': Memberships, before: Members, now: Members, id: AccountId) {
    forall member: nat :: Entry(m', member) ==
      if member in before - now then Entry(m, member) - {id}
      else if member in now - before then Entry(m, member) + {id}
      else Entry(m, member)
  }

  lemma EraseThenAdd(m: Memberships, m1: Memberships, m': Memberships, before: Members, now: Members, id: AccountId)
    requires ErasedFor(m, m1, before - now, id) && AddedFor(m1, m', now - before, id)
    ensures ChangedFor(m, m', before, now, id)
  {
  }

  /** A change touches only the members that came or went. */
  lemma ModifyAgrees(m: Memberships, m': Memberships, accounts: map<AccountId, Account>, f: Account -> Members, id: AccountId, a: Account)
    requires Agrees(m, accounts, f) && id in accounts && ChangedFor(m, m', f(accounts[id]), f(a), id)
    ensures Agrees(m', accounts[id := a], f)
  {
    forall member: nat ensures Entry(m', member) == Scan(accounts[id := a], f, member) {
      assert Entry(m, member) == Scan(accounts, f, member);
    }
  }

  // ---- the index ----

  lemma MoveOne(done: Members, rest: Members, item: nat)
    requires item in rest
    ensures (done + {item}) + (rest - {item}) == done + rest && |rest - {item}| < |rest|
  {
  }

  lemma AddOne(m: Memberships, m1: Memberships, done: Members, item: nat, id: AccountId)
    requires AddedFor(m, m1, done, id)
    ensures AddedFor(m, m1[item := Entry(m1, item) + {id}], done + {item}, id)
  {
  }

  method AddTo(m: Memberships, members: Members, id: AccountId) returns (m': Memberships)
    ensures AddedFor(m, m', members, id)
  {
    m' := m;
    var rest := members;
    ghost var done: Members := {};
    while rest != {}
      invariant done + rest == members
      invariant AddedFor(m, m', done, id)
      decreases |rest|
    {
      var item :| item in rest;
      AddOne(m, m', done, item, id);
      m' := m'[item := Entry(m', item) + {id}];
      MoveOne(done, rest, item);
      rest, done := rest - {item}, done + {item};
    }
    assert done + rest == done;
  }

  lemma EraseOne(m: Memberships, m1: Memberships, done: Members, item: nat, id: AccountId)
    requires ErasedFor(m, m1, done, id)
    ensures ErasedFor(m, m1[item := Entry(m1, item) - {id}], done + {item}, id)
  {
  }

  method EraseFrom(m: Memberships, members: Members, id: AccountId) returns (m': Memberships)
    ensures ErasedFor(m, m', members, id)
  {
    m' := m;
    var rest := members;
    ghost var done: Members := {};
    while rest != {}
      invariant done + rest == members
      invariant ErasedFor(m, m', done, id)
      decreases |rest|
    {
      var item :| item in rest;
      EraseOne(m, m', done, item, id);
      m' := m'[item := Entry(m', item) - {id}];
      MoveOne(done, rest, item);
      rest, done := rest - {item}, done + {item};
    }
    assert done + rest == done;
  }

  /** What a change of an account takes away and what it adds. */
  method Change(m: Memberships, before: Members, now: Members, id: AccountId,
                ghost accounts: map<AccountId, Account>, ghost f: Account -> Members, ghost a: Account) returns (m': Memberships)
    requires Agrees(m, accounts, f) && id in accounts && before == f(accounts[id]) && now == f(a)
    ensures Agrees(m', accounts[id := a], f)
  {
    var m1 := EraseFrom(m, before - now, id);
    m' := AddTo(m1, now - before, id);
    EraseThenAdd(m, m1, m', before, now, id);
    ModifyAgrees(m, m', accounts, f, id, a);
  }

  class AccountMemberIndex {
    var accountMemberships: Memberships
    var keyMemberships: Memberships
    var beforeAccounts: Members
    var beforeKeys: Members

    /** The accounts that the hooks were told of. */
    ghost var accounts: map<AccountId, Account>

    ghost predicate Valid()
      reads this
    {
      Agrees(accountMemberships, accounts, AccountMembers) && Agrees(keyMemberships, accounts, KeyMembers)
    }

    constructor ()
      ensures Valid() && accounts == map[]
    {
      accountMemberships, keyMemberships, beforeAccounts, beforeKeys, accounts := map[], map[], {}, {}, map[];
    }

    method ObjectInserted(id: AccountId, a: Account)
      requires Valid() && id !in accounts
      modifies this
      ensures Valid() && accounts == old(accounts)[id := a]
    {
      ghost var old1, old2 := accountMemberships, keyMemberships;
      accountMemberships := AddTo(accountMemberships, AccountMembers(a), id);
      keyMemberships := AddTo(keyMemberships, KeyMembers(a), id);
      InsertAgrees(old1, accountMemberships, accounts, AccountMembers, id, a);
      InsertAgrees(old2, keyMemberships, accounts, KeyMembers, id, a);
      accounts := accounts[id := a];
    }

    method ObjectRemoved(id: AccountId, a: Account)
      requires Valid() && id in accounts && accounts[id] == a
      modifies this
      ensures Valid() && accounts == old(accounts) - {id}
    {
      ghost var old1, old2 := accountMemberships, keyMemberships;
      keyMemberships := EraseFrom(keyMemberships, KeyMembers(a), id);
      accountMemberships := EraseFrom(accountMemberships, AccountMembers(a), id);
      RemoveAgrees(old1, accountMemberships, accounts, AccountMembers, id);
      RemoveAgrees(old2, keyMemberships, accounts, KeyMembers, id);
      accounts := accounts - {id};
    }

    method AboutToModify(a: Account)
      requires Valid()
      modifies this
      ensures Valid() && accounts == old(accounts)
      ensures beforeAccounts == AccountMembers(a) && beforeKeys == KeyMembers(a)
    {
      beforeKeys := KeyMembers(a);
      beforeAccounts := AccountMembers(a);
    }

    /** The sets were taken from the account as it was. */
    method ObjectModified(id: AccountId, a: Account)
      requires Valid() && id in accounts
      requires beforeAccounts == AccountMembers(accounts[id]) && beforeKeys == KeyMembers(accounts[id])
      modifies this
      ensures Valid() && accounts == old(accounts)[id := a]
    {
      accountMemberships := Change(accountMemberships, beforeAccounts, AccountMembers(a), id, accounts, AccountMembers, a);
      keyMemberships := Change(keyMemberships, beforeKeys, KeyMembers(a), id, accounts, KeyMembers, a);
      accounts := accounts[id := a];
    }
  }

  // ---- whole histories ----

  datatype Event =
    | Inserted(id: AccountId, account: Account)
    | Removed(id: AccountId)
    | Modified(id: AccountId, account: Account)

  function After(accounts: map<AccountId, Account>, es: seq<Event>): map<AccountId, Account>
    decreases |es|
  {
    if |es| == 0 then accounts
    else
      var next := match es[0]
        case Inserted(id, a) => if id in accounts then accounts else accounts[id := a]
        case Removed(id) => accounts - {id}
        case Modified(id, a) => if id in accounts then accounts[id := a] else accounts;
      After(next, es[1..])
  }

  /** After any history of accounts, both maps agree with a full scan of the accounts there are. */
  method Replay(es: seq<Event>) returns (index: AccountMemberIndex)
    ensures fresh(index) && index.accounts == After(map[], es)
    ensures forall member: nat :: Entry(index.accountMemberships, member) == Scan(After(map[], es), AccountMembers, member)
    ensures forall member: nat :: Entry(index.keyMemberships, member) == Scan(After(map[], es), KeyMembers, member)
  {
    index := new AccountMemberIndex();
    var accounts: map<AccountId, Account> := map[];
    assert es[0..] == es;
    for i := 0 to |es|
      invariant fresh(index) && index.Valid() && index.accounts == accounts
      invariant After(map[], es) == After(accounts, es[i..])
    {
      assert es[i..][1..] == es[i + 1..];
      match es[i] {
        case Inserted(id, a) =>
          if id !in accounts {
            index.ObjectInserted(id, a);
            accounts := accounts[id := a];
          }
        case Removed(id) =>
          if id in accounts {
            index.ObjectRemoved(id, accounts[id]);
          }
          accounts := accounts - {id};
        case Modified(id, a) =>
          if id in accounts {
            index.AboutToModify(accounts[id]);
            index.ObjectModified(id, a);
            accounts := accounts[id := a];
          }
      }
    }
  }
}
