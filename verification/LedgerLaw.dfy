/**
 * The conservation law of the core asset: the supply record, with what was mined, paid and burnt
 * since the last maintenance, is the core asset that accounts, vesting balances, escrows and pools
 * hold. It decides whether the assertion of the maintenance holds.
 */
module LedgerLaw {
  import opened Wrappers
  import opened Budgets
  import opened LedgerSpec

  // ---- sums over tables ----

  lemma SumAppend<T>(s: seq<T>, x: T, f: T -> int)
    ensures Sum(s + [x], f) == Sum(s, f) + f(x)
  {
    assert (s + [x])[..|s|] == s;
  }

  lemma {:induction false} SumUpdate<T>(s: seq<T>, k: nat, x: T, f: T -> int)
    requires k < |s|
    ensures Sum(s[k := x], f) == Sum(s, f) - f(s[k]) + f(x)
  {
    var n := |s| - 1;
    if k == n {
      assert s[k := x][..n] == s[..n];
    } else {
      SumUpdate(s[..n], k, x, f);
      assert s[k := x][..n] == s[..n][k := x];
    }
  }

  // ---- the two sides of the law ----

  function CoreVesting(v: Vesting): int { CoreOf(v.balance) }
  function CoreContent(c: Content): int { CoreOf(c.escrow) }
  function CoreBuying(b: Buying): int { CoreOf(b.escrow) }
  function StrayVesting(v: Vesting): int { StrayOf(v.balance) }
  function StrayContent(c: Content): int { StrayOf(c.escrow) }
  function StrayBuying(b: Buying): int { StrayOf(b.escrow) }

  /** The core asset that is held anywhere. */
  function CoreSupply(l: Ledger): int {
    Sum(l.balances, CoreBalance) + Sum(l.vestings, CoreVesting)
    + Sum(l.contents, CoreContent) + Sum(l.buyings, CoreBuying) + Sum(l.assets, CorePool)
  }

  /** Amounts of other assets in vesting balances and escrows. */
  function Stray(l: Ledger): int {
    Sum(l.vestings, StrayVesting) + Sum(l.contents, StrayContent) + Sum(l.buyings, StrayBuying)
  }

  /** The supply record and what maintenance will add to it. */
  function Recorded(l: Ledger): int
    requires 0 < |l.assets|
  {
    l.assets[CORE].supply + l.budget.mined + l.budget.fromFees - l.budget.unspent - l.assets[CORE].pool
  }

  /** How far the record is from the core asset that is held. */
  function Gap(l: Ledger): int
    requires 0 < |l.assets|
  {
    Recorded(l) - CoreSupply(l)
  }

  lemma {:induction false} SumSplit<T>(s: seq<T>, f: T -> int, g: T -> int, h: T -> int)
    requires forall x :: f(x) == g(x) + h(x)
    ensures Sum(s, f) == Sum(s, g) + Sum(s, h)
  {
    if |s| > 0 { SumSplit(s[..|s| - 1], f, g, h); }
  }

  /** get_real_supply counts the stray amounts as if they were core coins. */
  lemma RealSupplyCounts(l: Ledger)
    ensures RealSupply(l) == CoreSupply(l) + Stray(l)
  {
    SumSplit(l.vestings, VestingAmount, CoreVesting, StrayVesting);
    SumSplit(l.contents, ContentAmount, CoreContent, StrayContent);
    SumSplit(l.buyings, BuyingAmount, CoreBuying, StrayBuying);
  }

  // ---- what every step keeps ----

  /**
   * No balance is negative; a content's escrow is in the core asset; a purchase that is neither
   * delivered nor expired holds in escrow what its authors will be paid.
   */
  ghost predicate Sound(l: Ledger) {
    && 0 < |l.assets|
    && (forall i :: 0 <= i < |l.balances| ==> l.balances[i].amount >= 0)
    && (forall i :: 0 <= i < |l.contents| ==> l.contents[i].escrow.asset == CORE)
    && (forall i :: 0 <= i < |l.buyings| ==> BuyingSound(l.buyings[i]))
  }

  predicate BuyingSound(b: Buying) {
    !b.delivered && !b.expired ==> b.escrow == b.paid
  }

  // ---- the primitive changes ----

  lemma AdjustLaw(l: Ledger, owner: AccountId, delta: Coin)
    requires Sound(l) && Adjust(l, owner, delta).Some?
    ensures var l1 := Adjust(l, owner, delta).value;
            l1 == l.(balances := l1.balances) && Sound(l1) && Gap(l1) == Gap(l) - CoreOf(delta)
  {
    if delta.amount != 0 {
      var k := Find(l.balances, owner, delta.asset);
      if k == |l.balances| {
        SumAppend(l.balances, Balance(owner, delta.asset, delta.amount), CoreBalance);
      } else {
        SumUpdate(l.balances, k, l.balances[k].(amount := l.balances[k].amount + delta.amount), CoreBalance);
      }
    }
  }

  lemma MoveLaw(l: Ledger, from: AccountId, to: AccountId, amount: Coin)
    requires Sound(l) && Move(l, from, to, amount).Some?
    ensures var l1 := Move(l, from, to, amount).value;
            l1 == l.(balances := l1.balances) && Sound(l1) && Gap(l1) == Gap(l)
  {
    AdjustLaw(l, from, Negated(amount));
    AdjustLaw(Adjust(l, from, Negated(amount)).value, to, amount);
  }

  lemma SetVestingLaw(l: Ledger, k: nat, v: Vesting)
    requires Sound(l) && k < |l.vestings|
    ensures var l1 := SetVesting(l, k, v);
            Sound(l1) && Gap(l1) == Gap(l) + CoreOf(l.vestings[k].balance) - CoreOf(v.balance)
  {
    SumUpdate(l.vestings, k, v, CoreVesting);
  }

  lemma AddVestingLaw(l: Ledger, v: Vesting)
    requires Sound(l)
    ensures var l1 := l.(vestings := l.vestings + [v]); Sound(l1) && Gap(l1) == Gap(l) - CoreOf(v.balance)
  {
    SumAppend(l.vestings, v, CoreVesting);
  }

  lemma SetContentLaw(l: Ledger, k: nat, c: Content)
    requires Sound(l) && k < |l.contents| && c.escrow.asset == CORE
    ensures var l1 := SetContent(l, k, c);
            Sound(l1) && Gap(l1) == Gap(l) + l.contents[k].escrow.amount - c.escrow.amount
  {
    SumUpdate(l.contents, k, c, CoreContent);
  }

  lemma AddContentLaw(l: Ledger, c: Content)
    requires Sound(l) && c.escrow.asset == CORE
    ensures var l1 := l.(contents := l.contents + [c]); Sound(l1) && Gap(l1) == Gap(l) - c.escrow.amount
  {
    SumAppend(l.contents, c, CoreContent);
  }

  lemma SetBuyingLaw(l: Ledger, k: nat, b: Buying)
    requires Sound(l) && k < |l.buyings| && BuyingSound(b)
    ensures var l1 := SetBuying(l, k, b);
            Sound(l1) && Gap(l1) == Gap(l) + CoreOf(l.buyings[k].escrow) - CoreOf(b.escrow)
  {
    SumUpdate(l.buyings, k, b, CoreBuying);
  }

  lemma AddBuyingLaw(l: Ledger, b: Buying)
    requires Sound(l) && BuyingSound(b)
    ensures var l1 := l.(buyings := l.buyings + [b]); Sound(l1) && Gap(l1) == Gap(l) - CoreOf(b.escrow)
  {
    SumAppend(l.buyings, b, CoreBuying);
  }

  /** What an asset's record adds to the gap. */
  function Record(id: AssetId, a: Asset): int { (if id == CORE then a.supply - a.pool else 0) - a.corePool }

  lemma SetAssetLaw(l: Ledger, id: AssetId, a: Asset)
    requires Sound(l) && id < |l.assets|
    ensures var l1 := SetAsset(l, id, a);
            Sound(l1) && Gap(l1) == Gap(l) - Record(id, l.assets[id]) + Record(id, a)
  {
    SumUpdate(l.assets, id, a, CorePool);
  }

  lemma AddAssetLaw(l: Ledger, a: Asset)
    requires Sound(l)
    ensures var l1 := AddAsset(l, a); Sound(l1) && Gap(l1) == Gap(l) - a.corePool
  {
    SumAppend(l.assets, a, CorePool);
  }

  // ---- paying the authors ----

  lemma {:induction false} PayPartsLaw(l: Ledger, paid: Coin, coAuthors: Split, k: nat, left: int)
    requires Sound(l) && k <= |coAuthors| && PayParts(l, paid, coAuthors, k, left).Some?
    ensures var (l1, rest) := PayParts(l, paid, coAuthors, k, left).value;
            && l1 == l.(balances := l1.balances) && Sound(l1)
            && Gap(l1) == Gap(l) - CoreOf(Coin(left - rest, paid.asset))
    decreases |coAuthors| - k
  {
    if k < |coAuthors| {
      var part := Part(paid.amount, coAuthors[k].1);
      AdjustLaw(l, coAuthors[k].0, Coin(part, paid.asset));
      PayPartsLaw(Adjust(l, coAuthors[k].0, Coin(part, paid.asset)).value, paid, coAuthors, k + 1, left - part);
    }
  }

  /** Whatever the split, the authors together receive exactly what was paid. */
  lemma PayoutLaw(l: Ledger, paid: Coin, author: AccountId, coAuthors: Split)
    requires Sound(l) && Payout(l, paid, author, coAuthors).Some?
    ensures var l1 := Payout(l, paid, author, coAuthors).value;
            l1 == l.(balances := l1.balances) && Sound(l1) && Gap(l1) == Gap(l) - CoreOf(paid)
  {
    if |coAuthors| == 0 {
      AdjustLaw(l, author, paid);
    } else {
      PayPartsLaw(l, paid, coAuthors, 0, paid.amount);
      var (l1, left) := PayParts(l, paid, coAuthors, 0, paid.amount).value;
      if left > 0 { AdjustLaw(l1, author, Coin(left, paid.asset)); }
    }
  }

  // ---- conversion ----

  /** A user-issued asset's pools make up for what is converted; a monitored one mints or burns. */
  lemma ConvertLaw(l: Ledger, id: AssetId, from: Coin, m: Market)
    requires Sound(l) && id < |l.assets| && from.amount >= 0 && Convert(l, id, from, m).Some?
    ensures var (l1, to) := Convert(l, id, from, m).value;
            && l1 == l.(assets := l1.assets) && |l1.assets| == |l.assets| && Sound(l1)
            && (forall i :: 0 <= i < |l.assets| ==> l1.assets[i].monitored == l.assets[i].monitored)
            && (id != CORE && l.assets[id].monitored ==> l1 == l)
            && (id == CORE || !l.assets[id].monitored ==> Gap(l1) == Gap(l) - CoreOf(from) + CoreOf(to))
  {
    if id != CORE && !l.assets[id].monitored {
      SetAssetLaw(l, id, ConvertUserIssued(l, id, from, m).value.0.assets[id]);
    }
  }

  // ---- operations ----

  /** Core coins that are turned into a monitored asset. */
  function Burnt(l: Ledger, paid: Coin, offered: AssetId, wanted: AssetId, m: Market): int
    requires wanted < |l.assets|
  {
    if offered == wanted || wanted == CORE || !l.assets[wanted].monitored then 0
    else if paid.asset == CORE then paid.amount
    else if paid.amount >= 0 then m.toCore(paid.asset, paid.amount) else 0
  }

  /** What an operation lets the record drift from the core asset that is held. */
  function Drift(l: Ledger, fee: Coin, op: Op, m: Market): int
    requires Applicable(l, op)
  {
    match op
    case CreateAsset(_, _, _, _) =>
      // half the fee is kept for the new asset's pool, rounded up; a converted fee only pays for the other half
      if fee.asset == CORE then -(fee.amount % 2)
      else if fee.amount >= 0 then 0 - FeeShare(op, m.toCore(fee.asset, fee.amount)) else 0
    case RequestToBuy(_, k, price, subscriber) =>
      // core coins spent on a monitored asset leave the supply
      if subscriber then 0 else Burnt(l, price, price.asset, l.contents[k].price.asset, m)
    case _ => 0
  }

  lemma ExchangeLaw(l: Ledger, paid: Coin, offered: AssetId, wanted: AssetId, m: Market)
    requires Sound(l) && paid.amount >= 0 && paid.asset < |l.assets| && wanted < |l.assets|
    requires paid.asset == CORE || paid.asset == offered
    requires paid.asset == CORE || offered == wanted || !l.assets[paid.asset].monitored
    requires Exchange(l, paid, offered, wanted, m).Some?
    ensures var (l1, after) := Exchange(l, paid, offered, wanted, m).value;
            && Sound(l1) && l1 == l.(assets := l1.assets)
            && Gap(l1) == Gap(l) - CoreOf(paid) + CoreOf(after) + Burnt(l, paid, offered, wanted, m)
  {
    if wanted != offered {
      ConvertLaw(l, paid.asset, paid, m);
      var (l1, dct) := Convert(l, paid.asset, paid, m).value;
      ConvertLaw(l1, wanted, dct, m);
    }
  }

  lemma RecordBuyLaw(l: Ledger, b: Buying, consumer: AccountId, paid: Coin)
    requires Sound(l) && BuyingSound(b) && Adjust(l.(buyings := l.buyings + [b]), consumer, Negated(paid)).Some?
    ensures var l1 := Adjust(l.(buyings := l.buyings + [b]), consumer, Negated(paid)).value;
            Sound(l1) && Gap(l1) == Gap(l) + CoreOf(paid) - CoreOf(b.escrow)
  {
    AddBuyingLaw(l, b);
    AdjustLaw(l.(buyings := l.buyings + [b]), consumer, Negated(paid));
  }

  lemma FinishBuyLaw(l: Ledger, consumer: AccountId, k: nat, content: Content, paid: Coin, after: Coin)
    requires Sound(l) && FinishBuy(l, consumer, k, content, paid, after).Some?
    ensures var l1 := FinishBuy(l, consumer, k, content, paid, after).value;
            Sound(l1) && Gap(l1) == Gap(l) + CoreOf(paid) - CoreOf(after)
  {
    var simple := |content.keyParts| == 0;
    var b := Buying(consumer, k, if simple then Coin(0, CORE) else after, after, {}, simple, false, l.now + 24 * 3600);
    RecordBuyLaw(l, b, consumer, paid);
    if simple {
      PayoutLaw(Adjust(l.(buyings := l.buyings + [b]), consumer, Negated(paid)).value, after, content.author, content.coAuthors);
    }
  }

  lemma BuyLaw(l: Ledger, consumer: AccountId, k: nat, price: Coin, subscriber: bool, m: Market)
    requires Sound(l) && k < |l.contents| && price.amount >= 0 && price.asset < |l.assets| && l.contents[k].price.asset < |l.assets|
    requires subscriber || price.asset == CORE || price.asset == l.contents[k].price.asset || !l.assets[price.asset].monitored
    requires Buy(l, consumer, k, price, subscriber, m).Some?
    ensures var l1 := Buy(l, consumer, k, price, subscriber, m).value;
            var paid := if subscriber then Coin(0, CORE) else price;
            Sound(l1) && Gap(l1) == Gap(l) + Burnt(l, paid, price.asset, l.contents[k].price.asset, m)
  {
    var content := l.contents[k];
    var paid := if subscriber then Coin(0, CORE) else price;
    ExchangeLaw(l, paid, price.asset, content.price.asset, m);
    var (l1, after) := Exchange(l, paid, price.asset, content.price.asset, m).value;
    FinishBuyLaw(l1, consumer, k, content, paid, after);
  }

  lemma ExpireBuyingLaw(l: Ledger, k: nat)
    requires Sound(l) && k < |l.buyings| && ExpireBuying(l, k).Some?
    ensures var l1 := ExpireBuying(l, k).value; Sound(l1) && Gap(l1) == Gap(l)
  {
    var b := l.buyings[k];
    AdjustLaw(l, b.consumer, b.escrow);
    SetBuyingLaw(Adjust(l, b.consumer, b.escrow).value, k, b.(escrow := b.escrow.(amount := 0), expired := true));
  }

  lemma DeliverLaw(l: Ledger, seeder: AccountId, k: nat)
    requires Sound(l) && k < |l.buyings| && l.buyings[k].content < |l.contents| && Deliver(l, seeder, k).Some?
    ensures var l1 := Deliver(l, seeder, k).value; Sound(l1) && Gap(l1) == Gap(l)
  {
    var b := l.buyings[k].(answered := l.buyings[k].answered + {seeder});
    var content := l.contents[b.content];
    assert BuyingSound(l.buyings[k]);
    SetBuyingLaw(l, k, b);
    var l1 := SetBuying(l, k, b);
    if b.delivered || b.expired {
    } else if |b.answered| >= content.quorum {
      PayoutLaw(l1, b.paid, content.author, content.coAuthors);
      var l2 := Payout(l1, b.paid, content.author, content.coAuthors).value;
      SetBuyingLaw(l2, k, b.(escrow := b.escrow.(amount := 0), delivered := true));
    } else if b.expiration < l.now {
      ExpireBuyingLaw(l1, k);
    }
  }

  lemma ProveLaw(l: Ledger, seeder: AccountId, k: nat)
    requires Sound(l) && k < |l.contents| && Prove(l, seeder, k).Some?
    ensures var l1 := Prove(l, seeder, k).value; Sound(l1) && Gap(l1) == Gap(l)
  {
    var c := l.contents[k];
    var l1 := Prove(l, seeder, k).value;
    if seeder !in c.lastProof {
      SetContentLaw(l, k, c.(lastProof := c.lastProof[seeder := l.now]));
    } else {
      var c' := l1.contents[k];
      SetContentLaw(l, k, c');
      AdjustLaw(SetContent(l, k, c'), seeder, Coin(c.escrow.amount - c'.escrow.amount, CORE));
    }
  }

  lemma MovePoolsLaw(l: Ledger, account: AccountId, uia: Coin, dct: int)
    requires Sound(l) && uia.asset < |l.assets| && MovePools(l, account, uia, dct).Some?
    ensures var l1 := MovePools(l, account, uia, dct).value; Sound(l1) && Gap(l1) == Gap(l)
  {
    AdjustTwiceLaw(l, account, Negated(uia), Coin(-dct, CORE));
    var l2 := MovedCoins(l, account, uia, dct);
    PoolsLaw(l2, uia, dct);
  }

  lemma MovedCoins(l: Ledger, account: AccountId, uia: Coin, dct: int) returns (l2: Ledger)
    requires uia.asset < |l.assets| && MovePools(l, account, uia, dct).Some?
    ensures Adjust(l, account, Negated(uia)).Some?
    ensures Adjust(Adjust(l, account, Negated(uia)).value, account, Coin(-dct, CORE)) == Some(l2)
    ensures l2.assets == l.assets
    ensures var a := l2.assets[uia.asset];
            MovePools(l, account, uia, dct).value
            == SetAsset(l2, uia.asset, a.(pool := a.pool + uia.amount, corePool := a.corePool + dct))
  {
    l2 := Adjust(Adjust(l, account, Negated(uia)).value, account, Coin(-dct, CORE)).value;
  }

  lemma PoolsLaw(l: Ledger, uia: Coin, dct: int)
    requires Sound(l) && uia.asset < |l.assets|
    ensures var a := l.assets[uia.asset];
            var l1 := SetAsset(l, uia.asset, a.(pool := a.pool + uia.amount, corePool := a.corePool + dct));
            Sound(l1) && Gap(l1) == Gap(l) - CoreOf(uia) - dct
  {
    var a := l.assets[uia.asset];
    SetAssetLaw(l, uia.asset, a.(pool := a.pool + uia.amount, corePool := a.corePool + dct));
  }

  lemma AdjustTwiceLaw(l: Ledger, account: AccountId, c: Coin, d: Coin)
    requires Sound(l) && Adjust(l, account, c).Some? && Adjust(Adjust(l, account, c).value, account, d).Some?
    ensures var l1 := Adjust(Adjust(l, account, c).value, account, d).value;
            l1 == l.(balances := l1.balances) && Sound(l1) && Gap(l1) == Gap(l) - CoreOf(c) - CoreOf(d)
  {
    AdjustLaw(l, account, c);
    AdjustLaw(Adjust(l, account, c).value, account, d);
  }

  lemma PayContentLaw(l: Ledger, from: AccountId, k: nat, amount: Coin)
    requires Sound(l) && k < |l.contents| && PayContent(l, from, k, amount).Some?
    ensures var l1 := PayContent(l, from, k, amount).value; Sound(l1) && Gap(l1) == Gap(l)
  {
    AdjustLaw(l, from, Negated(amount));
    PayoutLaw(Adjust(l, from, Negated(amount)).value, amount, l.contents[k].author, l.contents[k].coAuthors);
  }

  lemma VestLaw(l: Ledger, creator: AccountId, owner: AccountId, amount: Coin, seconds: Option<nat>)
    requires Sound(l) && Vest(l, creator, owner, amount, seconds).Some?
    ensures var l1 := Vest(l, creator, owner, amount, seconds).value; Sound(l1) && Gap(l1) == Gap(l)
  {
    AdjustLaw(l, creator, Negated(amount));
    AddVestingLaw(Adjust(l, creator, Negated(amount)).value, Vesting(owner, amount, seconds));
  }

  lemma WithdrawLaw(l: Ledger, owner: AccountId, k: nat, amount: Coin)
    requires Sound(l) && k < |l.vestings| && l.vestings[k].balance.asset == amount.asset && Withdraw(l, owner, k, amount).Some?
    ensures var l1 := Withdraw(l, owner, k, amount).value; Sound(l1) && Gap(l1) == Gap(l)
  {
    var v := l.vestings[k];
    var v1 := v.(balance := Coin(v.balance.amount - amount.amount, amount.asset));
    SetVestingLaw(l, k, v1);
    AdjustLaw(SetVesting(l, k, v1), owner, amount);
  }

  lemma ChangeSupplyLaw(l: Ledger, account: AccountId, amount: Coin)
    requires Sound(l) && amount.asset < |l.assets| && ChangeSupply(l, account, amount).Some?
    ensures var l1 := ChangeSupply(l, account, amount).value; Sound(l1) && Gap(l1) == Gap(l)
  {
    var a := l.assets[amount.asset];
    AdjustLaw(l, account, amount);
    SetAssetLaw(Adjust(l, account, amount).value, amount.asset, a.(supply := a.supply + amount.amount));
  }

  lemma SubmitLaw(l: Ledger, c: Content)
    requires Sound(l) && c.escrow.asset == CORE && Submit(l, c).Some?
    ensures var l1 := Submit(l, c).value; Sound(l1) && Gap(l1) == Gap(l)
  {
    AddContentLaw(l, c);
    AdjustLaw(l.(contents := l.contents + [c]), c.author, Negated(c.escrow));
  }

  /** What the drift needs of the checks that were made before the fee was routed. */
  predicate Checked(l: Ledger, op: Op) {
    && Applicable(l, op)
    && match op
       case SubmitContent(_, _, _, _, _, _, _, fee) => fee.asset == CORE
       case WithdrawVesting(_, k, amount, _) => l.vestings[k].balance.asset == amount.asset
       case RequestToBuy(_, k, price, subscriber) =>
         subscriber || price.asset == CORE || price.asset == l.contents[k].price.asset || !l.assets[price.asset].monitored
       case _ => true
  }

  /** An operation's own effect, apart from its fee. */
  function OwnDrift(l: Ledger, op: Op, half: nat, m: Market): int
    requires Applicable(l, op)
  {
    if op.CreateAsset? then 0 - half else Drift(l, Coin(0, CORE), op, m)
  }

  lemma ApplyLaw(l: Ledger, op: Op, half: nat, m: Market)
    requires Sound(l) && Checked(l, op) && Apply(l, op, half, m).Some?
    ensures var l1 := Apply(l, op, half, m).value;
            Sound(l1) && Gap(l1) == Gap(l) + OwnDrift(l, op, half, m)
  {
    if AboutContent(op) { ApplyContentLaw(l, op, half, m); } else { ApplyCoinsLaw(l, op, half, m); }
  }

  predicate AboutContent(op: Op) {
    op.SubmitContent? || op.ResubmitContent? || op.RequestToBuy? || op.DeliverKeys? || op.ProveCustody? || op.TransferToContent?
  }

  lemma ApplyContentLaw(l: Ledger, op: Op, half: nat, m: Market)
    requires AboutContent(op) && Sound(l) && Checked(l, op) && Apply(l, op, half, m).Some?
    ensures var l1 := Apply(l, op, half, m).value;
            Sound(l1) && Gap(l1) == Gap(l) + OwnDrift(l, op, half, m)
  {
    match op
    case TransferToContent(from, k, amount) => PayContentLaw(l, from, k, amount);
    case SubmitContent(_, _, _, _, _, _, _, _) => ApplySubmitLaw(l, op, half, m);
    case ResubmitContent(_, _, _, _) => ApplyResubmitLaw(l, op, half, m);
    case RequestToBuy(_, _, _, _) => ApplyBuyLaw(l, op, half, m);
    case DeliverKeys(seeder, k) => DeliverLaw(l, seeder, k);
    case ProveCustody(seeder, k) => ProveLaw(l, seeder, k);
  }

  lemma ApplySubmitLaw(l: Ledger, op: Op, half: nat, m: Market)
    requires op.SubmitContent? && Sound(l) && Checked(l, op) && Apply(l, op, half, m).Some?
    ensures var l1 := Apply(l, op, half, m).value; Sound(l1) && Gap(l1) == Gap(l) + OwnDrift(l, op, half, m)
  {
    SubmitLaw(l, NewContent(l, op));
  }

  lemma ApplyResubmitLaw(l: Ledger, op: Op, half: nat, m: Market)
    requires op.ResubmitContent? && Sound(l) && Checked(l, op) && Apply(l, op, half, m).Some?
    ensures var l1 := Apply(l, op, half, m).value; Sound(l1) && Gap(l1) == Gap(l) + OwnDrift(l, op, half, m)
  {
    SetContentLaw(l, op.content, l.contents[op.content].(coAuthors := op.coAuthors, price := op.price));
  }

  lemma ApplyBuyLaw(l: Ledger, op: Op, half: nat, m: Market)
    requires op.RequestToBuy? && Sound(l) && Checked(l, op) && Apply(l, op, half, m).Some?
    ensures var l1 := Apply(l, op, half, m).value; Sound(l1) && Gap(l1) == Gap(l) + OwnDrift(l, op, half, m)
  {
    BuyLaw(l, op.consumer, op.content, op.price, op.subscriber, m);
    BuyDrift(l, op, half, m);
  }

  lemma BuyDrift(l: Ledger, op: Op, half: nat, m: Market)
    requires op.RequestToBuy? && Applicable(l, op)
    ensures OwnDrift(l, op, half, m)
         == Burnt(l, if op.subscriber then Coin(0, CORE) else op.price, op.price.asset, l.contents[op.content].price.asset, m)
  {
  }

  lemma ApplyCoinsLaw(l: Ledger, op: Op, half: nat, m: Market)
    requires !AboutContent(op) && Sound(l) && Checked(l, op) && Apply(l, op, half, m).Some?
    ensures var l1 := Apply(l, op, half, m).value;
            Sound(l1) && Gap(l1) == Gap(l) + OwnDrift(l, op, half, m)
  {
    if AboutAssets(op) {
      ApplyAssetsLaw(l, op, half, m);
    } else {
      match op
      case Transfer(from, to, amount) => MoveLaw(l, from, to, amount);
      case CreateVesting(creator, owner, amount, seconds) => VestLaw(l, creator, owner, amount, seconds);
      case WithdrawVesting(owner, k, amount, _) => WithdrawLaw(l, owner, k, amount);
      case PublishSeeder(_, _) =>
    }
  }

  predicate AboutAssets(op: Op) {
    op.IssueAsset? || op.ReserveAsset? || op.FundPools? || op.ClaimFees? || op.CreateAsset?
  }

  lemma ApplyAssetsLaw(l: Ledger, op: Op, half: nat, m: Market)
    requires AboutAssets(op) && Sound(l) && Checked(l, op) && Apply(l, op, half, m).Some?
    ensures var l1 := Apply(l, op, half, m).value;
            Sound(l1) && Gap(l1) == Gap(l) + OwnDrift(l, op, half, m)
  {
    if op.FundPools? || op.ClaimFees? {
      ApplyPoolsLaw(l, op, half, m);
    } else {
      match op
      case IssueAsset(_, to, amount) => ChangeSupplyLaw(l, to, amount);
      case ReserveAsset(payer, amount) => ChangeSupplyLaw(l, payer, Negated(amount));
      case CreateAsset(issuer, monitored, exchangeable, maxSupply) =>
        AddAssetLaw(l, Asset(issuer, monitored, exchangeable, maxSupply, 0, 0, half));
    }
  }

  lemma ApplyPoolsLaw(l: Ledger, op: Op, half: nat, m: Market)
    requires (op.FundPools? || op.ClaimFees?) && Sound(l) && Checked(l, op) && Apply(l, op, half, m).Some?
    ensures var l1 := Apply(l, op, half, m).value; Sound(l1) && Gap(l1) == Gap(l) + OwnDrift(l, op, half, m)
  {
    match op
    case FundPools(from, uia, dct) => MovePoolsLaw(l, from, uia, dct);
    case ClaimFees(issuer, uia, dct) => MovePoolsLaw(l, issuer, Negated(uia), -dct);
  }

  /** The fee's route into the pools, before its payer is charged. */
  lemma FeeLaw(l: Ledger, fee: Coin, share: nat)
    requires Sound(l) && fee.asset < |l.assets|
    ensures var l1 := PayFee(ConvertFee(l, fee, share), share);
            && l1 == l.(assets := l1.assets) && |l1.assets| == |l.assets| && Sound(l1)
            && (forall i :: 0 <= i < |l.assets| ==> l1.assets[i].monitored == l.assets[i].monitored)
            && Gap(l1) == Gap(l) - (if fee.asset == CORE then share else 0)
  {
    ConvertFeeLaw(l, fee, share);
    PayFeeLaw(ConvertFee(l, fee, share), share);
  }

  lemma ConvertFeeLaw(l: Ledger, fee: Coin, share: nat)
    requires Sound(l) && fee.asset < |l.assets|
    ensures var l1 := ConvertFee(l, fee, share);
            && l1 == l.(assets := l1.assets) && |l1.assets| == |l.assets| && Sound(l1)
            && (forall i :: 0 <= i < |l.assets| ==> l1.assets[i].monitored == l.assets[i].monitored)
            && Gap(l1) == Gap(l) + (if fee.asset == CORE then 0 else share)
  {
    if fee.asset != CORE {
      var a := l.assets[fee.asset];
      SetAssetLaw(l, fee.asset, a.(pool := a.pool + fee.amount, corePool := a.corePool - share));
    }
  }

  lemma PayFeeLaw(l: Ledger, share: nat)
    requires Sound(l)
    ensures var l1 := PayFee(l, share);
            && l1 == l.(assets := l1.assets) && |l1.assets| == |l.assets| && Sound(l1)
            && (forall i :: 0 <= i < |l.assets| ==> l1.assets[i].monitored == l.assets[i].monitored)
            && Gap(l1) == Gap(l) - share
  {
    SetAssetLaw(l, CORE, l.assets[CORE].(pool := l.assets[CORE].pool + share));
  }

  lemma ChecksSurviveFee(l: Ledger, l1: Ledger, op: Op, m: Market)
    requires Evaluates(l, op, m) && l1 == l.(assets := l1.assets) && |l1.assets| == |l.assets| > 0
    requires forall i :: 0 <= i < |l.assets| ==> l1.assets[i].monitored == l.assets[i].monitored
    ensures Applicable(l, op) && Checked(l1, op)
    ensures op.RequestToBuy? ==> forall fee :: Drift(l1, fee, op, m) == Drift(l, fee, op, m)
  {
  }

  /** The state an operation is applied to, once its fee is in the pools. */
  function Routed(l: Ledger, fee: Coin, op: Op, m: Market): Ledger
    requires 0 < |l.assets| && PrepareFee(l, fee, m).Some?
  {
    var share := FeeShare(op, PrepareFee(l, fee, m).value);
    PayFee(ConvertFee(l, fee, share), share)
  }

  lemma RoutedLaw(l: Ledger, fee: Coin, op: Op, m: Market)
    requires Sound(l) && PrepareFee(l, fee, m).Some? && Evaluates(l, op, m)
    ensures var l1 := Routed(l, fee, op, m);
            && Applicable(l, op) && Sound(l1) && Checked(l1, op) && l1 == l.(assets := l1.assets)
            && Gap(l1) + OwnDrift(l1, op, FeeShare(op, PrepareFee(l, fee, m).value), m) + CoreOf(fee)
               == Gap(l) + Drift(l, fee, op, m)
  {
    var share := FeeShare(op, PrepareFee(l, fee, m).value);
    FeeLaw(l, fee, share);
    ChecksSurviveFee(l, Routed(l, fee, op, m), op, m);
  }

  /** Every operation, with its fee, moves the gap by its drift and by nothing else. */
  lemma PerformLaw(l: Ledger, payer: AccountId, fee: Coin, op: Op, m: Market)
    requires Sound(l) && Perform(l, payer, fee, op, m).Some?
    ensures var l1 := Perform(l, payer, fee, op, m).value;
            Applicable(l, op) && Sound(l1) && Gap(l1) == Gap(l) + Drift(l, fee, op, m)
  {
    var share := FeeShare(op, PrepareFee(l, fee, m).value);
    RoutedLaw(l, fee, op, m);
    var l1 := Routed(l, fee, op, m);
    ApplyLaw(l1, op, share, m);
    AdjustLaw(Apply(l1, op, share, m).value, payer, Negated(fee));
  }

  // ---- miners and maintenance ----

  lemma DepositLazyLaw(l: Ledger, existing: Option<nat>, amount: int, seconds: nat, owner: AccountId)
    requires Sound(l) && DepositLazy(l, existing, amount, seconds, owner).Some?
    ensures var (l1, _) := DepositLazy(l, existing, amount, seconds, owner).value;
            Sound(l1) && Gap(l1) == Gap(l) - amount
  {
    if amount != 0 {
      if existing.Some? && l.vestings[existing.value].owner == owner && l.vestings[existing.value].seconds == Some(seconds) {
        var v := l.vestings[existing.value];
        SetVestingLaw(l, existing.value, v.(balance := Coin(v.balance.amount + amount, CORE)));
      } else {
        AddVestingLaw(l, Vesting(owner, Coin(amount, CORE), Some(seconds)));
      }
    }
  }

  lemma DrawLaw(l: Ledger, budget: Budget)
    requires Sound(l) && budget.fromFees == l.budget.fromFees
    ensures var l1 := l.(budget := budget);
            Sound(l1) && Gap(l1) == Gap(l) + budget.mined - l.budget.mined + l.budget.unspent - budget.unspent
  {
  }

  lemma PayMinerLaw(l: Ledger, miner: MinerId, account: AccountId, seconds: nat, interval: nat)
    requires Sound(l) && interval > 0 && PayMiner(l, miner, account, seconds, interval).Some?
    ensures var l1 := PayMiner(l, miner, account, seconds, interval).value; Sound(l1) && Gap(l1) == Gap(l)
  {
    var reward := RewardAt(l.height);
    var budget := Paid(l.budget, reward, interval);
    var amount := l.budget.unspent - budget.unspent + reward;
    DrawLaw(l, budget);
    DepositLazyLaw(l.(budget := budget), PayOf(l, miner), amount, seconds, account);
  }

  lemma ExpireContentLaw(l: Ledger, k: nat)
    requires Sound(l) && k < |l.contents| && ExpireContent(l, k).Some?
    ensures var l1 := ExpireContent(l, k).value; Sound(l1) && Gap(l1) == Gap(l)
  {
    var c := l.contents[k];
    var owner := if c.escrow.amount >= 0 then c.author else RESCUER;
    AdjustLaw(l, owner, c.escrow);
    SetContentLaw(Adjust(l, owner, c.escrow).value, k, c.(escrow := c.escrow.(amount := 0)));
  }

  lemma {:induction false} ExpireContentsLaw(l: Ledger, order: seq<nat>, interval: nat)
    requires Sound(l) && ExpireContents(l, order, interval).Some?
    ensures var l1 := ExpireContents(l, order, interval).value; Sound(l1) && Gap(l1) == Gap(l)
    decreases |order|
  {
    if |order| > 0 {
      var k := order[0];
      if k < |l.contents| && InWindow(l, l.contents[k].expiration, interval) {
        ExpireContentLaw(l, k);
        ExpireContentsLaw(ExpireContent(l, k).value, order[1..], interval);
      } else {
        ExpireContentsLaw(l, order[1..], interval);
      }
    }
  }

  lemma {:induction false} ExpireBuyingsLaw(l: Ledger, order: seq<nat>, interval: nat)
    requires Sound(l) && ExpireBuyings(l, order, interval).Some?
    ensures var l1 := ExpireBuyings(l, order, interval).value; Sound(l1) && Gap(l1) == Gap(l)
    decreases |order|
  {
    if |order| > 0 {
      var k := order[0];
      if k < |l.buyings| && InWindow(l, l.buyings[k].expiration, interval) && !l.buyings[k].delivered {
        ExpireBuyingLaw(l, k);
        ExpireBuyingsLaw(ExpireBuying(l, k).value, order[1..], interval);
      } else {
        ExpireBuyingsLaw(l, order[1..], interval);
      }
    }
  }

  lemma {:induction false} RenewLaw(l: Ledger, renewals: seq<Renewal>)
    requires Sound(l) && Renew(l, renewals).Some?
    ensures var l1 := Renew(l, renewals).value; Sound(l1) && Gap(l1) == Gap(l)
    decreases |renewals|
  {
    if |renewals| > 0 {
      var r := renewals[0];
      if r.price.amount <= BalanceOf(l, r.from, r.price.asset) {
        MoveLaw(l, r.from, r.to, r.price);
        RenewLaw(Move(l, r.from, r.to, r.price).value, renewals[1..]);
      } else {
        RenewLaw(l, renewals[1..]);
      }
    }
  }

  /**
   * The budget is rolled over without moving the gap, and its assertion that the new supply record is
   * the real supply holds exactly when the gap is what is held in other assets.
   */
  lemma ProcessBudgetLaw(l: Ledger)
    requires Sound(l)
    ensures var l1 := ProcessBudget(l);
            && Sound(l1) && Gap(l1) == Gap(l)
            && (l1.assets[CORE].supply == RealSupply(l) <==> Gap(l) == Stray(l))
  {
    var core := l.assets[CORE];
    var delta := l.budget.mined + l.budget.fromFees - l.budget.unspent - core.pool;
    SetAssetLaw(l, CORE, core.(supply := core.supply + delta, pool := 0));
    RealSupplyCounts(l);
  }

  lemma MaintainLaw(l: Ledger, listing: Listing, renewals: seq<Renewal>, next: nat, interval: nat)
    requires Sound(l) && Maintain(l, listing, renewals, next, interval).Some?
    ensures var l1 := Maintain(l, listing, renewals, next, interval).value; Sound(l1) && Gap(l1) == Gap(l)
  {
    ExpireContentsLaw(l, listing.contents, interval);
    var l1 := ExpireContents(l, listing.contents, interval).value;
    ExpireBuyingsLaw(l1, listing.buyings, interval);
    var l2 := ExpireBuyings(l1, listing.buyings, interval).value;
    RenewLaw(l2, renewals);
    var l3 := Renew(l2, renewals).value;
    ProcessBudgetLaw(l3.(budget := l3.budget.(nextMaintenance := next)));
  }
}
