/**
 * The conservation law over whole runs, what decides the assertion at maintenance, and what each
 * account receives.
 */
module LedgerRuns {
  import opened Wrappers
  import opened Budgets
  import opened ModularArithmetic
  import opened LedgerSpec
  import opened LedgerLaw

  // ---- what each account receives ----

  /** The first match is what Find gives. */
  lemma {:induction false} FindIs(bs: seq<Balance>, owner: AccountId, asset: AssetId, k: nat)
    requires k <= |bs| && (k < |bs| ==> bs[k].owner == owner && bs[k].asset == asset)
    requires forall i :: 0 <= i < k ==> !(bs[i].owner == owner && bs[i].asset == asset)
    ensures Find(bs, owner, asset) == k
  {
    var f := Find(bs, owner, asset);
  }

  /** An adjustment changes one balance by the amount, and no other. */
  lemma AdjustGives(l: Ledger, owner: AccountId, delta: Coin, who: AccountId, what: AssetId)
    requires Adjust(l, owner, delta).Some?
    ensures BalanceOf(Adjust(l, owner, delta).value, who, what)
            == BalanceOf(l, who, what) + (if who == owner && what == delta.asset then delta.amount else 0)
  {
    var bs := l.balances;
    var k := Find(bs, owner, delta.asset);
    if delta.amount != 0 {
      if k == |bs| {
        FindAppended(bs, Balance(owner, delta.asset, delta.amount), who, what);
      } else {
        FindUpdated(bs, k, bs[k].amount + delta.amount, who, what);
      }
    }
  }

  lemma FindAppended(bs: seq<Balance>, b: Balance, who: AccountId, what: AssetId)
    requires Find(bs, b.owner, b.asset) == |bs|
    ensures var w := Find(bs, who, what);
            Find(bs + [b], who, what) == if w < |bs| || (who == b.owner && what == b.asset) then w else |bs| + 1
  {
    var w := Find(bs, who, what);
    FindIs(bs + [b], who, what, if w < |bs| || (who == b.owner && what == b.asset) then w else |bs| + 1);
  }

  lemma FindUpdated(bs: seq<Balance>, k: nat, amount: int, who: AccountId, what: AssetId)
    requires k < |bs|
    ensures Find(bs[k := bs[k].(amount := amount)], who, what) == Find(bs, who, what)
  {
    FindIs(bs[k := bs[k].(amount := amount)], who, what, Find(bs, who, what));
  }

  /** What an account gets of a payment to co-authors from the k-th on. */
  function PartsFor(paid: int, coAuthors: Split, k: nat, who: AccountId): int
    requires k <= |coAuthors|
    decreases |coAuthors| - k
  {
    if k == |coAuthors| then 0
    else (if coAuthors[k].0 == who then Part(paid, coAuthors[k].1) else 0) + PartsFor(paid, coAuthors, k + 1, who)
  }

  function AllParts(paid: int, coAuthors: Split, k: nat): int
    requires k <= |coAuthors|
    decreases |coAuthors| - k
  {
    if k == |coAuthors| then 0 else Part(paid, coAuthors[k].1) + AllParts(paid, coAuthors, k + 1)
  }

  lemma {:induction false} PayPartsGive(l: Ledger, paid: Coin, coAuthors: Split, k: nat, left: int, who: AccountId, what: AssetId)
    requires k <= |coAuthors| && PayParts(l, paid, coAuthors, k, left).Some?
    ensures var (l1, rest) := PayParts(l, paid, coAuthors, k, left).value;
            && rest == left - AllParts(paid.amount, coAuthors, k)
            && BalanceOf(l1, who, what)
               == BalanceOf(l, who, what) + (if what == paid.asset then PartsFor(paid.amount, coAuthors, k, who) else 0)
    decreases |coAuthors| - k
  {
    if k < |coAuthors| {
      var c := Coin(Part(paid.amount, coAuthors[k].1), paid.asset);
      AdjustGives(l, coAuthors[k].0, c, who, what);
      PayPartsGive(Adjust(l, coAuthors[k].0, c).value, paid, coAuthors, k + 1, left - c.amount, who, what);
    }
  }

  /** Every co-author gets the truncated parts that name it, and the author what they leave. */
  lemma PayoutGives(l: Ledger, paid: Coin, author: AccountId, coAuthors: Split, who: AccountId, what: AssetId)
    requires Payout(l, paid, author, coAuthors).Some?
    ensures BalanceOf(Payout(l, paid, author, coAuthors).value, who, what)
            == BalanceOf(l, who, what)
               + (if what == paid.asset then
                    PartsFor(paid.amount, coAuthors, 0, who)
                    + (if who == author then paid.amount - AllParts(paid.amount, coAuthors, 0) else 0)
                  else 0)
  {
    if |coAuthors| == 0 {
      AdjustGives(l, author, paid, who, what);
    } else {
      PayPartsGive(l, paid, coAuthors, 0, paid.amount, who, what);
      var (l1, left) := PayParts(l, paid, coAuthors, 0, paid.amount).value;
      if left > 0 { AdjustGives(l1, author, Coin(left, paid.asset), who, what); }
    }
  }

  lemma {:induction false} PartsBounded(paid: nat, coAuthors: Split)
    ensures 0 <= AllParts(paid, coAuthors, 0)
    ensures 10000 * AllParts(paid, coAuthors, 0) <= paid * SumOfSplits(coAuthors)
  {
    if |coAuthors| > 0 {
      var front, last := coAuthors[..|coAuthors| - 1], coAuthors[|coAuthors| - 1];
      PartsBounded(paid, front);
      PartsPrefix(paid, coAuthors, 0);
      Distribute(SumOfSplits(front), last.1, paid);
      PartBound(paid, last.1);
    }
  }

  lemma PartBound(paid: nat, bp: nat)
    ensures 0 <= 10000 * Part(paid, bp) <= paid * bp
  {
    assert paid * bp >= 0;
  }

  lemma {:induction false} PartsPrefix(paid: nat, coAuthors: Split, k: nat)
    requires k < |coAuthors|
    ensures AllParts(paid, coAuthors, k)
         == AllParts(paid, coAuthors[..|coAuthors| - 1], k) + Part(paid, coAuthors[|coAuthors| - 1].1)
    decreases |coAuthors| - k
  {
    if k < |coAuthors| - 1 {
      PartsPrefix(paid, coAuthors, k + 1);
    } else {
      assert AllParts(paid, coAuthors, k + 1) == 0;
    }
  }

  lemma {:induction false} PayPartsSucceed(l: Ledger, paid: Coin, coAuthors: Split, k: nat, left: int)
    requires k <= |coAuthors| && paid.amount >= 0
    ensures PayParts(l, paid, coAuthors, k, left).Some?
    decreases |coAuthors| - k
  {
    if k < |coAuthors| {
      PartBound(paid.amount, coAuthors[k].1);
      var c := Coin(Part(paid.amount, coAuthors[k].1), paid.asset);
      PayPartsSucceed(Adjust(l, coAuthors[k].0, c).value, paid, coAuthors, k + 1, left - c.amount);
    }
  }

  /** Splits within the whole never fail: the author's remainder is not negative. */
  lemma PayoutSucceeds(l: Ledger, paid: Coin, author: AccountId, coAuthors: Split)
    requires paid.amount >= 0 && SumOfSplits(coAuthors) <= 10000
    ensures Payout(l, paid, author, coAuthors).Some?
  {
    PayPartsSucceed(l, paid, coAuthors, 0, paid.amount);
    PayPartsGive(l, paid, coAuthors, 0, paid.amount, author, paid.asset);
    PartsBounded(paid.amount, coAuthors);
    Bounded(paid.amount, SumOfSplits(coAuthors), AllParts(paid.amount, coAuthors, 0));
  }

  lemma Bounded(paid: nat, sum: nat, parts: nat)
    requires sum <= 10000 && 10000 * parts <= paid * sum
    ensures parts <= paid
  {
    ProductOrder(sum, 10000, paid);
  }

  // ---- runs ----

  datatype Event =
    | Operate(payer: AccountId, fee: Coin, op: Op, market: Market)
    | Produce(miner: MinerId, account: AccountId, seconds: nat)
    | Maintenance(listing: Listing, renewals: seq<Renewal>, next: nat)
    | Tick(now: nat, height: nat)

  function Outcome(l: Ledger, e: Event, interval: nat): Option<Ledger>
    requires interval > 0
  {
    match e
    case Operate(payer, fee, op, market) => Perform(l, payer, fee, op, market)
    case Produce(miner, account, seconds) => PayMiner(l, miner, account, seconds, interval)
    case Maintenance(listing, renewals, next) => Maintain(l, listing, renewals, next, interval)
    case Tick(now, height) => Some(l.(now := now, height := height))
  }

  /** A transaction or a whole block: all of its events, or an exception. */
  function All(l: Ledger, es: seq<Event>, interval: nat): Option<Ledger>
    requires interval > 0
    decreases |es|
  {
    if |es| == 0 then Some(l)
    else
      var l1 :- Outcome(l, es[0], interval);
      All(l1, es[1..], interval)
  }

  /** What throws is undone as a whole. */
  function Step(l: Ledger, es: seq<Event>, interval: nat): Ledger
    requires interval > 0
  {
    var o := All(l, es, interval);
    if o.Some? then o.value else l
  }

  /** Blocks, and transactions between them, one after the other. */
  function Run(l: Ledger, blocks: seq<seq<Event>>, interval: nat): Ledger
    requires interval > 0
    decreases |blocks|
  {
    if |blocks| == 0 then l else Run(Step(l, blocks[0], interval), blocks[1..], interval)
  }

  function EventDrift(l: Ledger, e: Event): int {
    if e.Operate? && Applicable(l, e.op) then Drift(l, e.fee, e.op, e.market) else 0
  }

  function AllDrift(l: Ledger, es: seq<Event>, interval: nat): int
    requires interval > 0 && All(l, es, interval).Some?
    decreases |es|
  {
    if |es| == 0 then 0
    else EventDrift(l, es[0]) + AllDrift(Outcome(l, es[0], interval).value, es[1..], interval)
  }

  function StepDrift(l: Ledger, es: seq<Event>, interval: nat): int
    requires interval > 0
  {
    if All(l, es, interval).Some? then AllDrift(l, es, interval) else 0
  }

  function RunDrift(l: Ledger, blocks: seq<seq<Event>>, interval: nat): int
    requires interval > 0
    decreases |blocks|
  {
    if |blocks| == 0 then 0
    else StepDrift(l, blocks[0], interval) + RunDrift(Step(l, blocks[0], interval), blocks[1..], interval)
  }

  lemma EventLaw(l: Ledger, e: Event, interval: nat)
    requires interval > 0 && Sound(l) && Outcome(l, e, interval).Some?
    ensures var l1 := Outcome(l, e, interval).value; Sound(l1) && Gap(l1) == Gap(l) + EventDrift(l, e)
  {
    match e
    case Operate(payer, fee, op, market) => PerformLaw(l, payer, fee, op, market);
    case Produce(miner, account, seconds) => PayMinerLaw(l, miner, account, seconds, interval);
    case Maintenance(listing, renewals, next) => MaintainLaw(l, listing, renewals, next, interval);
    case Tick(_, _) =>
  }

  lemma {:induction false} AllLaw(l: Ledger, es: seq<Event>, interval: nat)
    requires interval > 0 && Sound(l) && All(l, es, interval).Some?
    ensures var l1 := All(l, es, interval).value; Sound(l1) && Gap(l1) == Gap(l) + AllDrift(l, es, interval)
    decreases |es|
  {
    if |es| > 0 {
      EventLaw(l, es[0], interval);
      AllLaw(Outcome(l, es[0], interval).value, es[1..], interval);
    }
  }

  /** A transaction or block, accepted or undone, moves the gap by its drift. */
  lemma StepLaw(l: Ledger, es: seq<Event>, interval: nat)
    requires interval > 0 && Sound(l)
    ensures Sound(Step(l, es, interval)) && Gap(Step(l, es, interval)) == Gap(l) + StepDrift(l, es, interval)
  {
    if All(l, es, interval).Some? { AllLaw(l, es, interval); }
  }

  /** Over every run, the gap moves by the drifts of its operations and by nothing else. */
  lemma {:induction false} RunLaw(l: Ledger, blocks: seq<seq<Event>>, interval: nat)
    requires interval > 0 && Sound(l)
    ensures Sound(Run(l, blocks, interval)) && Gap(Run(l, blocks, interval)) == Gap(l) + RunDrift(l, blocks, interval)
    decreases |blocks|
  {
    if |blocks| > 0 {
      StepLaw(l, blocks[0], interval);
      RunLaw(Step(l, blocks[0], interval), blocks[1..], interval);
    }
  }

  // ---- the assertion at maintenance ----

  /** The ledger that the budget is processed on. */
  function BeforeBudget(l: Ledger, listing: Listing, renewals: seq<Renewal>, interval: nat): Option<Ledger> {
    var l1 :- ExpireContents(l, listing.contents, interval);
    var l2 :- ExpireBuyings(l1, listing.buyings, interval);
    Renew(l2, renewals)
  }

  /** process_budget's assertion: the new supply record is the real supply it counted. */
  predicate AssertionHolds(l: Ledger)
    requires 0 < |l.assets|
  {
    ProcessBudget(l).assets[CORE].supply == RealSupply(l)
  }

  lemma BeforeBudgetLaw(l: Ledger, listing: Listing, renewals: seq<Renewal>, interval: nat)
    requires Sound(l) && BeforeBudget(l, listing, renewals, interval).Some?
    ensures var l1 := BeforeBudget(l, listing, renewals, interval).value; Sound(l1) && Gap(l1) == Gap(l)
  {
    ExpireContentsLaw(l, listing.contents, interval);
    var l1 := ExpireContents(l, listing.contents, interval).value;
    ExpireBuyingsLaw(l1, listing.buyings, interval);
    RenewLaw(ExpireBuyings(l1, listing.buyings, interval).value, renewals);
  }

  /**
   * After any run, the assertion of a maintenance holds exactly when the drifts of the run amount to
   * what vesting balances and escrows then hold in other assets.
   */
  lemma AssertionExactly(l: Ledger, blocks: seq<seq<Event>>, listing: Listing, renewals: seq<Renewal>, interval: nat)
    requires interval > 0 && Sound(l) && Gap(l) == 0 && BeforeBudget(Run(l, blocks, interval), listing, renewals, interval).Some?
    ensures var l1 := BeforeBudget(Run(l, blocks, interval), listing, renewals, interval).value;
            && Sound(l1)
            && (AssertionHolds(l1) <==> RunDrift(l, blocks, interval) == Stray(l1))
  {
    RunLaw(l, blocks, interval);
    BeforeBudgetLaw(Run(l, blocks, interval), listing, renewals, interval);
    ProcessBudgetLaw(BeforeBudget(Run(l, blocks, interval), listing, renewals, interval).value);
  }

  /** The ledger of genesis: the whole supply is on one account. */
  function Genesis(supply: nat, holder: AccountId, issuer: AccountId, maxSupply: int): Ledger {
    Ledger([Balance(holder, CORE, supply)], [], [], [], [Asset(issuer, false, true, maxSupply, supply, 0, 0)],
           map[], map[], 0, 0, Budget(0, 0, 0, 0, 0))
  }

  lemma GenesisLaw(supply: nat, holder: AccountId, issuer: AccountId, maxSupply: int)
    ensures var l := Genesis(supply, holder, issuer, maxSupply); Sound(l) && Gap(l) == 0 && AllCore(l)
  {
    var l := Genesis(supply, holder, issuer, maxSupply);
    SumAppend([], Balance(holder, CORE, supply), CoreBalance);
    assert [] + [Balance(holder, CORE, supply)] == l.balances;
    SumAppend([], l.assets[0], CorePool);
    assert [] + [l.assets[0]] == l.assets;
  }

  // ---- operations that keep to the core asset ----

  predicate CorePurchase(b: Buying) { b.escrow.asset == CORE && b.paid.asset == CORE }

  /** Vesting balances, prices and escrows are all in the core asset. */
  ghost predicate AllCore(l: Ledger) {
    && (forall i :: 0 <= i < |l.vestings| ==> l.vestings[i].balance.asset == CORE)
    && (forall i :: 0 <= i < |l.contents| ==> l.contents[i].escrow.asset == CORE && l.contents[i].price.asset == CORE)
    && (forall i :: 0 <= i < |l.buyings| ==> CorePurchase(l.buyings[i]))
  }

  /** Vestings and prices in the core asset; new assets for an even fee in it. */
  predicate CoreOnly(e: Event) {
    e.Operate? ==>
      match e.op
      case CreateVesting(_, _, amount, _) => amount.asset == CORE
      case SubmitContent(_, _, price, _, _, _, _, _) => price.asset == CORE
      case ResubmitContent(_, _, _, price) => price.asset == CORE
      case CreateAsset(_, _, _, _) => e.fee.asset == CORE && e.fee.amount % 2 == 0
      case _ => true
  }

  lemma {:induction false} NothingStray<T>(s: seq<T>, f: T -> int)
    requires forall i :: 0 <= i < |s| ==> f(s[i]) == 0
    ensures Sum(s, f) == 0
  {
    if |s| > 0 { NothingStray(s[..|s| - 1], f); }
  }

  lemma AllCoreNothingStray(l: Ledger)
    requires AllCore(l)
    ensures Stray(l) == 0
  {
    NothingStray(l.vestings, StrayVesting);
    NothingStray(l.contents, StrayContent);
    forall i | 0 <= i < |l.buyings| ensures StrayBuying(l.buyings[i]) == 0 { assert CorePurchase(l.buyings[i]); }
    NothingStray(l.buyings, StrayBuying);
  }

  /** An adjustment leaves everything but balances alone. */
  lemma AdjustFrame(l: Ledger, owner: AccountId, delta: Coin)
    requires Adjust(l, owner, delta).Some?
    ensures var l1 := Adjust(l, owner, delta).value; l1 == l.(balances := l1.balances)
  {
  }

  lemma {:induction false} PayPartsFrame(l: Ledger, paid: Coin, coAuthors: Split, k: nat, left: int)
    requires k <= |coAuthors| && PayParts(l, paid, coAuthors, k, left).Some?
    ensures var l1 := PayParts(l, paid, coAuthors, k, left).value.0; l1 == l.(balances := l1.balances)
    decreases |coAuthors| - k
  {
    if k < |coAuthors| {
      var part := Part(paid.amount, coAuthors[k].1);
      PayPartsFrame(Adjust(l, coAuthors[k].0, Coin(part, paid.asset)).value, paid, coAuthors, k + 1, left - part);
    }
  }

  lemma PayoutFrame(l: Ledger, paid: Coin, author: AccountId, coAuthors: Split)
    requires Payout(l, paid, author, coAuthors).Some?
    ensures var l1 := Payout(l, paid, author, coAuthors).value; l1 == l.(balances := l1.balances)
  {
    if |coAuthors| > 0 { PayPartsFrame(l, paid, coAuthors, 0, paid.amount); }
  }

  lemma ConvertFrame(l: Ledger, id: AssetId, from: Coin, m: Market)
    requires id < |l.assets| && from.amount >= 0 && Convert(l, id, from, m).Some?
    ensures var (l1, to) := Convert(l, id, from, m).value;
            && l1 == l.(assets := l1.assets) && |l1.assets| == |l.assets|
            && (id == CORE ==> to.asset == CORE)
  {
  }

  lemma ExchangeFrame(l: Ledger, paid: Coin, offered: AssetId, m: Market)
    requires paid.amount >= 0 && paid.asset < |l.assets| && 0 < |l.assets| && (paid.asset == CORE || paid.asset == offered)
    requires Exchange(l, paid, offered, CORE, m).Some?
    ensures var (l1, after) := Exchange(l, paid, offered, CORE, m).value;
            l1 == l.(assets := l1.assets) && after.asset == CORE
  {
    if offered != CORE {
      ConvertFrame(l, paid.asset, paid, m);
      var (l1, dct) := Convert(l, paid.asset, paid, m).value;
      ConvertFrame(l1, CORE, dct, m);
    }
  }

  lemma FinishBuyStaysCore(l: Ledger, consumer: AccountId, k: nat, content: Content, paid: Coin, after: Coin)
    requires AllCore(l) && after.asset == CORE && FinishBuy(l, consumer, k, content, paid, after).Some?
    ensures AllCore(FinishBuy(l, consumer, k, content, paid, after).value)
  {
    var simple := |content.keyParts| == 0;
    var b := Buying(consumer, k, if simple then Coin(0, CORE) else after, after, {}, simple, false, l.now + 24 * 3600);
    var l1 := l.(buyings := l.buyings + [b]);
    assert AllCore(l1) by { assert CorePurchase(b); }
    AdjustFrame(l1, consumer, Negated(paid));
    if simple {
      PayoutFrame(Adjust(l1, consumer, Negated(paid)).value, after, content.author, content.coAuthors);
    }
  }

  lemma BuyStaysCore(l: Ledger, consumer: AccountId, k: nat, price: Coin, subscriber: bool, m: Market)
    requires AllCore(l) && k < |l.contents| && price.amount >= 0 && price.asset < |l.assets| && 0 < |l.assets|
    requires Buy(l, consumer, k, price, subscriber, m).Some?
    ensures AllCore(Buy(l, consumer, k, price, subscriber, m).value)
  {
    var content := l.contents[k];
    var paid := if subscriber then Coin(0, CORE) else price;
    ExchangeFrame(l, paid, price.asset, m);
    var (l1, after) := Exchange(l, paid, price.asset, CORE, m).value;
    FinishBuyStaysCore(l1, consumer, k, content, paid, after);
  }

  lemma DeliverStaysCore(l: Ledger, seeder: AccountId, k: nat)
    requires AllCore(l) && k < |l.buyings| && l.buyings[k].content < |l.contents| && Deliver(l, seeder, k).Some?
    ensures AllCore(Deliver(l, seeder, k).value)
  {
    assert CorePurchase(l.buyings[k]);
    var b := l.buyings[k].(answered := l.buyings[k].answered + {seeder});
    var content := l.contents[b.content];
    if !b.delivered && !b.expired && |b.answered| >= content.quorum {
      PayoutFrame(SetBuying(l, k, b), b.paid, content.author, content.coAuthors);
    }
  }

  lemma ApplyStaysCore(l: Ledger, op: Op, half: nat, m: Market)
    requires AllCore(l) && 0 < |l.assets| && Checked(l, op) && Apply(l, op, half, m).Some? && CoreOnly(Operate(0, Coin(0, CORE), op, m))
    ensures AllCore(Apply(l, op, half, m).value)
  {
    match op
    case RequestToBuy(consumer, k, price, subscriber) => BuyStaysCore(l, consumer, k, price, subscriber, m);
    case DeliverKeys(seeder, k) => DeliverStaysCore(l, seeder, k);
    case ProveCustody(seeder, k) => ProveStaysCore(l, seeder, k);
    case TransferToContent(from, k, amount) =>
      AdjustFrame(l, from, Negated(amount));
      PayoutFrame(Adjust(l, from, Negated(amount)).value, amount, l.contents[k].author, l.contents[k].coAuthors);
    case Transfer(from, to, amount) => MoveFrame(l, from, to, amount);
    case CreateVesting(creator, _, amount, _) => AdjustFrame(l, creator, Negated(amount));
    case WithdrawVesting(owner, k, amount, _) => WithdrawStaysCore(l, owner, k, amount);
    case IssueAsset(_, to, amount) => ChangeSupplyFrame(l, to, amount);
    case ReserveAsset(payer, amount) => ChangeSupplyFrame(l, payer, Negated(amount));
    case FundPools(from, uia, dct) => MovePoolsFrame(l, from, uia, dct);
    case ClaimFees(issuer, uia, dct) => MovePoolsFrame(l, issuer, Negated(uia), -dct);
    case SubmitContent(_, _, _, _, _, _, _, _) => SubmitStaysCore(l, NewContent(l, op));
    case ResubmitContent(_, _, _, _) =>
    case CreateAsset(_, _, _, _) =>
    case PublishSeeder(_, _) =>
  }

  lemma MoveFrame(l: Ledger, from: AccountId, to: AccountId, amount: Coin)
    requires Move(l, from, to, amount).Some?
    ensures var l1 := Move(l, from, to, amount).value; l1 == l.(balances := l1.balances)
  {
  }

  lemma ChangeSupplyFrame(l: Ledger, account: AccountId, amount: Coin)
    requires amount.asset < |l.assets| && ChangeSupply(l, account, amount).Some?
    ensures var l1 := ChangeSupply(l, account, amount).value; l1 == l.(balances := l1.balances, assets := l1.assets)
  {
    AdjustFrame(l, account, amount);
  }

  lemma MovePoolsFrame(l: Ledger, account: AccountId, uia: Coin, dct: int)
    requires uia.asset < |l.assets| && MovePools(l, account, uia, dct).Some?
    ensures var l1 := MovePools(l, account, uia, dct).value; l1 == l.(balances := l1.balances, assets := l1.assets)
  {
    AdjustFrame(l, account, Negated(uia));
    AdjustFrame(Adjust(l, account, Negated(uia)).value, account, Coin(-dct, CORE));
  }

  lemma WithdrawStaysCore(l: Ledger, owner: AccountId, k: nat, amount: Coin)
    requires AllCore(l) && k < |l.vestings| && l.vestings[k].balance.asset == amount.asset && Withdraw(l, owner, k, amount).Some?
    ensures AllCore(Withdraw(l, owner, k, amount).value)
  {
    var v := l.vestings[k];
    AdjustFrame(SetVesting(l, k, v.(balance := Coin(v.balance.amount - amount.amount, amount.asset))), owner, amount);
  }

  lemma SubmitStaysCore(l: Ledger, c: Content)
    requires AllCore(l) && c.escrow.asset == CORE && c.price.asset == CORE && Submit(l, c).Some?
    ensures AllCore(Submit(l, c).value)
  {
    AdjustFrame(l.(contents := l.contents + [c]), c.author, Negated(c.escrow));
  }

  lemma ProveStaysCore(l: Ledger, seeder: AccountId, k: nat)
    requires AllCore(l) && k < |l.contents| && Prove(l, seeder, k).Some?
    ensures AllCore(Prove(l, seeder, k).value)
  {
  }

  lemma PerformStaysCore(l: Ledger, payer: AccountId, fee: Coin, op: Op, m: Market)
    requires Sound(l) && AllCore(l) && CoreOnly(Operate(payer, fee, op, m)) && Perform(l, payer, fee, op, m).Some?
    ensures AllCore(Perform(l, payer, fee, op, m).value)
    ensures Applicable(l, op) && Drift(l, fee, op, m) == 0
  {
    var share := FeeShare(op, PrepareFee(l, fee, m).value);
    RoutedLaw(l, fee, op, m);
    NoDrift(l, payer, fee, op, m);
    var l1 := Routed(l, fee, op, m);
    ApplyStaysCore(l1, op, share, m);
    AdjustFrame(Apply(l1, op, share, m).value, payer, Negated(fee));
  }

  lemma NoDrift(l: Ledger, payer: AccountId, fee: Coin, op: Op, m: Market)
    requires AllCore(l) && CoreOnly(Operate(payer, fee, op, m)) && Applicable(l, op)
    ensures Drift(l, fee, op, m) == 0
  {
  }

  lemma {:induction false} ExpireContentsStayCore(l: Ledger, order: seq<nat>, interval: nat)
    requires AllCore(l) && ExpireContents(l, order, interval).Some?
    ensures AllCore(ExpireContents(l, order, interval).value)
    decreases |order|
  {
    if |order| > 0 {
      var k := order[0];
      var l1 := if k < |l.contents| && InWindow(l, l.contents[k].expiration, interval) then ExpireContent(l, k).value else l;
      assert AllCore(l1);
      ExpireContentsStayCore(l1, order[1..], interval);
    }
  }

  lemma {:induction false} ExpireBuyingsStayCore(l: Ledger, order: seq<nat>, interval: nat)
    requires AllCore(l) && ExpireBuyings(l, order, interval).Some?
    ensures AllCore(ExpireBuyings(l, order, interval).value)
    decreases |order|
  {
    if |order| > 0 {
      var k := order[0];
      if k < |l.buyings| { assert CorePurchase(l.buyings[k]); }
      var l1 :=
        if k < |l.buyings| && InWindow(l, l.buyings[k].expiration, interval) && !l.buyings[k].delivered then ExpireBuying(l, k).value
        else l;
      assert AllCore(l1);
      ExpireBuyingsStayCore(l1, order[1..], interval);
    }
  }

  lemma {:induction false} RenewStaysCore(l: Ledger, renewals: seq<Renewal>)
    requires AllCore(l) && Renew(l, renewals).Some?
    ensures AllCore(Renew(l, renewals).value)
    decreases |renewals|
  {
    if |renewals| > 0 {
      var r := renewals[0];
      var l1 := if r.price.amount <= BalanceOf(l, r.from, r.price.asset) then Move(l, r.from, r.to, r.price).value else l;
      assert AllCore(l1);
      RenewStaysCore(l1, renewals[1..]);
    }
  }

  lemma BeforeBudgetStaysCore(l: Ledger, listing: Listing, renewals: seq<Renewal>, interval: nat)
    requires AllCore(l) && BeforeBudget(l, listing, renewals, interval).Some?
    ensures AllCore(BeforeBudget(l, listing, renewals, interval).value)
  {
    ExpireContentsStayCore(l, listing.contents, interval);
    var l1 := ExpireContents(l, listing.contents, interval).value;
    ExpireBuyingsStayCore(l1, listing.buyings, interval);
    RenewStaysCore(ExpireBuyings(l1, listing.buyings, interval).value, renewals);
  }

  lemma EventStaysCore(l: Ledger, e: Event, interval: nat)
    requires interval > 0 && Sound(l) && AllCore(l) && CoreOnly(e) && Outcome(l, e, interval).Some?
    ensures AllCore(Outcome(l, e, interval).value) && EventDrift(l, e) == 0
  {
    match e
    case Operate(payer, fee, op, market) => PerformStaysCore(l, payer, fee, op, market);
    case Maintenance(listing, renewals, next) => BeforeBudgetStaysCore(l, listing, renewals, interval);
    case _ =>
  }

  predicate AllCoreOnly(es: seq<Event>) { forall i :: 0 <= i < |es| ==> CoreOnly(es[i]) }

  lemma {:induction false} AllStayCore(l: Ledger, es: seq<Event>, interval: nat)
    requires interval > 0 && Sound(l) && AllCore(l) && AllCoreOnly(es) && All(l, es, interval).Some?
    ensures AllCore(All(l, es, interval).value) && AllDrift(l, es, interval) == 0
    decreases |es|
  {
    if |es| > 0 {
      EventStaysCore(l, es[0], interval);
      EventLaw(l, es[0], interval);
      AllStayCore(Outcome(l, es[0], interval).value, es[1..], interval);
    }
  }

  lemma {:induction false} RunStaysCore(l: Ledger, blocks: seq<seq<Event>>, interval: nat)
    requires interval > 0 && Sound(l) && AllCore(l) && forall i :: 0 <= i < |blocks| ==> AllCoreOnly(blocks[i])
    ensures AllCore(Run(l, blocks, interval)) && RunDrift(l, blocks, interval) == 0
    decreases |blocks|
  {
    if |blocks| > 0 {
      if All(l, blocks[0], interval).Some? { AllStayCore(l, blocks[0], interval); }
      StepLaw(l, blocks[0], interval);
      RunStaysCore(Step(l, blocks[0], interval), blocks[1..], interval);
    }
  }

  /** From genesis on, in every run that keeps to the core asset, no maintenance fails its assertion. */
  lemma AssertionNeverFires(supply: nat, holder: AccountId, issuer: AccountId, maxSupply: int, blocks: seq<seq<Event>>, listing: Listing, renewals: seq<Renewal>, interval: nat)
    requires interval > 0 && forall i :: 0 <= i < |blocks| ==> AllCoreOnly(blocks[i])
    requires BeforeBudget(Run(Genesis(supply, holder, issuer, maxSupply), blocks, interval), listing, renewals, interval).Some?
    ensures var l := BeforeBudget(Run(Genesis(supply, holder, issuer, maxSupply), blocks, interval), listing, renewals, interval).value;
            Sound(l) && AssertionHolds(l)
  {
    var l := Genesis(supply, holder, issuer, maxSupply);
    GenesisLaw(supply, holder, issuer, maxSupply);
    RunStaysCore(l, blocks, interval);
    AssertionExactly(l, blocks, listing, renewals, interval);
    BeforeBudgetStaysCore(Run(l, blocks, interval), listing, renewals, interval);
    AllCoreNothingStray(BeforeBudget(Run(l, blocks, interval), listing, renewals, interval).value);
  }

  /** A new vesting balance breaks an assertion that held exactly when it is not in the core asset. */
  lemma VestingBreaksAssertion(l: Ledger, creator: AccountId, owner: AccountId, amount: Coin, seconds: Option<nat>)
    requires Sound(l) && AssertionHolds(l) && amount.amount > 0 && Vest(l, creator, owner, amount, seconds).Some?
    ensures var l1 := Vest(l, creator, owner, amount, seconds).value;
            Sound(l1) && (AssertionHolds(l1) <==> amount.asset == CORE)
  {
    var l1 := Vest(l, creator, owner, amount, seconds).value;
    VestLaw(l, creator, owner, amount, seconds);
    ProcessBudgetLaw(l);
    ProcessBudgetLaw(l1);
    AdjustFrame(l, creator, Negated(amount));
    SumAppend(l.vestings, Vesting(owner, amount, seconds), StrayVesting);
  }
}
