/**
 * The chain's accounts as a value: balances, vesting balances, escrows, fee pools, the supply
 * record and the producers' budget; and what each operation and each maintenance makes of them.
 * An exception is None: whatever was changed before it is undone by the caller's session.
 */
module LedgerSpec {
  import opened Wrappers
  import opened Budgets
  import opened SeederRewards

  type AccountId = nat
  type AssetId = nat
  type MinerId = nat

  const CORE: AssetId := 0
  /** The account that covers an overdrawn escrow. */
  const RESCUER: AccountId := 20

  datatype Coin = Coin(amount: int, asset: AssetId)

  function Negated(c: Coin): Coin { Coin(-c.amount, c.asset) }

  datatype Balance = Balance(owner: AccountId, asset: AssetId, amount: int)

  /** A vesting balance; seconds are those of a coin-days policy, None stands for a linear one. */
  datatype Vesting = Vesting(owner: AccountId, balance: Coin, seconds: Option<nat>)

  type Split = seq<(AccountId, nat)>

  datatype Content = Content(
    author: AccountId, coAuthors: Split, price: Coin, keyParts: set<AccountId>, quorum: nat, size: nat,
    expiration: nat, escrow: Coin, seederPrice: map<AccountId, nat>, lastProof: map<AccountId, nat>)

  datatype Buying = Buying(
    consumer: AccountId, content: nat, escrow: Coin, paid: Coin, answered: set<AccountId>,
    delivered: bool, expired: bool, expiration: nat)

  datatype Asset = Asset(
    issuer: AccountId, monitored: bool, exchangeable: bool, maxSupply: int,
    supply: int, pool: int, corePool: int)

  /** The tables by object id, the miners' pay balances, the head block and the budget. */
  datatype Ledger = Ledger(
    balances: seq<Balance>, vestings: seq<Vesting>, contents: seq<Content>, buyings: seq<Buying>,
    assets: seq<Asset>, seeders: map<AccountId, nat>, pay: map<MinerId, nat>,
    now: nat, height: nat, budget: Budget)

  /** Exchange rates and feeds at the time of an operation. */
  datatype Market = Market(
    feedValid: AssetId -> bool, toCore: (AssetId, nat) -> nat, fromCore: (AssetId, nat) -> nat)

  // ---- balances ----

  /** The place of an account's balance in an asset, or the length of the table. */
  function Find(bs: seq<Balance>, owner: AccountId, asset: AssetId): (k: nat)
    ensures k <= |bs|
    ensures k < |bs| ==> bs[k].owner == owner && bs[k].asset == asset
    ensures forall i :: 0 <= i < k ==> !(bs[i].owner == owner && bs[i].asset == asset)
  {
    if |bs| == 0 then 0
    else
      var k := Find(bs[..|bs| - 1], owner, asset);
      if k < |bs| - 1 then k
      else if bs[|bs| - 1].owner == owner && bs[|bs| - 1].asset == asset then |bs| - 1
      else |bs|
  }

  function BalanceOf(l: Ledger, owner: AccountId, asset: AssetId): int {
    var k := Find(l.balances, owner, asset);
    if k < |l.balances| then l.balances[k].amount else 0
  }

  function Adjust(l: Ledger, owner: AccountId, delta: Coin): Option<Ledger> {
    if delta.amount == 0 then Some(l)
    else
      var k := Find(l.balances, owner, delta.asset);
      if k == |l.balances| then
        if delta.amount > 0 then Some(l.(balances := l.balances + [Balance(owner, delta.asset, delta.amount)])) else None
      else if delta.amount < 0 && l.balances[k].amount < -delta.amount then None
      else Some(l.(balances := l.balances[k := l.balances[k].(amount := l.balances[k].amount + delta.amount)]))
  }

  function Move(l: Ledger, from: AccountId, to: AccountId, amount: Coin): Option<Ledger> {
    var l1 :- Adjust(l, from, Negated(amount));
    Adjust(l1, to, amount)
  }

  // ---- paying the authors ----

  /** A co-author's part, in ten-thousandths of the whole and truncated. */
  function Part(amount: int, basisPoints: nat): int {
    if amount >= 0 then (amount * basisPoints) / 10000 else -((-amount * basisPoints) / 10000)
  }

  /** The co-authors from the k-th on are paid, each a part of the whole; gives what is left. */
  function PayParts(l: Ledger, paid: Coin, coAuthors: Split, k: nat, left: int): Option<(Ledger, int)>
    requires k <= |coAuthors|
    decreases |coAuthors| - k
  {
    if k == |coAuthors| then Some((l, left))
    else
      var part := Part(paid.amount, coAuthors[k].1);
      var l1 :- Adjust(l, coAuthors[k].0, Coin(part, paid.asset));
      PayParts(l1, paid, coAuthors, k + 1, left - part)
  }

  /** The author gets what the co-authors leave. */
  function Payout(l: Ledger, paid: Coin, author: AccountId, coAuthors: Split): Option<Ledger> {
    if |coAuthors| == 0 then Adjust(l, author, paid)
    else
      var (l1, left) :- PayParts(l, paid, coAuthors, 0, paid.amount);
      if left == 0 then Some(l1)
      else if left > 0 then Adjust(l1, author, Coin(left, paid.asset))
      else None
  }

  // ---- conversion ----

  function AreExchangeable(l: Ledger, payment: AssetId, price: AssetId): bool
    requires payment < |l.assets| && price < |l.assets|
  {
    if l.assets[payment].monitored then false
    else if payment == price then true
    else if !l.assets[price].monitored && payment != CORE && price != CORE then false
    else l.assets[payment].exchangeable && l.assets[price].exchangeable
  }

  /** A user-issued asset takes from one of its pools what it puts into the other. */
  function ConvertUserIssued(l: Ledger, id: AssetId, from: Coin, m: Market): Option<(Ledger, Coin)>
    requires id < |l.assets| && from.amount >= 0
  {
    var a := l.assets[id];
    if !a.exchangeable || (from.asset != id && from.asset != CORE) then None
    else
      var to := if from.asset == id then Coin(m.toCore(id, from.amount), CORE) else Coin(m.fromCore(id, from.amount), id);
      var a1 := if from.asset == id then a.(pool := a.pool + from.amount, corePool := a.corePool - to.amount)
                else a.(pool := a.pool - to.amount, corePool := a.corePool + from.amount);
      if a1.pool < 0 || a1.corePool < 0 then None else Some((l.(assets := l.assets[id := a1]), to))
  }

  /** The conversion of an asset's coins to the core asset, or back. Monitored assets have no pools. */
  function Convert(l: Ledger, id: AssetId, from: Coin, m: Market): Option<(Ledger, Coin)>
    requires id < |l.assets| && from.amount >= 0
    ensures Convert(l, id, from, m).Some? ==> Convert(l, id, from, m).value.1.amount >= 0
  {
    if id == CORE then
      if from.asset == CORE then Some((l, from)) else None
    else if l.assets[id].monitored then
      if m.feedValid(id) && (from.asset == CORE || from.asset == id) then
        Some((l, if from.asset == id then Coin(m.toCore(id, from.amount), CORE) else Coin(m.fromCore(id, from.amount), id)))
      else None
    else ConvertUserIssued(l, id, from, m)
  }

  /** The check before a conversion also asks a monitored asset to be exchangeable. */
  function CanConvert(l: Ledger, id: AssetId, from: Coin, m: Market): Option<Coin>
    requires id < |l.assets| && from.amount >= 0
    ensures CanConvert(l, id, from, m).Some? ==> CanConvert(l, id, from, m).value.amount >= 0
  {
    if id != CORE && !l.assets[id].exchangeable then None
    else
      var (_, to) :- Convert(l, id, from, m);
      Some(to)
  }

  // ---- operations ----

  datatype Op =
    | Transfer(from: AccountId, to: AccountId, amount: Coin)
    | TransferToContent(from: AccountId, content: nat, amount: Coin)
    | CreateVesting(creator: AccountId, owner: AccountId, amount: Coin, seconds: Option<nat>)
    | WithdrawVesting(owner: AccountId, vesting: nat, amount: Coin, vested: bool)
    | IssueAsset(issuer: AccountId, to: AccountId, amount: Coin)
    | ReserveAsset(payer: AccountId, amount: Coin)
    | FundPools(from: AccountId, userIssued: Coin, dct: int)
    | ClaimFees(issuer: AccountId, userIssued: Coin, dct: int)
    | CreateAsset(issuer: AccountId, monitored: bool, exchangeable: bool, maxSupply: int)
    | PublishSeeder(seeder: AccountId, dailyPrice: nat)
    | SubmitContent(author: AccountId, coAuthors: Split, price: Coin, seeders: seq<AccountId>, size: nat,
                    quorum: nat, expiration: nat, publishingFee: Coin)
    | ResubmitContent(content: nat, author: AccountId, coAuthors: Split, price: Coin)
    | RequestToBuy(consumer: AccountId, content: nat, price: Coin, subscriber: bool)
    | DeliverKeys(seeder: AccountId, buying: nat)
    | ProveCustody(seeder: AccountId, content: nat)

  function SumOfSplits(s: Split): nat {
    if |s| == 0 then 0 else SumOfSplits(s[..|s| - 1]) + s[|s| - 1].1
  }

  predicate Splits(coAuthors: Split, author: AccountId) {
    |coAuthors| > 0 ==>
      if exists i :: 0 <= i < |coAuthors| && coAuthors[i].0 == author then SumOfSplits(coAuthors) == 10000
      else SumOfSplits(coAuthors) < 10000
  }

  function PricePerDay(l: Ledger, seeders: seq<AccountId>, size: nat): nat
    requires forall i :: 0 <= i < |seeders| ==> seeders[i] in l.seeders
  {
    if |seeders| == 0 then 0
    else PricePerDay(l, seeders[..|seeders| - 1], size) + l.seeders[seeders[|seeders| - 1]] * size
  }

  /** The checks of request_to_buy, for a consumer without a subscription to the author. */
  predicate PriceAccepted(l: Ledger, paid: Coin, price: Coin, m: Market)
    requires paid.amount >= 0 && paid.asset < |l.assets| && price.asset < |l.assets|
  {
    && AreExchangeable(l, paid.asset, price.asset)
    && if price.asset == paid.asset then paid.amount >= price.amount
       else
         var dct := CanConvert(l, paid.asset, paid, m);
         && dct.Some? && dct.value.asset == CORE
         && var after := CanConvert(l, price.asset, dct.value, m);
            after.Some? && after.value.asset == price.asset && after.value.amount >= price.amount
  }

  /** What an operation's validate and do_evaluate ask for, before the fee is taken. */
  predicate Evaluates(l: Ledger, op: Op, m: Market) {
    match op
    case Transfer(from, to, amount) =>
      from != to && amount.amount > 0 && BalanceOf(l, from, amount.asset) >= amount.amount
    case TransferToContent(from, k, amount) =>
      k < |l.contents| && amount.amount > 0 && BalanceOf(l, from, amount.asset) >= amount.amount
    case CreateVesting(creator, _, amount, _) =>
      amount.amount > 0 && BalanceOf(l, creator, amount.asset) >= amount.amount
    case WithdrawVesting(owner, k, amount, vested) =>
      && k < |l.vestings| && l.vestings[k].owner == owner && amount.amount > 0 && vested
      && amount.asset == l.vestings[k].balance.asset && amount.amount <= l.vestings[k].balance.amount
    case IssueAsset(issuer, _, amount) =>
      && 0 < amount.amount && CORE < amount.asset < |l.assets| && issuer == l.assets[amount.asset].issuer
      && !l.assets[amount.asset].monitored
      && l.assets[amount.asset].supply + amount.amount <= l.assets[amount.asset].maxSupply
    case ReserveAsset(_, amount) =>
      && 0 < amount.amount && amount.asset < |l.assets| && !l.assets[amount.asset].monitored
      && l.assets[amount.asset].supply - amount.amount >= 0
    case FundPools(from, uia, dct) =>
      && uia.amount >= 0 && dct >= 0 && CORE < uia.asset < |l.assets| && !l.assets[uia.asset].monitored
      && uia.amount <= BalanceOf(l, from, uia.asset) && dct <= BalanceOf(l, from, CORE)
    case ClaimFees(issuer, uia, dct) =>
      && uia.amount >= 0 && dct >= 0 && uia.asset < |l.assets| && l.assets[uia.asset].issuer == issuer
      && !l.assets[uia.asset].monitored
      && uia.amount <= l.assets[uia.asset].pool && dct <= l.assets[uia.asset].corePool
    case CreateAsset(_, monitored, _, maxSupply) =>
      if monitored then maxSupply == 0 else maxSupply > 0
    case PublishSeeder(_, _) => true
    case SubmitContent(author, coAuthors, price, seeders, size, quorum, expiration, fee) =>
      && Splits(coAuthors, author) && price.amount >= 0 && price.asset < |l.assets|
      && (if |seeders| == 0 then quorum == 0 else 2 <= quorum <= |seeders|)
      && fee.amount >= 0 && l.now <= expiration && Days(l.now, expiration) != 0
      && (forall i :: 0 <= i < |seeders| ==> seeders[i] in l.seeders)
      && fee.asset == CORE && Days(l.now, expiration) * PricePerDay(l, seeders, size) <= fee.amount
    case ResubmitContent(k, author, coAuthors, price) =>
      && k < |l.contents| && l.contents[k].author == author && Splits(coAuthors, author)
      && price.amount >= 0 && price.asset < |l.assets|
    case RequestToBuy(consumer, k, price, subscriber) =>
      && k < |l.contents| && price.amount >= 0 && price.asset < |l.assets| && l.contents[k].price.asset < |l.assets|
      && price.amount <= BalanceOf(l, consumer, price.asset) && l.contents[k].expiration > l.now
      && (subscriber || PriceAccepted(l, price, l.contents[k].price, m))
    case DeliverKeys(seeder, k) =>
      k < |l.buyings| && l.buyings[k].content < |l.contents| && seeder in l.contents[l.buyings[k].content].keyParts
    case ProveCustody(_, k) =>
      k < |l.contents| && l.contents[k].expiration > l.now
  }

  function SetAsset(l: Ledger, id: AssetId, a: Asset): Ledger
    requires id < |l.assets|
  {
    l.(assets := l.assets[id := a])
  }

  /** Paid coins become coins of the wanted asset, through the core asset, unless it is the one offered. */
  function Exchange(l: Ledger, paid: Coin, offered: AssetId, wanted: AssetId, m: Market): Option<(Ledger, Coin)>
    requires paid.amount >= 0 && paid.asset < |l.assets| && wanted < |l.assets|
  {
    if wanted == offered then Some((l, paid))
    else
      var (l1, dct) :- Convert(l, paid.asset, paid, m);
      Convert(l1, wanted, dct, m)
  }

  function Buy(l: Ledger, consumer: AccountId, k: nat, price: Coin, subscriber: bool, m: Market): Option<Ledger>
    requires k < |l.contents| && price.amount >= 0 && price.asset < |l.assets| && l.contents[k].price.asset < |l.assets|
  {
    var content := l.contents[k];
    var paid := if subscriber then Coin(0, CORE) else price;
    var (l1, after) :- Exchange(l, paid, price.asset, content.price.asset, m);
    FinishBuy(l1, consumer, k, content, paid, after)
  }

  /** The purchase is recorded and paid for; without seeders it is delivered at once. */
  function FinishBuy(l: Ledger, consumer: AccountId, k: nat, content: Content, paid: Coin, after: Coin): Option<Ledger> {
    var simple := |content.keyParts| == 0;
    var escrow := if simple then Coin(0, CORE) else after;
    var l1 := l.(buyings := l.buyings + [Buying(consumer, k, escrow, after, {}, simple, false, l.now + 24 * 3600)]);
    var l2 :- Adjust(l1, consumer, Negated(paid));
    if simple then Payout(l2, after, content.author, content.coAuthors) else Some(l2)
  }

  function SetBuying(l: Ledger, k: nat, b: Buying): Ledger
    requires k < |l.buyings|
  {
    l.(buyings := l.buyings[k := b])
  }

  function ExpireBuying(l: Ledger, k: nat): Option<Ledger>
    requires k < |l.buyings|
  {
    var b := l.buyings[k];
    var l1 :- Adjust(l, b.consumer, b.escrow);
    assert |l1.buyings| == |l.buyings|;
    Some(SetBuying(l1, k, b.(escrow := b.escrow.(amount := 0), expired := true)))
  }

  function Deliver(l: Ledger, seeder: AccountId, k: nat): Option<Ledger>
    requires k < |l.buyings| && l.buyings[k].content < |l.contents|
  {
    var b := l.buyings[k].(answered := l.buyings[k].answered + {seeder});
    var content := l.contents[b.content];
    var l1 := SetBuying(l, k, b);
    if b.delivered || b.expired then Some(l1)
    else if |b.answered| >= content.quorum then
      var l2 :- Payout(l1, b.paid, content.author, content.coAuthors);
      if k < |l2.buyings| then Some(SetBuying(l2, k, b.(escrow := b.escrow.(amount := 0), delivered := true))) else None
    else if b.expiration < l.now then ExpireBuying(l1, k)
    else Some(l1)
  }

  function SetContent(l: Ledger, k: nat, c: Content): Ledger
    requires k < |l.contents|
  {
    l.(contents := l.contents[k := c])
  }

  function Prove(l: Ledger, seeder: AccountId, k: nat): Option<Ledger>
    requires k < |l.contents|
  {
    var c := l.contents[k];
    if seeder !in l.seeders then None
    else
      var proved := c.(lastProof := c.lastProof[seeder := l.now]);
      if seeder !in c.lastProof then Some(SetContent(l, k, proved))
      else if l.height > CAP_BLOCK && seeder !in c.seederPrice then None
      else
        var price := if l.height > CAP_BLOCK then c.seederPrice[seeder] else l.seeders[seeder];
        var elapsed := if l.now >= c.lastProof[seeder] then l.now - c.lastProof[seeder] else 0;
        var reward := Payment(price, c.size, elapsed, c.escrow.amount, l.height);
        if c.escrow.asset != CORE then None
        else Adjust(SetContent(l, k, proved.(escrow := Coin(c.escrow.amount - reward, CORE))), seeder, Coin(reward, CORE))
  }

  /** The prices of a content's seeders at its submission. */
  function SeederPrices(l: Ledger, seeders: seq<AccountId>): map<AccountId, nat>
    requires forall i :: 0 <= i < |seeders| ==> seeders[i] in l.seeders
  {
    map s | s in seeders :: l.seeders[s]
  }

  /** What an operation refers to exists. */
  predicate Applicable(l: Ledger, op: Op) {
    match op
    case TransferToContent(_, k, _) => k < |l.contents|
    case WithdrawVesting(_, k, _, _) => k < |l.vestings|
    case IssueAsset(_, _, amount) => amount.asset < |l.assets|
    case ReserveAsset(_, amount) => amount.asset < |l.assets|
    case FundPools(_, uia, _) => uia.asset < |l.assets|
    case ClaimFees(_, uia, _) => uia.asset < |l.assets|
    case SubmitContent(_, _, _, seeders, _, _, _, _) => forall i :: 0 <= i < |seeders| ==> seeders[i] in l.seeders
    case ResubmitContent(k, _, _, _) => k < |l.contents|
    case RequestToBuy(_, k, price, _) =>
      && k < |l.contents| && price.amount >= 0 && price.asset < |l.assets| && 0 < |l.assets|
      && l.contents[k].price.asset < |l.assets|
    case DeliverKeys(_, k) => k < |l.buyings| && l.buyings[k].content < |l.contents|
    case ProveCustody(_, k) => k < |l.contents|
    case _ => true
  }

  /** An account's coins go into the pools of an asset; negative amounts come out of them. */
  function MovePools(l: Ledger, account: AccountId, uia: Coin, dct: int): Option<Ledger>
    requires uia.asset < |l.assets|
  {
    var a := l.assets[uia.asset];
    var l1 :- Adjust(l, account, Negated(uia));
    var l2 :- Adjust(l1, account, Coin(-dct, CORE));
    assert |l2.assets| == |l.assets|;
    Some(SetAsset(l2, uia.asset, a.(pool := a.pool + uia.amount, corePool := a.corePool + dct)))
  }

  function PayContent(l: Ledger, from: AccountId, k: nat, amount: Coin): Option<Ledger>
    requires k < |l.contents|
  {
    var l1 :- Adjust(l, from, Negated(amount));
    Payout(l1, amount, l.contents[k].author, l.contents[k].coAuthors)
  }

  function Vest(l: Ledger, creator: AccountId, owner: AccountId, amount: Coin, seconds: Option<nat>): Option<Ledger> {
    if BalanceOf(l, creator, amount.asset) < amount.amount then None
    else
      var l1 :- Adjust(l, creator, Negated(amount));
      Some(l1.(vestings := l1.vestings + [Vesting(owner, amount, seconds)]))
  }

  function SetVesting(l: Ledger, k: nat, v: Vesting): Ledger
    requires k < |l.vestings|
  {
    l.(vestings := l.vestings[k := v])
  }

  function Withdraw(l: Ledger, owner: AccountId, k: nat, amount: Coin): Option<Ledger>
    requires k < |l.vestings|
  {
    var v := l.vestings[k];
    Adjust(SetVesting(l, k, v.(balance := Coin(v.balance.amount - amount.amount, amount.asset))), owner, amount)
  }

  /** Coins are issued to an account; a negative amount is reserved from it. */
  function ChangeSupply(l: Ledger, account: AccountId, amount: Coin): Option<Ledger>
    requires amount.asset < |l.assets|
  {
    var l1 :- Adjust(l, account, amount);
    var a := l.assets[amount.asset];
    assert |l1.assets| == |l.assets|;
    Some(SetAsset(l1, amount.asset, a.(supply := a.supply + amount.amount)))
  }

  function AddAsset(l: Ledger, a: Asset): Ledger {
    l.(assets := l.assets + [a])
  }

  function NewContent(l: Ledger, op: Op): Content
    requires op.SubmitContent? && Applicable(l, op)
  {
    Content(op.author, op.coAuthors, op.price, (set s | s in op.seeders), op.quorum, op.size, op.expiration,
            op.publishingFee, SeederPrices(l, op.seeders), map[])
  }

  function Submit(l: Ledger, c: Content): Option<Ledger> {
    Adjust(l.(contents := l.contents + [c]), c.author, Negated(c.escrow))
  }

  /** What do_apply makes of the ledger after the fee went into the pools; half is a new asset's pool. */
  function Apply(l: Ledger, op: Op, half: nat, m: Market): Option<Ledger>
    requires Applicable(l, op)
  {
    match op
    case Transfer(from, to, amount) => Move(l, from, to, amount)
    case TransferToContent(from, k, amount) => PayContent(l, from, k, amount)
    case CreateVesting(creator, owner, amount, seconds) => Vest(l, creator, owner, amount, seconds)
    case WithdrawVesting(owner, k, amount, _) => Withdraw(l, owner, k, amount)
    case IssueAsset(_, to, amount) => ChangeSupply(l, to, amount)
    case ReserveAsset(payer, amount) => ChangeSupply(l, payer, Negated(amount))
    case FundPools(from, uia, dct) => MovePools(l, from, uia, dct)
    case ClaimFees(issuer, uia, dct) => MovePools(l, issuer, Negated(uia), -dct)
    case CreateAsset(issuer, monitored, exchangeable, maxSupply) =>
      Some(AddAsset(l, Asset(issuer, monitored, exchangeable, maxSupply, 0, 0, half)))
    case PublishSeeder(seeder, price) => Some(l.(seeders := l.seeders[seeder := price]))
    case SubmitContent(_, _, _, _, _, _, _, _) => Submit(l, NewContent(l, op))
    case ResubmitContent(k, _, coAuthors, price) =>
      Some(SetContent(l, k, l.contents[k].(coAuthors := coAuthors, price := price)))
    case RequestToBuy(consumer, k, price, subscriber) => Buy(l, consumer, k, price, subscriber, m)
    case DeliverKeys(seeder, k) => Deliver(l, seeder, k)
    case ProveCustody(seeder, k) => Prove(l, seeder, k)
  }

  // ---- fees ----

  /** The fee in the core asset; an asset's pool of core coins must cover it. */
  function PrepareFee(l: Ledger, fee: Coin, m: Market): Option<nat> {
    if fee.amount < 0 || fee.asset >= |l.assets| then None
    else if fee.asset == CORE then Some(fee.amount)
    else if !l.assets[fee.asset].exchangeable then None
    else if m.toCore(fee.asset, fee.amount) <= l.assets[fee.asset].corePool then Some(m.toCore(fee.asset, fee.amount))
    else None
  }

  /** The part of the fee that is burnt into the pool of fees: a new asset keeps half for its own pool. */
  function FeeShare(op: Op, coreFee: nat): (share: nat)
    ensures share <= coreFee
  {
    if op.CreateAsset? then coreFee - coreFee / 2 else coreFee
  }

  function ConvertFee(l: Ledger, fee: Coin, coreFee: nat): Ledger
    requires fee.asset < |l.assets|
  {
    if fee.asset == CORE then l
    else
      var a := l.assets[fee.asset];
      SetAsset(l, fee.asset, a.(pool := a.pool + fee.amount, corePool := a.corePool - coreFee))
  }

  function PayFee(l: Ledger, coreFee: nat): Ledger
    requires 0 < |l.assets|
  {
    SetAsset(l, CORE, l.assets[CORE].(pool := l.assets[CORE].pool + coreFee))
  }

  /** An operation with its fee: checked, the fee routed, applied, and the fee taken from its payer. */
  function Perform(l: Ledger, payer: AccountId, fee: Coin, op: Op, m: Market): Option<Ledger> {
    var coreFee :- PrepareFee(l, fee, m);
    if !Evaluates(l, op, m) || |l.assets| == 0 then None
    else
      var share := FeeShare(op, coreFee);
      var l1 := PayFee(ConvertFee(l, fee, share), share);
      if !Applicable(l1, op) then None
      else
        var l2 :- Apply(l1, op, share, m);
        Adjust(l2, payer, Negated(fee))
  }

  // ---- paying miners ----

  const SPLIT_0: nat := 100000
  const SPLIT_1: nat := 31653280
  const SPLIT_2: nat := 63206560
  const SPLIT_3: nat := 94777120
  const SPLIT_4: nat := 126330400
  const FIRST_REWARD: nat := 37000000

  /** The coins a block mines: halved at each switch, none at first and at last. */
  function RewardAt(height: nat): nat {
    if height < SPLIT_0 then 0
    else if height < SPLIT_1 then FIRST_REWARD
    else if height < SPLIT_2 then FIRST_REWARD / 2
    else if height < SPLIT_3 then FIRST_REWARD / 4
    else if height < SPLIT_4 then FIRST_REWARD / 8
    else 0
  }

  /** Coins go to a vesting balance that still fits its owner and its term, or to a new one. */
  function DepositLazy(l: Ledger, existing: Option<nat>, amount: int, seconds: nat, owner: AccountId): Option<(Ledger, Option<nat>)> {
    if amount == 0 then Some((l, None))
    else if existing.Some? && existing.value >= |l.vestings| then None
    else if existing.Some? && l.vestings[existing.value].owner == owner && l.vestings[existing.value].seconds == Some(seconds) then
      var v := l.vestings[existing.value];
      if v.balance.asset != CORE then None
      else Some((SetVesting(l, existing.value, v.(balance := Coin(v.balance.amount + amount, CORE))), None))
    else
      Some((l.(vestings := l.vestings + [Vesting(owner, Coin(amount, CORE), Some(seconds))]), Some(|l.vestings|)))
  }

  function PayOf(l: Ledger, miner: MinerId): Option<nat> {
    if miner in l.pay then Some(l.pay[miner]) else None
  }

  /** The signing miner of a block gets its share of the fees and the newly mined coins. */
  function PayMiner(l: Ledger, miner: MinerId, account: AccountId, seconds: nat, interval: nat): Option<Ledger>
    requires interval > 0
  {
    var reward := RewardAt(l.height);
    var budget := Paid(l.budget, reward, interval);
    var amount := l.budget.unspent - budget.unspent + reward;
    var (l1, created) :- DepositLazy(l.(budget := budget), PayOf(l, miner), amount, seconds, account);
    Some(if created.Some? then l1.(pay := l1.pay[miner := created.value]) else l1)
  }

  // ---- maintenance ----

  predicate InWindow(l: Ledger, expiration: nat, interval: nat) {
    l.budget.lastBudget + interval <= expiration <= l.now
  }

  /** The refund of an escrow; an overdrawn one is covered by another account. */
  function ExpireContent(l: Ledger, k: nat): Option<Ledger>
    requires k < |l.contents|
  {
    var c := l.contents[k];
    var l1 :- Adjust(l, if c.escrow.amount >= 0 then c.author else RESCUER, c.escrow);
    assert |l1.contents| == |l.contents|;
    Some(SetContent(l1, k, c.(escrow := c.escrow.(amount := 0))))
  }

  /** How the two indexes by expiration time list contents and purchases. */
  datatype Listing = Listing(contents: seq<nat>, buyings: seq<nat>)

  /** Contents that expired since the last maintenance, in the order of their index. */
  function ExpireContents(l: Ledger, order: seq<nat>, interval: nat): Option<Ledger>
    decreases |order|
  {
    if |order| == 0 then Some(l)
    else
      var k := order[0];
      var l1 :-
        if k < |l.contents| && InWindow(l, l.contents[k].expiration, interval) then ExpireContent(l, k) else Some(l);
      ExpireContents(l1, order[1..], interval)
  }

  function ExpireBuyings(l: Ledger, order: seq<nat>, interval: nat): Option<Ledger>
    decreases |order|
  {
    if |order| == 0 then Some(l)
    else
      var k := order[0];
      var l1 :-
        if k < |l.buyings| && InWindow(l, l.buyings[k].expiration, interval) && !l.buyings[k].delivered then ExpireBuying(l, k)
        else Some(l);
      ExpireBuyings(l1, order[1..], interval)
  }

  /** A subscription is renewed, if the subscriber can pay. */
  datatype Renewal = Renewal(from: AccountId, to: AccountId, price: Coin)

  function Renew(l: Ledger, renewals: seq<Renewal>): Option<Ledger>
    decreases |renewals|
  {
    if |renewals| == 0 then Some(l)
    else
      var r := renewals[0];
      var l1 :- if r.price.amount <= BalanceOf(l, r.from, r.price.asset) then Move(l, r.from, r.to, r.price) else Some(l);
      Renew(l1, renewals[1..])
  }

  /** The supply record takes in what was paid out since the last maintenance, and what fees burnt. */
  function ProcessBudget(l: Ledger): Ledger
    requires 0 < |l.assets|
  {
    var core := l.assets[CORE];
    var delta := l.budget.mined + l.budget.fromFees - l.budget.unspent - core.pool;
    SetAsset(l, CORE, core.(supply := core.supply + delta, pool := 0)).(budget := Rolled(l.budget, core.pool, l.now))
  }

  function Maintain(l: Ledger, listing: Listing, renewals: seq<Renewal>, nextMaintenance: nat, interval: nat): Option<Ledger> {
    var l1 :- ExpireContents(l, listing.contents, interval);
    var l2 :- ExpireBuyings(l1, listing.buyings, interval);
    var l3 :- Renew(l2, renewals);
    if |l3.assets| == 0 then None
    else Some(ProcessBudget(l3.(budget := l3.budget.(nextMaintenance := nextMaintenance))))
  }

  // ---- the supply that is there ----

  function Sum<T>(s: seq<T>, f: T -> int): int {
    if |s| == 0 then 0 else Sum(s[..|s| - 1], f) + f(s[|s| - 1])
  }

  /** The part of a coin that is, or is not, of the core asset. */
  function CoreOf(c: Coin): int { if c.asset == CORE then c.amount else 0 }
  function StrayOf(c: Coin): int { if c.asset == CORE then 0 else c.amount }

  function CoreBalance(b: Balance): int { CoreOf(Coin(b.amount, b.asset)) }
  function VestingAmount(v: Vesting): int { v.balance.amount }
  function ContentAmount(c: Content): int { c.escrow.amount }
  function BuyingAmount(b: Buying): int { b.escrow.amount }
  function CorePool(a: Asset): int { a.corePool }

  /** What get_real_supply adds up: vestings and escrows count whatever their asset. */
  function RealSupply(l: Ledger): int {
    Sum(l.balances, CoreBalance) + Sum(l.vestings, VestingAmount)
    + Sum(l.contents, ContentAmount) + Sum(l.buyings, BuyingAmount) + Sum(l.assets, CorePool)
  }
}
