/**
 * Who gets what: the balance of every account in every asset after each operation that moves coins.
 */
module LedgerBalances {
  import opened Wrappers
  import opened SeederRewards
  import opened LedgerSpec
  import opened LedgerRuns

  /** A coin for one account, as any account sees it in any asset. */
  function For(owner: AccountId, c: Coin, who: AccountId, what: AssetId): int {
    if who == owner && what == c.asset then c.amount else 0
  }

  /** A payout to authors, as any account sees it. */
  function FromPayout(paid: Coin, author: AccountId, coAuthors: Split, who: AccountId, what: AssetId): int {
    if what != paid.asset then 0
    else PartsFor(paid.amount, coAuthors, 0, who)
         + (if who == author then paid.amount - AllParts(paid.amount, coAuthors, 0) else 0)
  }

  lemma SameBalances(l: Ledger, l1: Ledger, who: AccountId, what: AssetId)
    requires l1.balances == l.balances
    ensures BalanceOf(l1, who, what) == BalanceOf(l, who, what)
  {
  }

  /** A transfer takes from the sender what it gives to the receiver. */
  lemma MoveGives(l: Ledger, from: AccountId, to: AccountId, amount: Coin, who: AccountId, what: AssetId)
    requires Move(l, from, to, amount).Some?
    ensures BalanceOf(Move(l, from, to, amount).value, who, what)
            == BalanceOf(l, who, what) - For(from, amount, who, what) + For(to, amount, who, what)
  {
    AdjustGives(l, from, Negated(amount), who, what);
    AdjustGives(Adjust(l, from, Negated(amount)).value, to, amount, who, what);
  }

  lemma PayContentGives(l: Ledger, from: AccountId, k: nat, amount: Coin, who: AccountId, what: AssetId)
    requires k < |l.contents| && PayContent(l, from, k, amount).Some?
    ensures BalanceOf(PayContent(l, from, k, amount).value, who, what)
            == BalanceOf(l, who, what) - For(from, amount, who, what)
               + FromPayout(amount, l.contents[k].author, l.contents[k].coAuthors, who, what)
  {
    AdjustGives(l, from, Negated(amount), who, what);
    PayoutGives(Adjust(l, from, Negated(amount)).value, amount, l.contents[k].author, l.contents[k].coAuthors, who, what);
  }

  /** What a buyer is charged: nothing with a subscription to the author. */
  function Charged(price: Coin, subscriber: bool): Coin {
    if subscriber then Coin(0, CORE) else price
  }

  /**
   * The buyer has paid. Without seeders the purchase is delivered and the authors have what the payment was converted
   * to; otherwise that is in escrow.
   */
  predicate Bought(l: Ledger, l1: Ledger, consumer: AccountId, c: Content, paid: Coin, after: Coin, who: AccountId, what: AssetId) {
    && |l1.buyings| == |l.buyings| + 1
    && var b := l1.buyings[|l.buyings|];
    && b.delivered == (|c.keyParts| == 0) && b.paid == after
    && b.escrow == (if b.delivered then Coin(0, CORE) else after)
    && BalanceOf(l1, who, what) == BalanceOf(l, who, what) - For(consumer, paid, who, what)
       + (if b.delivered then FromPayout(after, c.author, c.coAuthors, who, what) else 0)
  }

  lemma BuyGives(l: Ledger, consumer: AccountId, k: nat, price: Coin, subscriber: bool, m: Market,
                 converted: Ledger, after: Coin, who: AccountId, what: AssetId)
    requires k < |l.contents| && price.amount >= 0 && price.asset < |l.assets| && 0 < |l.assets| && l.contents[k].price.asset < |l.assets|
    requires Exchange(l, Charged(price, subscriber), price.asset, l.contents[k].price.asset, m) == Some((converted, after))
    requires Buy(l, consumer, k, price, subscriber, m).Some?
    ensures converted == l.(assets := converted.assets)
    ensures Bought(converted, Buy(l, consumer, k, price, subscriber, m).value, consumer, l.contents[k], Charged(price, subscriber), after, who, what)
  {
    var c, paid := l.contents[k], Charged(price, subscriber);
    ExchangeKeepsBalances(l, paid, price.asset, c.price.asset, m);
    BuyFinishes(l, consumer, k, price, subscriber, m, converted, after);
    FinishBuyGives(converted, consumer, k, c, paid, after, who, what);
  }

  lemma BuyFinishes(l: Ledger, consumer: AccountId, k: nat, price: Coin, subscriber: bool, m: Market, converted: Ledger, after: Coin)
    requires k < |l.contents| && price.amount >= 0 && price.asset < |l.assets| && 0 < |l.assets| && l.contents[k].price.asset < |l.assets|
    requires Exchange(l, Charged(price, subscriber), price.asset, l.contents[k].price.asset, m) == Some((converted, after))
    ensures Buy(l, consumer, k, price, subscriber, m) == FinishBuy(converted, consumer, k, l.contents[k], Charged(price, subscriber), after)
  {
  }

  lemma ExchangeKeepsBalances(l: Ledger, paid: Coin, offered: AssetId, wanted: AssetId, m: Market)
    requires paid.amount >= 0 && paid.asset < |l.assets| && wanted < |l.assets|
    requires Exchange(l, paid, offered, wanted, m).Some?
    ensures var l1 := Exchange(l, paid, offered, wanted, m).value.0; l1 == l.(assets := l1.assets)
  {
    if wanted != offered {
      ConvertFrame(l, paid.asset, paid, m);
      var (l1, dct) := Convert(l, paid.asset, paid, m).value;
      ConvertFrame(l1, wanted, dct, m);
    }
  }

  lemma FinishBuyGives(l: Ledger, consumer: AccountId, k: nat, c: Content, paid: Coin, after: Coin, who: AccountId, what: AssetId)
    requires FinishBuy(l, consumer, k, c, paid, after).Some?
    ensures Bought(l, FinishBuy(l, consumer, k, c, paid, after).value, consumer, c, paid, after, who, what)
  {
    var simple := |c.keyParts| == 0;
    var b := Buying(consumer, k, if simple then Coin(0, CORE) else after, after, {}, simple, false, l.now + 24 * 3600);
    var l1 := l.(buyings := l.buyings + [b]);
    SameBalances(l, l1, who, what);
    AdjustGives(l1, consumer, Negated(paid), who, what);
    AdjustFrame(l1, consumer, Negated(paid));
    if simple {
      var l2 := Adjust(l1, consumer, Negated(paid)).value;
      PayoutGives(l2, after, c.author, c.coAuthors, who, what);
      PayoutFrame(l2, after, c.author, c.coAuthors);
    }
  }

  /** The buyer gets the escrow back, which is then empty. */
  lemma ExpireBuyingGives(l: Ledger, k: nat, who: AccountId, what: AssetId)
    requires k < |l.buyings| && ExpireBuying(l, k).Some?
    ensures var l1 := ExpireBuying(l, k).value;
            && BalanceOf(l1, who, what) == BalanceOf(l, who, what) + For(l.buyings[k].consumer, l.buyings[k].escrow, who, what)
            && |l1.buyings| == |l.buyings| && l1.buyings[k].escrow.amount == 0 && l1.buyings[k].expired
  {
    var b := l.buyings[k];
    AdjustGives(l, b.consumer, b.escrow, who, what);
    AdjustFrame(l, b.consumer, b.escrow);
  }

  /**
   * The answer that completes the quorum pays the authors, once; an answer after the expiry refunds the buyer, once;
   * every other answer moves nothing.
   */
  lemma DeliverGives(l: Ledger, seeder: AccountId, k: nat, who: AccountId, what: AssetId)
    requires k < |l.buyings| && l.buyings[k].content < |l.contents| && Deliver(l, seeder, k).Some?
    ensures var b, c := l.buyings[k], l.contents[l.buyings[k].content];
            var l1 := Deliver(l, seeder, k).value;
            var open := !b.delivered && !b.expired;
            var complete := |b.answered + {seeder}| >= c.quorum;
            && |l1.buyings| == |l.buyings| && l1.buyings[k].answered == b.answered + {seeder}
            && l1.buyings[k].delivered == (b.delivered || (open && complete))
            && l1.buyings[k].expired == (b.expired || (open && !complete && b.expiration < l.now))
            && BalanceOf(l1, who, what) == BalanceOf(l, who, what)
               + (if open && complete then FromPayout(b.paid, c.author, c.coAuthors, who, what)
                  else if open && b.expiration < l.now then For(b.consumer, b.escrow, who, what)
                  else 0)
  {
    var b := l.buyings[k].(answered := l.buyings[k].answered + {seeder});
    var c := l.contents[b.content];
    var l1 := SetBuying(l, k, b);
    SameBalances(l, l1, who, what);
    if b.delivered || b.expired {
    } else if |b.answered| >= c.quorum {
      PayoutGives(l1, b.paid, c.author, c.coAuthors, who, what);
      PayoutFrame(l1, b.paid, c.author, c.coAuthors);
    } else if b.expiration < l.now {
      ExpireBuyingGives(l1, k, who, what);
    }
  }

  /** The seeder has what the escrow has lost, and the proof is noted. */
  predicate SeederPaid(l: Ledger, l1: Ledger, seeder: AccountId, k: nat, pay: int, who: AccountId, what: AssetId)
    requires k < |l.contents|
  {
    && |l1.contents| == |l.contents|
    && l1.contents[k].lastProof == l.contents[k].lastProof[seeder := l.now]
    && l1.contents[k].escrow.amount == l.contents[k].escrow.amount - pay
    && BalanceOf(l1, who, what) == BalanceOf(l, who, what) + For(seeder, Coin(pay, CORE), who, what)
  }

  /** A first proof earns nothing, a repeated one what the escrow loses. */
  lemma ProveGives(l: Ledger, seeder: AccountId, k: nat, who: AccountId, what: AssetId)
    requires k < |l.contents| && Prove(l, seeder, k).Some?
    ensures SeederPaid(l, Prove(l, seeder, k).value, seeder, k,
                       if seeder in l.contents[k].lastProof then SeederPay(l, seeder, l.contents[k]) else 0, who, what)
  {
    if seeder in l.contents[k].lastProof {
      RepeatedProofGives(l, seeder, k, who, what);
    } else {
      SameBalances(l, Prove(l, seeder, k).value, who, what);
    }
  }

  lemma RepeatedProofGives(l: Ledger, seeder: AccountId, k: nat, who: AccountId, what: AssetId)
    requires k < |l.contents| && Prove(l, seeder, k).Some? && seeder in l.contents[k].lastProof
    ensures SeederPaid(l, Prove(l, seeder, k).value, seeder, k, SeederPay(l, seeder, l.contents[k]), who, what)
  {
    var c := l.contents[k];
    var pay := SeederPay(l, seeder, c);
    var proved := c.(lastProof := c.lastProof[seeder := l.now], escrow := Coin(c.escrow.amount - pay, CORE));
    assert Prove(l, seeder, k) == Adjust(SetContent(l, k, proved), seeder, Coin(pay, CORE));
    RepeatedGives(l, seeder, k, proved, pay, who, what);
  }

  lemma RepeatedGives(l: Ledger, seeder: AccountId, k: nat, c: Content, pay: int, who: AccountId, what: AssetId)
    requires k < |l.contents| && Adjust(SetContent(l, k, c), seeder, Coin(pay, CORE)).Some?
    requires c.lastProof == l.contents[k].lastProof[seeder := l.now] && c.escrow.amount == l.contents[k].escrow.amount - pay
    ensures SeederPaid(l, Adjust(SetContent(l, k, c), seeder, Coin(pay, CORE)).value, seeder, k, pay, who, what)
  {
    var l0 := SetContent(l, k, c);
    SameBalances(l, l0, who, what);
    AdjustGives(l0, seeder, Coin(pay, CORE), who, what);
    AdjustFrame(l0, seeder, Coin(pay, CORE));
  }

  /** What a repeated proof pays: by the price of the submission above the capped block, by today's before it. */
  function SeederPay(l: Ledger, seeder: AccountId, c: Content): int
    requires seeder in c.lastProof
  {
    var price := if l.height > CAP_BLOCK then (if seeder in c.seederPrice then c.seederPrice[seeder] else 0)
                 else if seeder in l.seeders then l.seeders[seeder] else 0;
    Payment(price, c.size, if l.now >= c.lastProof[seeder] then l.now - c.lastProof[seeder] else 0, c.escrow.amount, l.height)
  }

  /** The author gets the rest of the escrow; an overdrawn one is covered by another account. */
  lemma ExpireContentGives(l: Ledger, k: nat, who: AccountId, what: AssetId)
    requires k < |l.contents| && ExpireContent(l, k).Some?
    ensures var c := l.contents[k];
            var l1 := ExpireContent(l, k).value;
            && |l1.contents| == |l.contents| && l1.contents[k].escrow.amount == 0
            && BalanceOf(l1, who, what) == BalanceOf(l, who, what)
               + For(if c.escrow.amount >= 0 then c.author else RESCUER, c.escrow, who, what)
  {
    var c := l.contents[k];
    var owner := if c.escrow.amount >= 0 then c.author else RESCUER;
    AdjustGives(l, owner, c.escrow, who, what);
    AdjustFrame(l, owner, c.escrow);
  }

  /** The author pays the publishing fee into the new content's escrow. */
  lemma SubmitGives(l: Ledger, c: Content, who: AccountId, what: AssetId)
    requires Submit(l, c).Some?
    ensures var l1 := Submit(l, c).value;
            && l1.contents == l.contents + [c]
            && BalanceOf(l1, who, what) == BalanceOf(l, who, what) - For(c.author, c.escrow, who, what)
  {
    var l0 := l.(contents := l.contents + [c]);
    SameBalances(l, l0, who, what);
    AdjustGives(l0, c.author, Negated(c.escrow), who, what);
    AdjustFrame(l0, c.author, Negated(c.escrow));
  }

  /** The creator's coins are then in a vesting balance of the owner. */
  lemma VestGives(l: Ledger, creator: AccountId, owner: AccountId, amount: Coin, seconds: Option<nat>, who: AccountId, what: AssetId)
    requires Vest(l, creator, owner, amount, seconds).Some?
    ensures var l1 := Vest(l, creator, owner, amount, seconds).value;
            && l1.vestings == l.vestings + [Vesting(owner, amount, seconds)]
            && BalanceOf(l1, who, what) == BalanceOf(l, who, what) - For(creator, amount, who, what)
  {
    AdjustGives(l, creator, Negated(amount), who, what);
    AdjustFrame(l, creator, Negated(amount));
    var l0 := Adjust(l, creator, Negated(amount)).value;
    SameBalances(l0, l0.(vestings := l0.vestings + [Vesting(owner, amount, seconds)]), who, what);
  }

  lemma WithdrawGives(l: Ledger, owner: AccountId, k: nat, amount: Coin, who: AccountId, what: AssetId)
    requires k < |l.vestings| && Withdraw(l, owner, k, amount).Some?
    ensures var l1 := Withdraw(l, owner, k, amount).value;
            && |l1.vestings| == |l.vestings| && l1.vestings[k].balance.amount == l.vestings[k].balance.amount - amount.amount
            && BalanceOf(l1, who, what) == BalanceOf(l, who, what) + For(owner, amount, who, what)
  {
    var v := l.vestings[k];
    var l0 := SetVesting(l, k, v.(balance := Coin(v.balance.amount - amount.amount, amount.asset)));
    SameBalances(l, l0, who, what);
    AdjustGives(l0, owner, amount, who, what);
    AdjustFrame(l0, owner, amount);
  }
}
