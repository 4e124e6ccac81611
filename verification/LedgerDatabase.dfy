/**
 * The accounts as the node keeps them: tables that the operations change in place. A method that
 * returns false has thrown; what it changed until then is undone by whoever pushed the event.
 */
module LedgerDatabases {
  import opened Wrappers
  import opened Budgets
  import opened SeederRewards
  import opened LedgerSpec
  import opened LedgerRuns

  class LedgerDatabase {
    var balances: seq<Balance>
    var vestings: seq<Vesting>
    var contents: seq<Content>
    var buyings: seq<Buying>
    var assets: seq<Asset>
    var seeders: map<AccountId, nat>
    var pay: map<MinerId, nat>
    var now: nat
    var height: nat
    var budget: Budget

    ghost function State(): Ledger
      reads this
    {
      Ledger(balances, vestings, contents, buyings, assets, seeders, pay, now, height, budget)
    }

    /** The method came to an end exactly when the specification does, and in its state. */
    ghost predicate Became(o: Option<Ledger>, ok: bool)
      reads this
    {
      (ok <==> o.Some?) && (ok ==> State() == o.value)
    }

    /** The ledger of genesis. */
    constructor (supply: nat, holder: AccountId, issuer: AccountId, maxSupply: int)
      ensures State() == LedgerRuns.Genesis(supply, holder, issuer, maxSupply)
    {
      balances := [Balance(holder, CORE, supply)];
      vestings, contents, buyings := [], [], [];
      assets := [Asset(issuer, false, true, maxSupply, supply, 0, 0)];
      seeders, pay := map[], map[];
      now, height := 0, 0;
      budget := Budget(0, 0, 0, 0, 0);
    }

    // ---- balances ----

    method FindBalance(owner: AccountId, asset: AssetId) returns (k: nat)
      ensures k == Find(balances, owner, asset)
    {
      k := 0;
      while k < |balances| && !(balances[k].owner == owner && balances[k].asset == asset)
        invariant 0 <= k <= |balances|
        invariant forall i :: 0 <= i < k ==> !(balances[i].owner == owner && balances[i].asset == asset)
      {
        k := k + 1;
      }
      FindIs(balances, owner, asset, k);
    }

    method GetBalance(owner: AccountId, asset: AssetId) returns (amount: int)
      ensures amount == BalanceOf(State(), owner, asset)
    {
      var k := FindBalance(owner, asset);
      amount := if k < |balances| then balances[k].amount else 0;
    }

    method AdjustBalance(owner: AccountId, delta: Coin) returns (ok: bool)
      modifies this`balances
      ensures Became(Adjust(old(State()), owner, delta), ok)
    {
      if delta.amount == 0 {
        return true;
      }
      var k := FindBalance(owner, delta.asset);
      if k == |balances| {
        if delta.amount <= 0 { return false; }
        balances := balances + [Balance(owner, delta.asset, delta.amount)];
      } else {
        if delta.amount < 0 && balances[k].amount < -delta.amount { return false; }
        balances := balances[k := balances[k].(amount := balances[k].amount + delta.amount)];
      }
      ok := true;
    }

    method MoveCoins(from: AccountId, to: AccountId, amount: Coin) returns (ok: bool)
      modifies this`balances
      ensures Became(Move(old(State()), from, to, amount), ok)
    {
      ok := AdjustBalance(from, Negated(amount));
      if ok {
        ok := AdjustBalance(to, amount);
      }
    }

    // ---- paying the authors ----

    method ContentPayout(paid: Coin, author: AccountId, coAuthors: Split) returns (ok: bool)
      modifies this`balances
      ensures Became(Payout(old(State()), paid, author, coAuthors), ok)
    {
      if |coAuthors| == 0 {
        ok := AdjustBalance(author, paid);
        return;
      }
      var left := paid.amount;
      var k := 0;
      ghost var before := State();
      ghost var whole := PayParts(before, paid, coAuthors, 0, left);
      while k < |coAuthors|
        modifies this`balances
        invariant 0 <= k <= |coAuthors|
        invariant whole == PayParts(State(), paid, coAuthors, k, left)
      {
        var part := Part(paid.amount, coAuthors[k].1);
        ok := AdjustBalance(coAuthors[k].0, Coin(part, paid.asset));
        if !ok { return; }
        left := left - part;
        k := k + 1;
      }
      if left == 0 { return true; }
      if left < 0 { return false; }
      ok := AdjustBalance(author, Coin(left, paid.asset));
    }

    // ---- conversion ----

    method ConvertCoins(id: AssetId, from: Coin, m: Market) returns (ok: bool, to: Coin)
      requires id < |assets| && from.amount >= 0
      modifies this`assets
      ensures ok <==> Convert(old(State()), id, from, m).Some?
      ensures ok ==> Convert(old(State()), id, from, m) == Some((State(), to))
      ensures !ok ==> State() == old(State())
    {
      to := from;
      if id == CORE {
        return from.asset == CORE, from;
      }
      if assets[id].monitored {
        ok := m.feedValid(id) && (from.asset == CORE || from.asset == id);
        to := if from.asset == id then Coin(m.toCore(id, from.amount), CORE) else Coin(m.fromCore(id, from.amount), id);
        return;
      }
      if !assets[id].exchangeable { return false, to; }
      var poolDiff, coreDiff := 0, 0;
      if from.asset == id {
        to := Coin(m.toCore(id, from.amount), CORE);
        poolDiff, coreDiff := from.amount, -to.amount;
      } else {
        if from.asset != CORE { return false, to; }
        to := Coin(m.fromCore(id, from.amount), id);
        poolDiff, coreDiff := -to.amount, from.amount;
      }
      var a := assets[id];
      if a.pool + poolDiff < 0 || a.corePool + coreDiff < 0 { return false, to; }
      assets := assets[id := a.(pool := a.pool + poolDiff, corePool := a.corePool + coreDiff)];
      ok := true;
    }

    method ExchangeCoins(paid: Coin, offered: AssetId, wanted: AssetId, m: Market) returns (ok: bool, after: Coin)
      requires paid.amount >= 0 && paid.asset < |assets| && wanted < |assets|
      modifies this`assets
      ensures ok <==> Exchange(old(State()), paid, offered, wanted, m).Some?
      ensures ok ==> Exchange(old(State()), paid, offered, wanted, m) == Some((State(), after))
    {
      if wanted == offered { return true, paid; }
      var dct;
      ghost var before := State();
      ok, dct := ConvertCoins(paid.asset, paid, m);
      after := dct;
      if ok {
        ConvertFrame(before, paid.asset, paid, m);
        ok, after := ConvertCoins(wanted, dct, m);
      }
    }

    // ---- contents and purchases ----

    method SubmitNew(c: Content) returns (ok: bool)
      modifies this`contents, this`balances
      ensures Became(Submit(old(State()), c), ok)
    {
      contents := contents + [c];
      ok := AdjustBalance(c.author, Negated(c.escrow));
    }

    method BuyContent(consumer: AccountId, k: nat, price: Coin, subscriber: bool, m: Market) returns (ok: bool)
      requires k < |contents| && price.amount >= 0 && price.asset < |assets| && 0 < |assets| && contents[k].price.asset < |assets|
      modifies this
      ensures Became(Buy(old(State()), consumer, k, price, subscriber, m), ok)
    {
      var content := contents[k];
      var paid := if subscriber then Coin(0, CORE) else price;
      var after;
      ok, after := ExchangeCoins(paid, price.asset, content.price.asset, m);
      if ok {
        ok := RecordPurchase(consumer, k, content, paid, after);
      }
    }

    method RecordPurchase(consumer: AccountId, k: nat, content: Content, paid: Coin, after: Coin) returns (ok: bool)
      modifies this`balances, this`buyings
      ensures Became(FinishBuy(old(State()), consumer, k, content, paid, after), ok)
    {
      var delivered, escrow := false, after;
      if |content.keyParts| == 0 {
        delivered, escrow := true, Coin(0, CORE);
      }
      buyings := buyings + [Buying(consumer, k, escrow, after, {}, delivered, false, now + 24 * 3600)];
      ok := AdjustBalance(consumer, Negated(paid));
      if ok && delivered {
        ok := ContentPayout(after, content.author, content.coAuthors);
      }
    }

    method BuyingExpire(k: nat) returns (ok: bool)
      requires k < |buyings|
      modifies this`balances, this`buyings
      ensures Became(ExpireBuying(old(State()), k), ok)
    {
      var b := buyings[k];
      ok := AdjustBalance(b.consumer, b.escrow);
      if ok {
        buyings := buyings[k := b.(escrow := b.escrow.(amount := 0), expired := true)];
      }
    }

    method DeliverKeys(seeder: AccountId, k: nat) returns (ok: bool)
      requires k < |buyings| && buyings[k].content < |contents|
      modifies this`balances, this`buyings
      ensures Became(Deliver(old(State()), seeder, k), ok)
    {
      var content := contents[buyings[k].content];
      if seeder !in buyings[k].answered {
        buyings := buyings[k := buyings[k].(answered := buyings[k].answered + {seeder})];
      }
      ghost var answered := old(buyings[k]).answered + {seeder};
      assert buyings[k].answered == answered;
      assert buyings == old(buyings)[k := old(buyings[k]).(answered := answered)];
      var b := buyings[k];
      if b.delivered || b.expired { return true; }
      if |b.answered| >= content.quorum {
        ok := ContentPayout(b.paid, content.author, content.coAuthors);
        if ok {
          buyings := buyings[k := b.(escrow := b.escrow.(amount := 0), delivered := true)];
        }
      } else if b.expiration < now {
        ok := BuyingExpire(k);
      } else {
        ok := true;
      }
    }

    method ProofOfCustody(seeder: AccountId, k: nat) returns (ok: bool)
      requires k < |contents|
      modifies this`balances, this`contents
      ensures Became(Prove(old(State()), seeder, k), ok)
    {
      if seeder !in seeders { return false; }
      var c := contents[k];
      if seeder !in c.lastProof {
        contents := contents[k := c.(lastProof := c.lastProof[seeder := now])];
        return true;
      }
      var price := seeders[seeder];
      if height > CAP_BLOCK {
        if seeder !in c.seederPrice { return false; }
        price := c.seederPrice[seeder];
      }
      var elapsed := if now >= c.lastProof[seeder] then now - c.lastProof[seeder] else 0;
      var reward: int := Reward(price, c.size, elapsed);
      if height > CAP_BLOCK && reward > c.escrow.amount {
        reward := if c.escrow.amount > 0 then c.escrow.amount else 0;
      }
      if c.escrow.asset != CORE { return false; }
      contents := contents[k := c.(lastProof := c.lastProof[seeder := now], escrow := Coin(c.escrow.amount - reward, CORE))];
      ok := AdjustBalance(seeder, Coin(reward, CORE));
    }

    // ---- vesting balances and assets ----

    method CreateVestingBalance(creator: AccountId, owner: AccountId, amount: Coin, seconds: Option<nat>) returns (ok: bool)
      modifies this`balances, this`vestings
      ensures Became(Vest(old(State()), creator, owner, amount, seconds), ok)
    {
      var held := GetBalance(creator, amount.asset);
      if held < amount.amount { return false; }
      ok := AdjustBalance(creator, Negated(amount));
      if ok {
        vestings := vestings + [Vesting(owner, amount, seconds)];
      }
    }

    method WithdrawVestingBalance(owner: AccountId, k: nat, amount: Coin) returns (ok: bool)
      requires k < |vestings|
      modifies this`balances, this`vestings
      ensures Became(Withdraw(old(State()), owner, k, amount), ok)
    {
      var v := vestings[k];
      vestings := vestings[k := v.(balance := Coin(v.balance.amount - amount.amount, amount.asset))];
      ok := AdjustBalance(owner, amount);
    }

    method ChangeAssetSupply(account: AccountId, amount: Coin) returns (ok: bool)
      requires amount.asset < |assets|
      modifies this`balances, this`assets
      ensures Became(ChangeSupply(old(State()), account, amount), ok)
    {
      ok := AdjustBalance(account, amount);
      if ok {
        var a := assets[amount.asset];
        assets := assets[amount.asset := a.(supply := a.supply + amount.amount)];
      }
    }

    /** Nothing is moved for an amount of zero. */
    method MoveIntoPools(account: AccountId, uia: Coin, dct: int) returns (ok: bool)
      requires uia.asset < |assets|
      modifies this`balances, this`assets
      ensures Became(MovePools(old(State()), account, uia, dct), ok)
    {
      ok := true;
      if uia.amount != 0 {
        ok := AdjustBalance(account, Negated(uia));
        if !ok { return; }
        var a := assets[uia.asset];
        assets := assets[uia.asset := a.(pool := a.pool + uia.amount)];
      }
      ghost var pools := assets;
      if dct != 0 {
        ok := AdjustBalance(account, Coin(-dct, CORE));
        if !ok { return; }
        var a := assets[uia.asset];
        assets := assets[uia.asset := a.(corePool := a.corePool + dct)];
      }
    }

    // ---- fees and dispatch ----

    method ConvertAndPayFee(fee: Coin, coreFee: nat)
      requires fee.asset < |assets|
      modifies this`assets
      ensures State() == PayFee(ConvertFee(old(State()), fee, coreFee), coreFee)
    {
      if fee.asset != CORE {
        var a := assets[fee.asset];
        assets := assets[fee.asset := a.(pool := a.pool + fee.amount, corePool := a.corePool - coreFee)];
      }
      assets := assets[CORE := assets[CORE].(pool := assets[CORE].pool + coreFee)];
    }

    method DoApply(op: Op, half: nat, m: Market) returns (ok: bool)
      requires Applicable(State(), op)
      modifies this
      ensures Became(Apply(old(State()), op, half, m), ok)
    {
      match op
      case Transfer(from, to, amount) => ok := MoveCoins(from, to, amount);
      case TransferToContent(from, k, amount) =>
        var content := contents[k];
        ok := AdjustBalance(from, Negated(amount));
        if ok { ok := ContentPayout(amount, content.author, content.coAuthors); }
      case CreateVesting(creator, owner, amount, seconds) => ok := CreateVestingBalance(creator, owner, amount, seconds);
      case WithdrawVesting(owner, k, amount, _) => ok := WithdrawVestingBalance(owner, k, amount);
      case IssueAsset(_, to, amount) => ok := ChangeAssetSupply(to, amount);
      case ReserveAsset(payer, amount) => ok := ChangeAssetSupply(payer, Negated(amount));
      case FundPools(from, uia, dct) => ok := MoveIntoPools(from, uia, dct);
      case ClaimFees(issuer, uia, dct) => ok := MoveIntoPools(issuer, Negated(uia), -dct);
      case CreateAsset(issuer, monitored, exchangeable, maxSupply) =>
        assets := assets + [Asset(issuer, monitored, exchangeable, maxSupply, 0, 0, half)];
        ok := true;
      case PublishSeeder(seeder, price) =>
        seeders := seeders[seeder := price];
        ok := true;
      case SubmitContent(author, coAuthors, price, publishers, size, quorum, expiration, fee) =>
        var prices := map s | s in publishers :: seeders[s];
        ok := SubmitNew(Content(author, coAuthors, price, (set s | s in publishers), quorum, size, expiration, fee, prices, map[]));
      case ResubmitContent(k, _, coAuthors, price) =>
        contents := contents[k := contents[k].(coAuthors := coAuthors, price := price)];
        ok := true;
      case RequestToBuy(consumer, k, price, subscriber) => ok := BuyContent(consumer, k, price, subscriber, m);
      case DeliverKeys(seeder, k) => ok := DeliverKeys(seeder, k);
      case ProveCustody(seeder, k) => ok := ProofOfCustody(seeder, k);
    }

    // ---- miners and maintenance ----

    method DepositLazyVesting(existing: Option<nat>, amount: int, seconds: nat, owner: AccountId) returns (ok: bool, created: Option<nat>)
      modifies this`vestings
      ensures ok <==> DepositLazy(old(State()), existing, amount, seconds, owner).Some?
      ensures ok ==> DepositLazy(old(State()), existing, amount, seconds, owner) == Some((State(), created))
    {
      if amount == 0 { return true, None; }
      if existing.Some? {
        if existing.value >= |vestings| { return false, None; }
        var v := vestings[existing.value];
        if v.owner == owner && v.seconds == Some(seconds) {
          if v.balance.asset != CORE { return false, None; }
          vestings := vestings[existing.value := v.(balance := Coin(v.balance.amount + amount, CORE))];
          return true, None;
        }
      }
      vestings := vestings + [Vesting(owner, Coin(amount, CORE), Some(seconds))];
      return true, Some(|vestings| - 1);
    }

    method UpdateSigningMiner(miner: MinerId, account: AccountId, seconds: nat, interval: nat) returns (ok: bool)
      requires interval > 0
      modifies this
      ensures Became(PayMiner(old(State()), miner, account, seconds, interval), ok)
    {
      var blocks := BlocksInInterval(budget.nextMaintenance, budget.lastBudget, interval);
      var fromFees := FeePay(budget.fromFees, blocks);
      var reward := RewardAt(height);
      budget := budget.(mined := budget.mined + reward, unspent := budget.unspent - fromFees);
      var created;
      ok, created := DepositLazyVesting(if miner in pay then Some(pay[miner]) else None, fromFees + reward, seconds, account);
      if ok && created.Some? {
        pay := pay[miner := created.value];
      }
    }

    method ContentExpire(k: nat) returns (ok: bool)
      requires k < |contents|
      modifies this`balances, this`contents
      ensures Became(ExpireContent(old(State()), k), ok)
    {
      var c := contents[k];
      if c.escrow.amount >= 0 {
        ok := AdjustBalance(c.author, c.escrow);
      } else {
        ok := AdjustBalance(RESCUER, c.escrow);
      }
      if ok {
        contents := contents[k := c.(escrow := c.escrow.(amount := 0))];
      }
    }

    /** The two walks by expiration time, in the order of the indexes. */
    method Housekeeping(listing: Listing, interval: nat) returns (ok: bool)
      modifies this`balances, this`contents, this`buyings
      ensures Became(var l1 :- ExpireContents(old(State()), listing.contents, interval); ExpireBuyings(l1, listing.buyings, interval), ok)
    {
      ok := ExpireListedContents(listing.contents, interval);
      if ok {
        ok := ExpireListedBuyings(listing.buyings, interval);
      }
    }

    method ExpireListedContents(order: seq<nat>, interval: nat) returns (ok: bool)
      modifies this`balances, this`contents
      ensures Became(ExpireContents(old(State()), order, interval), ok)
    {
      var i := 0;
      ghost var whole := ExpireContents(State(), order, interval);
      assert order[0..] == order;
      while i < |order|
        modifies this`balances, this`contents
        invariant 0 <= i <= |order|
        invariant whole == ExpireContents(State(), order[i..], interval)
        invariant budget == old(budget) && now == old(now)
      {
        assert order[i..][1..] == order[i + 1..];
        var k := order[i];
        if k < |contents| && budget.lastBudget + interval <= contents[k].expiration <= now {
          ok := ContentExpire(k);
          if !ok { return; }
        }
        i := i + 1;
      }
      ok := true;
    }

    method ExpireListedBuyings(order: seq<nat>, interval: nat) returns (ok: bool)
      modifies this`balances, this`buyings
      ensures Became(ExpireBuyings(old(State()), order, interval), ok)
    {
      var i := 0;
      ghost var whole := ExpireBuyings(State(), order, interval);
      assert order[0..] == order;
      while i < |order|
        modifies this`balances, this`buyings
        invariant 0 <= i <= |order|
        invariant whole == ExpireBuyings(State(), order[i..], interval)
        invariant budget == old(budget) && now == old(now)
      {
        assert order[i..][1..] == order[i + 1..];
        var k := order[i];
        if k < |buyings| && budget.lastBudget + interval <= buyings[k].expiration <= now && !buyings[k].delivered {
          ok := BuyingExpire(k);
          if !ok { return; }
        }
        i := i + 1;
      }
      ok := true;
    }

    method RenewSubscriptions(renewals: seq<Renewal>) returns (ok: bool)
      modifies this`balances
      ensures Became(Renew(old(State()), renewals), ok)
    {
      var k := 0;
      ghost var whole := Renew(State(), renewals);
      assert renewals[0..] == renewals;
      while k < |renewals|
        modifies this`balances
        invariant 0 <= k <= |renewals|
        invariant whole == Renew(State(), renewals[k..])
      {
        var r := renewals[k];
        var held := GetBalance(r.from, r.price.asset);
        RenewalNext(State(), renewals, k);
        if r.price.amount <= held {
          ok := MoveCoins(r.from, r.to, r.price);
          if !ok { return; }
        }
        k := k + 1;
      }
      ok := true;
    }

    method GetRealSupply() returns (total: int)
      ensures total == RealSupply(State())
    {
      var inBalances, inVestings, inEscrows, inPools := 0, 0, 0, 0;
      for k := 0 to |balances|
        invariant inBalances == Sum(balances[..k], CoreBalance)
      {
        assert balances[..k + 1][..k] == balances[..k];
        if balances[k].asset == CORE { inBalances := inBalances + balances[k].amount; }
      }
      assert balances[..|balances|] == balances;
      for k := 0 to |vestings|
        invariant inVestings == Sum(vestings[..k], VestingAmount)
      {
        assert vestings[..k + 1][..k] == vestings[..k];
        inVestings := inVestings + vestings[k].balance.amount;
      }
      assert vestings[..|vestings|] == vestings;
      for k := 0 to |contents|
        invariant inEscrows == Sum(contents[..k], ContentAmount)
      {
        assert contents[..k + 1][..k] == contents[..k];
        inEscrows := inEscrows + contents[k].escrow.amount;
      }
      assert contents[..|contents|] == contents;
      for k := 0 to |buyings|
        invariant inEscrows == Sum(contents, ContentAmount) + Sum(buyings[..k], BuyingAmount)
      {
        assert buyings[..k + 1][..k] == buyings[..k];
        inEscrows := inEscrows + buyings[k].escrow.amount;
      }
      assert buyings[..|buyings|] == buyings;
      for k := 0 to |assets|
        invariant inPools == Sum(assets[..k], CorePool)
      {
        assert assets[..k + 1][..k] == assets[..k];
        inPools := inPools + assets[k].corePool;
      }
      assert assets[..|assets|] == assets;
      total := inBalances + inVestings + inEscrows + inPools;
    }

    /** Tells whether the assertion held. */
    method RollBudget() returns (asserted: bool)
      requires 0 < |assets|
      modifies this`assets, this`budget
      ensures State() == ProcessBudget(old(State()))
      ensures asserted <==> AssertionHolds(old(State()))
    {
      var counted := GetRealSupply();
      var core := assets[CORE];
      var accumulated := core.pool + budget.unspent;
      var generated := budget.mined + budget.fromFees - budget.unspent;
      var delta := generated - core.pool;
      assets := assets[CORE := core.(supply := core.supply + delta, pool := 0)];
      asserted := assets[CORE].supply == counted;
      budget := budget.(fromFees := accumulated, unspent := accumulated, mined := 0, lastBudget := now);
    }

    method PerformMaintenance(listing: Listing, renewals: seq<Renewal>, next: nat, interval: nat) returns (ok: bool, asserted: bool)
      modifies this
      ensures Became(Maintain(old(State()), listing, renewals, next, interval), ok)
      ensures ok ==> BeforeBudget(old(State()), listing, renewals, interval).Some?
      ensures ok ==> var l := BeforeBudget(old(State()), listing, renewals, interval).value;
                     0 < |l.assets| && (asserted <==> AssertionHolds(l))
    {
      asserted := false;
      ok := Housekeeping(listing, interval);
      if !ok { return; }
      ok := RenewSubscriptions(renewals);
      if !ok { return; }
      if |assets| == 0 { return false, false; }
      ghost var l := State();
      budget := budget.(nextMaintenance := next);
      asserted := RollBudget();
      assert ProcessBudget(l).assets[CORE].supply == assets[CORE].supply;
    }

    // ---- events ----

    method Operate(payer: AccountId, fee: Coin, op: Op, m: Market) returns (ok: bool)
      modifies this
      ensures Became(Perform(old(State()), payer, fee, op, m), ok)
    {
      var l := Ledger(balances, vestings, contents, buyings, assets, seeders, pay, now, height, budget);
      var coreFee := PrepareFee(l, fee, m);
      if coreFee.None? || !Evaluates(l, op, m) || |assets| == 0 { return false; }
      var share := FeeShare(op, coreFee.value);
      ConvertAndPayFee(fee, share);
      var l1 := Ledger(balances, vestings, contents, buyings, assets, seeders, pay, now, height, budget);
      if !Applicable(l1, op) { return false; }
      ok := DoApply(op, share, m);
      if ok {
        ok := AdjustBalance(payer, Negated(fee));
      }
    }

    method DoEvent(e: Event, interval: nat) returns (ok: bool)
      requires interval > 0
      modifies this
      ensures Became(Outcome(old(State()), e, interval), ok)
    {
      match e {
        case Operate(payer, fee, op, market) => ok := Operate(payer, fee, op, market);
        case Produce(miner, account, seconds) => ok := UpdateSigningMiner(miner, account, seconds, interval);
        case Maintenance(listing, renewals, next) =>
          var asserted;
          ok, asserted := PerformMaintenance(listing, renewals, next, interval);
        case Tick(time, block) =>
          now, height := time, block;
          ok := true;
      }
    }

    /** A transaction or block that throws leaves no trace, whatever of it was done before. */
    method Push(es: seq<Event>, interval: nat) returns (ok: bool)
      requires interval > 0
      modifies this
      ensures State() == LedgerRuns.Step(old(State()), es, interval)
      ensures ok <==> All(old(State()), es, interval).Some?
    {
      var saved := Ledger(balances, vestings, contents, buyings, assets, seeders, pay, now, height, budget);
      ok := DoEvents(es, interval);
      if !ok {
        balances, vestings, contents, buyings := saved.balances, saved.vestings, saved.contents, saved.buyings;
        assets, seeders, pay := saved.assets, saved.seeders, saved.pay;
        now, height, budget := saved.now, saved.height, saved.budget;
      }
    }

    method DoEvents(es: seq<Event>, interval: nat) returns (ok: bool)
      requires interval > 0
      modifies this
      ensures Became(All(old(State()), es, interval), ok)
    {
      ghost var whole := All(State(), es, interval);
      assert es[0..] == es;
      for k := 0 to |es|
        invariant whole == All(State(), es[k..], interval)
      {
        assert es[k..][1..] == es[k + 1..];
        ok := DoEvent(es[k], interval);
        if !ok { return; }
      }
      ok := true;
    }
  }

  lemma RenewalNext(l: Ledger, renewals: seq<Renewal>, k: nat)
    requires k < |renewals|
    ensures var r := renewals[k];
            Renew(l, renewals[k..])
            == if r.price.amount > BalanceOf(l, r.from, r.price.asset) then Renew(l, renewals[k + 1..])
               else var moved := Move(l, r.from, r.to, r.price);
                    if moved.None? then None else Renew(moved.value, renewals[k + 1..])
  {
    assert renewals[k..][1..] == renewals[k + 1..];
  }
}
