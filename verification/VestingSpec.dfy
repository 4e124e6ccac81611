/**
 * Vesting balances: linear ones, that free their begin balance over a span of time, and coin-days
 * ones, that earn coin-seconds while they are held. Amounts are in the asset of the balance.
 */
module VestingSpec {
  import opened ModularArithmetic

  datatype Policy =
    | Linear(begin: nat, cliff: nat, duration: nat, beginBalance: nat)
    | CoinDays(seconds: nat, startClaim: nat, earned: nat, last: nat)

  datatype Locked = Locked(balance: int, policy: Policy)

  // ---- coin days ----

  /** The coin-seconds that free one coin. */
  function Weight(seconds: nat): (w: nat)
    ensures w >= 1 && w >= seconds
  {
    if seconds > 1 then seconds else 1
  }

  function Smaller(a: nat, b: nat): nat { if a <= b then a else b }

  /** Coin-seconds earned up to now, at most what frees the whole balance. */
  function Earned(p: Policy, balance: nat, now: nat): nat
    requires p.CoinDays? && now >= p.last
  {
    Smaller(p.earned + Product(balance, now - p.last), Product(balance, Weight(p.seconds)))
  }

  function Updated(p: Policy, balance: nat, now: nat): Policy
    requires p.CoinDays? && now >= p.last
  {
    p.(earned := Earned(p, balance, now), last := now)
  }

  /** No more has been earned than frees the whole balance. */
  predicate Covered(l: Locked) {
    l.policy.CoinDays? ==> l.balance >= 0 && l.policy.earned <= l.balance * Weight(l.policy.seconds)
  }

  /** Accrual in two steps is accrual in one. */
  lemma TwoSteps(p: Policy, balance: nat, t1: nat, t2: nat)
    requires p.CoinDays? && p.last <= t1 <= t2
    ensures Earned(Updated(p, balance, t1), balance, t2) == Earned(p, balance, t2)
    ensures Updated(Updated(p, balance, t1), balance, t2) == Updated(p, balance, t2)
  {
    Distribute(t1 - p.last, t2 - t1, balance);
  }

  // ---- linear ----

  /** What has vested: nothing before the cliff, everything after the duration. */
  function Vested(p: Policy, now: nat): (v: nat)
    requires p.Linear?
    ensures v <= p.beginBalance
  {
    if now <= p.begin || now - p.begin < p.cliff then 0
    else if now - p.begin < p.duration then
      PartOf(p.beginBalance, now - p.begin, p.duration);
      Product(p.beginBalance, now - p.begin) / p.duration
    else p.beginBalance
  }

  lemma PartOf(whole: nat, part: nat, parts: nat)
    requires parts > 0 && part <= parts
    ensures 0 <= whole * part / parts <= whole
  {
    assert whole * part <= whole * parts;
    FloorMonotone(whole * part, whole * parts, parts);
    ExactQuotient(whole, parts);
  }

  lemma VestedMonotone(p: Policy, t1: nat, t2: nat)
    requires p.Linear? && t1 <= t2
    ensures Vested(p, t1) <= Vested(p, t2)
  {
    if t1 > p.begin && p.cliff <= t1 - p.begin && t2 - p.begin < p.duration {
      Distribute(t1 - p.begin, t2 - t1, p.beginBalance);
      FloorMonotone(Product(p.beginBalance, t1 - p.begin), Product(p.beginBalance, t2 - p.begin), p.duration);
    }
  }

  predicate PastCliff(p: Policy, now: nat)
    requires p.Linear?
  {
    now > p.begin && now - p.begin >= p.cliff
  }

  /** The assertions of the linear get_allowed_withdraw. */
  predicate LinearAsserts(l: Locked, now: nat)
    requires l.policy.Linear?
  {
    PastCliff(l.policy, now) ==>
      && l.policy.beginBalance - l.balance >= 0
      && Vested(l.policy, now) - (l.policy.beginBalance - l.balance) >= 0
  }

  // ---- withdrawals and deposits ----

  /** What may be withdrawn now. */
  function Allowed(l: Locked, now: nat): int
    requires l.policy.CoinDays? ==> now >= l.policy.last && l.balance >= 0
  {
    match l.policy
    case Linear(_, _, _, beginBalance) =>
      if PastCliff(l.policy, now) then Vested(l.policy, now) - (beginBalance - l.balance) else 0
    case CoinDays(seconds, startClaim, _, _) =>
      if now <= startClaim then 0 else Earned(l.policy, l.balance, now) / Weight(seconds)
  }

  /** Every assertion on the way of a withdrawal. */
  predicate WithdrawAsserts(l: Locked, now: nat, amount: int)
    requires l.policy.CoinDays? ==> now >= l.policy.last && l.balance >= 0
  {
    && (l.policy.Linear? ==> LinearAsserts(l, now))
    && (l.policy.CoinDays? && now > l.policy.startClaim ==> Allowed(l, now) <= l.balance)
    && (amount <= Allowed(l, now) ==>
          && amount <= l.balance
          && (l.policy.CoinDays? ==> amount * Weight(l.policy.seconds) <= Earned(l.policy, l.balance, now)))
  }

  function Deposited(l: Locked, now: nat, amount: nat): Locked
    requires l.policy.CoinDays? ==> now >= l.policy.last && l.balance >= 0
  {
    if l.policy.CoinDays? then Locked(l.balance + amount, Updated(l.policy, l.balance, now))
    else l.(balance := l.balance + amount)
  }

  /** Coins that vest at once bring their coin-seconds along. */
  function DepositedVested(l: Locked, now: nat, amount: nat): Locked
    requires l.policy.CoinDays? && now >= l.policy.last && l.balance >= 0
  {
    var p := Updated(l.policy, l.balance, now);
    Locked(l.balance + amount, p.(earned := p.earned + Product(amount, Weight(p.seconds))))
  }

  function Withdrawn(l: Locked, now: nat, amount: nat): Locked
    requires l.policy.CoinDays? ==> now >= l.policy.last && l.balance >= 0
    requires l.policy.CoinDays? ==> amount * Weight(l.policy.seconds) <= Earned(l.policy, l.balance, now)
  {
    if l.policy.CoinDays? then
      var p := Updated(l.policy, l.balance, now);
      Locked(l.balance - amount, p.(earned := p.earned - Product(amount, Weight(p.seconds))))
    else l.(balance := l.balance - amount)
  }

  /** While no more is earned than frees the balance, no assertion of a coin-days withdrawal fires. */
  lemma CoinDaysAsserts(l: Locked, now: nat, amount: int)
    requires l.policy.CoinDays? && Covered(l) && now >= l.policy.last
    ensures WithdrawAsserts(l, now, amount)
    ensures amount <= 0 ==> amount * Weight(l.policy.seconds) <= 0
  {
    var w := Weight(l.policy.seconds);
    var e := Earned(l.policy, l.balance, now);
    var q := e / w;
    FloorMonotone(e, l.balance * w, w);
    ExactQuotient(l.balance, w);
    assert q * w <= e;
    if amount <= q { ProductOrder(amount, q, w); }
    if amount <= 0 { ProductOrder(amount, 0, w); }
    ProductOrder(0, l.balance, w);
  }

  // ---- runs of a coin-days balance ----

  datatype Event =
    | Deposit(now: nat, amount: nat)
    | DepositVested(now: nat, amount: nat)
    | Withdraw(now: nat, amount: nat)

  /** The balance with the history of its run: what went in, what was granted, and the coin-seconds it was held. */
  datatype Book = Book(l: Locked, paidIn: nat, withdrawn: nat, held: nat, granted: nat)

  predicate Open(b: Book) {
    b.l.policy.CoinDays? && Covered(b.l)
  }

  /** An event; a withdrawal that is not allowed changes nothing. */
  function Step(b: Book, e: Event): Book
    requires Open(b) && e.now >= b.l.policy.last
  {
    var held := b.held + Product(b.l.balance, e.now - b.l.policy.last);
    match e
    case Deposit(now, amount) => Book(Deposited(b.l, now, amount), b.paidIn + amount, b.withdrawn, held, b.granted)
    case DepositVested(now, amount) =>
      Book(DepositedVested(b.l, now, amount), b.paidIn + amount, b.withdrawn, held,
           b.granted + Product(amount, Weight(b.l.policy.seconds)))
    case Withdraw(now, amount) =>
      if amount <= Allowed(b.l, now) then
        CoinDaysAsserts(b.l, now, amount);
        Book(Withdrawn(b.l, now, amount), b.paidIn, b.withdrawn + amount, held, b.granted)
      else b
  }

  predicate Ordered(last: nat, es: seq<Event>)
    decreases |es|
  {
    |es| > 0 ==> last <= es[0].now && Ordered(es[0].now, es[1..])
  }

  lemma {:induction false} OrderedFromEarlier(t: nat, last: nat, es: seq<Event>)
    requires Ordered(last, es) && t <= last
    ensures Ordered(t, es)
  {
  }

  function Run(b: Book, es: seq<Event>): Book
    requires Open(b) && Ordered(b.l.policy.last, es)
    decreases |es|
  {
    if |es| == 0 then b
    else
      StepStaysOpen(b, es[0]);
      OrderedFromEarlier(Step(b, es[0]).l.policy.last, es[0].now, es[1..]);
      Run(Step(b, es[0]), es[1..])
  }

  /**
   * What every event keeps: no more is earned than frees the balance; coins are conserved; and coin-seconds
   * come only from holding coins and from grants, and go with withdrawals.
   */
  lemma StepStaysOpen(b: Book, e: Event)
    requires Open(b) && e.now >= b.l.policy.last
    ensures Open(Step(b, e)) && b.l.policy.last <= Step(b, e).l.policy.last <= e.now
    ensures Step(b, e).l.policy.seconds == b.l.policy.seconds
  {
    var w := Weight(b.l.policy.seconds);
    Distribute(b.l.balance, e.amount, w);
    if e.Withdraw? && e.amount <= Allowed(b.l, e.now) {
      CoinDaysAsserts(b.l, e.now, e.amount);
      Distribute(b.l.balance - e.amount, e.amount, w);
    }
  }

  predicate Balanced(b: Book, b0: Book)
    requires Open(b) && Open(b0)
  {
    && b.l.balance + b.withdrawn == b0.l.balance + b.paidIn
    && b.l.policy.earned + b.withdrawn * Weight(b.l.policy.seconds) <= b0.l.policy.earned + b.held + b.granted
    && b.l.policy.seconds == b0.l.policy.seconds
  }

  lemma StepStaysBalanced(b: Book, e: Event, b0: Book)
    requires Open(b) && Open(b0) && Balanced(b, b0) && e.now >= b.l.policy.last
    ensures Open(Step(b, e)) && Balanced(Step(b, e), b0)
  {
    StepStaysOpen(b, e);
    var w := Weight(b.l.policy.seconds);
    if e.Withdraw? && e.amount <= Allowed(b.l, e.now) {
      CoinDaysAsserts(b.l, e.now, e.amount);
      Distribute(b.withdrawn, e.amount, w);
    }
  }

  lemma {:induction false} RunStaysBalanced(b: Book, es: seq<Event>, b0: Book)
    requires Open(b) && Open(b0) && Balanced(b, b0) && Ordered(b.l.policy.last, es)
    ensures Open(Run(b, es)) && Balanced(Run(b, es), b0)
    decreases |es|
  {
    if |es| > 0 {
      StepStaysOpen(b, es[0]);
      StepStaysBalanced(b, es[0], b0);
      OrderedFromEarlier(Step(b, es[0]).l.policy.last, es[0].now, es[1..]);
      RunStaysBalanced(Step(b, es[0]), es[1..], b0);
    }
  }

  /**
   * Over every run of deposits, vested deposits and withdrawals: the coin-seconds earned never exceed what frees the
   * balance, no assertion fires for any withdrawal then tried, nothing is lost, and all that was withdrawn was paid for
   * by coin-seconds that were there, accrued or granted.
   */
  lemma RunIsSafe(l: Locked, es: seq<Event>, now: nat, amount: int)
    requires l.policy.CoinDays? && Covered(l) && Ordered(l.policy.last, es)
    ensures var b := Run(Book(l, 0, 0, 0, 0), es);
            && Covered(b.l) && b.l.balance >= 0
            && b.l.balance + b.withdrawn == l.balance + b.paidIn
            && b.withdrawn * Weight(l.policy.seconds) <= l.policy.earned + b.held + b.granted
            && b.l.policy.CoinDays?
            && (now >= b.l.policy.last ==> WithdrawAsserts(b.l, now, amount))
  {
    var b0 := Book(l, 0, 0, 0, 0);
    RunStaysBalanced(b0, es, b0);
    var b := Run(b0, es);
    if now >= b.l.policy.last { CoinDaysAsserts(b.l, now, amount); }
  }

  // ---- runs of a linear balance ----

  /**
   * An event on a linear balance, assertions aside: deposits are let in although the policy's documentation says that
   * there are none, vested deposits throw, and so does a withdrawal that is not allowed.
   */
  function LinearStep(b: Book, e: Event): Book
    requires b.l.policy.Linear?
  {
    match e
    case Deposit(now, amount) => b.(l := Deposited(b.l, now, amount), paidIn := b.paidIn + amount)
    case DepositVested(_, _) => b
    case Withdraw(now, amount) =>
      if 0 < amount <= Allowed(b.l, now) then b.(l := Withdrawn(b.l, now, amount), withdrawn := b.withdrawn + amount) else b
  }

  function LinearRun(b: Book, es: seq<Event>): (r: Book)
    requires b.l.policy.Linear?
    ensures r.l.policy == b.l.policy
    decreases |es|
  {
    if |es| == 0 then b else LinearRun(LinearStep(b, es[0]), es[1..])
  }

  /** Coins are conserved, and what is gone beyond the deposits has vested by the time of the last event. */
  predicate LinearSound(b: Book, last: nat) {
    && b.l.policy.Linear?
    && b.l.balance + b.withdrawn == b.l.policy.beginBalance + b.paidIn
    && b.withdrawn <= b.paidIn + Vested(b.l.policy, last)
  }

  lemma LinearStepSound(b: Book, e: Event, last: nat)
    requires LinearSound(b, last) && last <= e.now
    ensures LinearSound(LinearStep(b, e), e.now)
  {
    VestedMonotone(b.l.policy, last, e.now);
  }

  lemma {:induction false} LinearRunSound(b: Book, es: seq<Event>, last: nat, now: nat)
    requires LinearSound(b, last) && Ordered(last, es) && last <= now && forall i :: 0 <= i < |es| ==> es[i].now <= now
    ensures LinearSound(LinearRun(b, es), now)
    decreases |es|
  {
    if |es| == 0 {
      VestedMonotone(b.l.policy, last, now);
    } else {
      LinearStepSound(b, es[0], last);
      assert forall i :: 0 <= i < |es[1..]| ==> es[1..][i] == es[i + 1];
      LinearRunSound(LinearStep(b, es[0]), es[1..], es[0].now, now);
    }
  }

  /**
   * Over every run of deposits and withdrawals from a fresh linear balance, at any time after them: the assertions of a
   * withdrawal past the cliff hold exactly when no more was added than withdrawn. Whether they hold or not, no coin is
   * lost, nobody is allowed more than the balance, and no more was withdrawn than was added or has vested.
   */
  lemma LinearRunExactly(l: Locked, es: seq<Event>, now: nat, amount: int)
    requires l.policy.Linear? && l.balance == l.policy.beginBalance
    requires Ordered(0, es) && forall i :: 0 <= i < |es| ==> es[i].now <= now
    ensures var b := LinearRun(Book(l, 0, 0, 0, 0), es);
            && (LinearAsserts(b.l, now) <==> !PastCliff(l.policy, now) || b.paidIn <= b.withdrawn)
            && b.l.balance + b.withdrawn == l.balance + b.paidIn
            && b.withdrawn <= b.paidIn + Vested(l.policy, now)
            && 0 <= b.l.balance && (amount <= Allowed(b.l, now) ==> amount <= b.l.balance)
  {
    LinearRunSound(Book(l, 0, 0, 0, 0), es, 0, now);
  }

  lemma {:induction false} NoDeposits(b: Book, es: seq<Event>)
    requires b.l.policy.Linear? && forall i :: 0 <= i < |es| ==> !es[i].Deposit?
    ensures LinearRun(b, es).paidIn == b.paidIn
    decreases |es|
  {
    if |es| > 0 {
      assert forall i :: 0 <= i < |es[1..]| ==> es[1..][i] == es[i + 1];
      NoDeposits(LinearStep(b, es[0]), es[1..]);
    }
  }

  /** As the documentation has it, without deposits: no assertion ever fires. */
  lemma LinearRunIsSafe(l: Locked, es: seq<Event>, now: nat)
    requires l.policy.Linear? && l.balance == l.policy.beginBalance
    requires Ordered(0, es) && forall i :: 0 <= i < |es| ==> es[i].now <= now && !es[i].Deposit?
    ensures LinearAsserts(LinearRun(Book(l, 0, 0, 0, 0), es).l, now)
    ensures LinearRun(Book(l, 0, 0, 0, 0), es).withdrawn <= Vested(l.policy, now)
  {
    LinearRunExactly(l, es, now, 0);
    NoDeposits(Book(l, 0, 0, 0, 0), es);
  }

  /**
   * A deposit at any time into a balance whose assertions hold, and a withdrawal at any later time past the cliff: its
   * assertions hold exactly when no more was added than was gone.
   */
  lemma LinearDepositExactly(l: Locked, now: nat, amount: nat, later: nat)
    requires l.policy.Linear? && now <= later && PastCliff(l.policy, later)
    requires l.policy.beginBalance - Vested(l.policy, now) <= l.balance <= l.policy.beginBalance
    ensures LinearAsserts(Deposited(l, now, amount), later) <==> amount <= l.policy.beginBalance - l.balance
  {
    VestedMonotone(l.policy, now, later);
  }
}
