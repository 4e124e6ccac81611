/**
 * What a seeder earns for a proof of custody: a share of the daily price that grows with the time
 * since the last proof, less a loss for proving too early, paid from the content's escrow.
 */
module SeederRewards {
  import opened ModularArithmetic

  const DAY: nat := 86400
  const UNIT: nat := 10000

  /** Above this block a reward is cut to what is left in the escrow. */
  const CAP_BLOCK: nat := 404727

  /** The part of a day that has passed, in ten-thousandths. */
  function Ratio(elapsed: nat): (r: nat)
    ensures r <= UNIT
    ensures r * DAY <= UNIT * elapsed
  {
    var diff := if elapsed > DAY then DAY else elapsed;
    UNIT * diff / DAY
  }

  /** The loss is one fourth of what is missing to a whole day. */
  function Loss(ratio: nat): (l: nat)
    requires ratio <= UNIT
    ensures l <= UNIT / 4
  {
    (UNIT - ratio) / 4
  }

  function RewardRatio(ratio: nat): (t: nat)
    requires ratio <= UNIT
  {
    Product(ratio, UNIT - Loss(ratio)) / UNIT
  }

  /** The reward before the escrow is looked at. */
  function Reward(price: nat, size: nat, elapsed: nat): (r: nat) {
    var t := RewardRatio(Ratio(elapsed));
    assert price * t * size >= 0;
    price * t * size / UNIT
  }

  /** The reward that is paid. */
  function Payment(price: nat, size: nat, elapsed: nat, escrow: int, height: nat): int {
    var reward := Reward(price, size, elapsed);
    if height > CAP_BLOCK && reward > escrow then (if escrow > 0 then escrow else 0) else reward
  }

  // ---- splitting a day over several proofs ----

  lemma RatioSum(a: nat, b: nat)
    requires a + b <= DAY
    ensures Ratio(a) + Ratio(b) <= Ratio(a + b)
  {
    FloorSum(UNIT * a, UNIT * b, DAY);
  }

  /** The loss only shrinks when the ratio grows, so a joint proof pays at least as much. */
  lemma RewardRatioSum(x: nat, y: nat, z: nat)
    requires x + y <= z <= UNIT
    ensures RewardRatio(x) + RewardRatio(y) <= RewardRatio(z)
  {
    var keep := UNIT - Loss(z);
    FloorMonotone(UNIT - z, UNIT - x, 4);
    FloorMonotone(UNIT - z, UNIT - y, 4);
    var kx, ky := UNIT - Loss(x), UNIT - Loss(y);
    ProductOrder(kx, keep, x);
    ProductOrder(ky, keep, y);
    ProductOrder(x + y, z, keep);
    assert (x + y) * keep == x * keep + y * keep;
    FloorSum(x * kx, y * ky, UNIT);
    FloorMonotone(x * kx + y * ky, z * keep, UNIT);
  }

  lemma ProductSum(price: nat, s: nat, t: nat, size: nat)
    ensures price * s * size + price * t * size == price * (s + t) * size
  {
    assert price * (s + t) == price * s + price * t;
    assert (price * s + price * t) * size == price * s * size + price * t * size;
  }

  lemma RewardMonotoneInRatio(price: nat, s: nat, t: nat, size: nat)
    requires s <= t
    ensures 0 <= price * s * size <= price * t * size
  {
    ProductOrder(s, t, price);
    ProductOrder(price * s, price * t, size);
  }

  /** Two proofs within a day never earn more than one at their end. */
  lemma SplitInTwo(price: nat, size: nat, a: nat, b: nat)
    requires a + b <= DAY
    ensures Reward(price, size, a) + Reward(price, size, b) <= Reward(price, size, a + b)
  {
    RatioSum(a, b);
    RewardRatioSum(Ratio(a), Ratio(b), Ratio(a + b));
    var s, t, u := RewardRatio(Ratio(a)), RewardRatio(Ratio(b)), RewardRatio(Ratio(a + b));
    ProductSum(price, s, t, size);
    RewardMonotoneInRatio(price, s + t, u, size);
    RewardMonotoneInRatio(price, 0, s, size);
    RewardMonotoneInRatio(price, 0, t, size);
    FloorSum(price * s * size, price * t * size, UNIT);
    FloorMonotone(price * (s + t) * size, price * u * size, UNIT);
  }

  /** The sum of the rewards for proofs at the given times, the first of which earns nothing. */
  function Earned(price: nat, size: nat, times: seq<nat>): nat
    requires forall i :: 0 <= i < |times| - 1 ==> times[i] <= times[i + 1]
  {
    if |times| <= 1 then 0
    else Earned(price, size, times[..|times| - 1]) + Reward(price, size, times[|times| - 1] - times[|times| - 2])
  }

  lemma {:induction false} Ordered(times: seq<nat>, k: nat)
    requires |times| > 0 && (forall i :: 0 <= i < |times| - 1 ==> times[i] <= times[i + 1]) && k < |times|
    ensures times[0] <= times[k]
  {
    if k > 0 { Ordered(times, k - 1); }
  }

  /** Within a day, no number of proofs earns more than a single one. */
  lemma {:induction false} SplittingNeverPays(price: nat, size: nat, times: seq<nat>)
    requires |times| >= 1 && forall i :: 0 <= i < |times| - 1 ==> times[i] <= times[i + 1]
    requires times[|times| - 1] - times[0] <= DAY
    ensures times[0] <= times[|times| - 1]
    ensures Earned(price, size, times) <= Reward(price, size, times[|times| - 1] - times[0])
  {
    Ordered(times, |times| - 1);
    if |times| >= 2 {
      var front := times[..|times| - 1];
      Ordered(times, |times| - 2);
      SplittingNeverPays(price, size, front);
      SplitInTwo(price, size, times[|times| - 2] - times[0], times[|times| - 1] - times[|times| - 2]);
    }
  }

  // ---- the rate over any time ----

  lemma RewardRatioBelow(ratio: nat)
    requires ratio <= UNIT
    ensures RewardRatio(ratio) <= ratio
  {
    ProductOrder(UNIT - Loss(ratio), UNIT, ratio);
    FloorMonotone(ratio * (UNIT - Loss(ratio)), ratio * UNIT, UNIT);
    assert (ratio * UNIT) / UNIT == ratio;
  }

  /** A proof never earns more than the price of the time that passed. */
  lemma RewardRate(price: nat, size: nat, elapsed: nat)
    ensures DAY * Reward(price, size, elapsed) <= price * size * elapsed
  {
    var ratio := Ratio(elapsed);
    RewardRatioBelow(ratio);
    var t := RewardRatio(ratio);
    var r := Reward(price, size, elapsed);
    RewardMonotoneInRatio(price, t, ratio, size);
    assert UNIT * r <= price * t * size;
    assert price * ratio * size == ratio * (price * size) by {
      assert price * ratio == ratio * price;
    }
    ProductOrder(ratio * DAY, UNIT * elapsed, price * size);
    RateBound(r, ratio, price * size, elapsed);
  }

  lemma RateBound(r: nat, ratio: nat, w: nat, elapsed: nat)
    requires UNIT * r <= ratio * w && (ratio * DAY) * w <= (UNIT * elapsed) * w
    ensures DAY * r <= w * elapsed
  {
    assert (ratio * DAY) * w == DAY * (ratio * w);
    assert (UNIT * elapsed) * w == UNIT * (w * elapsed);
  }

  lemma {:induction false} EarnedRate(price: nat, size: nat, times: seq<nat>)
    requires |times| >= 1 && forall i :: 0 <= i < |times| - 1 ==> times[i] <= times[i + 1]
    ensures times[0] <= times[|times| - 1]
    ensures DAY * Earned(price, size, times) <= price * size * (times[|times| - 1] - times[0])
  {
    Ordered(times, |times| - 1);
    if |times| >= 2 {
      var front := times[..|times| - 1];
      Ordered(times, |times| - 2);
      EarnedRate(price, size, front);
      var a, b := times[|times| - 2] - times[0], times[|times| - 1] - times[|times| - 2];
      RewardRate(price, size, b);
      assert (price * size) * a + (price * size) * b == (price * size) * (a + b);
    }
  }

  // ---- the escrow of a content ----

  /** The days that the publishing fee is checked to cover. */
  function Days(created: nat, expiration: nat): nat
    requires created <= expiration
  {
    (expiration - created) / 3600 / 24
  }

  /** A seeder of a content: its price, and the times of its proofs. */
  datatype Seeding = Seeding(price: nat, times: seq<nat>)

  predicate Lifetime(s: Seeding, created: nat, expiration: nat) {
    && (forall i :: 0 <= i < |s.times| - 1 ==> s.times[i] <= s.times[i + 1])
    && (forall i :: 0 <= i < |s.times| ==> created <= s.times[i] < expiration)
  }

  predicate Lifetimes(seedings: seq<Seeding>, created: nat, expiration: nat) {
    forall i :: 0 <= i < |seedings| ==> Lifetime(seedings[i], created, expiration)
  }

  function DailyPrice(seedings: seq<Seeding>, size: nat): nat {
    if |seedings| == 0 then 0 else DailyPrice(seedings[..|seedings| - 1], size) + seedings[|seedings| - 1].price * size
  }

  function TotalEarned(seedings: seq<Seeding>, size: nat, created: nat, expiration: nat): nat
    requires Lifetimes(seedings, created, expiration)
  {
    if |seedings| == 0 then 0
    else TotalEarned(seedings[..|seedings| - 1], size, created, expiration)
         + Earned(seedings[|seedings| - 1].price, size, seedings[|seedings| - 1].times)
  }

  lemma RateInLife(earned: nat, w: nat, span: nat, life: nat)
    requires DAY * earned <= w * span && span <= life
    ensures DAY * earned <= w * life
  {
    ProductOrder(span, life, w);
  }

  lemma EarnedInLife(s: Seeding, size: nat, created: nat, expiration: nat)
    requires Lifetime(s, created, expiration) && created <= expiration
    ensures DAY * Earned(s.price, size, s.times) <= s.price * size * (expiration - created)
  {
    if |s.times| >= 1 {
      EarnedRate(s.price, size, s.times);
      RateInLife(Earned(s.price, size, s.times), s.price * size, s.times[|s.times| - 1] - s.times[0], expiration - created);
    } else {
      ProductOrder(0, expiration - created, s.price * size);
    }
  }

  lemma {:induction false} TotalRate(seedings: seq<Seeding>, size: nat, created: nat, expiration: nat)
    requires Lifetimes(seedings, created, expiration) && created <= expiration
    ensures DAY * TotalEarned(seedings, size, created, expiration) <= DailyPrice(seedings, size) * (expiration - created)
  {
    if |seedings| > 0 {
      var front, s := seedings[..|seedings| - 1], seedings[|seedings| - 1];
      TotalRate(front, size, created, expiration);
      EarnedInLife(s, size, created, expiration);
      Distribute(DailyPrice(front, size), s.price * size, expiration - created);
    }
  }

  lemma DaysOf(life: nat)
    ensures life / 3600 / 24 == life / DAY
  {
  }

  /**
   * At fixed prices, the fee checked at submission pays for every proof that any of the seeders can
   * give until expiration, up to the price of the part of a day that the check leaves out: nothing
   * for a content that lasts a whole number of days.
   */
  lemma FeeCoversAllProofs(seedings: seq<Seeding>, size: nat, created: nat, expiration: nat, fee: nat)
    requires created <= expiration && Lifetimes(seedings, created, expiration)
    requires Days(created, expiration) * DailyPrice(seedings, size) <= fee
    ensures DAY * TotalEarned(seedings, size, created, expiration)
            <= DAY * fee + DailyPrice(seedings, size) * ((expiration - created) % DAY)
    ensures (expiration - created) % DAY == 0 ==> TotalEarned(seedings, size, created, expiration) <= fee
  {
    var life, w := expiration - created, DailyPrice(seedings, size);
    TotalRate(seedings, size, created, expiration);
    DaysOf(life);
    var d := life / DAY;
    assert life == DAY * d + life % DAY;
    SplitLife(w, d, life % DAY);
  }

  lemma SplitLife(w: nat, d: nat, rest: nat)
    ensures w * (DAY * d + rest) == DAY * (d * w) + w * rest
  {
    assert w * (DAY * d + rest) == w * (DAY * d) + w * rest;
    assert w * (DAY * d) == DAY * (d * w);
  }

  // ---- every payment of a content ----

  /** A repeated proof: its seeder's price, the time since its last proof, and the block's height. */
  datatype Proof = Proof(price: nat, elapsed: nat, height: nat)

  /** What is left of the escrow after the proofs, and what they were paid. */
  function Escrow(escrow: int, size: nat, proofs: seq<Proof>): (int, int)
    decreases |proofs|
  {
    if |proofs| == 0 then (escrow, 0)
    else
      var front, p := proofs[..|proofs| - 1], proofs[|proofs| - 1];
      var (left, paid) := Escrow(escrow, size, front);
      var payment := Payment(p.price, size, p.elapsed, left, p.height);
      (left - payment, paid + payment)
  }

  /**
   * Payments and the refund at expiry add up to the publishing fee; above the capped block a
   * nonnegative escrow stays nonnegative, and no payment is negative at any height.
   */
  lemma {:induction false} PaymentsAndRefund(fee: nat, size: nat, proofs: seq<Proof>)
    ensures var (refund, paid) := Escrow(fee, size, proofs); paid + refund == fee && paid >= 0
    ensures (forall i :: 0 <= i < |proofs| ==> proofs[i].height > CAP_BLOCK) ==> Escrow(fee, size, proofs).0 >= 0
    decreases |proofs|
  {
    if |proofs| > 0 {
      PaymentsAndRefund(fee, size, proofs[..|proofs| - 1]);
    }
  }

  /** A payment keeps an escrow nonnegative exactly when it is capped or small enough. */
  lemma NonnegativeExactly(price: nat, size: nat, elapsed: nat, escrow: nat, height: nat)
    ensures escrow - Payment(price, size, elapsed, escrow, height) >= 0
            <==> height > CAP_BLOCK || Reward(price, size, elapsed) <= escrow
  {
  }

  /** Before the cap a seeder that raised its price overdraws the escrow. */
  lemma OverdrawnBeforeCap(height: nat)
    requires height <= CAP_BLOCK
    ensures Escrow(10, 1, [Proof(11, DAY, height)]).0 == -1
  {
    assert [Proof(11, DAY, height)][..0] == [];
    assert Ratio(DAY) == UNIT && RewardRatio(UNIT) == UNIT;
    assert Escrow(10, 1, []) == (10, 0);
  }
}
