/**
 * The budget that pays block producers out of fees, from one maintenance to the next:
 * every block takes an equal share, and what is left is carried over.
 */
module Budgets {
  import opened ModularArithmetic

  const U32: nat := 0x1_0000_0000
  const U64: nat := 0x1_0000_0000_0000_0000

  /** The fields of the dynamic properties that the budget works on; times are seconds. */
  datatype Budget = Budget(fromFees: int, unspent: int, mined: int, lastBudget: nat, nextMaintenance: nat)

  datatype Params = Params(blockInterval: nat, maintenanceInterval: nat) {
    /** What chain_parameters::validate asks of the two intervals. */
    predicate Valid() {
      blockInterval > 0 && maintenanceInterval > blockInterval && maintenanceInterval % blockInterval == 0
    }
  }

  /** The blocks expected between two maintenances, in 64-bit and then 32-bit unsigned arithmetic. */
  function BlocksInInterval(next: int, last: int, interval: nat): nat
    requires interval > 0
  {
    ((((next - last) % U64 + interval - 1) % U64) / interval) % U32
  }

  /** The share of one block; a negative budget pays nothing. */
  function FeePay(fromFees: int, blocks: nat): (pay: nat) {
    if blocks > 0 && fromFees >= 0 then fromFees / blocks else 0
  }

  /** A block is paid. */
  function Paid(b: Budget, reward: int, interval: nat): Budget
    requires interval > 0
  {
    b.(unspent := b.unspent - FeePay(b.fromFees, BlocksInInterval(b.nextMaintenance, b.lastBudget, interval)),
       mined := b.mined + reward)
  }

  /** The next maintenance after a block that did not come before the last one. */
  function NextMaintenance(next: nat, time: nat, blockNum: nat, interval: nat): nat
    requires interval > 0 && next <= time
  {
    if blockNum == 1 then (time / interval + 1) * interval
    else next + ((time - next) / interval + 1) * interval
  }

  /** Maintenance: the pool of fees and what was not spent become the new budget. */
  function Rolled(b: Budget, pool: int, now: nat): Budget {
    var accumulated := pool + b.unspent;
    b.(fromFees := accumulated, unspent := accumulated, mined := 0, lastBudget := now)
  }

  // ---- the next maintenance ----

  /** The next maintenance is the first of its sequence that lies after the block. */
  lemma NextMaintenanceIsFirst(next: nat, time: nat, blockNum: nat, interval: nat)
    requires interval > 0 && next <= time
    ensures var n := NextMaintenance(next, time, blockNum, interval);
            && time < n <= time + interval
            && (n - (if blockNum == 1 then 0 else next)) % interval == 0
  {
    var base := if blockNum == 1 then 0 else next;
    var y := (time - base) / interval;
    assert time - base == y * interval + (time - base) % interval;
    assert (y + 1) * interval == y * interval + interval;
    MultipleMod(y + 1, interval);
  }

  lemma SumOfMultiples(a: nat, b: nat, m: nat)
    requires m > 0 && a % m == 0 && b % m == 0
    ensures (a + b) % m == 0
  {
    var k, l := a / m, b / m;
    assert a == k * m && b == l * m;
    assert (k + l) * m == k * m + l * m;
    MultipleMod(k + l, m);
  }

  lemma MultipleOfMultiple(a: nat, n: nat, m: nat)
    requires m > 0 && n > 0 && a % n == 0 && n % m == 0
    ensures a % m == 0
  {
    var k, l := a / n, n / m;
    assert a == k * n && n == l * m;
    assert k * (l * m) == (k * l) * m;
    MultipleMod(k * l, m);
  }

  // ---- how many blocks an interval can hold ----

  lemma SmallInterval(next: nat, last: nat, interval: nat)
    requires 0 < interval && last <= next && next - last + interval < U32
    ensures BlocksInInterval(next, last, interval) == (next - last + interval - 1) / interval
  {
    var d := next - last;
    var q := (d + interval - 1) / interval;
    QuotientBelow(d + interval - 1, interval);
    ModBelow(d, U64);
    ModBelow(d + interval - 1, U64);
    ModBelow(q, U32);
  }

  /** The slot a time lies in; at most one block is accepted in a slot. */
  function SlotOf(time: nat, interval: nat): nat
    requires interval > 0
  {
    time / interval
  }

  /**
   * Block times in an interval: in strictly increasing slots after that of the last maintenance; only the
   * last of them may have reached the next maintenance.
   */
  predicate BlockTimes(times: seq<nat>, last: nat, next: nat, interval: nat)
    requires interval > 0
  {
    && (forall i :: 0 <= i < |times| ==> Later(times, i, last, interval))
    && (forall i :: 0 <= i < |times| - 1 ==> times[i] < next)
  }

  predicate Later(times: seq<nat>, i: nat, last: nat, interval: nat)
    requires interval > 0 && i < |times|
  {
    SlotOf(times[i], interval) > SlotOf(if i == 0 then last else times[i - 1], interval)
  }

  lemma BeforeSlot(time: nat, next: nat, interval: nat)
    requires interval > 0 && time < next
    ensures SlotOf(time, interval) + 1 <= (next + interval - 1) / interval
  {
    var c := (next + interval - 1) / interval;
    CeilCovers(next, interval);
    assert time == SlotOf(time, interval) * interval + time % interval;
    if SlotOf(time, interval) >= c {
      ProductOrder(c, SlotOf(time, interval), interval);
    }
  }

  lemma CeilCovers(a: nat, m: nat)
    requires m > 0
    ensures var c := (a + m - 1) / m; a <= c * m < a + m
  {
    var c := (a + m - 1) / m;
    assert a + m - 1 == c * m + (a + m - 1) % m;
  }

  /** The times reach at least one slot further with every block. */
  lemma {:induction false} SlotsAdvance(times: seq<nat>, last: nat, next: nat, interval: nat, i: nat)
    requires interval > 0 && BlockTimes(times, last, next, interval) && i < |times|
    ensures SlotOf(times[i], interval) >= SlotOf(last, interval) + i + 1
  {
    assert Later(times, i, last, interval);
    if i > 0 {
      SlotsAdvance(times, last, next, interval, i - 1);
    }
  }

  /** The most blocks an interval can hold, up to and including its maintenance block. */
  function MostBlocks(last: nat, next: nat, interval: nat): int
    requires interval > 0
  {
    (next + interval - 1) / interval - last / interval
  }

  lemma BlocksBounded(times: seq<nat>, last: nat, next: nat, interval: nat)
    requires interval > 0 && BlockTimes(times, last, next, interval) && last < next
    ensures |times| <= MostBlocks(last, next, interval)
  {
    CeilAfterFloor(last, next, interval);
    if |times| >= 2 {
      var k := |times| - 2;
      SlotsAdvance(times, last, next, interval, k);
      BeforeSlot(times[k], next, interval);
    }
  }

  lemma CeilAfterFloor(last: nat, next: nat, interval: nat)
    requires interval > 0 && last < next
    ensures MostBlocks(last, next, interval) >= 1
  {
    CeilCovers(next, interval);
    if (next + interval - 1) / interval <= last / interval {
      ProductOrder((next + interval - 1) / interval, last / interval, interval);
    }
  }

  /** A full interval: every slot from the last maintenance on is filled. */
  function FullTimes(first: nat, n: nat, interval: nat): (times: seq<nat>)
    ensures |times| == n && forall i :: 0 <= i < n ==> times[i] == SlotStart(first + i, interval)
  {
    if n == 0 then [] else FullTimes(first, n - 1, interval) + [SlotStart(first + n - 1, interval)]
  }

  function SlotStart(slot: nat, interval: nat): (t: nat)
    ensures interval > 0 ==> SlotOf(t, interval) == slot
  {
    assert slot * interval >= 0;
    if interval > 0 then ExactQuotient(slot, interval); slot * interval else 0
  }

  lemma FullTimesFit(last: nat, next: nat, interval: nat)
    requires interval > 0 && last < next
    ensures MostBlocks(last, next, interval) >= 0
    ensures var times := FullTimes(last / interval + 1, MostBlocks(last, next, interval), interval);
            BlockTimes(times, last, next, interval)
  {
    CeilAfterFloor(last, next, interval);
    var n, l := MostBlocks(last, next, interval), last / interval;
    var times := FullTimes(l + 1, n, interval);
    CeilCovers(next, interval);
    forall i | 0 <= i < n ensures Later(times, i, last, interval) {
      assert times[i] == SlotStart(l + 1 + i, interval);
      if i > 0 { assert times[i - 1] == SlotStart(l + i, interval); }
    }
    forall i | 0 <= i < n - 1 ensures times[i] < next {
      LaterSlot(l + 1 + i, (next + interval - 1) / interval, interval);
    }
  }

  lemma LaterSlot(a: nat, b: nat, interval: nat)
    requires a < b
    ensures a * interval + interval <= b * interval
  {
    ProductOrder(a + 1, b, interval);
    assert (a + 1) * interval == a * interval + interval;
  }

  lemma CeilDifference(last: nat, next: nat, interval: nat)
    requires interval > 0 && last < next
    ensures MostBlocks(last, next, interval)
         == (next - last + interval - 1) / interval + (if 0 < next % interval <= last % interval then 1 else 0)
  {
    var n, b, l, a := next / interval, next % interval, last / interval, last % interval;
    assert next == n * interval + b && last == l * interval + a;
    assert (n - l) * interval == n * interval - l * interval;
    CeilIs(next, interval, n, b);
    CeilIs(next - last, interval, n - l, b - a);
  }

  lemma CeilIs(x: nat, m: nat, q: int, r: int)
    requires m > 0 && x == q * m + r && 0 - m < r < m
    ensures (x + m - 1) / m == if r > 0 then q + 1 else q
  {
    var c := (x + m - 1) / m;
    CeilCovers(x, m);
    var e := if r > 0 then q + 1 else q;
    assert (q + 1) * m == q * m + m;
    assert (c - e) * m == c * m - e * m;
    MulBound(c - e, m);
  }

  lemma SharesCompared(last: nat, next: nat, interval: nat)
    requires interval > 0 && last < next && next - last + interval < U32
    ensures MostBlocks(last, next, interval) <= BlocksInInterval(next, last, interval)
            <==> next % interval == 0 || last % interval < next % interval
  {
    SmallInterval(next, last, interval);
    CeilDifference(last, next, interval);
  }

  /** A full interval has the most blocks. */
  lemma FullInterval(last: nat, next: nat, interval: nat) returns (times: seq<nat>)
    requires interval > 0 && last < next
    ensures BlockTimes(times, last, next, interval) && |times| == MostBlocks(last, next, interval)
  {
    FullTimesFit(last, next, interval);
    times := FullTimes(last / interval + 1, MostBlocks(last, next, interval), interval);
  }

  /**
   * The blocks between two maintenances never outnumber the shares the budget was cut into
   * exactly when the next maintenance is slot-aligned or lies further into its slot than the last.
   */
  lemma SharesSufficeExactly(last: nat, next: nat, interval: nat)
    requires interval > 0 && last < next && next - last + interval < U32
    ensures (forall times :: BlockTimes(times, last, next, interval) ==> |times| <= BlocksInInterval(next, last, interval))
            <==> next % interval == 0 || last % interval < next % interval
  {
    SharesCompared(last, next, interval);
    forall times | BlockTimes(times, last, next, interval)
      ensures |times| <= MostBlocks(last, next, interval)
    {
      BlocksBounded(times, last, next, interval);
    }
    var full := FullInterval(last, next, interval);
  }

  // ---- whole runs ----

  /** One block: its time, the reward, and the pool of fees at its end. */
  datatype Block = Block(time: nat, reward: int, pool: nat)

  /** The budget and the chain's head. */
  datatype Clock = Clock(budget: Budget, head: nat, number: nat)

  const Genesis := Clock(Budget(0, 0, 0, 0, 0), 0, 0)

  function Step(c: Clock, block: Block, p: Params): Clock
    requires p.Valid()
  {
    var paid := Paid(c.budget, block.reward, p.blockInterval);
    var number := c.number + 1;
    var budget :=
      if c.budget.nextMaintenance <= block.time then
        Rolled(paid.(nextMaintenance := NextMaintenance(paid.nextMaintenance, block.time, number, p.maintenanceInterval)),
               block.pool, block.time)
      else paid;
    Clock(budget, block.time, number)
  }

  /**
   * Blocks move forward in time, all but the first to a later slot, and stay within the range of a
   * 32-bit time.
   */
  predicate Fits(c: Clock, block: Block, p: Params)
    requires p.Valid()
  {
    && block.time > c.head && (c.number > 0 ==> SlotOf(block.time, p.blockInterval) > SlotOf(c.head, p.blockInterval))
    && block.time + 2 * p.maintenanceInterval < U32
  }

  predicate AllFit(c: Clock, blocks: seq<Block>, p: Params)
    requires p.Valid()
    decreases |blocks|
  {
    |blocks| > 0 ==> Fits(c, blocks[0], p) && AllFit(Step(c, blocks[0], p), blocks[1..], p)
  }

  function Run(c: Clock, blocks: seq<Block>, p: Params): Clock
    requires p.Valid()
    decreases |blocks|
  {
    if |blocks| == 0 then c else Run(Step(c, blocks[0], p), blocks[1..], p)
  }

  /**
   * Between maintenances: the times of the blocks paid so far, and what they took of the budget.
   */
  ghost predicate Within(c: Clock, times: seq<nat>, p: Params)
    requires p.Valid()
  {
    var b := c.budget;
    && b.fromFees >= 0
    && b.lastBudget < b.nextMaintenance && b.nextMaintenance % p.blockInterval == 0
    && b.nextMaintenance - b.lastBudget <= p.maintenanceInterval && b.nextMaintenance + p.maintenanceInterval < U32
    && BlockTimes(times, b.lastBudget, b.nextMaintenance, p.blockInterval)
    && (forall i :: 0 <= i < |times| ==> times[i] < b.nextMaintenance)
    && c.head == (if |times| == 0 then b.lastBudget else times[|times| - 1])
    && b.unspent == b.fromFees - Spent(b, |times|, p)
  }

  function Spent(b: Budget, n: nat, p: Params): int
    requires p.Valid()
  {
    n * FeePay(b.fromFees, BlocksInInterval(b.nextMaintenance, b.lastBudget, p.blockInterval))
  }

  lemma SharesAddUp(fromFees: nat, blocks: nat, n: nat)
    requires n <= blocks
    ensures n * FeePay(fromFees, blocks) <= fromFees
  {
    if blocks > 0 {
      ProductOrder(n, blocks, fromFees / blocks);
      assert blocks * (fromFees / blocks) <= fromFees;
    }
  }

  lemma StepKeepsWithin(c: Clock, times: seq<nat>, block: Block, p: Params) returns (times': seq<nat>)
    requires p.Valid() && Within(c, times, p) && Fits(c, block, p) && c.number > 0
    ensures Within(Step(c, block, p), times', p)
    ensures Step(c, block, p).budget.unspent >= 0
  {
    var b := c.budget;
    var longer := times + [block.time];
    OneMore(times, block.time, b.lastBudget, b.nextMaintenance, p.blockInterval);
    SharesSufficeExactly(b.lastBudget, b.nextMaintenance, p.blockInterval);
    SharesAddUp(b.fromFees, BlocksInInterval(b.nextMaintenance, b.lastBudget, p.blockInterval), |longer|);
    SpentNext(b, |times|, p);
    if b.nextMaintenance <= block.time {
      NextMaintenanceIsFirst(b.nextMaintenance, block.time, c.number + 1, p.maintenanceInterval);
      var n := NextMaintenance(b.nextMaintenance, block.time, c.number + 1, p.maintenanceInterval);
      MultipleOfMultiple(n - b.nextMaintenance, p.maintenanceInterval, p.blockInterval);
      SumOfMultiples(n - b.nextMaintenance, b.nextMaintenance, p.blockInterval);
      times' := [];
      assert Spent(Step(c, block, p).budget, 0, p) == 0;
    } else {
      times' := longer;
    }
  }

  lemma OneMore(times: seq<nat>, time: nat, last: nat, next: nat, interval: nat)
    requires interval > 0 && BlockTimes(times, last, next, interval)
    requires forall i :: 0 <= i < |times| ==> times[i] < next
    requires SlotOf(time, interval) > SlotOf(if |times| == 0 then last else times[|times| - 1], interval)
    ensures BlockTimes(times + [time], last, next, interval)
  {
    var longer := times + [time];
    forall i | 0 <= i < |longer| ensures Later(longer, i, last, interval) {
      if i < |times| { assert Later(times, i, last, interval); }
    }
  }

  lemma SpentNext(b: Budget, n: nat, p: Params)
    requires p.Valid()
    ensures Spent(b, n + 1, p) == Spent(b, n, p) + FeePay(b.fromFees, BlocksInInterval(b.nextMaintenance, b.lastBudget, p.blockInterval))
  {
  }

  lemma FirstBlock(block: Block, p: Params)
    requires p.Valid() && Fits(Genesis, block, p)
    ensures Within(Step(Genesis, block, p), [], p)
    ensures Step(Genesis, block, p).budget.unspent >= 0
  {
    var n := NextMaintenance(0, block.time, 1, p.maintenanceInterval);
    NextMaintenanceIsFirst(0, block.time, 1, p.maintenanceInterval);
    MultipleOfMultiple(n, p.maintenanceInterval, p.blockInterval);
    assert Spent(Step(Genesis, block, p).budget, 0, p) == 0;
  }

  lemma {:induction false} RunFromWithin(c: Clock, times: seq<nat>, blocks: seq<Block>, p: Params)
    requires p.Valid() && Within(c, times, p) && c.number > 0 && c.budget.unspent >= 0 && AllFit(c, blocks, p)
    ensures Run(c, blocks, p).budget.unspent >= 0
    decreases |blocks|
  {
    if |blocks| > 0 {
      var times' := StepKeepsWithin(c, times, blocks[0], p);
      RunFromWithin(Step(c, blocks[0], p), times', blocks[1..], p);
    }
  }

  /** Over every run from genesis on, the unspent budget is never negative. */
  lemma UnspentNeverNegative(blocks: seq<Block>, p: Params)
    requires p.Valid() && AllFit(Genesis, blocks, p)
    ensures Run(Genesis, blocks, p).budget.unspent >= 0
  {
    if |blocks| > 0 {
      FirstBlock(blocks[0], p);
      RunFromWithin(Step(Genesis, blocks[0], p), [], blocks[1..], p);
    }
  }
}
