/** A vesting balance as the chain keeps it, changed in place. */
module VestingBalances {
  import opened ModularArithmetic
  import opened VestingSpec

  class VestingBalance {
    var balance: int
    var policy: Policy

    ghost function Value(): Locked
      reads this
    {
      Locked(balance, policy)
    }

    /** Time does not run backwards. */
    ghost predicate Timely(now: nat)
      reads this
    {
      policy.CoinDays? ==> now >= policy.last && balance >= 0
    }

    constructor (amount: nat, policy: Policy)
      ensures Value() == Locked(amount, policy)
    {
      balance := amount;
      this.policy := policy;
    }

    method UpdateCoinSeconds(now: nat)
      requires policy.CoinDays? && Timely(now)
      modifies this`policy
      ensures policy == Updated(old(policy), balance, now)
    {
      var delta := Product(balance, now - policy.last);
      var cap := Product(balance, Weight(policy.seconds));
      var earned := policy.earned + delta;
      policy := policy.(earned := if earned <= cap then earned else cap, last := now);
    }

    method Deposit(now: nat, amount: nat)
      requires Timely(now)
      modifies this
      ensures Value() == Deposited(old(Value()), now, amount)
    {
      if policy.CoinDays? {
        UpdateCoinSeconds(now);
      }
      balance := balance + amount;
    }

    /** A linear balance throws. */
    method DepositVested(now: nat, amount: nat) returns (ok: bool)
      requires Timely(now)
      modifies this
      ensures ok <==> old(policy).CoinDays?
      ensures Value() == if ok then DepositedVested(old(Value()), now, amount) else old(Value())
    {
      if policy.Linear? { return false; }
      UpdateCoinSeconds(now);
      policy := policy.(earned := policy.earned + Product(amount, Weight(policy.seconds)));
      balance := balance + amount;
      ok := true;
    }

    method GetAllowedWithdraw(now: nat) returns (allowed: int)
      requires Timely(now)
      ensures allowed == Allowed(Value(), now)
    {
      allowed := 0;
      match policy
      case Linear(begin, cliff, duration, beginBalance) =>
        if now > begin && now - begin >= cliff {
          var vested: int := beginBalance;
          if now - begin < duration {
            vested := Product(beginBalance, now - begin) / duration;
          }
          var withdrawn := beginBalance - balance;
          allowed := vested - withdrawn;
        }
      case CoinDays(seconds, startClaim, earned, last) =>
        if now > startClaim {
          allowed := Earned(policy, balance, now) / Weight(seconds);
        }
    }

    /** A withdrawal is done exactly when it is allowed. Of a coin-days balance every assertion then holds. */
    method Withdraw(now: nat, amount: nat) returns (ok: bool)
      requires Timely(now) && Covered(Value())
      modifies this
      ensures old(policy).CoinDays? ==> WithdrawAsserts(old(Value()), now, amount)
      ensures ok <==> amount <= Allowed(old(Value()), now)
      ensures ok && old(policy).CoinDays? ==> amount * Weight(old(policy).seconds) <= Earned(old(policy), old(balance), now)
      ensures Value() == if ok then Withdrawn(old(Value()), now, amount) else old(Value())
    {
      if policy.CoinDays? { CoinDaysAsserts(Value(), now, amount); }
      var allowed := GetAllowedWithdraw(now);
      ok := amount <= allowed;
      if ok {
        if policy.CoinDays? {
          UpdateCoinSeconds(now);
          policy := policy.(earned := policy.earned - Product(amount, Weight(policy.seconds)));
        }
        balance := balance - amount;
      }
    }
  }
}
