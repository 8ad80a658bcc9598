/** The share arithmetic that borrow and repay share. */
module Shares {
  import opened Errors
  import opened Arith

  /** The shares matching `amount` in a pool holding `totalAmount` under
      `totalShares`: `totalShares * (amount / totalAmount)`, dividing first with
      truncation and panicking on a zero pool or an overflowing product. The
      result is never more than the proportional share, and is zero for any
      amount below the pool total. */
  function ShareRatio(totalShares: U64, totalAmount: U64, amount: U64): (r: Result<U64>)
    ensures totalAmount == 0 ==> r == Err(Abort(DivisionByZero))
    ensures 0 < totalAmount && amount < totalAmount ==> r == Ok(0)
    ensures 0 < totalAmount && amount == totalAmount ==> r == Ok(totalShares)
    ensures 0 < totalAmount ==> (r.Ok? <==> totalShares * (amount / totalAmount) <= U64_MAX)
    ensures r.Err? ==> r.error.Abort?
    ensures 0 < totalAmount && r.Ok? ==>
              exists k: nat :: WholeMultiples(k, totalAmount, amount) && r.value == totalShares * k
  {
    var ratio :- Div(amount, totalAmount);
    QuotientFacts(totalAmount, amount);
    assert WholeMultiples(ratio, totalAmount, amount);
    Mul(totalShares, ratio)
  }

  /** `k` is the number of whole `totalAmount`s in `amount`. */
  predicate WholeMultiples(k: nat, totalAmount: nat, amount: nat) {
    k * totalAmount <= amount < (k + 1) * totalAmount
  }

  /** Rounding favours the pool: the shares `ShareRatio` grants are never more
      than the exact proportion `amount * totalShares / totalAmount`. */
  lemma ShareRatioWithinProportion(totalShares: U64, totalAmount: U64, amount: U64)
    requires ShareRatio(totalShares, totalAmount, amount).Ok?
    ensures ShareRatio(totalShares, totalAmount, amount).value * totalAmount <= amount * totalShares
  {
    ProportionBound(totalShares, totalAmount, amount);
  }

  lemma QuotientFacts(totalAmount: nat, amount: nat)
    requires 0 < totalAmount
    ensures amount < totalAmount ==> amount / totalAmount == 0
    ensures amount == totalAmount ==> amount / totalAmount == 1
    ensures WholeMultiples(amount / totalAmount, totalAmount, amount)
  {
  }

  /** Truncating before multiplying never credits more than the exact proportion. */
  lemma ProportionBound(totalShares: nat, totalAmount: nat, amount: nat)
    requires 0 < totalAmount
    ensures totalShares * (amount / totalAmount) * totalAmount <= amount * totalShares
  {
    var q := amount / totalAmount;
    assert q * totalAmount <= amount;
    calc {
      totalShares * q * totalAmount;
      == totalShares * (q * totalAmount);
      <= { MulLeftMonotone(totalShares, q * totalAmount, amount); }
      totalShares * amount;
    }
  }

  lemma MulLeftMonotone(k: nat, a: nat, b: nat)
    requires a <= b
    ensures k * a <= k * b
  {
    assert k * b == k * a + k * (b - a);
  }
}
