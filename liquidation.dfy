/** The liquidation instruction: the collateral and debt values, the health
    check, and the payout. It writes no field of any Bank or User; its only
    effects are the two token transfers, returned here as a payout. */
module Liquidation {
  import opened Errors
  import opened Arith
  import opened Accounts
  import opened Borrowing

  /** A position's value on each side, at the oracle prices. */
  datatype Position = Position(collateral: U64, debt: U64)

  /** The amounts of the two transfers: `repaid` from the liquidator to the
      borrowed bank, `seized` from the collateral bank to the liquidator. */
  datatype Payout = Payout(repaid: U64, seized: U64)

  /** The position as liquidation values it. With the user's USDC mint as
      collateral, the collateral is the USDC deposit at the USDC price and the
      debt is the SOL debt at the SOL price; with any other mint the two assets
      swap. Deposits grow at the collateral bank's rate since `last_updated`,
      debts at the borrowed bank's rate since `last_updated_borrowed`. */
  function LiquidationPosition(collateralBank: BankState, borrowBank: BankState, user: UserState, collateralMint: Pubkey,
                               prices: Prices, now: I64, growth: Growth): (r: Result<Position>)
    ensures var c := AssetOf(user, collateralMint);
            r.Ok? ==>
              && InI64(now - user.lastUpdated)
              && InI64(now - user.lastUpdatedBorrowed)
              && r.value.collateral == Price(prices, c) * growth(Deposited(user, c), collateralBank.interestRate, now - user.lastUpdated)
              && r.value.debt == Price(prices, Other(c)) * growth(Borrowed(user, Other(c)), borrowBank.interestRate, now - user.lastUpdatedBorrowed)
    ensures var c := AssetOf(user, collateralMint);
            r.Ok? <==>
              && InI64(now - user.lastUpdated)
              && Price(prices, c) * growth(Deposited(user, c), collateralBank.interestRate, now - user.lastUpdated) <= U64_MAX
              && InI64(now - user.lastUpdatedBorrowed)
              && Price(prices, Other(c)) * growth(Borrowed(user, Other(c)), borrowBank.interestRate, now - user.lastUpdatedBorrowed) <= U64_MAX
    ensures r.Err? ==> r.error == Abort(Overflow)
  {
    if collateralMint == user.usdcAddress then
      var newUsdc :- AccruedValue(user.depositedUsdc, collateralBank.interestRate, user.lastUpdated, now, growth);
      var totalCollateral :- Mul(prices.usdc, newUsdc);
      var newSol :- AccruedValue(user.borrowedSol, borrowBank.interestRate, user.lastUpdatedBorrowed, now, growth);
      var totalBorrowed :- Mul(prices.sol, newSol);
      Ok(Position(totalCollateral, totalBorrowed))
    else
      var newSol :- AccruedValue(user.depositedSol, collateralBank.interestRate, user.lastUpdated, now, growth);
      var totalCollateral :- Mul(prices.sol, newSol);
      var newUsdc :- AccruedValue(user.borrowedUsdc, borrowBank.interestRate, user.lastUpdatedBorrowed, now, growth);
      var totalBorrowed :- Mul(prices.usdc, newUsdc);
      Ok(Position(totalCollateral, totalBorrowed))
  }

  /** The health check: `collateral * threshold / debt` in u64, compared with
      1.0 after a cast to f64 (exact for this comparison, since the cast keeps
      0 below and every positive integer at or above 1.0). A position may be
      liquidated exactly when the weighted collateral is below the debt; it is
      rejected as NotUnderCollateralized exactly when it covers a nonzero debt;
      a zero debt panics instead, so it is never liquidated. */
  function HealthCheck(collateral: U64, threshold: U64, debt: U64): (r: Result<()>)
    ensures r.Ok? <==> collateral * threshold <= U64_MAX && collateral * threshold < debt
    ensures r == Err(NotUnderCollateralized) <==> collateral * threshold <= U64_MAX && 0 < debt <= collateral * threshold
    ensures debt == 0 ==> r.Err? && r.error.Abort?
    ensures r.Err? && r.error != NotUnderCollateralized ==> r.error.Abort?
  {
    var weighted :- Mul(collateral, threshold);
    var healthFactor :- Div(weighted, debt);
    HealthFactorBelowOne(weighted, debt);
    if healthFactor >= 1 then Err(NotUnderCollateralized) else Ok(())
  }

  /** An integer quotient is below one exactly when the dividend is below the divisor. */
  lemma HealthFactorBelowOne(weighted: nat, debt: nat)
    requires 0 < debt
    ensures weighted / debt < 1 <==> weighted < debt
  {
    var q, m := weighted / debt, weighted % debt;
    assert weighted == q * debt + m && 0 <= m < debt;
    if q >= 1 {
      assert q * debt == debt + (q - 1) * debt;
      assert 0 <= (q - 1) * debt;
    }
  }

  /** The payout: the repaid amount is the debt value times the close factor;
      the seized collateral is that amount times the bonus, plus the amount.
      Each product and the sum panic on overflow. The seizure is always
      `repaid * (bonus + 1)`, so never below what the liquidator repays. */
  function LiquidationPayout(debt: U64, closeFactor: U64, bonus: U64): (r: Result<Payout>)
    ensures r.Ok? <==> debt * closeFactor <= U64_MAX && debt * closeFactor * (bonus + 1) <= U64_MAX
    ensures r.Ok? ==> r.value.repaid == debt * closeFactor
    ensures r.Ok? ==> r.value.seized == r.value.repaid * (bonus + 1)
    ensures r.Ok? ==> r.value.repaid <= r.value.seized
    ensures r.Err? ==> r.error == Abort(Overflow)
  {
    var liquidationAmount :- Mul(debt, closeFactor);
    var bonusPart :- Mul(liquidationAmount, bonus);
    assert liquidationAmount * (bonus + 1) == bonusPart + liquidationAmount;
    var liquidationBonus :- Add(bonusPart, liquidationAmount);
    Ok(Payout(liquidationAmount, liquidationBonus))
  }

  /** `process_liquidation`, with the threshold, close factor and bonus of the
      collateral bank. The health check comes before either transfer: a payout
      exists only for a position that passed it, and a rejected position yields
      no payout. */
  function Liquidate(collateralBank: BankState, borrowBank: BankState, user: UserState, collateralMint: Pubkey,
                     prices: Prices, now: I64, growth: Growth): (r: Result<Payout>)
    ensures r.Ok? ==>
              && LiquidationPosition(collateralBank, borrowBank, user, collateralMint, prices, now, growth).Ok?
              && var p := LiquidationPosition(collateralBank, borrowBank, user, collateralMint, prices, now, growth).value;
                 && HealthCheck(p.collateral, collateralBank.liquidationThreshold, p.debt).Ok?
                 && r == LiquidationPayout(p.debt, collateralBank.liquidationCloseFactor, collateralBank.liquidationBonus)
    ensures r == Err(NotUnderCollateralized) <==>
              && LiquidationPosition(collateralBank, borrowBank, user, collateralMint, prices, now, growth).Ok?
              && var p := LiquidationPosition(collateralBank, borrowBank, user, collateralMint, prices, now, growth).value;
                 HealthCheck(p.collateral, collateralBank.liquidationThreshold, p.debt) == Err(NotUnderCollateralized)
    ensures LiquidationPosition(collateralBank, borrowBank, user, collateralMint, prices, now, growth).Ok? ==>
              var p := LiquidationPosition(collateralBank, borrowBank, user, collateralMint, prices, now, growth).value;
              HealthCheck(p.collateral, collateralBank.liquidationThreshold, p.debt).Ok? ==>
                r == LiquidationPayout(p.debt, collateralBank.liquidationCloseFactor, collateralBank.liquidationBonus)
    ensures r.Err? ==> r.error == NotUnderCollateralized || r.error.Abort?
  {
    var position :- LiquidationPosition(collateralBank, borrowBank, user, collateralMint, prices, now, growth);
    var _ :- HealthCheck(position.collateral, collateralBank.liquidationThreshold, position.debt);
    LiquidationPayout(position.debt, collateralBank.liquidationCloseFactor, collateralBank.liquidationBonus)
  }

  /** A position whose debt is worth nothing is never liquidated. */
  lemma ZeroDebtNeverLiquidated(collateralBank: BankState, borrowBank: BankState, user: UserState, collateralMint: Pubkey,
                                prices: Prices, now: I64, growth: Growth)
    requires LiquidationPosition(collateralBank, borrowBank, user, collateralMint, prices, now, growth).Ok?
    requires LiquidationPosition(collateralBank, borrowBank, user, collateralMint, prices, now, growth).value.debt == 0
    ensures Liquidate(collateralBank, borrowBank, user, collateralMint, prices, now, growth).Err?
    ensures Liquidate(collateralBank, borrowBank, user, collateralMint, prices, now, growth).error.Abort?
  {
  }

  /** Eligibility is monotone: if a position may be liquidated, so may every
      position with no more collateral, no higher threshold and no less debt.
      Raising collateral or threshold, or lowering debt, can therefore only end
      eligibility, never start it. */
  lemma EligibilityMonotone(collateral: U64, threshold: U64, debt: U64, collateral': U64, threshold': U64, debt': U64)
    requires HealthCheck(collateral', threshold', debt').Ok?
    requires collateral <= collateral' && threshold <= threshold' && debt' <= debt
    ensures HealthCheck(collateral, threshold, debt).Ok?
  {
    WeightMonotone(collateral, threshold, collateral', threshold');
  }

  /** The same fact from the other side: a position rejected as healthy stays
      rejected when its collateral or threshold rises or its debt falls, as long
      as the debt stays nonzero and the weighted collateral fits in u64. */
  lemma HealthyStaysHealthy(collateral: U64, threshold: U64, debt: U64, collateral': U64, threshold': U64, debt': U64)
    requires HealthCheck(collateral, threshold, debt) == Err(NotUnderCollateralized)
    requires collateral <= collateral' && threshold <= threshold' && 0 < debt' <= debt
    requires collateral' * threshold' <= U64_MAX
    ensures HealthCheck(collateral', threshold', debt') == Err(NotUnderCollateralized)
  {
    WeightMonotone(collateral, threshold, collateral', threshold');
  }

  lemma WeightMonotone(c: nat, t: nat, c': nat, t': nat)
    requires c <= c' && t <= t'
    ensures c * t <= c' * t'
  {
    assert c * t <= c' * t by {
      assert c' * t == c * t + (c' - c) * t;
    }
    assert c' * t <= c' * t' by {
      assert c' * t' == c' * t + c' * (t' - t);
    }
  }
}
