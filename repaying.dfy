/** The repay instruction: the debt it reads, the accrual adjustment of the
    pool, the OverRepay check, and the subtractions from User and Bank. */
module Repaying {
  import opened Errors
  import opened Arith
  import opened Accounts
  import opened Shares

  /** `total_borrowed as f64 / total_borrowed_shares as f64`, cast to u64. The
      floating-point quotient is not modelled: the instruction takes it as a
      parameter, applied to the pool as the instruction has adjusted it. */
  type PerShare = (U64, U64) -> U64

  /** The debt a repay of `mint` is checked against: the debt slot of the
      asset the mint stands for. */
  function RepayDebt(user: UserState, mint: Pubkey): (debt: U64)
    ensures debt == Borrowed(user, AssetOf(user, mint))
  {
    if mint == user.usdcAddress then user.borrowedUsdc else user.borrowedSol
  }

  /** The pool total after the accrual step: the grown value, with the elapsed
      time taken as `last_updated_borrowed - now` (the reverse of the borrow
      side's `now - last_updated`), is SUBTRACTED from `total_borrowed`. The
      step can only lower the total; a grown value above it underflows. */
  function AdjustedTotalBorrowed(bank: BankState, user: UserState, now: I64, growth: Growth): (r: Result<U64>)
    ensures r.Ok? ==> r.value <= bank.totalBorrowed
    ensures r.Ok? <==> InI64(user.lastUpdatedBorrowed - now) &&
                       growth(bank.totalBorrowed, bank.interestRate, user.lastUpdatedBorrowed - now) <= bank.totalBorrowed
    ensures r.Ok? ==> bank.totalBorrowed - r.value == growth(bank.totalBorrowed, bank.interestRate, user.lastUpdatedBorrowed - now)
    ensures InI64(user.lastUpdatedBorrowed - now) && r.Err? ==> r.error == Abort(Underflow)
  {
    var timeDiff :- SubI64(user.lastUpdatedBorrowed, now);
    Sub(bank.totalBorrowed, growth(bank.totalBorrowed, bank.interestRate, timeDiff))
  }

  /** The most a user may repay: `borrowed_value / value_per_share`, the
      largest count of whole shares' worth inside the debt. It panics on a zero
      share value, and is never above the debt. */
  function RepayAllowance(borrowedValue: U64, valuePerShare: U64): (r: Result<U64>)
    ensures r.Ok? <==> valuePerShare != 0
    ensures r.Err? ==> r.error == Abort(DivisionByZero)
    ensures r.Ok? ==> r.value <= borrowedValue
  {
    if valuePerShare == 0 then Err(Abort(DivisionByZero))
    else
      AllowanceWithinDebt(borrowedValue, valuePerShare);
      Div(borrowedValue, valuePerShare)
  }

  /** Floor division by a share value of at least one never exceeds the debt. */
  lemma AllowanceWithinDebt(borrowedValue: nat, valuePerShare: nat)
    requires 1 <= valuePerShare
    ensures borrowedValue / valuePerShare <= borrowedValue
  {
    FloorDivBounds(borrowedValue, valuePerShare);
    MulAtLeast(borrowedValue / valuePerShare, valuePerShare);
  }

  /** The allowance is the number of whole shares' worth inside the debt: that
      many shares are worth at most the debt, one more would exceed it. */
  lemma RepayAllowanceCountsWholeShares(borrowedValue: U64, valuePerShare: U64)
    requires 1 <= valuePerShare
    ensures RepayAllowance(borrowedValue, valuePerShare).Ok?
    ensures var allowance := RepayAllowance(borrowedValue, valuePerShare).value;
            allowance * valuePerShare <= borrowedValue < (allowance + 1) * valuePerShare
  {
    FloorDivBounds(borrowedValue, valuePerShare);
    MulNext(borrowedValue / valuePerShare, valuePerShare);
  }

  lemma FloorDivBounds(b: nat, k: nat)
    requires 1 <= k
    ensures (b / k) * k <= b < (b / k) * k + k
  {
  }

  lemma MulNext(q: nat, k: nat)
    ensures (q + 1) * k == q * k + k
  {
  }

  lemma MulAtLeast(q: nat, k: nat)
    requires 1 <= k
    ensures q <= q * k
  {
    assert q * k == q + q * (k - 1);
  }

  /** The shares a successful repay burns: the whole pool's shares when it
      repays the entire adjusted total, and none otherwise. */
  function BurnedShares(totalBorrowed: U64, totalShares: U64, amount: U64): U64 {
    if amount == totalBorrowed then totalShares else 0
  }

  /** `process_repay` on the Bank of the repaid mint and the payer's User. It
      fails with OverRepay exactly when the amount exceeds the allowance, and
      otherwise only panics. It succeeds exactly when the adjusted pool is
      non-empty and covers the amount, the amount is within the allowance, and a
      repay of the whole pool finds enough SOL debt shares to burn. The debt
      slot never needs checking: the allowance is within it. On success the debt
      slot of the repaid asset and the pool total drop by `amount`, and the burned
      shares leave the pool and always the User's SOL debt shares. */
  function Repay(bank: BankState, user: UserState, mint: Pubkey, amount: U64, now: I64, growth: Growth, perShare: PerShare): (r: Result<Ledger>)
    ensures r == Err(OverRepay) <==>
              && AdjustedTotalBorrowed(bank, user, now, growth).Ok?
              && var total := AdjustedTotalBorrowed(bank, user, now, growth).value;
                 var allowance := RepayAllowance(RepayDebt(user, mint), perShare(total, bank.totalBorrowedShares));
                 allowance.Ok? && amount > allowance.value
    ensures r.Err? ==> r.error == OverRepay || r.error.Abort?
    ensures r.Ok? <==>
              && AdjustedTotalBorrowed(bank, user, now, growth).Ok?
              && var total := AdjustedTotalBorrowed(bank, user, now, growth).value;
                 var allowance := RepayAllowance(RepayDebt(user, mint), perShare(total, bank.totalBorrowedShares));
                 && 0 < total
                 && amount <= total
                 && allowance.Ok?
                 && amount <= allowance.value
                 && (amount == total ==> bank.totalBorrowedShares <= user.borrowedSolShares)
    ensures r.Ok? ==>
              && AdjustedTotalBorrowed(bank, user, now, growth).Ok?
              && var total := AdjustedTotalBorrowed(bank, user, now, growth).value;
                 var burned := BurnedShares(total, bank.totalBorrowedShares, amount);
                 var a := AssetOf(user, mint);
                 && amount <= total
                 && amount <= Borrowed(user, a)
                 && burned <= user.borrowedSolShares
                 && burned <= bank.totalBorrowedShares
                 && r.value.bank == bank.(totalBorrowed := total - amount, totalBorrowedShares := bank.totalBorrowedShares - burned)
                 && r.value.user == WithBorrowed(user, a, Borrowed(user, a) - amount).(borrowedSolShares := user.borrowedSolShares - burned)
  {
    var borrowedValue := RepayDebt(user, mint);
    var totalBorrowed :- AdjustedTotalBorrowed(bank, user, now, growth);
    var userValue :- RepayAllowance(borrowedValue, perShare(totalBorrowed, bank.totalBorrowedShares));
    if amount > userValue then Err(OverRepay)
    else
      var usersShares :- ShareRatio(bank.totalBorrowedShares, totalBorrowed, amount);
      var a := AssetOf(user, mint);
      // The allowance is within the debt, so this subtraction cannot underflow.
      var debt := Borrowed(user, a) - amount;
      var solShares :- Sub(user.borrowedSolShares, usersShares);
      var total :- Sub(totalBorrowed, amount);
      // Once the amount is within the pool, the shares are none or all of the
      // pool's, so this subtraction cannot underflow.
      var totalShares := bank.totalBorrowedShares - usersShares;
      Ok(Ledger(bank.(totalBorrowed := total, totalBorrowedShares := totalShares),
                WithBorrowed(user, a, debt).(borrowedSolShares := solShares)))
  }

  /** Once the OverRepay check passes with a share value of at least one, the
      amount is within the debt, so the debt subtraction cannot underflow. */
  lemma RepayWithinAllowanceCoversDebt(user: UserState, mint: Pubkey, amount: U64, valuePerShare: U64)
    requires 1 <= valuePerShare
    requires amount <= RepayDebt(user, mint) / valuePerShare
    ensures amount <= Borrowed(user, AssetOf(user, mint))
  {
    AllowanceWithinDebt(RepayDebt(user, mint), valuePerShare);
  }

  /** Whichever asset is repaid, the shares are taken from the SOL debt shares
      and the USDC debt shares are never written. */
  lemma RepayBurnsSolShares(bank: BankState, user: UserState, mint: Pubkey, amount: U64, now: I64, growth: Growth, perShare: PerShare)
    requires Repay(bank, user, mint, amount, now, growth, perShare).Ok?
    ensures var after := Repay(bank, user, mint, amount, now, growth, perShare).value;
            && after.user.borrowedUsdcShares == user.borrowedUsdcShares
            && user.borrowedSolShares - after.user.borrowedSolShares == bank.totalBorrowedShares - after.bank.totalBorrowedShares
            && Borrowed(after.user, Other(AssetOf(user, mint))) == Borrowed(user, Other(AssetOf(user, mint)))
  {
  }

  /** A repay below the adjusted pool total burns no shares: the truncated
      ratio `amount / total_borrowed` is zero. */
  lemma RepayBelowPoolBurnsNoShares(bank: BankState, user: UserState, mint: Pubkey, amount: U64, now: I64, growth: Growth, perShare: PerShare)
    requires AdjustedTotalBorrowed(bank, user, now, growth).Ok?
    requires amount < AdjustedTotalBorrowed(bank, user, now, growth).value
    requires Repay(bank, user, mint, amount, now, growth, perShare).Ok?
    ensures var after := Repay(bank, user, mint, amount, now, growth, perShare).value;
            after.bank.totalBorrowedShares == bank.totalBorrowedShares && after.user == WithBorrowed(user, AssetOf(user, mint), Borrowed(user, AssetOf(user, mint)) - amount)
  {
  }

  /** `process_repay` as the program runs it, on the Bank and User accounts.
      The writes are staged in locals and committed after the last check that
      can fail, since a failed instruction leaves no write behind. */
  method ProcessRepay(bank: Bank, user: User, mint: Pubkey, amount: U64, now: I64, growth: Growth, perShare: PerShare)
    returns (r: Result<()>)
    modifies bank, user
    ensures var spec := Repay(old(bank.State()), old(user.State()), mint, amount, now, growth, perShare);
            && (spec.Err? ==> r == Err(spec.error) && bank.State() == old(bank.State()) && user.State() == old(user.State()))
            && (spec.Ok? ==> r == Ok(()) && bank.State() == spec.value.bank && user.State() == spec.value.user)
  {
    ghost var bank0, user0 := bank.State(), user.State();
    var usdcMint := mint == user.usdcAddress;
    var borrowedValue := if usdcMint then user.borrowedUsdc else user.borrowedSol;
    ghost var spec := Repay(bank0, user0, mint, amount, now, growth, perShare);
    var adjusted := AdjustedTotalBorrowed(bank.State(), user.State(), now, growth);
    if adjusted.Err? {
      assert spec == Err(adjusted.error);
      return Err(adjusted.error);
    }
    var totalBorrowed := adjusted.value;
    var userValue := RepayAllowance(borrowedValue, perShare(totalBorrowed, bank.totalBorrowedShares));
    if userValue.Err? {
      assert spec == Err(userValue.error);
      return Err(userValue.error);
    }
    if amount > userValue.value {
      assert spec == Err(OverRepay);
      return Err(OverRepay);
    }
    // Here the program transfers `amount` from the payer to the bank's token account.
    var usersShares := ShareRatio(bank.totalBorrowedShares, totalBorrowed, amount);
    if usersShares.Err? {
      assert spec == Err(usersShares.error);
      return Err(usersShares.error);
    }
    if user.borrowedSolShares < usersShares.value || totalBorrowed < amount {
      assert spec == Err(Abort(Underflow));
      return Err(Abort(Underflow));
    }
    if usdcMint {
      user.borrowedUsdc := user.borrowedUsdc - amount;
    } else {
      user.borrowedSol := user.borrowedSol - amount;
    }
    user.borrowedSolShares := user.borrowedSolShares - usersShares.value;
    bank.totalBorrowed := totalBorrowed - amount;
    bank.totalBorrowedShares := bank.totalBorrowedShares - usersShares.value;
    assert spec == Ok(Ledger(bank.State(), user.State()));
    r := Ok(());
  }
}
