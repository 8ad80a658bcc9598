/** The borrow instruction: the collateral gate, the bootstrap of an empty
    borrow pool, the share ratio, and the User slot it credits. */
module Borrowing {
  import opened Errors
  import opened Arith
  import opened Accounts
  import opened Shares

  /** `calculate_accrued_interest`: `value` grown over the time elapsed since
      `lastUpdated`. The exponential itself is `growth`; the i64 subtraction
      `now - lastUpdated`, which panics on overflow, is part of the model. */
  function AccruedValue(value: U64, rate: U64, lastUpdated: I64, now: I64, growth: Growth): Result<U64> {
    var elapsed :- SubI64(now, lastUpdated);
    Ok(growth(value, rate, elapsed))
  }

  /** The value backing a borrow of `mint`: the deposit in the OTHER asset,
      grown at the borrowed bank's rate, times the other asset's price. The
      product panics on overflow. */
  function BorrowCollateral(bank: BankState, user: UserState, mint: Pubkey, prices: Prices, now: I64, growth: Growth): (r: Result<U64>)
    ensures var backing := Other(AssetOf(user, mint));
            r.Ok? <==> InI64(now - user.lastUpdated) &&
                       Price(prices, backing) * growth(Deposited(user, backing), bank.interestRate, now - user.lastUpdated) <= U64_MAX
    ensures var backing := Other(AssetOf(user, mint));
            r.Ok? ==> r.value == Price(prices, backing) * growth(Deposited(user, backing), bank.interestRate, now - user.lastUpdated)
    ensures r.Err? ==> r.error == Abort(Overflow)
  {
    if mint == user.usdcAddress then
      var newValue :- AccruedValue(user.depositedSol, bank.interestRate, user.lastUpdated, now, growth);
      Mul(prices.sol, newValue)
    else
      var newValue :- AccruedValue(user.depositedUsdc, bank.interestRate, user.lastUpdated, now, growth);
      Mul(prices.usdc, newValue)
  }

  /** The most that may be borrowed: the collateral value times the borrowed
      bank's liquidation threshold, with `checked_mul(..).unwrap()`. */
  function BorrowableAmount(bank: BankState, user: UserState, mint: Pubkey, prices: Prices, now: I64, growth: Growth): Result<U64> {
    var collateral :- BorrowCollateral(bank, user, mint, prices, now, growth);
    Mul(collateral, bank.liquidationThreshold)
  }

  /** The borrow pool after the bootstrap step, and the shares the borrow earns. */
  datatype PoolCredit = PoolCredit(totalBorrowed: U64, totalBorrowedShares: U64, userShares: U64)

  /** An empty pool (`total_borrowed == 0`) is set to `amount` borrowed under
      `amount` shares; then the borrower earns `ShareRatio` shares. A non-empty
      pool is left as it is. */
  function BorrowPool(bank: BankState, amount: U64): (r: Result<PoolCredit>)
    ensures bank.totalBorrowed == 0 && amount == 0 ==> r == Err(Abort(DivisionByZero))
    ensures bank.totalBorrowed == 0 && amount > 0 ==> r == Ok(PoolCredit(amount, amount, amount))
    ensures bank.totalBorrowed > 0 && r.Ok? ==>
              r.value.totalBorrowed == bank.totalBorrowed && r.value.totalBorrowedShares == bank.totalBorrowedShares
    ensures 0 < bank.totalBorrowed && amount < bank.totalBorrowed ==>
              r == Ok(PoolCredit(bank.totalBorrowed, bank.totalBorrowedShares, 0))
    ensures bank.totalBorrowed > 0 ==>
              (r.Ok? <==> ShareRatio(bank.totalBorrowedShares, bank.totalBorrowed, amount).Ok?)
    ensures r.Ok? ==> ShareRatio(r.value.totalBorrowedShares, r.value.totalBorrowed, amount) == Ok(r.value.userShares)
    ensures r.Err? ==> r.error.Abort?
  {
    var total := if bank.totalBorrowed == 0 then amount else bank.totalBorrowed;
    var shares := if bank.totalBorrowed == 0 then amount else bank.totalBorrowedShares;
    var userShares :- ShareRatio(shares, total, amount);
    Ok(PoolCredit(total, shares, userShares))
  }

  /** `process_borrow` on the Bank of the borrowed mint and the borrower's User.
      It fails with OverBorrowable exactly when the borrowable amount is below
      the request, and otherwise only panics. On success the Bank holds the pool
      of `BorrowPool` and the User has exactly one slot raised: the DEPOSIT slot
      of the borrowed asset, by `amount` and by the shares earned. */
  function Borrow(bank: BankState, user: UserState, mint: Pubkey, amount: U64, prices: Prices, now: I64, growth: Growth): (r: Result<Ledger>)
    ensures r == Err(OverBorrowable) <==>
              BorrowableAmount(bank, user, mint, prices, now, growth).Ok? &&
              BorrowableAmount(bank, user, mint, prices, now, growth).value < amount
    ensures r.Err? ==> r.error == OverBorrowable || r.error.Abort?
    ensures var a := AssetOf(user, mint);
            r.Ok? <==>
              && BorrowableAmount(bank, user, mint, prices, now, growth).Ok?
              && amount <= BorrowableAmount(bank, user, mint, prices, now, growth).value
              && BorrowPool(bank, amount).Ok?
              && Deposited(user, a) + amount <= U64_MAX
              && DepositedShares(user, a) + BorrowPool(bank, amount).value.userShares <= U64_MAX
    ensures r.Ok? ==>
              && BorrowableAmount(bank, user, mint, prices, now, growth).Ok?
              && amount <= BorrowableAmount(bank, user, mint, prices, now, growth).value
              && BorrowPool(bank, amount).Ok?
              && var pool := BorrowPool(bank, amount).value;
                 var a := AssetOf(user, mint);
                 && Deposited(user, a) + amount <= U64_MAX
                 && DepositedShares(user, a) + pool.userShares <= U64_MAX
                 && r.value.bank == bank.(totalBorrowed := pool.totalBorrowed, totalBorrowedShares := pool.totalBorrowedShares)
                 && r.value.user == WithDeposit(user, a, Deposited(user, a) + amount, DepositedShares(user, a) + pool.userShares)
  {
    var borrowable :- BorrowableAmount(bank, user, mint, prices, now, growth);
    if borrowable < amount then Err(OverBorrowable)
    else
      var pool :- BorrowPool(bank, amount);
      var bank' := if bank.totalBorrowed == 0
                   then bank.(totalBorrowed := pool.totalBorrowed, totalBorrowedShares := pool.totalBorrowedShares)
                   else bank;
      if mint == user.usdcAddress then
        var deposited :- Add(user.depositedUsdc, amount);
        var shares :- Add(user.depositedUsdcShares, pool.userShares);
        Ok(Ledger(bank', user.(depositedUsdc := deposited, depositedUsdcShares := shares)))
      else
        var deposited :- Add(user.depositedSol, amount);
        var shares :- Add(user.depositedSolShares, pool.userShares);
        Ok(Ledger(bank', user.(depositedSol := deposited, depositedSolShares := shares)))
  }

  /** A borrow of exactly the borrowable amount passes the gate; one unit more
      fails with OverBorrowable. */
  lemma BorrowAtLimit(bank: BankState, user: UserState, mint: Pubkey, limit: U64, prices: Prices, now: I64, growth: Growth)
    requires BorrowableAmount(bank, user, mint, prices, now, growth) == Ok(limit)
    ensures Borrow(bank, user, mint, limit, prices, now, growth) != Err(OverBorrowable)
    ensures limit < U64_MAX ==> Borrow(bank, user, mint, limit + 1, prices, now, growth) == Err(OverBorrowable)
  {
  }

  /** A collateral value whose product with the threshold leaves u64 aborts the
      borrow before any check on the amount. */
  lemma BorrowThresholdOverflowAborts(bank: BankState, user: UserState, mint: Pubkey, amount: U64, prices: Prices, now: I64, growth: Growth)
    requires BorrowCollateral(bank, user, mint, prices, now, growth).Ok?
    requires BorrowCollateral(bank, user, mint, prices, now, growth).value * bank.liquidationThreshold > U64_MAX
    ensures Borrow(bank, user, mint, amount, prices, now, growth) == Err(Abort(Overflow))
  {
  }

  /** A successful borrow from an empty pool sets both pool totals to `amount`
      and credits the borrower exactly `amount` shares. */
  lemma BorrowBootstrapsEmptyPool(bank: BankState, user: UserState, mint: Pubkey, amount: U64, prices: Prices, now: I64, growth: Growth)
    requires bank.totalBorrowed == 0
    requires Borrow(bank, user, mint, amount, prices, now, growth).Ok?
    ensures var after := Borrow(bank, user, mint, amount, prices, now, growth).value;
            var a := AssetOf(user, mint);
            && after.bank.totalBorrowed == amount
            && after.bank.totalBorrowedShares == amount
            && DepositedShares(after.user, a) == DepositedShares(user, a) + amount
  {
  }

  /** A borrow from a non-empty pool never writes the Bank. */
  lemma BorrowKeepsNonEmptyPool(bank: BankState, user: UserState, mint: Pubkey, amount: U64, prices: Prices, now: I64, growth: Growth)
    requires bank.totalBorrowed > 0
    requires Borrow(bank, user, mint, amount, prices, now, growth).Ok?
    ensures Borrow(bank, user, mint, amount, prices, now, growth).value.bank == bank
  {
  }

  /** Because the ratio `amount / total_borrowed` truncates, a borrow smaller
      than the pool earns no shares at all. */
  lemma BorrowBelowPoolEarnsNoShares(bank: BankState, user: UserState, mint: Pubkey, amount: U64, prices: Prices, now: I64, growth: Growth)
    requires amount < bank.totalBorrowed
    requires Borrow(bank, user, mint, amount, prices, now, growth).Ok?
    ensures var after := Borrow(bank, user, mint, amount, prices, now, growth).value;
            DepositedShares(after.user, AssetOf(user, mint)) == DepositedShares(user, AssetOf(user, mint))
  {
  }

  /** A zero borrow against an empty pool always fails with a panic: the
      bootstrap leaves `total_borrowed` at zero and the ratio divides by it. */
  lemma BorrowZeroFromEmptyPoolAborts(bank: BankState, user: UserState, mint: Pubkey, prices: Prices, now: I64, growth: Growth)
    requires bank.totalBorrowed == 0
    ensures var r := Borrow(bank, user, mint, 0, prices, now, growth);
            r.Err? && r.error.Abort?
    ensures BorrowableAmount(bank, user, mint, prices, now, growth).Ok? ==>
              Borrow(bank, user, mint, 0, prices, now, growth) == Err(Abort(DivisionByZero))
  {
  }

  /** The borrow never records a debt: every debt slot of the User, and the
      other asset's deposit slot, is as it was. */
  lemma BorrowRecordsNoDebt(bank: BankState, user: UserState, mint: Pubkey, amount: U64, prices: Prices, now: I64, growth: Growth)
    requires Borrow(bank, user, mint, amount, prices, now, growth).Ok?
    ensures var after := Borrow(bank, user, mint, amount, prices, now, growth).value.user;
            && (forall a: Asset :: Borrowed(after, a) == Borrowed(user, a))
            && after.borrowedSolShares == user.borrowedSolShares
            && after.borrowedUsdcShares == user.borrowedUsdcShares
            && Deposited(after, Other(AssetOf(user, mint))) == Deposited(user, Other(AssetOf(user, mint)))
            && DepositedShares(after, Other(AssetOf(user, mint))) == DepositedShares(user, Other(AssetOf(user, mint)))
  {
  }

  /** `process_borrow` as the program runs it, on the Bank and User accounts.
      A failed instruction leaves no write behind, so the writes are staged in
      locals and committed after the last check that can fail. */
  method ProcessBorrow(bank: Bank, user: User, mint: Pubkey, amount: U64, prices: Prices, now: I64, growth: Growth)
    returns (r: Result<()>)
    modifies bank, user
    ensures var spec := Borrow(old(bank.State()), old(user.State()), mint, amount, prices, now, growth);
            && (spec.Err? ==> r == Err(spec.error) && bank.State() == old(bank.State()) && user.State() == old(user.State()))
            && (spec.Ok? ==> r == Ok(()) && bank.State() == spec.value.bank && user.State() == spec.value.user)
  {
    ghost var bank0, user0 := bank.State(), user.State();
    var borrowable := BorrowableAmount(bank.State(), user.State(), mint, prices, now, growth);
    ghost var spec := Borrow(bank0, user0, mint, amount, prices, now, growth);
    if borrowable.Err? {
      assert spec == Err(borrowable.error);
      return Err(borrowable.error);
    }
    if borrowable.value < amount {
      assert spec == Err(OverBorrowable);
      return Err(OverBorrowable);
    }
    // Here the program transfers `amount` from the bank's token account to the borrower.
    var bootstrap := bank.totalBorrowed == 0;
    var totalBorrowed := if bootstrap then amount else bank.totalBorrowed;
    var totalShares := if bootstrap then amount else bank.totalBorrowedShares;
    var userShares := ShareRatio(totalShares, totalBorrowed, amount);
    if userShares.Err? {
      assert BorrowPool(bank0, amount) == Err(userShares.error);
      assert spec == Err(userShares.error);
      return Err(userShares.error);
    }
    assert BorrowPool(bank0, amount) == Ok(PoolCredit(totalBorrowed, totalShares, userShares.value));
    var usdcMint := mint == user.usdcAddress;
    var slot := if usdcMint then user.depositedUsdc else user.depositedSol;
    var slotShares := if usdcMint then user.depositedUsdcShares else user.depositedSolShares;
    if slot + amount > U64_MAX || slotShares + userShares.value > U64_MAX {
      assert spec == Err(Abort(Overflow));
      return Err(Abort(Overflow));
    }
    if bootstrap {
      bank.totalBorrowed := amount;
      bank.totalBorrowedShares := amount;
    }
    if usdcMint {
      user.depositedUsdc := user.depositedUsdc + amount;
      user.depositedUsdcShares := user.depositedUsdcShares + userShares.value;
    } else {
      user.depositedSol := user.depositedSol + amount;
      user.depositedSolShares := user.depositedSolShares + userShares.value;
    }
    assert user.State() == WithDeposit(user0, AssetOf(user0, mint), slot + amount, slotShares + userShares.value);
    assert bank.State() == bank0.(totalBorrowed := totalBorrowed, totalBorrowedShares := totalShares);
    assert spec == Ok(Ledger(bank.State(), user.State()));
    r := Ok(());
  }
}
