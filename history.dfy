/** A history of instructions run against one user's accounts and the two
    banks. Each bank is the account seeded by its mint, so an instruction on
    `mint` works on the bank of the asset that mint stands for. A failed
    instruction is reverted in full and leaves every account as it was. */
module History {
  import opened Errors
  import opened Arith
  import opened Accounts
  import opened Borrowing
  import opened Repaying

  /** The two banks and the User account. */
  datatype Market = Market(solBank: BankState, usdcBank: BankState, user: UserState)

  function BankFor(m: Market, a: Asset): BankState {
    match a
    case Sol => m.solBank
    case Usdc => m.usdcBank
  }

  /** `m` after an instruction on the bank of `a` committed `l`. */
  function Commit(m: Market, a: Asset, l: Ledger): Market {
    match a
    case Sol => m.(solBank := l.bank, user := l.user)
    case Usdc => m.(usdcBank := l.bank, user := l.user)
  }

  /** The instructions that touch a User's lending accounts. A liquidation
      writes no account field: its only effects are token transfers. */
  datatype Instruction =
    | BorrowIx(mint: Pubkey, amount: U64, prices: Prices, now: I64)
    | RepayIx(mint: Pubkey, amount: U64, now: I64)
    | LiquidateIx(collateralMint: Pubkey, prices: Prices, now: I64)

  /** One instruction: its new accounts when it succeeds, `m` when it fails. */
  function Step(m: Market, ix: Instruction, growth: Growth, perShare: PerShare): Market {
    match ix
    case BorrowIx(mint, amount, prices, now) =>
      var a := AssetOf(m.user, mint);
      var r := Borrow(BankFor(m, a), m.user, mint, amount, prices, now, growth);
      if r.Ok? then Commit(m, a, r.value) else m
    case RepayIx(mint, amount, now) =>
      var a := AssetOf(m.user, mint);
      var r := Repay(BankFor(m, a), m.user, mint, amount, now, growth, perShare);
      if r.Ok? then Commit(m, a, r.value) else m
    case LiquidateIx(_, _, _) =>
      m
  }

  /** The accounts after the instructions of `history`, in order. */
  function Run(m: Market, history: seq<Instruction>, growth: Growth, perShare: PerShare): Market
    decreases |history|
  {
    if |history| == 0 then m
    else Run(Step(m, history[0], growth, perShare), history[1..], growth, perShare)
  }

  /** `b'` differs from `b` at most in the two borrow-pool totals: no
      instruction writes a bank's deposit totals or its risk parameters. */
  predicate BankMoves(b: BankState, b': BankState) {
    b' == b.(totalBorrowed := b'.totalBorrowed, totalBorrowedShares := b'.totalBorrowedShares)
  }

  /** What any instruction can do to the accounts: move the borrow pools,
      raise deposits (a borrow credits the deposit slot), lower debts and SOL
      debt shares (a repay), and nothing else. The USDC mint, both timestamps
      and the USDC debt shares are never written. */
  predicate Moves(m: Market, m': Market) {
    && BankMoves(m.solBank, m'.solBank)
    && BankMoves(m.usdcBank, m'.usdcBank)
    && m'.user.usdcAddress == m.user.usdcAddress
    && m'.user.lastUpdated == m.user.lastUpdated
    && m'.user.lastUpdatedBorrowed == m.user.lastUpdatedBorrowed
    && m'.user.borrowedUsdcShares == m.user.borrowedUsdcShares
    && m.user.depositedSol <= m'.user.depositedSol
    && m.user.depositedSolShares <= m'.user.depositedSolShares
    && m.user.depositedUsdc <= m'.user.depositedUsdc
    && m.user.depositedUsdcShares <= m'.user.depositedUsdcShares
    && m'.user.borrowedSol <= m.user.borrowedSol
    && m'.user.borrowedSolShares <= m.user.borrowedSolShares
    && m'.user.borrowedUsdc <= m.user.borrowedUsdc
  }

  /** Every instruction, whether it succeeds or fails, moves the accounts only
      as `Moves` allows. */
  lemma StepMoves(m: Market, ix: Instruction, growth: Growth, perShare: PerShare)
    ensures Moves(m, Step(m, ix, growth, perShare))
    ensures (ix.BorrowIx? || ix.RepayIx?) ==>
              var other := Other(AssetOf(m.user, ix.mint));
              BankFor(Step(m, ix, growth, perShare), other) == BankFor(m, other)
    ensures ix.LiquidateIx? ==> Step(m, ix, growth, perShare) == m
  {
    match ix
    case BorrowIx(mint, amount, prices, now) =>
      var a := AssetOf(m.user, mint);
      var r := Borrow(BankFor(m, a), m.user, mint, amount, prices, now, growth);
      if r.Ok? {
        assert r.value.user == WithDeposit(m.user, a, Deposited(m.user, a) + amount,
                                           DepositedShares(m.user, a) + BorrowPool(BankFor(m, a), amount).value.userShares);
      }
    case RepayIx(mint, amount, now) =>
      var a := AssetOf(m.user, mint);
      var r := Repay(BankFor(m, a), m.user, mint, amount, now, growth, perShare);
      if r.Ok? {
        assert amount <= Borrowed(m.user, a);
      }
    case LiquidateIx(_, _, _) =>
  }

  /** Over any history, the accounts move only as `Moves` allows. */
  lemma {:induction false} HistoryMoves(m: Market, history: seq<Instruction>, growth: Growth, perShare: PerShare)
    ensures Moves(m, Run(m, history, growth, perShare))
    decreases |history|
  {
    if |history| > 0 {
      var m' := Step(m, history[0], growth, perShare);
      StepMoves(m, history[0], growth, perShare);
      HistoryMoves(m', history[1..], growth, perShare);
    }
  }

  /** No history raises a debt: a borrow credits the deposit slot, and a repay
      lowers the debt it is checked against. A user without debt in an asset
      never acquires one. */
  lemma HistoryNeverRaisesDebt(m: Market, history: seq<Instruction>, growth: Growth, perShare: PerShare, a: Asset)
    ensures Borrowed(Run(m, history, growth, perShare).user, a) <= Borrowed(m.user, a)
    ensures Borrowed(m.user, a) == 0 ==> Borrowed(Run(m, history, growth, perShare).user, a) == 0
  {
    HistoryMoves(m, history, growth, perShare);
  }

  /** No history lowers a deposit or its shares: no instruction of the core
      debits a deposit slot. */
  lemma HistoryNeverLowersDeposits(m: Market, history: seq<Instruction>, growth: Growth, perShare: PerShare, a: Asset)
    ensures Deposited(m.user, a) <= Deposited(Run(m, history, growth, perShare).user, a)
    ensures DepositedShares(m.user, a) <= DepositedShares(Run(m, history, growth, perShare).user, a)
  {
    HistoryMoves(m, history, growth, perShare);
  }

  /** The borrow and repay instructions never write the User's timestamps, so
      accrual in any later instruction is measured from the same instants. */
  lemma HistoryKeepsTimestamps(m: Market, history: seq<Instruction>, growth: Growth, perShare: PerShare)
    ensures Run(m, history, growth, perShare).user.lastUpdated == m.user.lastUpdated
    ensures Run(m, history, growth, perShare).user.lastUpdatedBorrowed == m.user.lastUpdatedBorrowed
  {
    HistoryMoves(m, history, growth, perShare);
  }
}
