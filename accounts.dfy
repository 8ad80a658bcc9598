/** The two program accounts the instructions update, the Bank and the User,
    and the inputs an instruction takes from outside the ledger: prices and the
    interest-growth function. */
module Accounts {
  import opened Arith

  /** A mint's public key; the instructions only compare keys for equality. */
  type Pubkey = seq<bv8>

  /** The two assets a User slot can hold. */
  datatype Asset = Sol | Usdc

  function Other(a: Asset): Asset {
    match a
    case Sol => Usdc
    case Usdc => Sol
  }

  /** The two oracle prices, already read from the feed and cast to u64. */
  datatype Prices = Prices(sol: U64, usdc: U64)

  function Price(p: Prices, a: Asset): U64 {
    match a
    case Sol => p.sol
    case Usdc => p.usdc
  }

  /** `(principal, rate, elapsed) -> principal * e^(rate * elapsed)` computed in
      f32/f64 and cast back to u64. The floating-point value is not modelled:
      the instructions take it as a parameter. */
  type Growth = (U64, U64, I64) -> U64

  /** The fields of a Bank account that the instructions read or write. */
  datatype BankState = BankState(
    totalDeposits: U64,
    totalDepositShares: U64,
    totalBorrowed: U64,
    totalBorrowedShares: U64,
    liquidationThreshold: U64,
    maxLtv: U64,
    liquidationBonus: U64,
    liquidationCloseFactor: U64,
    interestRate: U64)

  /** The fields of a User account: one deposit slot and one debt slot per asset. */
  datatype UserState = UserState(
    usdcAddress: Pubkey,
    depositedSol: U64,
    depositedSolShares: U64,
    depositedUsdc: U64,
    depositedUsdcShares: U64,
    borrowedSol: U64,
    borrowedSolShares: U64,
    borrowedUsdc: U64,
    borrowedUsdcShares: U64,
    lastUpdated: I64,
    lastUpdatedBorrowed: I64)

  /** A Bank and a User as an instruction leaves them. */
  datatype Ledger = Ledger(bank: BankState, user: UserState)

  /** The asset a mint stands for, as every instruction decides it: the user's
      recorded USDC mint is USDC, every other key is SOL. */
  function AssetOf(user: UserState, mint: Pubkey): Asset {
    if mint == user.usdcAddress then Usdc else Sol
  }

  function Deposited(u: UserState, a: Asset): U64 {
    match a
    case Sol => u.depositedSol
    case Usdc => u.depositedUsdc
  }

  function DepositedShares(u: UserState, a: Asset): U64 {
    match a
    case Sol => u.depositedSolShares
    case Usdc => u.depositedUsdcShares
  }

  function Borrowed(u: UserState, a: Asset): U64 {
    match a
    case Sol => u.borrowedSol
    case Usdc => u.borrowedUsdc
  }

  /** `u` with the deposit slot of `a` set to `amount` and `shares`. */
  function WithDeposit(u: UserState, a: Asset, amount: U64, shares: U64): UserState {
    match a
    case Sol => u.(depositedSol := amount, depositedSolShares := shares)
    case Usdc => u.(depositedUsdc := amount, depositedUsdcShares := shares)
  }

  /** `u` with the debt amount of `a` set to `amount` (the debt shares untouched). */
  function WithBorrowed(u: UserState, a: Asset, amount: U64): UserState {
    match a
    case Sol => u.(borrowedSol := amount)
    case Usdc => u.(borrowedUsdc := amount)
  }

  /** A Bank account, updated in place by the instructions. */
  class Bank {
    var totalDeposits: U64
    var totalDepositShares: U64
    var totalBorrowed: U64
    var totalBorrowedShares: U64
    var liquidationThreshold: U64
    var maxLtv: U64
    var liquidationBonus: U64
    var liquidationCloseFactor: U64
    var interestRate: U64

    function State(): BankState
      reads this
    {
      BankState(totalDeposits, totalDepositShares, totalBorrowed, totalBorrowedShares,
                liquidationThreshold, maxLtv, liquidationBonus, liquidationCloseFactor,
                interestRate)
    }
  }

  /** A User account, updated in place by the instructions. */
  class User {
    var usdcAddress: Pubkey
    var depositedSol: U64
    var depositedSolShares: U64
    var depositedUsdc: U64
    var depositedUsdcShares: U64
    var borrowedSol: U64
    var borrowedSolShares: U64
    var borrowedUsdc: U64
    var borrowedUsdcShares: U64
    var lastUpdated: I64
    var lastUpdatedBorrowed: I64

    function State(): UserState
      reads this
    {
      UserState(usdcAddress, depositedSol, depositedSolShares, depositedUsdc,
                depositedUsdcShares, borrowedSol, borrowedSolShares, borrowedUsdc,
                borrowedUsdcShares, lastUpdated, lastUpdatedBorrowed)
    }
  }
}
