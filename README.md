# Lending ledger (SOL/USDC) — accounting core in Dafny

This project models the accounting of a two-asset collateralised-lending
program on Solana: the borrow, repay and liquidate instructions, with the
account wiring, price feeds and token transfers taken out. Every instruction
works in u64 arithmetic with Rust's overflow checks on, and a failed
instruction reverts completely. So each operation is modelled as all-or-nothing:
it either returns the new Bank and User, or an error and no change.

- `errors.dfy` (`Errors`): the program's error codes; `NotUnderCollateralized`,
  which liquidation raises; and `Abort` for an arithmetic panic (overflow,
  underflow, division by zero, a failed `checked_*().unwrap()`).
- `arith.dfy` (`Arith`): `u64` and `i64` as bounded integers, with checked operations.
- `accounts.dfy` (`Accounts`): the Bank and User accounts, both as values
  (`BankState`, `UserState`) and as classes updated in place (`Bank`, `User`).
  Also the asset a mint stands for: the user's recorded USDC mint is USDC, and any
  other key is SOL.
- `shares.dfy` (`Shares`): the share rule `total_shares * (amount / total_amount)`
  that borrow and repay both use.
- `borrowing.dfy` (`Borrowing`): `process_borrow`, as follows:
  - the pure function `Borrow`, and the lemmas about it;
  - the method `ProcessBorrow`, which updates `Bank` and `User` in place and is
    proved against `Borrow`.
- `repaying.dfy` (`Repaying`): `process_repay`, as `Repay` and `ProcessRepay`.
- `liquidation.dfy` (`Liquidation`): `process_liquidation`. It is a pure function
  because the instruction writes no account field.
- `history.dfy` (`History`): any sequence of these instructions against one
  User and the two banks:
  - each bank is the account seeded by its mint, so the SOL bank and the USDC bank;
  - a failed instruction is reverted;
  - the lemmas prove, by induction over the sequence, which account fields a
    history can move and in which direction.

Interest growth (`principal * e^(rate * elapsed)`, computed in f32/f64) is the
parameter `growth`. Repay's per-share value (an f64 quotient cast to u64) is the
parameter `perShare`. The i64 subtraction that computes the elapsed time is
modelled, including its overflow panic.

The model follows the code as written. These behaviours are kept and stated as
lemmas:
- A borrow credits the DEPOSIT slot of the borrowed asset. It never records a
  debt (`BorrowRecordsNoDebt`).
- A borrow writes the Bank's borrow totals only when the pool is empty
  (`BorrowKeepsNonEmptyPool`).
- Shares are `total_shares * (amount / total)`, dividing first. So a borrow or
  repay below the pool total earns or burns no shares
  (`BorrowBelowPoolEarnsNoShares`, `RepayBelowPoolBurnsNoShares`).
- A zero borrow against an empty pool panics (`BorrowZeroFromEmptyPoolAborts`).
- Repay takes the elapsed time as `last_updated_borrowed - now`. It subtracts the
  grown pool value from the pool total, so this step can only lower the total
  (`AdjustedTotalBorrowed`).
- Repay always decrements the SOL debt shares. It never writes the USDC debt
  shares (`RepayBurnsSolShares`).
- The borrow gate uses `liquidation_threshold`, not `max_ltv`.
- A liquidation of a position with zero debt panics rather than treating the
  health factor as infinite (`ZeroDebtNeverLiquidated`).
- The liquidation payout is not capped at the user's deposit.

## Model

| member | source | states |
|---|---|---|
| `Shares.ShareRatio` | programs/lending/src/instructions/borrow.rs:105-106 | Borrow and repay use this share rule. A zero pool panics with division by zero. An amount below the pool total gets 0 shares. An amount equal to the total gets all the pool's shares. Otherwise the result exists exactly when `total_shares * (amount / total)` fits in u64, and it is `total_shares` times the number of whole pool totals in the amount. |
| `Shares.ShareRatioWithinProportion` | programs/lending/src/instructions/borrow.rs:105-106 | Rounding favours the pool: the shares granted times the pool total never exceed `amount * total_shares`. |
| `Borrowing.BorrowCollateral` | programs/lending/src/instructions/borrow.rs:59-74 | Collateral is the deposit in the asset OTHER than the borrowed mint. It is grown at the borrowed bank's rate since `last_updated` and multiplied by that other asset's price. It fails only by overflow: of the i64 elapsed time or of the u64 product. |
| `Borrowing.BorrowPool` | programs/lending/src/instructions/borrow.rs:100-106 | An empty pool with a zero amount panics. An empty pool with a positive amount becomes `(amount, amount)` and credits exactly `amount` shares. A non-empty pool keeps its totals. It succeeds exactly when `ShareRatio` over it does, and the shares credited are always `ShareRatio` of the amount over the pool as bootstrapped. An amount below its total earns 0 shares. |
| `Borrowing.Borrow` | programs/lending/src/instructions/borrow.rs:54-119 | Fails with OverBorrowable exactly when the borrowable amount (collateral times `liquidation_threshold`) exists and is below the request. Every other failure is a panic. Succeeds exactly when: the gate holds, the pool step succeeds, and the raised deposit amount and shares both fit in u64. On success the gate held, the Bank carries the `BorrowPool` totals, and the User differs only in the borrowed asset's deposit slot, raised by `amount` and by the shares earned. |
| `Borrowing.BorrowAtLimit` | programs/lending/src/instructions/borrow.rs:75-79 | Borrowing exactly the borrowable amount passes the gate. One unit more fails with OverBorrowable. |
| `Borrowing.BorrowThresholdOverflowAborts` | programs/lending/src/instructions/borrow.rs:75 | If collateral times threshold overflows u64, the borrow panics (`checked_mul(..).unwrap()`) before the amount is looked at. |
| `Borrowing.BorrowBootstrapsEmptyPool` | programs/lending/src/instructions/borrow.rs:100-106 | A successful borrow from an empty pool sets both pool totals to `amount` and credits exactly `amount` shares. |
| `Borrowing.BorrowKeepsNonEmptyPool` | programs/lending/src/instructions/borrow.rs:100-117 | A successful borrow from a non-empty pool leaves the Bank unchanged. |
| `Borrowing.BorrowBelowPoolEarnsNoShares` | programs/lending/src/instructions/borrow.rs:105-106 | A borrow smaller than `total_borrowed` leaves the credited share slot unchanged, because the truncated ratio is 0. |
| `Borrowing.BorrowZeroFromEmptyPoolAborts` | programs/lending/src/instructions/borrow.rs:100-105 | A zero borrow against an empty pool always panics. Once the gate is reached, the panic is division by zero. |
| `Borrowing.BorrowRecordsNoDebt` | programs/lending/src/instructions/borrow.rs:108-117 | A successful borrow changes no debt amount, no debt share count, and neither field of the other asset's deposit slot. |
| `Borrowing.ProcessBorrow` | programs/lending/src/instructions/borrow.rs:54-119 | The in-place instruction returns `Borrow`'s error and leaves both accounts unchanged, or succeeds and leaves the Bank and User exactly as `Borrow` computes them. |
| `Repaying.RepayDebt` | programs/lending/src/instructions/repay.rs:46-53 | The debt checked is the debt slot of the asset the mint stands for: USDC for the user's USDC mint, SOL otherwise. |
| `Repaying.AdjustedTotalBorrowed` | programs/lending/src/instructions/repay.rs:54-56 | The adjusted pool total is `total_borrowed` minus the growth over `last_updated_borrowed - now`. It is never above the old total. The step fails on i64 overflow of the time difference, and otherwise with an underflow exactly when the grown value exceeds the total. |
| `Repaying.RepayAllowance` | programs/lending/src/instructions/repay.rs:57-62 | `borrowed_value / value_per_share` panics exactly when the share value is 0. Otherwise it is never above the debt. |
| `Repaying.RepayAllowanceCountsWholeShares` | programs/lending/src/instructions/repay.rs:58 | With a share value of at least 1, the allowance is the number of whole shares' worth in the debt: that many shares are worth at most the debt, and one more would exceed it. |
| `Repaying.Repay` | programs/lending/src/instructions/repay.rs:43-93 | OverRepay exactly when the amount exceeds the allowance; every other failure is a panic. Succeeds exactly when: the adjusted total is positive and at least the amount; the amount is within the allowance; and, when the whole pool is repaid, the user holds at least the pool's shares in SOL debt shares. The debt slot needs no condition. On success the debt slot and the pool total drop by `amount`, and the burned shares (all of the pool's on a full repay, none otherwise) leave the pool and the SOL debt shares. Nothing else changes. |
| `Repaying.RepayWithinAllowanceCoversDebt` | programs/lending/src/instructions/repay.rs:58-86 | With a share value of at least 1, an amount that passes the OverRepay check is within the selected debt, so the debt subtraction cannot underflow. |
| `Repaying.RepayBurnsSolShares` | programs/lending/src/instructions/repay.rs:79-91 | After a successful repay of either asset: the USDC debt shares are unchanged; the SOL debt shares drop by exactly what the pool's shares drop; the other asset's debt is unchanged. |
| `Repaying.RepayBelowPoolBurnsNoShares` | programs/lending/src/instructions/repay.rs:76-77 | A repay below the adjusted pool total burns no shares. Only the debt amount changes on the User. |
| `Repaying.ProcessRepay` | programs/lending/src/instructions/repay.rs:43-93 | The in-place instruction returns `Repay`'s error and leaves both accounts unchanged, or succeeds and leaves them exactly as `Repay` computes them. |
| `Liquidation.LiquidationPosition` | programs/lending/src/instructions/liquidate.rs:84-101 | With the user's USDC mint as collateral: collateral is the USDC deposit at the USDC price, debt is the SOL debt at the SOL price. Otherwise the assets swap. Deposits grow at the collateral bank's rate since `last_updated`, debts at the borrowed bank's rate since `last_updated_borrowed`. Succeeds exactly when both elapsed times fit in i64 and both priced values fit in u64. Every failure is an overflow. |
| `Liquidation.HealthCheck` | programs/lending/src/instructions/liquidate.rs:102-106 | Passes exactly when `collateral * threshold` fits in u64 and is below the debt. Rejects with NotUnderCollateralized exactly when it fits and covers a nonzero debt, which is the same as `collateral * threshold / debt >= 1`. A zero debt panics. |
| `Liquidation.LiquidationPayout` | programs/lending/src/instructions/liquidate.rs:117-121 | Repaid = debt times close factor. Seized = repaid times (bonus + 1), so never less than repaid. It exists exactly when both products fit in u64. |
| `Liquidation.Liquidate` | programs/lending/src/instructions/liquidate.rs:72-142 | A payout exists only if the position was valued and passed the health check. Conversely, a valued position that passes the health check gets exactly `LiquidationPayout` of the debt with the collateral bank's parameters. NotUnderCollateralized exactly when the health check rejects. Every other failure is a panic. No account is written. |
| `Liquidation.ZeroDebtNeverLiquidated` | programs/lending/src/instructions/liquidate.rs:102 | A position whose debt value is 0 is never liquidated: the instruction panics. |
| `Liquidation.EligibilityMonotone` | programs/lending/src/instructions/liquidate.rs:102-104 | If a position may be liquidated, so may any position with no more collateral, no higher threshold and no less debt. |
| `Liquidation.HealthyStaysHealthy` | programs/lending/src/instructions/liquidate.rs:102-106 | A position rejected as NotUnderCollateralized stays rejected if collateral or threshold rises or debt falls, as long as the debt stays nonzero and the weighted collateral fits in u64. |
| `History.StepMoves` | programs/lending/src/instructions/borrow.rs:100-117 | One borrow, repay or liquidation, successful or reverted, moves only: the borrow totals of the bank it names; the User's deposits and deposit shares, upward; the User's debts and SOL debt shares, downward. The USDC mint, the two timestamps, the USDC debt shares and every bank's deposit totals and parameters stay as they were. A borrow or repay leaves the bank of the other asset entirely unchanged, and a liquidation leaves every account unchanged. |
| `History.HistoryMoves` | programs/lending/src/instructions/repay.rs:79-91 | The same bound holds between the accounts before and after any sequence of instructions. |
| `History.HistoryNeverRaisesDebt` | programs/lending/src/instructions/borrow.rs:108-117 | After any history, each debt is at most what it was. A User without debt in an asset never acquires one, since a borrow credits the deposit slot. |
| `History.HistoryNeverLowersDeposits` | programs/lending/src/instructions/borrow.rs:108-117 | After any history, each deposit and its share count are at least what they were. |
| `History.HistoryKeepsTimestamps` | programs/lending/src/instructions/repay.rs:54-56 | After any history, `last_updated` and `last_updated_borrowed` are unchanged, so accrual is always measured from the same instants. |

## Left out

- Interest growth (`calculate_accrued_interest` and the inline term in repay) uses an f32 `powf`, so it is the parameter `growth`. No property of the exponential is assumed.
- The per-share value in repay is an f64 quotient cast to u64, so it is the parameter `perShare`, applied to the adjusted total and the share total.
- Pyth price lookup, the `MAX_AGE` staleness check and the `i64 as u64` price cast are foreign calls. Prices are u64 inputs, and a stale or missing feed is not modelled.
- `Clock::get()` is the input `now`. Its failure is not modelled.
- Token transfers (`transfer_checked` through CPI) are not modelled: no token balances, and no transfer failure. So `InsufficientFunds` is declared but never raised. Liquidation returns the two transfer amounts as its `Payout`.
- The `#[derive(Accounts)]` structs are account wiring and are not modelled: PDA seeds and their misspelt or swapped seeds, `init_if_needed`, signer checks. Liquidation takes its two banks as given.
- deposit.rs is not part of this model: its processing function has no body.
- lib.rs is entry-point dispatch only. The `init_bank` and `init_user` bodies are not shown, so no constructor is modelled.
- state.rs is not part of this model. The account fields are the ones the three instructions use, plus `total_deposits`, `total_deposit_shares`, `max_ltv` and the User's `borrowed_usdc_shares`. None of the three instructions reads or writes `borrowed_usdc_shares`; it is kept so that the history lemmas can state that it is never written.
- The market has exactly the SOL bank and the USDC bank: any mint other than the User's USDC mint is the SOL mint, and one User account is modelled.
- Deposits and withdrawals are not instructions of the history: deposit.rs has no body, and no withdraw instruction is part of this model.
- u64 and i64 overflow and underflow are panics (abort), never wrap-around.
- ProcessBorrow, ProcessRepay: all writes are staged and made after the last check that can fail. The program writes the bootstrap totals and the accrual step before later checks, but a failed instruction is reverted in full, so the final state is the same.
