# Fee vault accounting, verified

A Dafny model of the fee vault: a contract that holds many users' deposits in a lending
pool, reserve by reserve, and takes a fee from the interest. A user owns *shares* of a
reserve's vault; the vault owns *bTokens* of the pool; a bToken is worth `b_rate / 10^12`
*underlying* tokens. Every operation first accrues interest, under a take rate or an APR
cap, and then converts between the three units with nested roundings. The project proves
that these roundings always favour the vault, and what that means for holders, for the
admin, and over whole runs.

## How it is laid out

| file | content |
|---|---|
| `types.dfy`, `fixed_point.dfy` | errors, rates, timestamps; floor and ceiling division as adjoints of multiplication, and the checked i128 operations |
| `vaults.dfy` | one vault: conversions, accrual in both fee modes, and when their i128 arithmetic goes through |
| `ledger.dfy` | storage, and the exact outcome of every entry point, errors included |
| `contract.dfy` | the contract itself: classes updated step by step in checked arithmetic, proved to have the outcomes of `ledger.dfy` |
| `accrual_laws.dfy`, `accrual_runs.dfy` | one accrual, and runs of accruals of any length |
| `conversion_laws.dfy` | minting, burning, claims and quotes at a fixed rate |
| `share_sums.dfy`, `invariants.dfy` | sums over holders; what every reachable state satisfies |
| `outcomes.dfy` | the answer of every entry point on every input, with scales, year and i128 range written out |
| `pool_mirror.dfy` | runs against the pool: the pool position, and share value |
| `trading.dfy` | many calls at one observation of the pool |
| `holders.dfy` | a holder who does not trade, over a whole run |
| `exits.dfy` | everyone can leave, in any order |
| `overflow.dfy` | realistic runs never overflow |

A transaction observes a ledger time and one positive rate per listed asset. A panic is an
`Err`, and the state is then as before the transaction: in `contract.dfy` each entry point
writes storage last, and the accrual loop of `SetFeeMode` puts the vaults back. The errors
are those of the contract, plus `ArithmeticError` (an i128 overflow, a u64 underflow or a
division by zero, each of which panics) and `PoolError` (the pool does not list the asset).
Laws on unbounded integers carry over because the `...Fits` predicates say exactly when the
checked arithmetic agrees with them, and every balance that is stored is an i128
(`StoredNumbersFit`).

Three things that the code does and that a reader might not expect:

- `InvalidSharesMinted`, documented for `deposit`, and `InvalidBTokensBurnt`, documented for
  `withdraw`, cannot occur through those entry points (`SharesChecksAreUnreachable`).
- There is no high-water mark. Depositors keep their value across an accrual exactly when
  the rate did not fall (`AccrualKeepsValue`). A recovery after a fall is accrued like any
  other rise: it is free exactly when the fee it computes is less than one bToken
  (`RecoveryIsFreeExactlyWhenFeeRoundsAway`; `RecoveryIsChargedAgain` is a case where it is not).
- The rounded quote can fall although the rate rises (`RoundedQuoteCanFall`), by less than
  the value of one bToken (`HolderAcrossAccrual`, and over whole runs `HolderIsSafeThroughRun`); `RoundedQuoteIsKeptExactlyWhenCovered`
  says exactly when it does not.

The repository's own README shows an older constructor with a bare take rate; the model
follows the code, with a fee mode and a value (src/contract.rs:27).

## Model

| member | source | states |
|---|---|---|
| FixedPoint.FloorAdjoint | src/reserve_vault.rs:48-66 | `fixed_*_floor` is the right adjoint of multiplication: k <= floor(x/d) iff k*d <= x |
| FixedPoint.CeilAdjoint | src/reserve_vault.rs:38-73 | `fixed_*_ceil` is the left adjoint: ceil(x/d) <= k iff x <= k*d |
| Contract.ReserveVault.UpdateRate | src/reserve_vault.rs:76-134 | the in-place update in checked arithmetic has exactly the specified result, and panics exactly when a product or sum leaves i128 or, under a cap, the clock is behind |
| Contract.ReserveVault.BTokensToSharesDown | src/reserve_vault.rs:28-35 | the checked conversion is the floored price, or the amount itself in an empty vault |
| Contract.ReserveVault.BTokensToSharesUp | src/reserve_vault.rs:38-45 | the checked conversion is the ceiled price, or the amount itself in an empty vault |
| Contract.ReserveVault.SharesToBTokensDown | src/reserve_vault.rs:48-52 | the checked claim is the floored part of the bTokens; without shares, or on product overflow, it panics |
| Contract.ReserveVault.BTokensToUnderlyingDown | src/reserve_vault.rs:55-59 | the checked value is floored and panics on product overflow |
| Contract.ReserveVault.UnderlyingToBTokensDown | src/reserve_vault.rs:62-66 | what an amount buys is floored, of any sign, and panics on product overflow |
| Contract.ReserveVault.UnderlyingToBTokensUp | src/reserve_vault.rs:69-73 | what an amount costs is ceiled, of any sign, and panics on product overflow |
| Contract.ReserveVault.Mint | src/reserve_vault.rs:165-181 | in-place mint: the first refusal, or the minted record; unchanged on an error |
| Contract.ReserveVault.Burn | src/reserve_vault.rs:196-218 | in-place burn: the first refusal, or the burnt record; unchanged on an error, and a burn never takes more than there is |
| Contract.FeeVault.Construct | src/contract.rs:27-42 | a contract is created exactly for fee values from 0 to 10^7, with no vaults |
| Contract.FeeVault.GetReserveVaultUpdated | src/reserve_vault.rs:147-151 | the view and every operation work on an up-to-date copy; storage is untouched |
| Contract.FeeVault.GetShares | src/storage.rs:151-166 | a position that was never written is 0 |
| Contract.FeeVault.GetBTokens | src/contract.rs:67-75 | the view's value and its panics |
| Contract.FeeVault.GetUnderlyingTokens | src/contract.rs:85-94 | the view's value and its panics |
| Contract.FeeVault.GetCollectedFees | src/contract.rs:103-110 | the view's value and its panics, 0 for an unknown reserve |
| Contract.FeeVault.AccrueInterestForAllReserves | src/reserve_vault.rs:240-247 | the loop performs the specified fold over the reserves list, or aborts with all vaults as before |
| Contract.FeeVault.SetFeeMode | src/contract.rs:146-165 | new state and result, or the error and the state unchanged |
| Contract.FeeVault.AddReserveVault | src/contract.rs:188-210 | new state and result, or the error and the state unchanged |
| Contract.FeeVault.ClaimFees | src/contract.rs:245-256 | new state, bTokens burnt and amount paid, or the error and the state unchanged |
| Contract.FeeVault.Deposit | src/contract.rs:275-286 | new state, bTokens and shares minted, or the first error and the state unchanged |
| Contract.FeeVault.Withdraw | src/contract.rs:304-315 | new state, bTokens and shares burnt, or the first error and the state unchanged |
| Vaults.Vault.RateTake | src/reserve_vault.rs:114-121 | the take-rate fee t, through all three floors: t*new*10^7 <= B*(new-old)*value, and the shortfall is below value*D + 10^7*(D+new) |
| Vaults.Vault.AdminTake | src/reserve_vault.rs:90-122 | in either mode the fee is worth at most the interest, so it never exceeds the deposits |
| AccrualLaws.AccrualKeepsValue | src/reserve_vault.rs:76-134 | bTokens and fees together are conserved; the depositors' exact value is kept if and only if the rate did not fall or nothing is deposited; fees never empty a funded vault |
| AccrualLaws.RecoveryIsFreeExactlyWhenFeeRoundsAway | src/reserve_vault.rs:81-121 | for any vault, fall and recovery: the depositors keep all bTokens if and only if, under a cap, the excess over the target is worth less than one bToken, and under a take rate the cut is |
| AccrualLaws.RecoveryIsChargedAgain | src/reserve_vault.rs:81-121 | a concrete vault that the recovery costs a twentieth of its bTokens |
| AccrualLaws.CapTwoSided | src/reserve_vault.rs:90-113 | no fee when the target is not exceeded; otherwise B*target <= B'*new < B*target + new |
| AccrualLaws.CapTakeAntitone | src/reserve_vault.rs:90-113 | the capped fee does not grow with the elapsed time or with the cap |
| AccrualRuns.FeesAreBoundedByInterest | src/reserve_vault.rs:114-133 | over any accrual run, all take-rate fees, valued when taken, are at most value/10^7 of the interest on the initial bTokens |
| AccrualRuns.StepwiseFeeReachesExact | src/reserve_vault.rs:114-121 | from any first rate r: accruing in k steps reaches the exact one-step fee short of k*(1 + 2*ceil(10^12/r)) bTokens, which is 3k at a rate of at least 1 |
| AccrualRuns.StepwiseFeeAtLeastSingle | src/reserve_vault.rs:114-121 | the admin loses little by frequent accrual: k steps give at least the one-step fee less one bToken under that loss (two steps from a rate of at least 1: less 5) |
| AccrualRuns.StepwiseFeeAtMostGrowthOfSingle | src/reserve_vault.rs:114-121 | nor do the depositors: the stepwise fee times the first rate is below the one-step fee, plus the loss of one step (3 at a rate of at least 1), times the last rate |
| AccrualRuns.DepositorsKeepTheirPart | src/reserve_vault.rs:114-133 | one take-rate accrual: B*(old*10^7 + (new-old)*(10^7-value)) <= B'*new*10^7 |
| AccrualRuns.DepositorsCompound | src/reserve_vault.rs:114-133 | over any take-rate run the depositors' value compounds at that part of each step's growth |
| AccrualRuns.CompoundBeatsSimple | src/reserve_vault.rs:94-103 | Bernoulli's inequality for the truncated growth rates of a run |
| AccrualRuns.CapKeepsLesserGrowth | src/reserve_vault.rs:90-112 | over any capped run the depositors' value compounds at least at the lesser, step by step, of the capped growth and the rate's own |
| AccrualRuns.CapCompounds | src/reserve_vault.rs:90-112 | over a run that beats its cap at each step: B0*r0*product(g_i) <= Bk*rk*D^k |
| AccrualRuns.CapEarnsSimpleInterest | src/reserve_vault.rs:90-112 | hence the depositors earn at least the simple interest at the capped APR |
| AccrualRuns.CapIsACap | src/reserve_vault.rs:90-113 | and the cap caps: over any capped run Bk*rk*D^k is at most C(k), where C(0) = B0*r0 and C(i+1) = C(i)*g_i + (B0 + r_(i+1))*D^(i+1): the capped growth compounded, plus each step's rounding |
| ConversionLaws.MintIsSound | src/reserve_vault.rs:168-177 | in a sound vault (S >= B, no bTokens means no shares) a mint gives at least as many shares as bTokens, keeps it sound and dilutes no one |
| ConversionLaws.BurnCoverage | src/reserve_vault.rs:198-206 | a burn is covered in shares if and only if it is covered in bTokens, and takes the last share only with the last bToken |
| ConversionLaws.BurnIsSound | src/reserve_vault.rs:201-212 | a covered burn keeps the vault sound and dilutes no one |
| ConversionLaws.WithdrawalCostsQuote | src/reserve_vault.rs:48-73 | the two ceilings of a withdrawal are adjoint to the two floors of a quote |
| ConversionLaws.MintGrowsClaim | src/reserve_vault.rs:165-181 | right after a deposit of b bTokens the depositor's bToken claim has grown by b or b-1 |
| ConversionLaws.BurnShrinksClaim | src/reserve_vault.rs:196-218 | right after a withdrawal of b bTokens the claim has fallen by b or b+1 |
| ConversionLaws.DepositRaisesQuoteAtMostAmount | src/reserve_vault.rs:165-181 | a deposit raises the quote by at most the amount, whatever the holder had before |
| ConversionLaws.WithdrawalLowersQuoteAtLeastAmount | src/reserve_vault.rs:196-218 | a withdrawal lowers the quote by at least the amount |
| ConversionLaws.DepositCostsLessThanTwoBTokens | src/reserve_vault.rs:165-181 | rounding costs a depositor less than the value of two bTokens and one underlying unit |
| ConversionLaws.WithdrawalCostsLessThanTwoBTokens | src/reserve_vault.rs:196-218 | and so for a withdrawal |
| Invariants.AccrueReservesPointwise | src/reserve_vault.rs:240-247 | the accrual loop rewrites each listed vault exactly once, and fails if and only if one accrual does |
| Invariants.StepKeepsInv | src/contract.rs:146-315 | every call keeps: sound vaults, shares summing to the total, and a duplicate-free reserves list naming exactly the vaults |
| Invariants.ReachableStatesAreSound | src/storage.rs:191-221 | so does every run from construction, for any rates and any clock |
| Invariants.Solvency | src/contract.rs:67-110 | in such a state the bToken claims fit in B, and all quotes with the collected fees are at most floor((B+fees)*r/D) |
| Invariants.ViewIsQuote | src/contract.rs:85-94 | the view, when it does not panic, is the quote on unbounded integers |
| Invariants.WithdrawExactlyUpToQuote | src/reserve_vault.rs:196-210 | the outcome of every withdrawal: it panics in arithmetic if and only if one of its two products leaves i128; otherwise it succeeds if and only if it is at most the quote, is `InsufficientReserves` if and only if it exceeds the whole vault's worth, and `BalanceError` exactly in between |
| Invariants.WithdrawDecidedByView | src/contract.rs:85-94 | where a withdrawal of everything stays within i128, a withdrawal succeeds if and only if it is at most the quote |
| Invariants.DepositExactlyFromOneBToken | src/reserve_vault.rs:165-177 | the outcome of every deposit of a positive amount: it panics in arithmetic if and only if one of its products or sums leaves i128; otherwise it succeeds if and only if r <= amount*10^12, and is `InvalidBTokensMinted` if and only if not |
| Invariants.SharesChecksAreUnreachable | src/reserve_vault.rs:169-202 | `InvalidSharesMinted` and `InvalidBTokensBurnt` never occur; a deposit mints at least as many shares as bTokens |
| Invariants.ClaimPaysCollectedFees | src/reserve_vault.rs:228-237 | a claim succeeds if and only if there are fees, pays what the view shows, and leaves none |
| Invariants.StepKeepsVaults | src/contract.rs:194-205 | no vault is ever removed, and a new one is empty at the pool's rate |
| Invariants.OtherVaultsStay | src/contract.rs:188-315 | a call about one reserve leaves the mode and every other vault unchanged |
| Invariants.OtherPositionsStay | src/storage.rs:174-185 | a position changes only when its holder deposits into, or withdraws from, its reserve |
| Invariants.FeeModeChangeIsNotRetroactive | src/contract.rs:153-162 | every quote and collected fee is the same just before a mode change, accrual pending, and just after |
| Outcomes.GrowthIsTheApr | src/reserve_vault.rs:97-103 | what an APR is: over t seconds a cap c (7 decimals) allows the growth g = floor(10^5*c*t / 31_536_000) in 12 decimals, two-sided, and exactly 10^5*c*n over n whole years |
| Outcomes.DepositorsEarnTheCappedApr | src/reserve_vault.rs:90-113 | any capped rise after t seconds, with Y = 31_536_000*10^12: B'*new*Y < B*r*(Y + 10^5*c*t) + (B + new)*Y, and, if any fee is taken, B*r*(Y + 10^5*c*t - 31_536_000) <= B'*new*Y |
| Outcomes.CapOverWholeYears | src/reserve_vault.rs:97-112 | after n whole years a rise is free if (new-1)*10^7 < r*(10^7 + n*c); otherwise the fee f has f*new <= B*(new-target) < (f+1)*new, with target = ceil(r*(10^7 + n*c)/10^7) |
| Outcomes.FallIsAccepted | src/reserve_vault.rs:81-85 | a rate that did not rise is always accepted, whatever the clock and the balances: only the rate and the time are stored |
| Outcomes.RiseUnderTakeRate | src/reserve_vault.rs:114-133 | a rise under a take rate panics only if B*(new-r), or the new sum of fees, leaves i128, never in its two later products; otherwise the exact new vault |
| Outcomes.RiseUnderCap | src/reserve_vault.rs:90-133 | a rise under a cap panics only if the clock is behind, or r*growth, B*(new-target) or the new sum of fees leaves i128, never in 100_000*c*t; otherwise the exact new vault |
| Outcomes.AccrualNeedsVaultAndRate | src/reserve_vault.rs:147-151 | `ReserveNotFound` exactly without a vault, the pool's panic exactly for an unlisted asset, and no other error but arithmetic |
| Outcomes.ConstructionOutcome | src/contract.rs:27-42 | accepted if and only if 0 <= value <= 10^7, and the mode is stored as given |
| Outcomes.FeeModeOutcome | src/contract.rs:146-165 | accepted if and only if 0 <= value <= 10^7 and every listed vault accrues; the mode, and every vault accrued under the old one, are stored, and nothing else |
| Outcomes.FeeModeFailure | src/reserve_vault.rs:240-247 | otherwise the error is that of the first listed vault that cannot accrue |
| Outcomes.AddVaultOutcome | src/contract.rs:188-210 | accepted if and only if the reserve has no vault and the pool lists it, with the whole new state |
| Outcomes.ClaimOutcome | src/contract.rs:245-256 | when a claim succeeds, and with which error not; the bTokens burnt are exactly what the vault and its fees lose together, and the amount paid is the floored value of just those |
| Outcomes.ViewOutcome | src/contract.rs:67-94 | when `get_b_tokens` and `get_underlying_tokens` answer, and that they answer the claim and the quote; 0 to a holder of nothing, even for an unknown reserve |
| Outcomes.CollectedFeesOutcome | src/contract.rs:103-110 | 0 without a vault; otherwise the floored value of the accrued fees, unless the accrual or its product panics |
| Outcomes.DepositOutcome | src/contract.rs:275-286 | every deposit: the first check that refuses it, or the exact receipt and all that changes; the sums of bTokens and of the position never overflow unless that of the shares does |
| Outcomes.WithdrawOutcome | src/contract.rs:304-315 | every withdrawal: the first check that refuses it, decided by the vault's worth and the holder's quote, or the exact receipt and all that changes |
| Outcomes.StoredNumbersFit | src/storage.rs:100-185 | on every run, whatever the rates and the clock, all stored balances and positions are i128 values |
| PoolMirror.ClaimRest | src/contract.rs:251-252 | a claim of b bTokens leaves in the pool bTokens worth less than one underlying unit, and none if and only if (b*r) mod 10^12 < r |
| PoolMirror.SlackOnlyGrowsByClaims | src/contract.rs:245-315 | the excess of the pool position over the ledger changes only by a claim of the same reserve: by exactly the fees less the bTokens that their floored value burns, which is worth less than one underlying unit, is nil if and only if (fees*r) mod 10^12 < r, and is nil at par or above |
| PoolMirror.PoolIsNeverShort | src/contract.rs:252-310 | the pool is never asked to burn more bTokens than the contract holds there |
| PoolMirror.PositionCoversLedger | src/contract.rs:245-315 | on every run the pool position covers the depositors' bTokens and the fees |
| PoolMirror.PositionIsExactIffClaimsLeaveNothing | src/contract.rs:245-315 | over any run from an exact position it stays exactly the ledger's if and only if every successful claim has (fees*r) mod 10^12 < r |
| PoolMirror.ClaimBelowParCanLeaveRest | src/contract.rs:251-252 | a concrete claim below par: one bToken worth half a unit pays nothing and stays in the pool |
| PoolMirror.PositionIsExactAtPar | src/tests/test_happy_path.rs:363-369 | hence with all claims at a rate of at least 1 the position is exactly that |
| PoolMirror.ShareValueNeverFallsBelowBase | src/reserve_vault.rs:76-218 | along any run without falling rates, across modes and mode changes: S*r0 <= B*r |
| PoolMirror.RisingPoolGivesRisingRun | src/reserve_vault.rs:77-85 | a pool whose rates never fall never shows a rate below a stored one |
| PoolMirror.FromConstruction | src/contract.rs:27-315 | the run properties together, from a constructed contract: position covered, and exact if and only if the claims leave nothing |
| Trading.ShareValueNeverFalls | src/reserve_vault.rs:76-237 | one call at a rate not below the stored one: (B/S)*r of every vault does not fall, whatever the call and its outcome |
| Trading.BystanderIsSafe | src/reserve_vault.rs:165-218 | at a fixed observation no call by anyone else lowers a holder's quote |
| Trading.BystanderIsSafeThroughout | src/reserve_vault.rs:165-218 | nor does any number of calls |
| Trading.HolderAcrossAccrual | src/reserve_vault.rs:76-134 | across an accrual without a fall the exact value is kept and the rounded quote loses less than one bToken's value |
| Trading.RoundedQuoteIsKeptExactlyWhenCovered | src/reserve_vault.rs:48-134 | across any rise of the rate the rounded quote q is kept if and only if q = 0 or ceil(q*D/new)*S <= held*(B - take) |
| Trading.RoundedQuoteCanFall | src/reserve_vault.rs:114-121 | a concrete vault where the rate rises and a rounded quote falls from 3 to 0 |
| Holders.HolderIsSafeThroughRun | src/contract.rs:146-315 | over any run of anyone's calls and mode changes, without falling rates, a holder who does not trade keeps the shares, the exact value of each ((B/S)*r), and the rounded quote to within the value of one bToken in all |
| Trading.NoProfitForAnyGroup | src/reserve_vault.rs:165-218 | for any sequence of trades by any group of users: final quote of their pooled shares + withdrawn <= initial one + deposited |
| Trading.NoProfitFromChurning | src/reserve_vault.rs:165-218 | the same for one user's own quote |
| Trading.SplittingDepositsDoesNotHelp | src/reserve_vault.rs:165-181 | any list of deposits mints at most the shares of one deposit of the sum |
| Trading.SplittingWithdrawalsDoesNotHelp | src/reserve_vault.rs:196-218 | any list of withdrawals burns at least the shares of one withdrawal of the sum |
| Exits.EveryoneCanLeave | src/reserve_vault.rs:196-218 | different holders withdraw up to their initial quotes one after another in any order: if the arithmetic of each fits on its own, every withdrawal succeeds and all they ask for is at most floor(B*r/D) |
| Exits.ExitPaysWithinTheVault | src/reserve_vault.rs:196-218 | any withdrawals, successful or not, together pay at most floor(B*r/D) |
| Overflow.SharesAreBounded | src/reserve_vault.rs:28-45 | at most a hundred shares to a bToken, from the share-value property |
| Overflow.AccrualFitsWhenModest | src/reserve_vault.rs:97-121 | an accrual goes through for any u64 elapsed time |
| Overflow.ModestProductsFit | src/reserve_vault.rs:38-73 | in such a vault a withdrawal of everything fits |
| Overflow.RunsDoNotOverflow | src/reserve_vault.rs:28-134 | after any realistic run (rates between 1 and 100 that do not fall, a clock that does not go back, fewer than 2^59 bTokens) no transaction for an amount below 2^59 fails for arithmetic |
| Overflow.ViewsOfRunsAnswer | src/contract.rs:67-110 | after any realistic run the three views answer the holder's claim and quote and the value of the fees; 0 for an unknown reserve, and a panic only where the pool does not list the asset |
| Overflow.EveryoneCanLeaveAfterRun | src/contract.rs:85-315 | after any realistic run every withdrawal, of whatever amount, is decided by the view, and everyone can leave in any order |

## Left out

- Authorisation, events, storage-key encoding and time-to-live: no effect on the accounting.
- Admin rotation, `get_pool` and `claim_emissions`: pass-throughs or single assignments.
- The pool: src/pool.rs calls a foreign contract. A transaction sees its rates as inputs; that it mints rounding down and burns rounding up at the observed rate is a stated assumption of `PoolMirror`. Its own refusals (caps, liquidity, a zero withdrawal) are not modelled.
- Rates of zero or below: the pool's rates are divisors, and are positive by type.
- The fixed-point library: its source is not part of the repository. Floor, ceiling and overflow behave as its uses and the tests of src/reserve_vault.rs:256-341 show.
- Exits.EveryoneCanLeave: assumes of each withdrawal that its own two products fit in i128; `Overflow.EveryoneCanLeaveAfterRun` has no such condition.
