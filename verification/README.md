# Verified models of the rental-platform contracts

Dafny models of seven Soroban contracts and one repository checker, with proofs about every run of each.

Each contract `X` comes as a model file `X.dfy` and one or more proof files beside it:

- A state datatype (`Pool`, `Books`, `Vault`, `Escrow`, `Store`, `Feeds`, `Gov`) holds what the contract
  stores. Its functions say, entry point by entry point, what a call leaves behind and what it answers,
  error by error, in the order in which the code checks.
- A class `Contract` has the same fields and does what the code does, step by step: it reads and overwrites
  entries, moves tokens, and on a late failure is rolled back, as the host does. Every method is proved equal
  to the function of the old state.
- The proof files define a run as any sequence of calls by anybody, failed ones included, and prove what
  holds after every run, or what relates two runs.
- The `...Effects.dfy` files say what each accepted call does to what anybody can observe, exactly when a call is
  accepted, and what the settings are after a run, with the constants written out as numbers.

`Host.dfy` holds what all of them share: integer widths, truncating division, saturating subtraction,
products and quotients, and sums over the values of a map. `RewardIndex.dfy` holds the exact shares that both
staking contracts approximate, and `ModuleScanner.dfy` the scanners that `ModuleTree.dfy` reads files with.
`dafny verify dfyconfig.toml` checks the project.

## What is modelled, and how

- The workspace is built with overflow checks on (`Cargo.toml:42`), so an i128, u64 or u32 operation that
  overflows panics. A panic or an error reverts the call: `Err` leaves the state as it was.
- Only calls that carry the signature they need are modelled; a call without one reverts before its body.
- The token is an honest ledger. `held` is what it holds for the contract; a transfer in may fail
  (`payerPays`); a transfer out fails only for want of tokens. `Gift` is a transfer straight to the
  contract's address. With such a token the reentrancy locks never fire.
- Ledger time is a parameter of each call. Where a result needs time never to go back, it says so.
- Answers of other contracts are parameters: an oracle quote, the stakes a staking pool reports.

## Where code and documentation differ

The model follows the code. These differences are lemmas:

- Bond liquidation is documented to restore the target ratio. It does so up to one unit of collateral and one
  unit of bond (`ReachesTargetUpToRounding`), meets it exactly when `MeetsTargetIff` says, and leaves a position
  worse than it was exactly when `WorsensIff` says; with the initial thresholds that happens
  (`LiquidationCanWorsen`). Collateral is left in a deleted position exactly when there are two or more units and
  one of them is worth the whole bond (`StrandedIff`, `StrandsAboveTwoHundred`); with a liquidation threshold of
  at most 200 such a position is liquidated only if its ratio wraps (`LiquidationCures`): the guard reads the low
  32 bits of the ratio (`GuardIsExact`, `RatioWraps`).
- `total_claimable_at_seal` multiplies the epoch's index growth by the stake at the sealing. It can exceed
  what was funded (`LateStakeOvercounts`); `SealedRecordBalances` says exactly when. `carried_forward` carries
  all rewards of earlier epochs, not their dust.
- `receipt_count(u64::MAX)` shares its entry with the global counter, so for that deal it is wrong as soon as
  a receipt exists, up to a wrap of the counter (`CountIsExactBut`, `CountGoesWrong`). The listing's sort is an insertion sort,
  although the README beside it calls it a bubble sort.
- A rent-release request overtaken by `release` keeps its pending record, so it never pays and blocks every
  later request on that deal (`OvertakenNeverPays`).
- A feed may be neither stale nor priced: with a quorum of zero (`ZeroQuorumHasNoPrice`), or when the two middle
  reports overflow together (`MiddleOverflowHasNoPrice`). `PriceIffNotStale` says exactly when there is a price.
- An accrual that happens late can overflow where two earlier ones fit, so a `claimable` query can rescue a claim
  (`QueryCanRescueClaim`); `FullerClaimPaysMoreIff` says exactly when, and short of an overflow queries never pay
  (`ExtraAccrualsNeverPay`). An overflow is for good: it locks the user's stake and rewards in `mvp_staking_pool`
  (`StakingPoolOverflow.OverflowLocks`) and in `epoch_rewards` (`EpochRewardsOverflow.OverflowLocks`). A bound on the
  rewards funded and not yet paid rules it out (`BackedPoolPays`, `BackedBooksPay`).
- A string literal is said not to matter to the comment stripper of `module_tree_check`. It does: quotation marks are
  spaces to the scanners (`QuotesAreSpaces`), so a quoted `mod x;` declares (`StringsDeclare`) and a quoted `/*`
  hides what follows (`StringsHide`).
- Governance snapshots are taken when a proposal is created, for everybody known then, not at the first vote
  (`SnapshotIsCreationStake`).

## Model

| member | source | states |
|---|---|---|
| StakingPool.Contract.AccrueUserRewards | mvp_staking_pool/src/lib.rs:159-183 | brings one user's credit and index up to the global index, leaves all else, or overflows and writes nothing |
| StakingPool.Contract.Stake | mvp_staking_pool/src/lib.rs:235-266 | whole new state and answer of a stake: accrual first, then balance, total and tokens up by the amount; every failure leaves the state alone |
| StakingPool.Contract.Unstake | mvp_staking_pool/src/lib.rs:269-318 | the same for a withdrawal of at most the unused stake |
| StakingPool.Contract.UtilizeStake | mvp_staking_pool/src/lib.rs:335-374 | the admin puts unused stake to use; the entry is removed when it would be zero |
| StakingPool.Contract.FundRewards | mvp_staking_pool/src/lib.rs:389-424 | the index rises by the floor of the amount per staked token |
| StakingPool.Contract.ClaimableRewards | mvp_staking_pool/src/lib.rs:426-431 | the getter accrues, even while paused, and answers the credit |
| StakingPool.Contract.Claim | mvp_staking_pool/src/lib.rs:433-462 | pays the whole credit and empties it |
| StakingPool.Contract.SetPaused | mvp_staking_pool/src/lib.rs:590-620 | the admin pauses or unpauses, nothing else changes |
| StakingPoolSolvency.ReachableInv | mvp_staking_pool/src/lib.rs:159-462 | over any run: index bounds and 0 <= used <= staked for every user, total = sum of stakes, scaled credit plus pending at most scaled (funded - claimed), tokens = stake + funded - claimed + gifts |
| StakingPoolSolvency.PoolIsSolvent | mvp_staking_pool/src/lib.rs:159-462 | after any run the tokens cover all stake plus what any set of users could claim together |
| StakingPoolOverflow.AccrualFitsIff | mvp_staking_pool/src/lib.rs:159-183 | an accrual succeeds if and only if stake * delta and the new credit fit 128 bits |
| StakingPoolOverflow.PayoutsNeverBounce | mvp_staking_pool/src/lib.rs:269-462 | a reachable claim or unstake succeeds if and only if the pool is unpaused, the accrual fits and the amount is unused; never for want of tokens; a claim pays the quote |
| StakingPoolOverflow.BackedPoolPays | mvp_staking_pool/src/lib.rs:269-462 | while the rewards funded and not yet paid, scaled, fit 128 bits, every claim and every unstake of an unused amount succeeds unless paused |
| StakingPoolOverflow.OverflowLocks | mvp_staking_pool/src/lib.rs:159-462 | once a user's accrual does not fit it never fits again: after every continuation all that user's calls fail and the stake and credit are what they were |
| StakingPoolSolvency.StakeIsNetDeposits | mvp_staking_pool/src/lib.rs:235-374 | each user's stake is that user's own deposits less withdrawals, whatever others do |
| StakingPoolEffects.QueryAnswersQuote | mvp_staking_pool/src/lib.rs:426-431 | a query succeeds if and only if the accrual fits, answers and stores the quote, and leaves every quote as it was |
| StakingPoolEffects.StakeSucceedsIff | mvp_staking_pool/src/lib.rs:235-266 | exactly when a stake is accepted, over any run |
| StakingPoolEffects.UtilizeSucceedsIff | mvp_staking_pool/src/lib.rs:335-374 | exactly when stake is put to use |
| StakingPoolEffects.FundSucceedsIff | mvp_staking_pool/src/lib.rs:389-424 | exactly when a funding is accepted |
| StakingPoolEffects.FundingRaisesIndex | mvp_staking_pool/src/lib.rs:389-424 | a funding raises the index by 10^12 times the amount per staked token, rounded down; nothing else moves it |
| StakingPoolEffects.PauseIsTheAdmins | mvp_staking_pool/src/lib.rs:590-620 | the pause is what the admin last said |
| StakingPoolEager.FundingCredits | mvp_staking_pool/src/lib.rs:389-424 | one funding credits each user the exact share of an eager payout, short by at most stake/SCALE |
| StakingPoolEager.LazyTracksEager | mvp_staking_pool/src/lib.rs:159-183 | over any run, credit plus payouts stays between the exact shares and those shares less one rounding per accrual and the exposure |
| StakingPoolEager.LazyRefinesEager | mvp_staking_pool/src/lib.rs:159-462 | lazy accrual refines eager distribution: claimed plus claimable is never more than the exact sum of stake * amount / total, and short by less than a unit per accrual plus the exposure over SCALE |
| StakingPoolEager.ExtraAccrualsNeverPay | mvp_staking_pool/src/lib.rs:159-183 | two runs differing only in extra `claimable` queries, no accrual of the thinner overflowing: the fuller one never pays or owes anybody more, and stakes agree |
| StakingPoolEager.FullerClaimPaysMoreIff | mvp_staking_pool/src/lib.rs:159-183 | of two such runs, the fuller one's next claim pays more if and only if the pool is unpaused, the thinner accrual does not fit, the fuller one's does, and it has something to pay |
| StakingPoolEager.BackedAccrualsFit | mvp_staking_pool/src/lib.rs:389-462 | while the rewards funded and not yet paid fit at every point of a run, no accrual of it overflows |
| StakingPoolEager.QueryCanRescueClaim | mvp_staking_pool/src/lib.rs:159-183 | a concrete run where an accrual overflows, and a query in between lets the claim pay |
| EpochRewards.Contract.Stake | epoch_rewards/src/lib.rs:222-258 | whole new state and answer of a stake: pending banked, index caught up, stake and total raised |
| EpochRewards.Contract.Unstake | epoch_rewards/src/lib.rs:260-300 | the same for a withdrawal |
| EpochRewards.Contract.FundEpochRewards | epoch_rewards/src/lib.rs:309-364 | rewards of the open epoch up; the index rises when there are stakers |
| EpochRewards.Contract.SealEpoch | epoch_rewards/src/lib.rs:374-496 | seals exactly the current epoch, records claimable and dust, and opens the next |
| EpochRewards.Contract.Claim | epoch_rewards/src/lib.rs:504-544 | banks the pending reward, answers and empties the balance |
| EpochRewards.Contract.Bank | epoch_rewards/src/lib.rs:233-240 | moves what a stake has earned into the user's unclaimed balance, or overflows and writes nothing |
| EpochRewardsProofs.ReachableInv | epoch_rewards/src/lib.rs:222-544 | over any run: total = sum of stakes, scaled credit plus pending plus claimed at most scaled rewards, the epochs form a chain |
| EpochRewardsProofs.RewardsAreConserved | epoch_rewards/src/lib.rs:222-544 | banked plus pending plus claimed never exceeds the total rewards of all epochs, across epochs; total stake is the sum of stakes |
| EpochRewardsProofs.EachUserGetsTheirPart | epoch_rewards/src/lib.rs:222-604 | each user is credited what the index earned on that user's own stake, less at most one rounding for each settlement |
| EpochRewardsProofs.LazyRefinesEager | epoch_rewards/src/lib.rs:222-604 | claimed plus claimable is never more than the exact sum of stake * amount / total over all fundings, and short by less than a unit per settlement plus the exposure over SCALE |
| RewardIndex.FloorOfShare | epoch_rewards/src/lib.rs:309-364 | for any scale, one floored index step credits a staker the exact share up to stake / scale |
| EpochRewardsProofs.ClaimIsIdempotent | epoch_rewards/src/lib.rs:504-558 | a claim pays what `get_claimable` quotes; a second one pays nothing and changes nothing |
| EpochRewardsOverflow.ClaimSucceedsIff | epoch_rewards/src/lib.rs:260-544 | a claim succeeds if and only if an epoch was sealed and the settlement fits; an unstake if and only if the amount is staked and the settlement fits |
| EpochRewardsOverflow.BackedBooksPay | epoch_rewards/src/lib.rs:260-544 | while the rewards funded and not yet claimed, scaled, fit 128 bits, the settlement always fits |
| EpochRewardsOverflow.OverflowLocks | epoch_rewards/src/lib.rs:222-544 | once a user's settlement does not fit it never fits again: after every continuation all that user's calls fail and the stake and credit are what they were |
| EpochRewardsOverflow.SealSucceedsIff | epoch_rewards/src/lib.rs:374-496 | an operator seals the current epoch if and only if its time is over and its numbers fit |
| EpochRewardsProofs.SealedEpochsFormAChain | epoch_rewards/src/lib.rs:374-496 | every epoch before the current is sealed; the next starts at its seal index; carried_forward is the sum of all earlier rewards |
| EpochRewardsProofs.SealedIsFinal | epoch_rewards/src/lib.rs:309-496 | no call alters a sealed record or its start index |
| EpochRewardsProofs.SealMovesNothing | epoch_rewards/src/lib.rs:374-496 | sealing changes no stake and no user's quote |
| EpochRewardsProofs.SealedRecordBalances | epoch_rewards/src/lib.rs:407-437 | claimable plus dust equals the rewards if and only if the growth times the present stake, scaled down, is at most what was funded; otherwise the record overcounts and dust is 0 |
| EpochRewardsProofs.SteadyStakeBalances | epoch_rewards/src/lib.rs:309-496 | the record balances when the stake at the sealing is no larger than at any funding of the epoch |
| EpochRewardsProofs.LateStakeOvercounts | epoch_rewards/src/lib.rs:407-437 | a concrete run where a stake made after the funding makes the record claim more than was funded |
| EpochRewardsEffects.StakeIsNetDeposits | epoch_rewards/src/lib.rs:222-300 | over any run each user's stake is that user's accepted stakes less unstakes, and the total is the same over all users |
| EpochRewardsEffects.StakeSucceedsIff | epoch_rewards/src/lib.rs:222-258 | exactly when a stake is accepted |
| EpochRewardsEffects.FundingIsRecorded | epoch_rewards/src/lib.rs:309-364 | the open epoch's rewards grow by the amount, its dust by what the index growth fails to hand out, rounded up; nothing else of it changes |
| EpochRewardsEffects.FundingRaisesIndex | epoch_rewards/src/lib.rs:309-364 | a funding raises the index by 10^9 times the amount per staked token, rounded down; nothing else moves it |
| EpochRewardsEffects.FundingSucceedsIff | epoch_rewards/src/lib.rs:309-364 | exactly when a funding is accepted |
| EpochRewardsEffects.SealingOpensNext | epoch_rewards/src/lib.rs:406-467 | the next epoch starts when the sealed one was due to end, at the present index, for as long as the call says; the record tells the time of the call |
| EpochRewardsEffects.SettingsAreTheAdmins | epoch_rewards/src/lib.rs:155-177 | operator and pause are what the admin last said |
| BondCollateral.Contract.DepositCollateral | bond_collateral/src/lib.rs:595-662 | whole new state and answer: position and total up together |
| BondCollateral.Contract.IssueBond | bond_collateral/src/lib.rs:664-727 | bond up if the ratio stays at the liquidation threshold |
| BondCollateral.Contract.RedeemBond | bond_collateral/src/lib.rs:729-768 | bond down by at most what is issued |
| BondCollateral.Contract.WithdrawCollateral | bond_collateral/src/lib.rs:770-833 | position and total down together; a position of nothing stays stored |
| BondCollateral.Contract.Liquidate | bond_collateral/src/lib.rs:835-941 | guards, then the settlement at the effective price; every failure leaves the state alone |
| BondCollateral.Contract.SettleLiquidation | bond_collateral/src/lib.rs:886-925 | seizes, retires, rewards the keeper, and deletes or stores the position |
| BondCollateral.Contract.SetThresholds | bond_collateral/src/lib.rs:306-344 | admin only; warning above liquidation, liquidation at least 100 |
| BondCollateral.Contract.SetKeeperRewardCap | bond_collateral/src/lib.rs:346-380 | admin only; at most 5000 basis points |
| BondCollateral.Contract.SetTargetHealthRatio | bond_collateral/src/lib.rs:409-432 | admin only; above 100 |
| BondCollateral.Contract.SetOracleFeed | bond_collateral/src/lib.rs:383-405 | admin only; records the feed and its staleness limit |
| BondCollateral.Contract.SetPaused | bond_collateral/src/lib.rs:1229-1256 | admin only |
| BondLiquidation.GuardIsExact | bond_collateral/src/lib.rs:165-173 | for any price, the integer ratio is below the threshold exactly when the position is unhealthy, if it fits 32 bits; outside them the guard is right if and only if the low bits fall on the right side |
| BondLiquidation.FullSeizure | bond_collateral/src/lib.rs:178-190 | everything is seized if and only if it is worth no more than the bond, or is one unit |
| BondLiquidation.WorthlessIsSeizedWhole | bond_collateral/src/lib.rs:178-190 | a price of zero or less, or a target of at most 100, seizes everything |
| BondLiquidation.SeizesNoMoreThanNeeded | bond_collateral/src/lib.rs:178-190 | the seizure is at most the larger of 1 and any amount that would cure the position exactly |
| BondLiquidation.CuredMeansCovered | bond_collateral/src/lib.rs:178-190 | an amount brings the exact position to the target if and only if it covers what the formula says is missing |
| BondLiquidation.Shortfall | bond_collateral/src/lib.rs:886-904 | exactly how far the remaining position is from the target |
| BondLiquidation.ReachesTargetUpToRounding | bond_collateral/src/lib.rs:886-904 | when C * P > S * B: 100 * C' * P + P * (t - 100) + t * S > t * S * B' |
| BondLiquidation.SeizedInClosedForm | bond_collateral/src/lib.rs:178-190 | the clamped seizure in closed form: everything, else the whole units missing, else one; whole units missing are worth less than the debt |
| BondLiquidation.MeetsTargetIff | bond_collateral/src/lib.rs:886-904 | exactly when the remaining position meets the target, in collateral, bond, price and target: with a whole unit missing, if and only if neither floor rounds |
| BondLiquidation.WorsensIff | bond_collateral/src/lib.rs:886-904 | exactly when the collateral per unit of bond falls, in the same terms |
| BondLiquidation.StrandedIff | bond_collateral/src/lib.rs:886-919 | collateral is left in a deleted position if and only if there are two or more units and one is worth the whole bond |
| BondLiquidation.LiquidationStrandsNothing | bond_collateral/src/lib.rs:886-919 | with a threshold of at most 200 a position is deleted only when all its collateral was seized |
| BondAccounting.CollateralIsAccountedFor | bond_collateral/src/lib.rs:595-941 | over any run TotalCollateral is the sum over positions and the tokens are that total plus what gifts and liquidations left |
| BondAccounting.PayoutsNeverBounce | bond_collateral/src/lib.rs:770-941 | no reachable withdrawal or keeper reward fails for want of tokens, and the saturating subtraction is exact |
| BondAccounting.CollateralIsNetDeposits | bond_collateral/src/lib.rs:595-941 | each position's collateral is its own deposits less its own withdrawals and seizures |
| BondAccounting.LiquidationCures | bond_collateral/src/lib.rs:835-941 | every liquidation of any run: worthless positions are seized whole; others were unhealthy unless the ratio wraps, when they are deleted, when that strands collateral, and that the rest keep their owner, shrink, and reach the target up to rounding |
| BondAccounting.LiquidationSucceedsIff | bond_collateral/src/lib.rs:835-941 | with a positive price, products that fit and no wrap, a liquidation succeeds if and only if unpaused, with collateral, and unhealthy |
| BondAccounting.GuardedCallsLeaveCover | bond_collateral/src/lib.rs:157-162 | after an accepted issue or withdrawal the position is worth the threshold one to one, up to the relative error of the ratio, whatever that is |
| BondAccounting.LiquidationWorsensIff | bond_collateral/src/lib.rs:835-941 | for every position that survives a liquidation of any run, exactly when it is worse than before and exactly when it meets the target |
| BondAccounting.LiquidationCanWorsen | bond_collateral/src/lib.rs:835-941 | a run with the initial thresholds whose liquidation takes a position from 110 to 55 percent |
| BondAccounting.RatioWraps | bond_collateral/src/lib.rs:835-874 | a run in which a position worth 2^32 percent of its bond is liquidated |
| BondAccounting.StrandsAboveTwoHundred | bond_collateral/src/lib.rs:835-925 | a run with a threshold of 201 whose liquidation deletes a position with one of two units left in it |
| BondEffects.KeeperIsPaid | bond_collateral/src/lib.rs:898-928 | over any run the keeper of an accepted liquidation is paid, in tokens, the cap in basis points of the seizure, rounded down |
| BondEffects.LiquidationKeepsRest | bond_collateral/src/lib.rs:898-928 | all collateral taken off the books but the keeper's pay stays in the contract, and the pay is at most half of the seizure |
| BondEffects.LiquidationPriceIsFresh | bond_collateral/src/lib.rs:854-868 | an accepted liquidation goes by a quote no older than the limit, or by one to one without a feed |
| BondEffects.PriceIff | bond_collateral/src/lib.rs:854-868 | exactly when a price is to be had |
| BondEffects.LiquidationNeedsFit | bond_collateral/src/lib.rs:165-190 | an accepted liquidation had products that fit 128 bits |
| BondEffects.BondFollowsCalls | bond_collateral/src/lib.rs:664-941 | what every call of a run makes of a position's bond: issues and redemptions what they say, a liquidation the whole units the seizure is worth |
| BondEffects.OwnerIsFirst | bond_collateral/src/lib.rs:595-833 | a position keeps its first owner, who alone deposits, issues, redeems and withdraws; a deposit stamps it |
| BondEffects.DepositSucceedsIff | bond_collateral/src/lib.rs:595-662 | exactly when a deposit is accepted |
| BondEffects.BondCallsSucceedIff | bond_collateral/src/lib.rs:664-768 | exactly when an issue or a redemption is accepted |
| BondEffects.WithdrawalSucceedsIff | bond_collateral/src/lib.rs:770-833 | exactly when a withdrawal is accepted, over any run |
| BondEffects.SettingsAreTheAdmins | bond_collateral/src/lib.rs:306-432 | thresholds, cap, feed, target and pause are what the admin last said, within their ranges, from the initial values on |
| DealEscrow.Contract.Deposit | deal_escrow/src/lib.rs:418-455 | whole new state and answer: both copies of the balance up, depositor recorded once |
| DealEscrow.Contract.Release | deal_escrow/src/lib.rs:457-553 | pays out the whole balance in three parts and zeroes balance, lock and payout, keeping the pending record |
| DealEscrow.Contract.RequestRentRelease | deal_escrow/src/lib.rs:699-754 | locks the amount and stores the pending release with its deadline |
| DealEscrow.Contract.ChallengeRentRelease | deal_escrow/src/lib.rs:756-794 | depositor or recipient opens a dispute up to the deadline, inclusive |
| DealEscrow.Contract.ResolveRentDispute | deal_escrow/src/lib.rs:796-818 | the resolver settles an open dispute either way |
| DealEscrow.Contract.SettleRentReleaseTimeout | deal_escrow/src/lib.rs:820-839 | an unchallenged request pays its recipient from the deadline on |
| DealEscrow.Contract.SettleDisputeTimeout | deal_escrow/src/lib.rs:841-860 | an unresolved dispute refunds the depositor from its timeout on |
| DealEscrow.Contract.SettleReleaseInner | deal_escrow/src/lib.rs:862-913 | one payment of the locked amount; lock, pending and dispute cleared; both balances down |
| DealEscrow.Contract.ConfigureDisputeWindows | deal_escrow/src/lib.rs:567-600 | admin sets two non-zero windows |
| DealEscrow.Contract.SetResolver | deal_escrow/src/lib.rs:602-622 | admin names the resolver |
| DealEscrow.Contract.SetPaused | deal_escrow/src/lib.rs:918-970 | the admin pauses or unpauses |
| DealEscrowProofs.ReachableDeal | deal_escrow/src/lib.rs:262-309 | over any run, for every deal: the two balances agree, lock = payout <= total, and storage matches the phase of its latest request |
| DealEscrowProofs.RequestPaysAtMostOnce | deal_escrow/src/lib.rs:699-913 | each request is settled at most once, for the amount asked, to the recipient named, or to the depositor if the settlement is a refund |
| DealEscrowProofs.LocksBelongToRequests | deal_escrow/src/lib.rs:699-913 | a lock implies a pending release of exactly that amount and a recorded depositor; a dispute implies a pending release |
| DealEscrowProofs.OvertakenIff | deal_escrow/src/lib.rs:491-533 | a request is overtaken if and only if its pending record is stored and nothing is locked |
| DealEscrowProofs.OvertakenNeverPays | deal_escrow/src/lib.rs:491-533 | such a request never pays, whatever follows, and its pending record stays |
| DealEscrowProofs.RequestsGetOvertaken | deal_escrow/src/lib.rs:491-533 | a run that leaves a request overtaken |
| DealEscrowProofs.ChallengedIff | deal_escrow/src/lib.rs:699-794 | a request is challenged if and only if a dispute is stored and the lock is positive; open if and only if locked without a dispute |
| DealEscrowProofs.ChallengedPaysOnlyByDecision | deal_escrow/src/lib.rs:756-860 | while a dispute is stored and the lock is positive, a deal's tokens leave only by the resolver, by `release`, or back to the depositor |
| DealEscrowProofs.TimeoutSettlesEveryLock | deal_escrow/src/lib.rs:820-896 | past both deadlines exactly one timeout settlement is enabled; it succeeds, pays the lock and clears it |
| DealEscrowProofs.DealConserves | deal_escrow/src/lib.rs:418-553 | for every deal, deposits = balance + all payouts for it |
| DealEscrowProofs.ReachableTokens | deal_escrow/src/lib.rs:418-553 | the tokens held are the sum of the deal balances plus gifts |
| DealEscrowProofs.PayoutsNeverBounce | deal_escrow/src/lib.rs:457-913 | no reachable release or settlement fails for want of tokens, nor a live request's on the invariant check |
| DealEscrowEffects.ReleasePaysEach | deal_escrow/src/lib.rs:491-552 | an accepted release pays each address exactly the parts the call names it for, nobody else anything, and answers the whole balance |
| DealEscrowEffects.OnlyTheseCallsPay | deal_escrow/src/lib.rs:862-913 | no other call pays but a settlement, one address the amount asked |
| DealEscrowEffects.DeadlinesHold | deal_escrow/src/lib.rs:699-860 | an unchallenged request is paid no sooner than its time plus the window in force then, challenged no later and by a party, and refunded by timeout no sooner than the challenge plus the timeout |
| DealEscrowEffects.DisputeIsLastChallenge | deal_escrow/src/lib.rs:756-794 | a stored dispute is what the last accepted challenge said |
| DealEscrowEffects.DepositorIsFirst | deal_escrow/src/lib.rs:272-281 | the recorded depositor is whose deposit was accepted first |
| DealEscrowEffects.DepositSucceedsIff | deal_escrow/src/lib.rs:418-455 | exactly when a deposit is accepted |
| DealEscrowEffects.ReleaseSucceedsIff | deal_escrow/src/lib.rs:457-553 | exactly when a release is accepted |
| DealEscrowEffects.RequestSucceedsIff | deal_escrow/src/lib.rs:699-754 | exactly when a request is accepted |
| DealEscrowEffects.ChallengeSucceedsIff | deal_escrow/src/lib.rs:756-794 | exactly when a challenge is accepted |
| DealEscrowEffects.ResolveSucceedsIff | deal_escrow/src/lib.rs:796-818 | exactly when a decision is accepted |
| DealEscrowEffects.SettingsAreTheAdmins | deal_escrow/src/lib.rs:567-622 | windows, resolver and pause are what the admin last said, from a day and two days on |
| RentPayments.PutU64 | rent_payments/src/lib.rs:157-169 | the byte loop writes the big-endian bytes and nothing else |
| RentPayments.BuildTxId | rent_payments/src/lib.rs:153-176 | the three loops build timestamp, counter and pattern |
| RentPayments.Contract.NextTxId | rent_payments/src/lib.rs:139-177 | bumps the wrapping global counter and builds the id from it |
| RentPayments.Contract.CreateReceipt | rent_payments/src/lib.rs:221-271 | whole new state and answer: deal count up first, then the global counter, receipt appended, reference used |
| RentPayments.InsertInPlace | rent_payments/src/lib.rs:321-343 | the inner shifting loop inserts one receipt into the sorted prefix |
| RentPayments.SortInPlace | rent_payments/src/lib.rs:311-345 | the loop sorts the array in place |
| RentPayments.SortedCopy | rent_payments/src/lib.rs:311-345 | the stored receipts are copied and the copy sorted |
| RentPayments.FindStart | rent_payments/src/lib.rs:347-374 | the cursor search, 0 standing for not found, gives the first receipt past the cursor or the end |
| RentPayments.CutPage | rent_payments/src/lib.rs:376-434 | the page and its cursor |
| RentPayments.ListReceipts | rent_payments/src/lib.rs:292-435 | the whole listing of a deal's receipts, and its overflow |
| RentPayments.Contract.ListReceiptsByDeal | rent_payments/src/lib.rs:292-435 | the listing of what is stored |
| RentPaymentsOrder.BigEndianRoundTrip | rent_payments/src/lib.rs:157-169 | reading the bytes back gives the number |
| RentPaymentsOrder.TxIdOrder | rent_payments/src/lib.rs:139-177 | comparing ids byte by byte is comparing (timestamp, counter) |
| RentPaymentsOrder.TxIdIsInjective | rent_payments/src/lib.rs:139-177 | equal ids come from equal timestamp and counter, and only from those |
| RentPaymentsOrder.BeforeIsStrictTotal | rent_payments/src/lib.rs:311-345 | the sort key order is a strict total order |
| RentPaymentsOrder.SortIsASort | rent_payments/src/lib.rs:311-345 | the result is a permutation in (timestamp, tx_id) order |
| RentPaymentsOrder.SortIsStrict | rent_payments/src/lib.rs:311-345 | with distinct keys the order is strict |
| RentPaymentsOrder.CursorLeadsOn | rent_payments/src/lib.rs:347-374 | the key of the n-th receipt of a strictly sorted list leads to the one after it |
| RentPaymentsProofs.CountIsExactBut | rent_payments/src/lib.rs:119-151 | receipt_count is the number of receipts if and only if the deal is not u64::MAX, or all creations together are a multiple of 2^64 |
| RentPaymentsProofs.CountGoesWrong | rent_payments/src/lib.rs:119-151 | one creation for any other deal, and receipt_count(u64::MAX) is 1 without a receipt |
| RentPaymentsProofs.KeysCollideIff | rent_payments/src/lib.rs:139-177 | over any run two receipts share a tx_id, and then a sort key, if and only if their timestamps agree and the counter was raised a multiple of 2^64 times in between |
| RentPaymentsProofs.KeysAreUnique | rent_payments/src/lib.rs:139-177 | while the counter does not wrap no two receipts, of any deals, share a tx_id or a sort key |
| RentPaymentsProofs.ReferencesAreUnique | rent_payments/src/lib.rs:221-271 | a reference is accepted once per deal |
| RentPaymentsEffects.ReceiptsAreCreations | rent_payments/src/lib.rs:221-271 | over any run a deal's receipts are its accepted creations, in order, numbered from one |
| RentPaymentsEffects.CreateSucceedsIff | rent_payments/src/lib.rs:221-271 | exactly when a creation is accepted, and that it answers the receipt it appends |
| RentPaymentsEffects.TxIdReadsBack | rent_payments/src/lib.rs:153-176 | the bytes of an id read back as timestamp, counter and pattern |
| RentPaymentsEffects.PageSucceedsIff | rent_payments/src/lib.rs:292-435 | exactly when a page is given, and that a last page has the empty cursor |
| RentPaymentsEffects.UsedIsAccepted | rent_payments/src/lib.rs:131-137 | a reference is taken if and only if an accepted creation for the deal used it |
| RentPaymentsProofs.PageContinues | rent_payments/src/lib.rs:347-434 | the page at the cursor left by the first n receipts starts at the n-th |
| RentPaymentsProofs.FollowCursors | rent_payments/src/lib.rs:292-435 | in any reachable state following cursors from none terminates and gives the sorted permutation of the deal's receipts, every page full with a next one but the last, if and only if the rounded-up length fits 32 bits |
| RentPaymentsProofs.StoredInOrder | rent_payments/src/lib.rs:221-271 | if time never goes back, storage order is listing order |
| RentPaymentsProofs.PagesAreStable | rent_payments/src/lib.rs:221-435 | with creations between page requests, the pages together are a prefix of the sorted list, and a finished iteration has every receipt that existed at its start |
| OraclePriceFeeds.ScanUnused | oracle_price_feeds/src/lib.rs:133-143 | one scan gives the least unused value, or i128::MAX at position 0 |
| OraclePriceFeeds.SortedCopy | oracle_price_feeds/src/lib.rs:123-146 | the selection sort outputs the ascending list, even when the bitmap stops advancing at i128::MAX |
| OraclePriceFeeds.Median | oracle_price_feeds/src/lib.rs:123-153 | the middle of the ascending list, or the truncated mean of the two middle ones unless their sum overflows |
| OraclePriceFeeds.Contract.AddSource | oracle_price_feeds/src/lib.rs:193-228 | admin adds a source once |
| OraclePriceFeeds.Contract.RemoveSource | oracle_price_feeds/src/lib.rs:231-270 | admin removes a source |
| OraclePriceFeeds.Contract.SetQuorum | oracle_price_feeds/src/lib.rs:273-292 | admin sets a quorum, zero included |
| OraclePriceFeeds.Contract.UpdatePrice | oracle_price_feeds/src/lib.rs:311-439 | whole new state and answer of a report, every rejection included |
| OraclePriceFeeds.Contract.GetPrice | oracle_price_feeds/src/lib.rs:448-516 | the median of the fresh prices, or which error |
| OraclePriceFeeds.Contract.IsStale | oracle_price_feeds/src/lib.rs:527-567 | fewer fresh sources than the quorum |
| OracleProofs.AscendingIsSortedPermutation | oracle_price_feeds/src/lib.rs:123-146 | the output is a sorted permutation of the input |
| OracleProofs.HonestMajorityBoundsMedian | oracle_price_feeds/src/lib.rs:123-153 | if more than half of the values lie in a range, so does the median; it cannot panic if twice the range fits |
| OracleProofs.HonestSourcesBoundPrice | oracle_price_feeds/src/lib.rs:448-516 | the same for the price when more than half of the fresh sources are in the range |
| OracleProofs.PriceIffNotStale | oracle_price_feeds/src/lib.rs:448-567 | a feed has a price if and only if it is not stale, somebody reported recently, and the two middle reports do not overflow together; NoQuorum means stale |
| OracleProofs.ModeratePricesAnswer | oracle_price_feeds/src/lib.rs:448-567 | with reports of at most half the 128-bit range and a positive quorum, a price if and only if not stale |
| OracleProofs.ZeroQuorumHasNoPrice | oracle_price_feeds/src/lib.rs:448-567 | a run that leaves a feed not stale and without a price, by a quorum of zero |
| OracleProofs.MiddleOverflowHasNoPrice | oracle_price_feeds/src/lib.rs:123-153 | the same by two reports of i128::MAX |
| OracleProofs.EachSourceVotesOnce | oracle_price_feeds/src/lib.rs:193-270 | over any run no source is registered twice, so the fresh prices come from as many different sources |
| OracleProofs.ReportsCannotBeReplayed | oracle_price_feeds/src/lib.rs:311-439 | after an accepted report no report of that source and feed with the same or a lower sequence is ever accepted |
| OracleProofs.ReportsDeviateLittle | oracle_price_feeds/src/lib.rs:311-439 | an accepted report is less than one basis point beyond the allowed deviation |
| OracleEffects.OddMedianIsMiddle | oracle_price_feeds/src/lib.rs:123-153 | of an odd number of values, the answer is the one that half of the others do not exceed and half do not fall below |
| OracleEffects.EvenMedianIsMean | oracle_price_feeds/src/lib.rs:123-153 | of an even number, the mean of the two middle values, rounded toward zero, unless their sum overflows |
| OracleEffects.PriceIsMiddle | oracle_price_feeds/src/lib.rs:448-516 | the same for the price, with its decimals and time |
| OracleEffects.PriceIsMean | oracle_price_feeds/src/lib.rs:448-516 | the same for the price, with its decimals and time |
| OracleEffects.StoredIsLastReport | oracle_price_feeds/src/lib.rs:311-439 | what is stored for a source is its last accepted report |
| OracleEffects.FeedIsLastOpenReport | oracle_price_feeds/src/lib.rs:311-439 | what is stored for a feed is the last report accepted while it had no sources |
| OracleEffects.OpenFeedAnswersLastReport | oracle_price_feeds/src/lib.rs:505-525 | a feed without sources answers that report, exactly while it is no older than the limit |
| OracleEffects.UpdateSucceedsIff | oracle_price_feeds/src/lib.rs:311-439 | exactly when a report is accepted |
| OracleEffects.SourcesAreRegistered | oracle_price_feeds/src/lib.rs:193-270 | a feed's sources are those the admin added and has not removed since |
| OracleEffects.SettingsAreTheAdmins | oracle_price_feeds/src/lib.rs:157-188 | staleness, deviation and quorum are what the admin last said, from their defaults on |
| ModuleScanner.StripComments | module_tree_check/src/lib.rs:49-76 | the one-pass scanner with two flags computes the stripped text |
| ModuleScanner.StripKeepsCode | module_tree_check/src/lib.rs:49-76 | of a text made of code, comments and perhaps a last comment that nothing ends, exactly the code and the newlines of line comments are kept |
| ModuleScanner.EveryTextDivides | module_tree_check/src/lib.rs:49-76 | every text is made so |
| ModuleScanner.QuotesAreSpaces | module_tree_check/src/lib.rs:45-135 | the tokens of a text are those of the same text with spaces for its quotation marks |
| ModuleScanner.Tokenize | module_tree_check/src/lib.rs:115-135 | the buffered scanner computes the tokens |
| ModuleScanner.TokensAreTokens | module_tree_check/src/lib.rs:115-135 | every token is a whole word or a punctuation mark |
| ModuleScanner.TokensKeepText | module_tree_check/src/lib.rs:115-135 | the tokens together are the significant characters, none lost, added or moved |
| ModuleScanner.TokensRoundTrip | module_tree_check/src/lib.rs:115-135 | tokens written with spaces read back as themselves |
| ModuleTree.DeclaredMods | module_tree_check/src/lib.rs:88-111 | of a source text, exactly the names of top-level `mod NAME ;` outside comments |
| ModuleTree.DeclaredIn | module_tree_check/src/lib.rs:91-110 | the same of its tokens |
| ModuleTree.CommentsDeclareNothing | module_tree_check/src/lib.rs:88-111 | any text declares what its code alone would |
| ModuleTree.StringsDeclare | module_tree_check/src/lib.rs:45-111 | a quoted `mod NAME;` declares the name, for every identifier |
| ModuleTree.StringsHide | module_tree_check/src/lib.rs:45-111 | after a quoted block comment opening nothing declares, up to the end of one |
| ModuleTree.PushDeclared | module_tree_check/src/lib.rs:199-209 | pushes reachable files only, covers every link out of the file, and records exactly what dangles |
| ModuleTree.ResolveIff | module_tree_check/src/lib.rs:145-156 | a declaration means NAME.rs beside the file, or, without one, NAME/mod.rs, and nothing else |
| ModuleTree.RustFilesIff | module_tree_check/src/lib.rs:159-176 | reported are the files under the directory whose name ends in .rs and is longer |
| ModuleTree.Roots | module_tree_check/src/lib.rs:185-190 | the worklist starts with exactly the roots that exist |
| ModuleTree.FindReachable | module_tree_check/src/lib.rs:180-213 | terminates with exactly the files some chain of declarations reaches from a root, and exactly the names that dangle in them |
| ModuleTree.FindUnreachableInCrate | module_tree_check/src/lib.rs:217-233 | the report lists exactly the Rust files not reached; empty without a src directory |
| ModuleTree.LinkIsReachable | module_tree_check/src/lib.rs:180-213 | reachability is closed under declarations |
| ModuleTree.ClosedHoldsChain | module_tree_check/src/lib.rs:180-213 | any set that holds the roots and is closed under declarations holds every chain |
| ModuleTree.CleanMeansWhole | module_tree_check/src/lib.rs:40-42 | a report is clean if and only if every Rust file is reached and no reached file has a dangling declaration |
| Governance.Contract.RegisterKnownVoter | governance/src/lib.rs:136-153 | the voter is put at the end of the list unless already in it |
| Governance.Contract.SnapshotKnownVoters | governance/src/lib.rs:155-164 | one snapshot for each known voter, no other entry touched |
| Governance.Contract.CreateProposal | governance/src/lib.rs:226-283 | whole new state and answer: proposer registered, snapshots taken, proposal stored under the next id |
| Governance.Contract.Vote | governance/src/lib.rs:286-330 | adds the snapshot to one side, once, while active and in time |
| Governance.Contract.FinalizeProposal | governance/src/lib.rs:333-376 | passes on quorum and strict majority after the end, else rejects, and answers the status |
| Governance.Contract.ExecuteProposal | governance/src/lib.rs:379-410 | a passed proposal after the timelock |
| Governance.Contract.CancelProposal | governance/src/lib.rs:413-444 | its proposer cancels an active proposal |
| Governance.Contract.SetVoterStake | governance/src/lib.rs:211-223 | admin records a stake |
| Governance.Contract.SetTotalStaked | governance/src/lib.rs:188-194 | admin records the total |
| Governance.Contract.SetStakingPool | governance/src/lib.rs:196-208 | admin switches to the pool's stakes |
| GovernanceProofs.TallyIsSnapshots | governance/src/lib.rs:286-376 | over any run the tallies are the sums of the creation-time snapshots of the distinct voters on either side, and only a proposal that won is passed or executed |
| GovernanceProofs.SnapshotsAreFrozen | governance/src/lib.rs:155-169 | no call changes the snapshot of an existing proposal |
| GovernanceProofs.SnapshotIsCreationStake | governance/src/lib.rs:226-283 | a snapshot is, ever after, the stake at creation of everybody known then, and 0 for others |
| GovernanceProofs.StepFollows | governance/src/lib.rs:286-444 | how one call may move a proposal, and under which deadlines |
| GovernanceProofs.FinalizeDecides | governance/src/lib.rs:333-376 | the stored and the answered status agree, and are Passed if and only if the vote was won |
| GovernanceEffects.ProposalsAreAsCreated | governance/src/lib.rs:226-283 | over any run the proposals are the accepted creations, numbered from one; each says what its creation said, with the total then in force and an end seven days later |
| GovernanceEffects.WonIff | governance/src/lib.rs:345-360 | won is a strict majority of no fewer votes than a tenth, rounded down, of that total |
| GovernanceEffects.LosersNeverPass | governance/src/lib.rs:333-410 | over any run no proposal without a strict majority, or with fewer votes than a tenth of the total in force at its creation, is passed or executed |
| GovernanceEffects.CallsTakeEffect | governance/src/lib.rs:226-444 | what every accepted call makes of a proposal's status and votes, and what it answers |
| GovernanceEffects.StakesAreTheAdmins | governance/src/lib.rs:118-134 | a weight is what the pool answers once there is one, and what the admin last set before |
| GovernanceEffects.CreateSucceedsIff | governance/src/lib.rs:226-283 | exactly when a proposal is accepted |
| GovernanceEffects.VoteSucceedsIff | governance/src/lib.rs:286-330 | exactly when a vote is accepted |
| GovernanceEffects.DecisionsSucceedIff | governance/src/lib.rs:333-444 | exactly when a finalisation, an execution or a cancellation is accepted |
| GovernanceProofs.VotersAreListedOnce | governance/src/lib.rs:136-153 | over any run the list of known voters holds exactly those given a stake or who proposed, each once |
| GovernanceProofs.DecisionsAreFinal | governance/src/lib.rs:333-444 | rejected, executed and cancelled are final, tally included |
| GovernanceProofs.ExecutedWasDue | governance/src/lib.rs:333-410 | a passed or executed proposal won and was finalised by an accepted call after its end; an executed one was executed by a later accepted call after the timelock |
| GovernanceProofs.VotersVoteOnce | governance/src/lib.rs:286-330 | after an accepted vote no second one by that voter on that proposal succeeds |

## Left out

- Storage lifetimes, events, signatures, XDR and SHA-256 (the escrow's `tx_id` is part of its events only): host calls.
- Upgrade governance, guardians, and the pausable, access-control and reentrancy-guard crates: guards on single steps. Pausing is one step that its admin may take.
- KeysAreUnique: stated while the global counter has not wrapped; KeysCollideIff says what holds beyond.
- PagesAreStable: stated for a clock that never goes back, which the ledger promises, and while the global counter has not wrapped.
- StoredInOrder: the same two premises.
- GuardIsExact: stated for a positive bond; without one the ratio is u32::MAX and the liquidation is refused earlier.
- ReachesTargetUpToRounding: stated for a target above 100, the only ones the setter accepts.
- IssueBond: `calculate_collateral_ratio` goes through f64; its result is the parameter `quotient`, any number, and GuardedCallsLeaveCover takes its relative error as given.
- WithdrawCollateral: the ratio left behind is the parameter `quotient`, as in IssueBond.
- ExtraAccrualsNeverPay: stated for runs in which no accrual overflows without the extra queries; QueryCanRescueClaim and FullerClaimPaysMoreIff say what happens beyond.
- `set_admin` of `bond_collateral`: the admin is the one the contract was created with.
- The inspector bonds of `bond_collateral` (`deposit_bond` to `execute_slash`): a separate ledger of single-step guards.
- The escrow's schema migration and deal lifecycle; its circuit breaker is one step to any state, without the drain it allows. Runs start from `init`.
- Setters of one field in `epoch_rewards` (operator, pause) and `oracle_price_feeds` (staleness, deviation) are steps of a run, without a method of the class.
- `get_twap`: nothing in the file writes the observations it reads.
- In `module_tree_check`, file I/O, symbolic links and the saturation of the i32 depth: a file system is a map from paths to texts with a canonical-name function.
- A staking pool's answers to `governance` are an arbitrary map given with each call.
- Vector and string limits of the host, and storage costs.
