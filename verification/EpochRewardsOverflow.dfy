/** epoch_rewards: when a claim, a withdrawal or a sealing succeeds. A settlement too large for 128 bits stands in
    the way of every call of its user, for good; a bound on the funding rules it out. */
module EpochRewardsOverflow {
  import opened Host
  import opened Products
  import opened MapSums
  import opened EpochRewards
  import opened EpochRewardsProofs

  /** What a user's stake has earned since it was last settled, scaled, and the credit it would make, fit. */
  ghost predicate SettlementFits(b: Books, u: Address) {
    FitsI128(Get(Earned(b), u)) && FitsI128(Quote(b, u))
  }

  lemma PendingFitsIff(b: Books, u: Address)
    requires StakesInv(b)
    ensures Pending(b.StakeOf(u), b.rewardIndex).Some? <==> FitsI128(Get(Earned(b), u))
    ensures Pending(b.StakeOf(u), b.rewardIndex).Some? ==>
      Pending(b.StakeOf(u), b.rewardIndex).value + Get(b.unclaimed, u) == Quote(b, u)
  {
    var stake := b.StakeOf(u);
    ProductIsNonNegative(stake.amount, b.rewardIndex - stake.index);
  }

  lemma StakeIsWithinTotal(b: Books, u: Address)
    requires StakesInv(b)
    ensures 0 <= b.StakeOf(u).amount <= b.totalStaked
  {
    EntryIsWithinSum(Amounts(b), u);
  }

  /** A claim succeeds exactly when an epoch has been sealed and the settlement fits; an unstake exactly when the
      amount is part of the stake and the settlement fits. */
  lemma ClaimSucceedsIff(birth: Birth, calls: seq<Call>, u: Address, amount: int)
    ensures var b := Run(birth, calls);
      && (b.Claim(u).Ok? <==> b.currentEpoch > 1 && SettlementFits(b, u))
      && (b.Unstake(u, amount).Ok? <==> 0 < amount <= b.StakeOf(u).amount && SettlementFits(b, u))
  {
    ReachableInv(birth, calls);
    SettlesIff(Run(birth, calls), u, amount);
  }

  lemma SettlesIff(b: Books, u: Address, amount: int)
    requires StakesInv(b)
    ensures b.Claim(u).Ok? <==> b.currentEpoch > 1 && SettlementFits(b, u)
    ensures b.Unstake(u, amount).Ok? <==> 0 < amount <= b.StakeOf(u).amount && SettlementFits(b, u)
  {
    PendingFitsIff(b, u);
    StakeIsWithinTotal(b, u);
  }

  // ---- a bound that rules overflow out ----

  /** As long as the rewards funded and not yet claimed, scaled, fit 128 bits, every claim after the first sealing
      and every unstake of part of a stake succeeds. */
  lemma BackedBooksPay(birth: Birth, calls: seq<Call>, u: Address, amount: int)
    requires SCALE * (Funded(birth, calls) - Claimed(birth, calls)) <= I128_MAX
    ensures var b := Run(birth, calls);
      && (b.Claim(u).Ok? <==> b.currentEpoch > 1)
      && (b.Unstake(u, amount).Ok? <==> 0 < amount <= b.StakeOf(u).amount)
  {
    ReachableInv(birth, calls);
    BackedSettlementFits(Run(birth, calls), Funded(birth, calls) - Claimed(birth, calls), u);
    ClaimSucceedsIff(birth, calls, u, amount);
  }

  lemma BackedSettlementFits(b: Books, backing: int, u: Address)
    requires StakesInv(b) && SCALE * Sum(b.unclaimed) + Sum(Earned(b)) <= SCALE * backing <= I128_MAX
    ensures SettlementFits(b, u)
  {
    forall v | v in b.stakes ensures Earned(b)[v] >= 0 {
      ProductIsNonNegative(b.stakes[v].amount, b.rewardIndex - b.stakes[v].index);
    }
    EntryIsWithinSum(Earned(b), u);
    EntryIsWithinSum(b.unclaimed, u);
  }

  // ---- overflow is for good ----

  /** Nothing stored about a user differs, and the index is no lower. */
  ghost predicate Frozen(b: Books, c: Books, u: Address) {
    && (u in c.stakes <==> u in b.stakes) && c.StakeOf(u) == b.StakeOf(u)
    && Get(c.unclaimed, u) == Get(b.unclaimed, u) && b.rewardIndex <= c.rewardIndex
  }

  lemma OverflowGrows(b: Books, c: Books, u: Address)
    requires StakesInv(b) && !SettlementFits(b, u) && Frozen(b, c, u)
    ensures !SettlementFits(c, u)
  {
    var stake := b.StakeOf(u);
    EarningsGrow(stake.amount, b.rewardIndex - stake.index, c.rewardIndex - stake.index);
    assert Get(Earned(b), u) == stake.amount * (b.rewardIndex - stake.index);
    assert Get(Earned(c), u) == stake.amount * (c.rewardIndex - stake.index);
  }

  lemma EarningsGrow(amount: int, delta: int, delta': int)
    requires amount >= 0 && 0 <= delta <= delta'
    ensures 0 <= amount * delta <= amount * delta' && amount * delta / SCALE <= amount * delta' / SCALE
  {
    ProductIsNonNegative(amount, delta);
    ProductIsMonotone(delta, delta', amount);
  }

  ghost predicate SettlesFor(call: Call, u: Address) {
    (call.Stake? || call.Unstake? || call.Claim?) && call.user == u
  }

  lemma SettlingFails(b: Books, call: Call, u: Address)
    requires StakesInv(b) && !SettlementFits(b, u) && SettlesFor(call, u)
    ensures Execute(b, call).Err?
  {
    PendingFitsIff(b, u);
  }

  lemma LockedStep(b: Books, call: Call, u: Address)
    requires StakesInv(b) && !SettlementFits(b, u)
    ensures Frozen(b, After(b, Execute(b, call)), u)
  {
    if SettlesFor(call, u) {
      SettlingFails(b, call, u);
    } else if call.Fund? && Execute(b, call).Ok? {
      FundGrowsIndex(b, call.caller, call.amount);
    }
  }

  /** Once a user's settlement does not fit it never fits again, whatever follows: every stake, unstake and claim of
      the user fails, and the stake and the banked rewards stay what they were. */
  lemma {:induction false} OverflowLocks(birth: Birth, calls: seq<Call>, more: seq<Call>, u: Address)
    requires !SettlementFits(Run(birth, calls), u)
    ensures var b, c := Run(birth, calls), Run(birth, calls + more);
      && !SettlementFits(c, u) && Frozen(b, c, u)
      && forall call :: SettlesFor(call, u) ==> Execute(c, call).Err?
    decreases |more|
  {
    var c := Run(birth, calls + more);
    ReachableInv(birth, calls);
    if more == [] {
      assert calls + more == calls;
    } else {
      var front, call := more[..|more| - 1], more[|more| - 1];
      OverflowLocks(birth, calls, front, u);
      assert (calls + more)[..|calls + more| - 1] == calls + front;
      ReachableInv(birth, calls + front);
      LockedStep(Run(birth, calls + front), call, u);
      OverflowGrows(Run(birth, calls + front), c, u);
    }
    ReachableInv(birth, calls + more);
    forall call | SettlesFor(call, u) ensures Execute(c, call).Err? {
      SettlingFails(c, call, u);
    }
  }

  // ---- sealing ----

  lemma {:induction false} CarriedIsNotNegative(b: Books, e: int)
    requires Chain(b) && 1 <= e <= b.currentEpoch
    ensures e in b.epochs && b.epochs[e].carriedForward >= 0 && b.epochs[e].totalRewards >= 0
    decreases e
  {
    assert EpochInv(b, e);
    if e > 1 {
      CarriedIsNotNegative(b, e - 1);
      assert EpochInv(b, e - 1);
    }
  }

  /** The numbers of a sealing fit: when the epoch ends, the growth of the index times the stake, the rewards carried
      on, and the number of the next epoch. */
  ghost predicate SealingFits(b: Books)
    requires b.currentEpoch in b.epochs && b.currentEpoch in b.startIndex
  {
    var e := b.epochs[b.currentEpoch];
    && FitsU64(e.startTs + e.duration)
    && FitsI128(b.totalStaked * (b.rewardIndex - b.startIndex[b.currentEpoch]))
    && FitsI128(e.carriedForward + e.totalRewards)
    && b.currentEpoch < U64_MAX
  }

  /** The current epoch can be sealed by an operator exactly when its time is over and the numbers fit. */
  lemma SealSucceedsIff(birth: Birth, calls: seq<Call>, caller: Address, target: int, nextDuration: int, now: int)
    ensures var b := Run(birth, calls);
      && b.currentEpoch in b.epochs && b.currentEpoch in b.startIndex
      && (b.Seal(caller, target, nextDuration, now).Ok? <==>
            && (caller == b.admin || b.operator == Some(caller)) && target == b.currentEpoch
            && b.epochs[b.currentEpoch].startTs + b.epochs[b.currentEpoch].duration <= now
            && SealingFits(b))
  {
    ReachableInv(birth, calls);
    OpenEpochIsStored(Run(birth, calls));
    SealsIff(Run(birth, calls), caller, target, nextDuration, now);
  }

  lemma SealsIff(b: Books, caller: Address, target: int, nextDuration: int, now: int)
    requires StakesInv(b) && Chain(b) && b.totalStaked >= 0
    requires b.currentEpoch in b.epochs && b.currentEpoch in b.startIndex
    ensures b.Seal(caller, target, nextDuration, now).Ok? <==>
      && (caller == b.admin || b.operator == Some(caller)) && target == b.currentEpoch
      && b.epochs[b.currentEpoch].startTs + b.epochs[b.currentEpoch].duration <= now
      && SealingFits(b)
  {
    var e := b.epochs[b.currentEpoch];
    assert EpochInv(b, b.currentEpoch);
    CarriedIsNotNegative(b, b.currentEpoch);
    RecordFitsIff(b, e, now);
  }

  lemma RecordFitsIff(b: Books, e: Epoch, now: int)
    requires b.currentEpoch in b.startIndex && 0 <= b.startIndex[b.currentEpoch] <= b.rewardIndex <= I128_MAX
    requires b.totalStaked >= 0 && e.totalRewards >= 0 && e.carriedForward >= 0
    ensures FitsI128(e.carriedForward + e.totalRewards) ==>
      (b.SealedRecord(e, now).Some? <==> FitsI128(b.totalStaked * (b.rewardIndex - b.startIndex[b.currentEpoch])))
  {
    ProductIsNonNegative(b.totalStaked, b.rewardIndex - b.startIndex[b.currentEpoch]);
  }
}
