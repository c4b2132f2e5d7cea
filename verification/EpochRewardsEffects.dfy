/** epoch_rewards: what every accepted call does, read off the calls of a run. */
module EpochRewardsEffects {
  import opened Host
  import opened Products
  import opened EpochRewards
  import opened EpochRewardsProofs
  import opened EpochRewardsOverflow

  // ---- stakes ----

  ghost predicate Accepted(b: Books, call: Call) {
    Execute(b, call).Ok?
  }

  /** What a call adds to the stakes, whoever made it. */
  ghost function AddedBy(b: Books, call: Call): int {
    if !Accepted(b, call) then 0
    else match call
      case Stake(_, amount) => amount
      case Unstake(_, amount) => -amount
      case _ => 0
  }

  /** A user's accepted stakes less accepted unstakes. */
  ghost function NetStake(birth: Birth, calls: seq<Call>, u: Address): int {
    if calls == [] then 0 else
      var front, call := calls[..|calls| - 1], calls[|calls| - 1];
      NetStake(birth, front, u) + if Restakes(call, u) then AddedBy(Run(birth, front), call) else 0
  }

  ghost predicate Restakes(call: Call, u: Address) {
    (call.Stake? || call.Unstake?) && call.user == u
  }

  /** The accepted stakes of all users less their accepted unstakes. */
  ghost function NetTotal(birth: Birth, calls: seq<Call>): int {
    if calls == [] then 0 else
      var front := calls[..|calls| - 1];
      NetTotal(birth, front) + AddedBy(Run(birth, front), calls[|calls| - 1])
  }

  lemma StepMovesStake(b: Books, call: Call, u: Address)
    ensures var c := After(b, Execute(b, call));
      && c.StakeOf(u).amount == b.StakeOf(u).amount + (if Restakes(call, u) then AddedBy(b, call) else 0)
      && c.totalStaked == b.totalStaked + AddedBy(b, call)
  {
  }

  /** Over any run each user's stake is that user's own accepted stakes less unstakes, and the total staked is the
      same over all users. */
  lemma {:induction false} StakeIsNetDeposits(birth: Birth, calls: seq<Call>, u: Address)
    ensures Run(birth, calls).StakeOf(u).amount == NetStake(birth, calls, u)
    ensures Run(birth, calls).totalStaked == NetTotal(birth, calls)
  {
    if calls != [] {
      var front := calls[..|calls| - 1];
      StakeIsNetDeposits(birth, front, u);
      StepMovesStake(Run(birth, front), calls[|calls| - 1], u);
    }
  }

  /** A stake of a positive amount is accepted exactly when the settlement and the new stakes fit. */
  lemma StakeSucceedsIff(birth: Birth, calls: seq<Call>, u: Address, amount: int)
    ensures var b := Run(birth, calls);
      Accepted(b, Stake(u, amount)) <==>
        amount > 0 && SettlementFits(b, u) && b.totalStaked + amount <= I128_MAX
  {
    ReachableInv(birth, calls);
    StakesIff(Run(birth, calls), u, amount);
  }

  lemma StakesIff(b: Books, u: Address, amount: int)
    requires StakesInv(b)
    ensures Accepted(b, Stake(u, amount)) <==>
      amount > 0 && SettlementFits(b, u) && b.totalStaked + amount <= I128_MAX
  {
    PendingFitsIff(b, u);
    StakeIsWithinTotal(b, u);
  }

  // ---- funding ----

  /** What a funding makes of the open epoch: the rewards grow by the amount, and the dust by what the growth of the
      index fails to hand out, rounded up. */
  lemma FundingIsRecorded(birth: Birth, calls: seq<Call>, call: Call)
    requires call.Fund?
    ensures var b := Run(birth, calls);
      var c := After(b, Execute(b, call));
      Accepted(b, call) ==>
        && c.currentEpoch == b.currentEpoch && b.currentEpoch in b.epochs && b.currentEpoch in c.epochs
        && var e, f := b.epochs[b.currentEpoch], c.epochs[b.currentEpoch];
        var missed := SCALE * call.amount - (c.rewardIndex - b.rewardIndex) * b.totalStaked;
        && f.totalRewards == e.totalRewards + call.amount
        && missed <= SCALE * (f.dust - e.dust) < missed + SCALE
        && f == e.(totalRewards := f.totalRewards, dust := f.dust)
  {
    ReachableInv(birth, calls);
    var b := Run(birth, calls);
    OpenEpochIsStored(b);
    if Accepted(b, call) {
      var c := After(b, Execute(b, call));
      FundingRaises(b, call);
      ProductIsNonNegative(c.rewardIndex - b.rewardIndex, b.totalStaked);
      DustIsMissed(call.amount, c.rewardIndex - b.rewardIndex, b.totalStaked);
    }
  }

  lemma DustIsMissed(amount: int, growth: int, total: int)
    ensures var missed, dust := SCALE * amount - growth * total, amount - growth * total / SCALE;
      missed <= SCALE * dust < missed + SCALE
  {
  }

  /** A funding raises the index by a billion times the amount for each token staked, rounded down; no other call moves
      it. */
  lemma FundingRaisesIndex(birth: Birth, calls: seq<Call>, call: Call)
    ensures var b := Run(birth, calls);
      var growth := After(b, Execute(b, call)).rewardIndex - b.rewardIndex;
      && (call.Fund? && Accepted(b, call) && b.totalStaked > 0 ==>
            growth * b.totalStaked <= 1_000_000_000 * call.amount < growth * b.totalStaked + b.totalStaked)
      && (!(call.Fund? && Accepted(b, call) && b.totalStaked > 0) ==> growth == 0)
  {
    ReachableInv(birth, calls);
    var b := Run(birth, calls);
    if call.Fund? && Accepted(b, call) {
      FundingRaises(b, call);
      NonNegativeTotal(b);
      if b.totalStaked > 0 {
        FloorTimesDivisor(call.amount * SCALE, b.totalStaked);
      }
    }
  }

  /** Only claims answer anything. */
  lemma OnlyClaimsAnswer(b: Books, call: Call)
    requires Accepted(b, call) && !call.Claim?
    ensures Execute(b, call).value.value == 0
  {
  }

  /** A funding is accepted exactly from the admin or the operator, unpaused, positive, and within 128 bits. */
  lemma FundingSucceedsIff(birth: Birth, calls: seq<Call>, caller: Address, amount: int)
    ensures var b := Run(birth, calls);
      b.currentEpoch in b.epochs &&
      (Accepted(b, Fund(caller, amount)) <==>
        && !b.paused && (caller == b.admin || b.operator == Some(caller)) && amount > 0
        && (b.totalStaked > 0 ==>
              amount * SCALE <= I128_MAX && b.rewardIndex + amount * SCALE / b.totalStaked <= I128_MAX)
        && b.epochs[b.currentEpoch].totalRewards + amount <= I128_MAX)
  {
    ReachableInv(birth, calls);
    var b := Run(birth, calls);
    OpenEpochIsStored(b);
    FundsIff(b, caller, amount);
  }

  lemma FundsIff(b: Books, caller: Address, amount: int)
    requires StakesInv(b) && Chain(b) && b.totalStaked >= 0 && b.currentEpoch in b.epochs
    ensures Accepted(b, Fund(caller, amount)) <==>
      && !b.paused && (caller == b.admin || b.operator == Some(caller)) && amount > 0
      && (b.totalStaked > 0 ==>
            amount * SCALE <= I128_MAX && b.rewardIndex + amount * SCALE / b.totalStaked <= I128_MAX)
      && b.epochs[b.currentEpoch].totalRewards + amount <= I128_MAX
  {
    assert EpochInv(b, b.currentEpoch);
    if b.totalStaked > 0 && amount > 0 {
      var delta := amount * SCALE / b.totalStaked;
      FloorTimesDivisor(amount * SCALE, b.totalStaked);
      ProductIsNonNegative(delta, b.totalStaked);
      DustIsMissed(amount, delta, b.totalStaked);
    }
  }

  // ---- sealing ----

  /** What a sealing opens: the next epoch starts when the sealed one was due to end, at the present index, and lasts
      as long as the call says; the sealed record keeps its start and tells the time of the call. */
  lemma SealingOpensNext(birth: Birth, calls: seq<Call>, call: Call)
    requires call.Seal?
    ensures var b := Run(birth, calls);
      var c := After(b, Execute(b, call));
      Accepted(b, call) ==>
        && b.currentEpoch in b.epochs && b.currentEpoch in c.epochs
        && c.currentEpoch == b.currentEpoch + 1 && c.currentEpoch in c.epochs && c.currentEpoch in c.startIndex
        && var e, record, next := b.epochs[b.currentEpoch], c.epochs[b.currentEpoch], c.epochs[c.currentEpoch];
        && next.duration == call.nextDuration && next.startTs == e.startTs + e.duration
        && next.totalRewards == 0 && next.dust == 0 && !next.isSealed
        && c.startIndex[c.currentEpoch] == record.indexAtSeal == b.rewardIndex
        && record.startTs == e.startTs && record.duration == e.duration && record.isSealed
        && record.sealTs == record.endTs == call.now
        && next.endTs == next.sealTs == next.indexAtSeal == next.claimableAtSeal == 0
  {
    ReachableInv(birth, calls);
    OpenEpochIsStored(Run(birth, calls));
  }

  // ---- settings ----

  /** The operator and the pause flag as the last accepted call that set them left them. */
  ghost function Settings(birth: Birth, calls: seq<Call>): (Option<Address>, bool) {
    if calls == [] then (None, false) else
      var last := Settings(birth, calls[..|calls| - 1]);
      match calls[|calls| - 1]
      case SetOperator(caller, who) => if caller == birth.admin then (Some(who), last.1) else last
      case SetPaused(caller, value) => if caller == birth.admin then (last.0, value) else last
      case _ => last
  }

  /** Only the admin, who never changes, appoints the operator and pauses. */
  lemma {:induction false} SettingsAreTheAdmins(birth: Birth, calls: seq<Call>)
    ensures var b := Run(birth, calls);
      b.admin == birth.admin && (b.operator, b.paused) == Settings(birth, calls)
  {
    if calls != [] {
      SettingsAreTheAdmins(birth, calls[..|calls| - 1]);
    }
  }
}
