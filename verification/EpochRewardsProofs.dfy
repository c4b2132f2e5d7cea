/** epoch_rewards: rewards are conserved across epochs, sealed epochs form a chain, and exactly when
    a sealed record balances. */
module EpochRewardsProofs {
  import opened Host
  import opened RewardIndex
  import opened Products
  import opened MapSums
  import opened EpochRewards

  /** The contract's `init` arguments. */
  datatype Birth = Birth(admin: Address, duration: int, now: int)

  ghost function Run(birth: Birth, calls: seq<Call>): Books {
    if calls == [] then Initial(birth.admin, birth.duration, birth.now) else
      var before := Run(birth, calls[..|calls| - 1]);
      After(before, Execute(before, calls[|calls| - 1]))
  }

  ghost function FundedBy(b: Books, call: Call): int {
    if call.Fund? && Execute(b, call).Ok? then call.amount else 0
  }

  ghost function ClaimedBy(b: Books, call: Call): int {
    if call.Claim? && Execute(b, call).Ok? then Execute(b, call).value.value else 0
  }

  ghost function Funded(birth: Birth, calls: seq<Call>): int {
    if calls == [] then 0 else
      var front := calls[..|calls| - 1];
      Funded(birth, front) + FundedBy(Run(birth, front), calls[|calls| - 1])
  }

  ghost function Claimed(birth: Birth, calls: seq<Call>): int {
    if calls == [] then 0 else
      var front := calls[..|calls| - 1];
      Claimed(birth, front) + ClaimedBy(Run(birth, front), calls[|calls| - 1])
  }

  // ---- conservation ----

  ghost function Amounts(b: Books): map<Address, int> {
    map u | u in b.stakes :: b.stakes[u].amount
  }

  /** What each stake has earned since it was last settled, scaled. */
  ghost function Earned(b: Books): map<Address, int> {
    map u | u in b.stakes :: b.stakes[u].amount * (b.rewardIndex - b.stakes[u].index)
  }

  ghost function Rewards(b: Books): map<int, int> {
    map e | e in b.epochs :: b.epochs[e].totalRewards
  }

  ghost predicate StakesInv(b: Books) {
    && (forall u :: u in b.stakes ==> b.stakes[u].amount >= 0 && 0 <= b.stakes[u].index <= b.rewardIndex)
    && (forall u :: u in b.unclaimed ==> 0 <= b.unclaimed[u] <= I128_MAX)
    && 0 <= b.rewardIndex <= I128_MAX
    && Sum(Amounts(b)) == b.totalStaked <= I128_MAX
  }

  ghost predicate Conserves(b: Books, funded: int, claimed: int) {
    SCALE * Sum(b.unclaimed) + Sum(Earned(b)) <= SCALE * (funded - claimed)
  }

  /** Epoch e's place in the chain: sealed unless it is the last, and its successor opened where and
      when it ended, carrying what was funded before. */
  ghost predicate EpochInv(b: Books, e: int) {
    && (e in b.epochs <==> 1 <= e <= b.currentEpoch)
    && (e in b.startIndex <==> 1 <= e <= b.currentEpoch)
    && (e in b.epochs ==> b.epochs[e].number == e && 0 <= b.epochs[e].dust <= b.epochs[e].totalRewards &&
                          (b.epochs[e].isSealed <==> e < b.currentEpoch))
    && (1 <= e < b.currentEpoch ==>
          e + 1 in b.epochs && e + 1 in b.startIndex && Linked(b.epochs[e], b.epochs[e + 1], b.startIndex[e + 1]))
  }

  ghost predicate Chain(b: Books) {
    && (forall e :: EpochInv(b, e))
    && 1 in b.epochs && b.epochs[1].carriedForward == 0
    && b.currentEpoch in b.epochs && b.currentEpoch in b.startIndex
    && 0 <= b.startIndex[b.currentEpoch] <= b.rewardIndex
  }

  ghost predicate Linked(e: Epoch, next: Epoch, nextStart: int) {
    && nextStart == e.indexAtSeal
    && next.startTs == e.startTs + e.duration
    && next.carriedForward == e.carriedForward + e.totalRewards
    && e.startTs + e.duration <= e.sealTs == e.endTs
  }

  ghost predicate Inv(b: Books, funded: int, claimed: int) {
    StakesInv(b) && Conserves(b, funded, claimed) && Chain(b) && Sum(Rewards(b)) == funded
  }

  /** Settling a stake and replacing it: `gain` units of credit take the place of what was earned. */
  lemma Settled(b: Books, user: Address, stake: UserStake, c: Books)
    requires StakesInv(b)
    requires c.rewardIndex == b.rewardIndex && c.stakes == b.stakes[user := stake]
    requires stake.amount >= 0 && stake.index == b.rewardIndex
    requires c.totalStaked == b.totalStaked - b.StakeOf(user).amount + stake.amount
    requires c.totalStaked <= I128_MAX && forall u :: u in c.unclaimed ==> 0 <= c.unclaimed[u] <= I128_MAX
    ensures StakesInv(c)
    ensures Sum(Earned(c)) == Sum(Earned(b)) - Get(Earned(b), user)
  {
    assert Amounts(c) == Amounts(b)[user := stake.amount];
    SumOfUpdate(Amounts(b), user, stake.amount);
    var before, after := Earned(b), Earned(c);
    ProductIsNonNegative(stake.amount, c.rewardIndex - stake.index);
    assert after == before[user := 0];
    SumOfUpdate(before, user, 0);
  }

  /** calc_pending on a reachable stake is the floor of what it has earned. */
  lemma PendingIsFloor(b: Books, user: Address)
    requires StakesInv(b)
    requires Pending(b.StakeOf(user), b.rewardIndex).Some?
    ensures var pending := Pending(b.StakeOf(user), b.rewardIndex).value;
      pending >= 0 && Get(Earned(b), user) - SCALE < SCALE * pending <= Get(Earned(b), user)
  {
    var stake := b.StakeOf(user);
    ProductIsNonNegative(stake.amount, b.rewardIndex - stake.index);
  }

  lemma RestakeKeepsInv(b: Books, user: Address, change: int, funded: int, claimed: int)
    requires Inv(b, funded, claimed)
    requires b.Restake(user, change).Ok? && b.StakeOf(user).amount + change >= 0
    ensures Inv(b.Restake(user, change).value.books, funded, claimed)
  {
    var c := b.Restake(user, change).value.books;
    PendingIsFloor(b, user);
    Settled(b, user, c.stakes[user], c);
    SumOfUpdate(b.unclaimed, user, Get(c.unclaimed, user));
    SameChain(b, c);
  }

  lemma ClaimKeepsInv(b: Books, user: Address, funded: int, claimed: int)
    requires Inv(b, funded, claimed)
    requires b.Claim(user).Ok?
    ensures Inv(b.Claim(user).value.books, funded, claimed + b.Claim(user).value.value)
    ensures b.Claim(user).value.value >= 0
  {
    var c := b.Claim(user).value.books;
    PendingIsFloor(b, user);
    Settled(b, user, c.stakes[user], c);
    SumOfUpdate(b.unclaimed, user, 0);
    SameChain(b, c);
  }

  lemma IndexGrows(b: Books, c: Books, delta: int)
    requires StakesInv(b) && delta >= 0
    requires c.rewardIndex == b.rewardIndex + delta <= I128_MAX
    requires c.stakes == b.stakes && c.unclaimed == b.unclaimed && c.totalStaked == b.totalStaked
    ensures StakesInv(c) && Sum(Earned(c)) == Sum(Earned(b)) + delta * b.totalStaked
  {
    assert Amounts(c) == Amounts(b);
    var before, after, weights := Earned(b), Earned(c), Amounts(b);
    forall u | u in b.stakes ensures after[u] == before[u] + delta * weights[u] {
      ProductSpreads(b.stakes[u].amount, b.rewardIndex - b.stakes[u].index, delta);
    }
    SumIsLinear(before, weights, after, delta);
  }

  lemma FundGrowsIndex(b: Books, caller: Address, amount: int)
    requires StakesInv(b)
    requires b.Fund(caller, amount).Ok?
    ensures var c := b.Fund(caller, amount).value.books;
      StakesInv(c) && c.rewardIndex >= b.rewardIndex && Sum(Earned(c)) <= Sum(Earned(b)) + amount * SCALE
  {
    var c := b.Fund(caller, amount).value.books;
    var delta := c.rewardIndex - b.rewardIndex;
    if b.totalStaked > 0 {
      FloorTimesDivisor(amount * SCALE, b.totalStaked);
    } else {
      ProductIsNonNegative(delta, b.totalStaked);
    }
    assert delta >= 0 && delta * b.totalStaked <= amount * SCALE;
    IndexGrows(b, c, delta);
  }

  lemma FundKeepsChain(b: Books, caller: Address, amount: int)
    requires Chain(b)
    requires b.Fund(caller, amount).Ok? && b.Fund(caller, amount).value.books.rewardIndex >= b.rewardIndex
    ensures var c := b.Fund(caller, amount).value.books;
      Chain(c) && Sum(Rewards(c)) == Sum(Rewards(b)) + amount
  {
    var c := b.Fund(caller, amount).value.books;
    forall e ensures EpochInv(c, e) {
      assert EpochInv(b, e);
    }
    var rewards := b.epochs[b.currentEpoch].totalRewards;
    assert Rewards(c) == Rewards(b)[b.currentEpoch := rewards + amount];
    SumOfUpdate(Rewards(b), b.currentEpoch, rewards + amount);
  }

  lemma SealKeepsInv(b: Books, call: Call, funded: int, claimed: int)
    requires Inv(b, funded, claimed)
    requires call.Seal? && Execute(b, call).Ok?
    ensures Inv(Execute(b, call).value.books, funded, claimed)
  {
    var c := Execute(b, call).value.books;
    assert Amounts(c) == Amounts(b) && Earned(c) == Earned(b);
    NonNegativeTotal(b);
    PromisedIsFloor(b, b.epochs[b.currentEpoch], call.now);
    SealKeepsChain(b, call);
  }

  lemma SealKeepsChain(b: Books, call: Call)
    requires Chain(b)
    requires call.Seal? && Execute(b, call).Ok?
    requires b.SealedRecord(b.epochs[b.currentEpoch], call.now).value.claimableAtSeal >= 0
    ensures var c := Execute(b, call).value.books;
      Chain(c) && Sum(Rewards(c)) == Sum(Rewards(b))
  {
    var c := Execute(b, call).value.books;
    assert EpochInv(b, c.currentEpoch) && EpochInv(b, b.currentEpoch);
    var record := SealRecords(b, call);
    forall e ensures EpochInv(c, e) {
      assert EpochInv(b, e);
    }
    assert Rewards(c) == Rewards(b)[c.currentEpoch := 0];
    SumOfUpdate(Rewards(b), c.currentEpoch, 0);
  }

  /** What a sealing writes over the epoch it seals. */
  lemma SealRecords(b: Books, call: Call) returns (record: Epoch)
    requires call.Seal? && Execute(b, call).Ok?
    ensures var e := b.epochs[b.currentEpoch];
      && call.target == b.currentEpoch
      && b.SealedRecord(e, call.now) == Some(record)
      && b.currentEpoch in After(b, Execute(b, call)).epochs
      && record == After(b, Execute(b, call)).epochs[b.currentEpoch]
      && record.totalRewards == e.totalRewards
      && record.dust == if e.totalRewards < record.claimableAtSeal then 0 else e.totalRewards - record.claimableAtSeal
  {
    record := After(b, Execute(b, call)).epochs[b.currentEpoch];
  }

  lemma PromisedIsFloor(b: Books, e: Epoch, now: int)
    requires b.totalStaked >= 0 && b.currentEpoch in b.startIndex && b.rewardIndex >= b.startIndex[b.currentEpoch]
    requires b.SealedRecord(e, now).Some?
    ensures 0 <= b.SealedRecord(e, now).value.claimableAtSeal
            == b.totalStaked * (b.rewardIndex - b.startIndex[b.currentEpoch]) / SCALE
  {
    ProductIsNonNegative(b.totalStaked, b.rewardIndex - b.startIndex[b.currentEpoch]);
  }

  lemma NonNegativeTotal(b: Books)
    requires StakesInv(b)
    ensures b.totalStaked >= 0
  {
    PartialSumIsSmaller(Amounts(b), {});
  }

  lemma SameChain(b: Books, c: Books)
    requires Chain(b)
    requires c.epochs == b.epochs && c.startIndex == b.startIndex && c.currentEpoch == b.currentEpoch
    requires c.rewardIndex == b.rewardIndex
    ensures Chain(c) && Rewards(c) == Rewards(b)
  {
    forall e ensures EpochInv(c, e) {
      assert EpochInv(b, e);
    }
  }

  lemma StepKeepsInv(b: Books, call: Call, funded: int, claimed: int)
    requires Inv(b, funded, claimed)
    ensures Inv(After(b, Execute(b, call)), funded + FundedBy(b, call), claimed + ClaimedBy(b, call))
  {
    if Execute(b, call).Ok? {
      match call {
        case Stake(user, amount) => StakingKeepsInv(b, call, funded, claimed);
        case Unstake(user, amount) => StakingKeepsInv(b, call, funded, claimed);
        case Fund(caller, amount) => FundKeepsInv(b, call, funded, claimed);
        case Seal(_, _, _, _) => SealKeepsInv(b, call, funded, claimed);
        case Claim(user) => ClaimKeepsInv(b, user, funded, claimed);
        case _ => OthersKeepInv(b, call, funded, claimed);
      }
    }
  }

  lemma StakingKeepsInv(b: Books, call: Call, funded: int, claimed: int)
    requires Inv(b, funded, claimed) && (call.Stake? || call.Unstake?) && Execute(b, call).Ok?
    ensures Inv(After(b, Execute(b, call)), funded, claimed)
  {
    NonNegativeStake(b, call.user);
    RestakeKeepsInv(b, call.user, if call.Stake? then call.amount else -call.amount, funded, claimed);
  }

  lemma FundKeepsInv(b: Books, call: Call, funded: int, claimed: int)
    requires Inv(b, funded, claimed) && call.Fund? && Execute(b, call).Ok?
    ensures Inv(After(b, Execute(b, call)), funded + call.amount, claimed)
  {
    FundGrowsIndex(b, call.caller, call.amount);
    FundKeepsChain(b, call.caller, call.amount);
  }

  lemma OthersKeepInv(b: Books, call: Call, funded: int, claimed: int)
    requires Inv(b, funded, claimed) && Execute(b, call).Ok?
    requires !(call.Stake? || call.Unstake? || call.Fund? || call.Seal? || call.Claim?)
    ensures Inv(After(b, Execute(b, call)), funded, claimed)
  {
    var c := Execute(b, call).value.books;
    assert Amounts(c) == Amounts(b) && Earned(c) == Earned(b);
    SameChain(b, c);
  }

  lemma NonNegativeStake(b: Books, user: Address)
    requires StakesInv(b)
    ensures b.StakeOf(user).amount >= 0
  {
  }

  lemma {:induction false} ReachableInv(birth: Birth, calls: seq<Call>)
    ensures Inv(Run(birth, calls), Funded(birth, calls), Claimed(birth, calls))
  {
    if calls != [] {
      var front := calls[..|calls| - 1];
      ReachableInv(birth, front);
      StepKeepsInv(Run(birth, front), calls[|calls| - 1], Funded(birth, front), Claimed(birth, front));
    } else {
      var b := Run(birth, calls);
      assert Amounts(b) == map[] && Earned(b) == map[] && Rewards(b) == map[1 := 0];
      SumTakesOut(Rewards(b), 1);
      assert Rewards(b) - {1} == map[];
      forall e ensures EpochInv(b, e) {
      }
    }
  }

  /** What a claim would pay a user, overflow aside. */
  ghost function Quote(b: Books, u: Address): int {
    Get(b.unclaimed, u) + Get(Earned(b), u) / SCALE
  }

  ghost function Live(b: Books): map<Address, int> {
    map u | u in b.stakes :: Earned(b)[u] / SCALE
  }

  /** Conservation across epochs: everything banked, pending and already claimed is covered by what
      the epochs record as their rewards, and the total staked is the sum of the stakes. */
  lemma RewardsAreConserved(birth: Birth, calls: seq<Call>)
    ensures var b := Run(birth, calls);
      && Sum(b.unclaimed) + Sum(Live(b)) + Claimed(birth, calls) <= Sum(Rewards(b)) == Funded(birth, calls)
      && Sum(Amounts(b)) == b.totalStaked
  {
    ReachableInv(birth, calls);
    var b := Run(birth, calls);
    LiveIsFloor(b);
  }

  lemma LiveIsFloor(b: Books)
    ensures SCALE * Sum(Live(b)) <= Sum(Earned(b))
  {
    var live, earned := Live(b), Earned(b);
    var zero := map u | u in b.stakes :: 0;
    var scaled := map u | u in b.stakes :: SCALE * live[u];
    SumIsLinear(zero, live, scaled, SCALE);
    SumOfZeros(zero);
    SumIsMonotone(scaled, earned);
  }

  /** A claim pays the quote, and claiming again at once pays nothing. */
  lemma ClaimIsIdempotent(birth: Birth, calls: seq<Call>, u: Address)
    requires Run(birth, calls).Claim(u).Ok?
    ensures var done := Run(birth, calls).Claim(u).value;
      && done.value == Quote(Run(birth, calls), u)
      && done.books.Claim(u) == Ok(Done(done.books, 0))
  {
    ReachableInv(birth, calls);
    ClaimSettles(Run(birth, calls), u);
  }

  lemma ClaimSettles(b: Books, u: Address)
    requires StakesInv(b) && b.Claim(u).Ok?
    ensures var done := b.Claim(u).value;
      done.value == Quote(b, u) && done.books.Claim(u) == Ok(Done(done.books, 0))
  {
    PendingIsFloor(b, u);
    var c := b.Claim(u).value.books;
    ProductIsNonNegative(c.stakes[u].amount, c.rewardIndex - c.stakes[u].index);
    assert c.stakes[u := c.stakes[u]] == c.stakes && c.unclaimed[u := 0] == c.unclaimed;
  }

  // ---- each user's part ----

  /** What a funding adds to one user's earnings, scaled. */
  ghost function GainBy(b: Books, call: Call, u: Address): int {
    if call.Fund? && Execute(b, call).Ok?
    then b.StakeOf(u).amount * (After(b, Execute(b, call)).rewardIndex - b.rewardIndex)
    else 0
  }

  ghost predicate Settles(b: Books, call: Call, u: Address) {
    Execute(b, call).Ok? && (call.Stake? || call.Unstake? || call.Claim?) && call.user == u
  }

  ghost function PaidTo(b: Books, call: Call, u: Address): int {
    if call.Claim? && call.user == u then ClaimedBy(b, call) else 0
  }

  /** Earnings, settlements and payouts of one user over a run. */
  ghost function Account(birth: Birth, calls: seq<Call>, u: Address): (int, nat, int) {
    if calls == [] then (0, 0, 0) else
      var front := calls[..|calls| - 1];
      var b, call, sofar := Run(birth, front), calls[|calls| - 1], Account(birth, front, u);
      (sofar.0 + GainBy(b, call, u), sofar.1 + (if Settles(b, call, u) then 1 else 0), sofar.2 + PaidTo(b, call, u))
  }

  ghost function Credit(b: Books, u: Address): int {
    SCALE * Get(b.unclaimed, u) + Get(Earned(b), u)
  }

  lemma SettlingRounds(b: Books, call: Call, u: Address)
    requires StakesInv(b) && Settles(b, call, u)
    ensures var c := After(b, Execute(b, call));
      Credit(b, u) - (SCALE - 1) <= Credit(c, u) + SCALE * PaidTo(b, call, u) <= Credit(b, u)
  {
    var c := After(b, Execute(b, call));
    PendingIsFloor(b, u);
    var pending := Pending(b.StakeOf(u), b.rewardIndex).value;
    ProductIsNonNegative(c.stakes[u].amount, c.rewardIndex - c.stakes[u].index);
    assert Get(Earned(c), u) == 0;
    assert Get(c.unclaimed, u) + PaidTo(b, call, u) == Get(b.unclaimed, u) + pending;
  }

  lemma FundingAdds(b: Books, call: Call, u: Address)
    requires call.Fund? && Execute(b, call).Ok?
    ensures var c := After(b, Execute(b, call));
      Credit(c, u) == Credit(b, u) + GainBy(b, call, u)
  {
    var c := After(b, Execute(b, call));
    var stake := b.StakeOf(u);
    ProductSpreads(stake.amount, b.rewardIndex - stake.index, c.rewardIndex - b.rewardIndex);
    ProductIsNonNegative(stake.amount, c.rewardIndex - b.rewardIndex);
  }

  lemma StepMovesCredit(b: Books, call: Call, u: Address)
    requires StakesInv(b)
    ensures var c := After(b, Execute(b, call));
      var expected := Credit(b, u) + GainBy(b, call, u);
      expected - (if Settles(b, call, u) then SCALE - 1 else 0)
        <= Credit(c, u) + SCALE * PaidTo(b, call, u) <= expected
  {
    if Settles(b, call, u) {
      SettlingRounds(b, call, u);
    } else if Execute(b, call).Ok? && call.Fund? {
      FundingAdds(b, call, u);
    } else {
      OthersKeepCredit(b, call, u);
    }
  }

  lemma OthersKeepCredit(b: Books, call: Call, u: Address)
    requires !Settles(b, call, u) && !(Execute(b, call).Ok? && call.Fund?)
    ensures Credit(After(b, Execute(b, call)), u) == Credit(b, u)
  {
  }

  /** Each user is credited what the index earned on that user's own stake, less at most one rounding
      for each time the account was settled. */
  lemma {:induction false} EachUserGetsTheirPart(birth: Birth, calls: seq<Call>, u: Address)
    ensures var (earned, settlements, paid) := Account(birth, calls, u);
      earned - (SCALE - 1) * settlements <= Credit(Run(birth, calls), u) + SCALE * paid <= earned
  {
    if calls != [] {
      var front := calls[..|calls| - 1];
      EachUserGetsTheirPart(birth, front, u);
      ReachableInv(birth, front);
      StepMovesCredit(Run(birth, front), calls[|calls| - 1], u);
    }
  }

  /** One funding's exact share of a user, had every staker been paid on the spot. */
  ghost function ShareOf(b: Books, call: Call, u: Address): real {
    if call.Fund? && Execute(b, call).Ok? then ExactShare(b.StakeOf(u).amount, call.amount, b.totalStaked) else 0.0
  }

  ghost function EagerShare(birth: Birth, calls: seq<Call>, u: Address): real {
    if calls == [] then 0.0 else
      var front := calls[..|calls| - 1];
      EagerShare(birth, front, u) + ShareOf(Run(birth, front), calls[|calls| - 1], u)
  }

  ghost function ExposedBy(b: Books, call: Call, u: Address): int {
    if call.Fund? && Execute(b, call).Ok? then b.StakeOf(u).amount else 0
  }

  /** The user's stake, added up over the fundings. */
  ghost function Exposure(birth: Birth, calls: seq<Call>, u: Address): int {
    if calls == [] then 0 else
      var front := calls[..|calls| - 1];
      Exposure(birth, front, u) + ExposedBy(Run(birth, front), calls[|calls| - 1], u)
  }

  lemma GainTracksShare(b: Books, call: Call, u: Address)
    requires StakesInv(b) && b.totalStaked >= 0
    ensures Tracks(SCALE, GainBy(b, call, u), ShareOf(b, call, u), ExposedBy(b, call, u), 0)
  {
    NonNegativeStake(b, u);
    if call.Fund? && Execute(b, call).Ok? {
      FundingRaises(b, call);
      if b.totalStaked > 0 {
        FloorOfShare(SCALE, b.StakeOf(u).amount, call.amount, b.totalStaked);
      }
    }
  }

  lemma FundingRaises(b: Books, call: Call)
    requires call.Fund? && Execute(b, call).Ok?
    ensures After(b, Execute(b, call)).rewardIndex - b.rewardIndex
      == if b.totalStaked > 0 then call.amount * SCALE / b.totalStaked else 0
  {
  }

  lemma {:induction false} EarnedTracksShares(birth: Birth, calls: seq<Call>, u: Address)
    ensures Tracks(SCALE, Account(birth, calls, u).0, EagerShare(birth, calls, u), Exposure(birth, calls, u), 0)
  {
    if calls != [] {
      var front, call := calls[..|calls| - 1], calls[|calls| - 1];
      var b := Run(birth, front);
      EarnedTracksShares(birth, front, u);
      ReachableInv(birth, front);
      NonNegativeTotal(b);
      GainTracksShare(b, call, u);
      TracksAdds(SCALE, Account(birth, front, u).0, EagerShare(birth, front, u), Exposure(birth, front, u), 0,
                 GainBy(b, call, u), ShareOf(b, call, u), ExposedBy(b, call, u), 0);
    }
  }

  /** Lazy accrual refines eager distribution: what a user has claimed and can still claim never exceeds the
      exact sum of stake * amount / total over the fundings, in whatever epochs they fell, and falls short by
      less than one unit for each settlement, plus the exposure over SCALE. */
  lemma LazyRefinesEager(birth: Birth, calls: seq<Call>, u: Address)
    ensures var (_, settlements, paid) := Account(birth, calls, u);
      PaysFloor(SCALE, paid + Quote(Run(birth, calls), u),
                EagerShare(birth, calls, u), Exposure(birth, calls, u), settlements + 1)
  {
    EarnedTracksShares(birth, calls, u);
    EachUserGetsTheirPart(birth, calls, u);
    var (earned, settlements, paid) := Account(birth, calls, u);
    var b := Run(birth, calls);
    QuoteRounds(b, u);
    TracksPays(SCALE, Credit(b, u), paid, Quote(b, u),
               EagerShare(birth, calls, u), Exposure(birth, calls, u), settlements);
  }

  lemma QuoteRounds(b: Books, u: Address)
    ensures Credit(b, u) - (SCALE - 1) <= SCALE * Quote(b, u) <= Credit(b, u)
  {
  }

  // ---- the chain of sealed epochs ----

  /** What was funded in the epochs before `e`. */
  ghost function RewardsBefore(b: Books, e: int): int
    requires forall k :: 1 <= k < e ==> k in b.epochs
    decreases e
  {
    if e <= 1 then 0 else RewardsBefore(b, e - 1) + b.epochs[e - 1].totalRewards
  }

  lemma {:induction false} CarriedIsRewardsBefore(b: Books, e: int)
    requires Chain(b) && 1 <= e <= b.currentEpoch
    ensures forall k :: 1 <= k <= e ==> k in b.epochs
    ensures b.epochs[e].carriedForward == RewardsBefore(b, e)
    decreases e
  {
    assert EpochInv(b, e);
    if e > 1 {
      CarriedIsRewardsBefore(b, e - 1);
      assert EpochInv(b, e - 1);
    }
  }

  /** Sealed epochs form a chain, after any run. */
  lemma SealedEpochsFormAChain(birth: Birth, calls: seq<Call>, e: int)
    requires 1 <= e < Run(birth, calls).currentEpoch
    ensures var b := Run(birth, calls);
      && e in b.epochs && e + 1 in b.epochs && e + 1 in b.startIndex
      && b.epochs[e].isSealed
      && Linked(b.epochs[e], b.epochs[e + 1], b.startIndex[e + 1])
      && (forall k :: 1 <= k < e ==> k in b.epochs)
      && b.epochs[e].carriedForward == RewardsBefore(b, e)
      && b.currentEpoch in b.epochs && !b.epochs[b.currentEpoch].isSealed
  {
    ReachableInv(birth, calls);
    var b := Run(birth, calls);
    assert EpochInv(b, e) && EpochInv(b, b.currentEpoch);
    CarriedIsRewardsBefore(b, e);
  }

  /** Nothing that happens later alters the record of a sealed epoch or the index it started from. */
  lemma SealedIsFinal(birth: Birth, calls: seq<Call>, call: Call, e: int)
    requires 1 <= e < Run(birth, calls).currentEpoch
    ensures var b := Run(birth, calls);
      var c := After(b, Execute(b, call));
      && e in b.epochs && e in c.epochs && c.epochs[e] == b.epochs[e]
      && e in b.startIndex && e in c.startIndex && c.startIndex[e] == b.startIndex[e]
  {
    ReachableInv(birth, calls);
    assert EpochInv(Run(birth, calls), e);
  }

  /** Sealing moves no money: stakes, credit and index are as they were. */
  lemma SealMovesNothing(b: Books, call: Call, u: Address)
    requires call.Seal? && Execute(b, call).Ok?
    ensures var c := After(b, Execute(b, call));
      c.totalStaked == b.totalStaked && Quote(c, u) == Quote(b, u) && c.StakeOf(u) == b.StakeOf(u)
  {
    var c := After(b, Execute(b, call));
    assert Earned(c) == Earned(b);
  }

  // ---- when a sealed record balances ----

  ghost function NextLow(b: Books, call: Call, low: Option<int>): Option<int> {
    if Execute(b, call).Err? then low
    else if call.Seal? then None
    else if call.Fund? && b.totalStaked > 0 then
      Some(if low.Some? && low.value <= b.totalStaked then low.value else b.totalStaked)
    else low
  }

  /** The smallest total stake at any funding with stakers since the current epoch opened. */
  ghost function LowStake(birth: Birth, calls: seq<Call>): Option<int> {
    if calls == [] then None else
      var front := calls[..|calls| - 1];
      NextLow(Run(birth, front), calls[|calls| - 1], LowStake(birth, front))
  }

  ghost predicate LowBound(grown: int, rewards: int, low: Option<int>) {
    match low
    case None => grown == 0
    case Some(least) => least > 0 && least * grown <= SCALE * rewards
  }

  ghost predicate LowInv(b: Books, low: Option<int>) {
    && b.currentEpoch in b.epochs && b.currentEpoch in b.startIndex
    && b.epochs[b.currentEpoch].totalRewards >= 0 && b.rewardIndex >= b.startIndex[b.currentEpoch]
    && LowBound(b.rewardIndex - b.startIndex[b.currentEpoch], b.epochs[b.currentEpoch].totalRewards, low)
  }

  /** A funding with stakers keeps `least * growth <= SCALE * rewards` for the smaller of the two stakes. */
  lemma LowAfterFunding(total: int, amount: int, grown: int, rewards: int, low: Option<int>)
    requires total > 0 && amount > 0 && grown >= 0 && rewards >= 0
    requires LowBound(grown, rewards, low)
    ensures var lower := if low.Some? && low.value <= total then low.value else total;
      LowBound(grown + amount * SCALE / total, rewards + amount, Some(lower))
  {
    var delta := amount * SCALE / total;
    var lower := if low.Some? && low.value <= total then low.value else total;
    FloorTimesDivisor(amount * SCALE, total);
    ProductSpreads(lower, grown, delta);
    ProductIsMonotone(lower, total, delta);
    if low.Some? {
      ProductIsMonotone(lower, low.value, grown);
    } else {
      ProductIsNonNegative(lower, grown);
    }
    assert lower * grown <= SCALE * rewards && total * delta <= amount * SCALE;
  }

  lemma LowStep(b: Books, call: Call, low: Option<int>)
    requires LowInv(b, low)
    ensures LowInv(After(b, Execute(b, call)), NextLow(b, call, low))
  {
    if Execute(b, call).Ok? && call.Fund? && b.totalStaked > 0 {
      FloorTimesDivisor(call.amount * SCALE, b.totalStaked);
      LowAfterFunding(b.totalStaked, call.amount, b.rewardIndex - b.startIndex[b.currentEpoch],
                      b.epochs[b.currentEpoch].totalRewards, low);
      var c := After(b, Execute(b, call));
      assert c.rewardIndex - c.startIndex[c.currentEpoch]
          == b.rewardIndex - b.startIndex[b.currentEpoch] + call.amount * SCALE / b.totalStaked;
    } else if Execute(b, call).Ok? && call.Fund? && low.Some? {
      var rewards := b.epochs[b.currentEpoch].totalRewards;
      assert SCALE * rewards <= SCALE * (rewards + call.amount);
    }
  }

  lemma {:induction false} ReachableLow(birth: Birth, calls: seq<Call>)
    ensures LowInv(Run(birth, calls), LowStake(birth, calls))
  {
    if calls != [] {
      var front := calls[..|calls| - 1];
      ReachableLow(birth, front);
      LowStep(Run(birth, front), calls[|calls| - 1], LowStake(birth, front));
    } else {
      ReachableInv(birth, calls);
    }
  }

  /** What sealing would promise now: the index growth times the total stake, scaled down. */
  ghost function Promised(b: Books): int
    requires b.currentEpoch in b.startIndex
  {
    b.totalStaked * (b.rewardIndex - b.startIndex[b.currentEpoch]) / SCALE
  }

  /** A sealed record balances, claimable plus dust equal to the rewards, if and only if the index
      growth times the stake at the sealing, scaled down, is no more than was funded; otherwise the
      record claims more than was funded and reports no dust. */
  lemma SealedRecordBalances(birth: Birth, calls: seq<Call>, call: Call)
    requires call.Seal? && Execute(Run(birth, calls), call).Ok?
    ensures var b := Run(birth, calls);
      b.currentEpoch in b.epochs && b.currentEpoch in b.startIndex && call.target == b.currentEpoch
    ensures var b := Run(birth, calls);
      var record := After(b, Execute(b, call)).epochs[b.currentEpoch];
      var promised := Promised(b);
      && record.claimableAtSeal == promised
      && (record.claimableAtSeal + record.dust == record.totalRewards <==>
          promised <= b.epochs[b.currentEpoch].totalRewards)
      && (promised > b.epochs[b.currentEpoch].totalRewards ==>
            record.dust == 0 && record.claimableAtSeal > record.totalRewards)
      && record.dust >= 0
  {
    ReachableInv(birth, calls);
    OpenEpochIsStored(Run(birth, calls));
    SealingRecords(Run(birth, calls), call);
  }

  lemma OpenEpochIsStored(b: Books)
    requires StakesInv(b) && Chain(b)
    ensures b.currentEpoch in b.epochs && b.currentEpoch in b.startIndex
    ensures b.totalStaked >= 0 && b.rewardIndex >= b.startIndex[b.currentEpoch]
    ensures b.epochs[b.currentEpoch].totalRewards >= 0
  {
    NonNegativeTotal(b);
    assert EpochInv(b, b.currentEpoch);
  }

  lemma SealingRecords(b: Books, call: Call)
    requires call.Seal? && Execute(b, call).Ok?
    requires b.currentEpoch in b.epochs && b.currentEpoch in b.startIndex
    requires b.totalStaked >= 0 && b.rewardIndex >= b.startIndex[b.currentEpoch]
    requires b.epochs[b.currentEpoch].totalRewards >= 0
    ensures call.target == b.currentEpoch && b.currentEpoch in After(b, Execute(b, call)).epochs
    ensures var record := After(b, Execute(b, call)).epochs[b.currentEpoch];
      var rewards := b.epochs[b.currentEpoch].totalRewards;
      && record.claimableAtSeal == Promised(b) && record.totalRewards == rewards
      && record.dust == if rewards < Promised(b) then 0 else rewards - Promised(b)
  {
    var record := SealRecords(b, call);
    PromisedIsFloor(b, b.epochs[b.currentEpoch], call.now);
  }

  lemma SteadyStakeFits(b: Books, low: Option<int>)
    requires LowInv(b, low) && (low.Some? ==> b.totalStaked <= low.value)
    ensures Promised(b) <= b.epochs[b.currentEpoch].totalRewards
  {
    SteadyPromise(b.totalStaked, b.rewardIndex - b.startIndex[b.currentEpoch],
                  b.epochs[b.currentEpoch].totalRewards, low);
  }

  /** If the stake at the sealing is no larger than at any funding of the epoch, the record balances. */
  lemma SteadyStakeBalances(birth: Birth, calls: seq<Call>, call: Call)
    requires call.Seal? && Execute(Run(birth, calls), call).Ok?
    requires LowStake(birth, calls).Some? ==> Run(birth, calls).totalStaked <= LowStake(birth, calls).value
    ensures var b := Run(birth, calls);
      var record := After(b, Execute(b, call)).epochs[call.target];
      record.claimableAtSeal + record.dust == record.totalRewards && record.dust >= 0
  {
    SealedRecordBalances(birth, calls, call);
    ReachableLow(birth, calls);
    SteadyStakeFits(Run(birth, calls), LowStake(birth, calls));
  }

  lemma SteadyPromise(total: int, grown: int, rewards: int, low: Option<int>)
    requires grown >= 0 && rewards >= 0 && LowBound(grown, rewards, low)
    requires low.Some? ==> total <= low.value
    ensures total * grown / SCALE <= rewards
  {
    if low.Some? {
      ProductIsMonotone(total, low.value, grown);
    } else {
      ProductIsNonNegative(total, grown);
    }
  }

  /** The promise "claimable is at most funded" fails when stake arrives after the funding: one unit
      staked and funded, ten more staked, and the record of that epoch claims eleven. */
  lemma LateStakeOvercounts(admin: Address, user: Address)
    ensures var calls := [Stake(user, 1), Fund(admin, 1), Stake(user, 10), Seal(admin, 1, 0, 0)];
      var b := Run(Birth(admin, 0, 0), calls);
      1 in b.epochs && b.epochs[1].claimableAtSeal == 11 && b.epochs[1].totalRewards == 1 && b.epochs[1].dust == 0
  {
    var birth := Birth(admin, 0, 0);
    var c0, c1, c2, c3 := Stake(user, 1), Fund(admin, 1), Stake(user, 10), Seal(admin, 1, 0, 0);
    assert [c0, c1, c2, c3][..3] == [c0, c1, c2] && [c0, c1, c2][..2] == [c0, c1] && [c0, c1][..1] == [c0];
    var b0, b1 := Initial(admin, 0, 0), Run(birth, [c0]);
    assert [c0][..0] == [] && Run(birth, [c0][..0]) == b0;
    assert b1 == After(b0, Execute(b0, c0));
    assert b1 == b0.(stakes := b0.stakes[user := UserStake(1, 0)], totalStaked := 1);
    var b2 := Run(birth, [c0, c1]);
    assert b2 == After(b1, Execute(b1, c1));
    assert b2 == b1.(rewardIndex := SCALE, epochs := b1.epochs[1 := b1.epochs[1].(totalRewards := 1)]);
    var b3 := Run(birth, [c0, c1, c2]);
    assert b3 == After(b2, Execute(b2, c2));
    assert b3.rewardIndex == SCALE && b3.totalStaked == 11 && b3.epochs == b2.epochs && b3.startIndex == b0.startIndex;
  }
}
