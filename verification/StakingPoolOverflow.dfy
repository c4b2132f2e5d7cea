/** mvp_staking_pool: when a claim or a withdrawal succeeds. Only an accrual too large for 128 bits can stand in
    the way of an unpaused pool; it does so for good; and a bound on the funding rules it out. */
module StakingPoolOverflow {
  import opened Host
  import opened Products
  import opened MapSums
  import opened StakingPool
  import opened StakingPoolSolvency

  /** What a user has earned since the last accrual, scaled, and the credit it would make, fit 128 bits. */
  ghost predicate AccrualFits(p: Pool, u: Address) {
    var stake, delta := Get(p.staked, u), p.index - Get(p.userIndex, u);
    stake > 0 && delta > 0 ==> FitsI128(stake * delta) && FitsI128(Get(p.claimable, u) + stake * delta / SCALE)
  }

  lemma AccrualFitsIff(p: Pool, u: Address)
    requires UserInv(p, u) && FitsI128(p.index)
    ensures p.Accrue(u).Ok? <==> AccrualFits(p, u)
  {
    ProductIsNonNegative(Get(p.staked, u), p.index - Get(p.userIndex, u));
  }

  lemma CanPay(p: Pool, backing: int, gifts: nat, u: Address)
    requires Inv(p, backing, gifts) && p.Accrue(u).Ok?
    ensures var a := p.Accrue(u).value;
      a.held >= a.Unused(u) && a.held >= Get(a.claimable, u)
  {
    AccrueKeepsInv(p, backing, gifts, u);
    var a := p.Accrue(u).value;
    assert UserInv(a, u);
    StakeIsWithinTotal(a, backing, gifts, u);
    CreditIsCovered(a, backing, gifts, u);
  }

  /** No reachable claim or unstake fails for want of tokens. The only ways left for a claim to fail
      are the pause and an accrual that does not fit; an unstake also needs a positive unused amount. */
  lemma PayoutsNeverBounce(admin: Address, calls: seq<Call>, u: Address, amount: int)
    ensures var p := Run(admin, calls);
      && (p.Claim(u).Ok? <==> !p.paused && AccrualFits(p, u))
      && (p.Claim(u).Ok? ==> p.Claim(u).value.value == Quote(p, u))
      && (p.Unstake(u, amount).Ok? <==>
            !p.paused && AccrualFits(p, u) && 0 < amount <= Get(p.staked, u) - Get(p.used, u))
  {
    ReachableInv(admin, calls);
    var p, backing, gifts := Run(admin, calls), Funded(admin, calls) - Claimed(admin, calls), Gifted(calls);
    assert UserInv(p, u);
    AccrualFitsIff(p, u);
    if p.Accrue(u).Ok? {
      AccrueEffect(p, u);
      AccrueKeepsInv(p, backing, gifts, u);
      var a := p.Accrue(u).value;
      assert UserInv(a, u);
      StakeIsWithinTotal(a, backing, gifts, u);
      CreditIsCovered(a, backing, gifts, u);
    }
  }

  // ---- a bound that rules overflow out ----

  /** The rewards funded and not yet paid, scaled, fit 128 bits. */
  ghost predicate BackingFits(admin: Address, calls: seq<Call>) {
    SCALE * (Funded(admin, calls) - Claimed(admin, calls)) <= I128_MAX
  }

  lemma BackedAccrualFits(p: Pool, backing: int, gifts: nat, u: Address)
    requires Inv(p, backing, gifts) && SCALE * backing <= I128_MAX
    ensures AccrualFits(p, u)
  {
    forall v | v in p.staked ensures Pending(p)[v] >= 0 {
      assert UserInv(p, v);
      ProductIsNonNegative(p.staked[v], p.index - Get(p.userIndex, v));
    }
    assert UserInv(p, u);
    CreditIsBacked(p, backing, gifts);
    CreditIsCovered(p, backing, gifts, u);
    EntryIsWithinSum(Pending(p), u);
    AllQuotesAreBacked(p, backing, gifts, {u});
    QuoteIsWithin(p, u);
  }

  lemma QuoteIsWithin(p: Pool, u: Address)
    ensures u in p.staked ==> Sum(Quotes(p, {u})) == Quote(p, u)
  {
    if u in p.staked {
      SumTakesOut(Quotes(p, {u}), u);
      assert Quotes(p, {u}) - {u} == map[];
    }
  }

  /** As long as the rewards funded and not yet paid, scaled, fit 128 bits, every claim and every unstake of an
      unused amount succeeds unless the pool is paused. */
  lemma BackedPoolPays(admin: Address, calls: seq<Call>, u: Address, amount: int)
    requires BackingFits(admin, calls)
    ensures var p := Run(admin, calls);
      && (p.Claim(u).Ok? <==> !p.paused)
      && (p.Unstake(u, amount).Ok? <==> !p.paused && 0 < amount <= Get(p.staked, u) - Get(p.used, u))
  {
    ReachableInv(admin, calls);
    BackedAccrualFits(Run(admin, calls), Funded(admin, calls) - Claimed(admin, calls), Gifted(calls), u);
    PayoutsNeverBounce(admin, calls, u, amount);
  }

  // ---- overflow is for good ----

  /** Nothing stored about a user differs, and the index is no lower. */
  ghost predicate Frozen(p: Pool, q: Pool, u: Address) {
    && Get(q.staked, u) == Get(p.staked, u) && Get(q.used, u) == Get(p.used, u)
    && Get(q.claimable, u) == Get(p.claimable, u) && Get(q.userIndex, u) == Get(p.userIndex, u)
    && p.index <= q.index
  }

  lemma OverflowGrows(p: Pool, q: Pool, u: Address)
    requires UserInv(p, u) && !AccrualFits(p, u) && Frozen(p, q, u)
    ensures !AccrualFits(q, u)
  {
    var stake, delta, delta' := Get(p.staked, u), p.index - Get(p.userIndex, u), q.index - Get(q.userIndex, u);
    ProductIsMonotone(delta, delta', stake);
    ProductIsNonNegative(stake, delta);
    FloorIsMonotone(stake * delta, stake * delta');
  }

  lemma FloorIsMonotone(x: int, y: int)
    requires x <= y
    ensures x / SCALE <= y / SCALE
  {
  }

  lemma FundRaisesIndex(p: Pool, call: Call, u: Address)
    requires call.FundRewards?
    ensures Frozen(p, After(p, Execute(p, call)), u)
  {
    if Execute(p, call).Ok? {
      FloorTimesDivisor(call.amount * SCALE, p.totalStaked);
    }
  }

  lemma AccruingFails(p: Pool, call: Call)
    requires Accrues(call) && p.Accrue(call.user).Err?
    ensures Execute(p, call).Err?
  {
  }

  lemma LockedStep(p: Pool, call: Call, u: Address)
    requires UserInv(p, u) && FitsI128(p.index) && !AccrualFits(p, u)
    ensures Frozen(p, After(p, Execute(p, call)), u)
  {
    AccrualFitsIff(p, u);
    if Execute(p, call).Ok? {
      if call.FundRewards? {
        FundRaisesIndex(p, call, u);
      } else if Accrues(call) {
        if call.user == u {
          AccruingFails(p, call);
        }
        OthersUntouched(p, call, u);
        StepMovesStake(p, call, u);
      }
    }
  }

  /** Once a user's accrual does not fit it never fits again, whatever follows: every call that accrues for the
      user fails, and the user's stake, credit and part in use stay what they were. */
  lemma {:induction false} OverflowLocks(admin: Address, calls: seq<Call>, more: seq<Call>, u: Address)
    requires !AccrualFits(Run(admin, calls), u)
    ensures var p, q := Run(admin, calls), Run(admin, calls + more);
      && !AccrualFits(q, u) && Frozen(p, q, u)
      && forall call :: Accrues(call) && call.user == u ==> Execute(q, call).Err?
    decreases |more|
  {
    var p, q := Run(admin, calls), Run(admin, calls + more);
    ReachableInv(admin, calls);
    assert UserInv(p, u);
    if more == [] {
      assert calls + more == calls;
    } else {
      var front, call := more[..|more| - 1], more[|more| - 1];
      OverflowLocks(admin, calls, front, u);
      assert (calls + more)[..|calls + more| - 1] == calls + front;
      ReachableInv(admin, calls + front);
      assert UserInv(Run(admin, calls + front), u);
      LockedStep(Run(admin, calls + front), call, u);
      OverflowGrows(Run(admin, calls + front), q, u);
    }
    ReachableInv(admin, calls + more);
    assert UserInv(q, u);
    AccrualFitsIff(q, u);
    forall call | Accrues(call) && call.user == u ensures Execute(q, call).Err? {
      AccruingFails(q, call);
    }
  }

  // ---- what a call checks before it accrues ----

  ghost predicate PassesGuards(p: Pool, call: Call)
    requires Accrues(call)
  {
    match call
    case Stake(_, amount, _) => !p.paused && amount > 0
    case Unstake(_, amount) => !p.paused && amount > 0
    case Utilize(caller, _, amount) => caller == p.admin && !p.paused && amount > 0
    case Claim(_) => !p.paused
    case _ => true
  }

  /** The rewards funded and not yet paid fit at every point of a run. */
  ghost predicate AlwaysBacked(admin: Address, calls: seq<Call>) {
    forall k :: 0 <= k <= |calls| ==> BackingFits(admin, calls[..k])
  }
}
