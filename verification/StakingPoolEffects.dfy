/** mvp_staking_pool: what queries answer, when calls are accepted, and who sets the pause. */
module StakingPoolEffects {
  import opened Host
  import opened Products
  import opened StakingPool
  import opened StakingPoolSolvency
  import opened StakingPoolOverflow

  ghost predicate Accepted(p: Pool, call: Call) {
    Execute(p, call).Ok?
  }

  /** A query answers the quote, paused or not, and leaves every quote as it was: it is what a claim would pay. */
  lemma QueryAnswersQuote(admin: Address, calls: seq<Call>, u: Address, v: Address)
    ensures var p := Run(admin, calls);
      && (Accepted(p, Claimable(u)) <==> AccrualFits(p, u))
      && (Accepted(p, Claimable(u)) ==>
            && Execute(p, Claimable(u)).value.value == Quote(p, u)
            && Get(After(p, Execute(p, Claimable(u))).claimable, u) == Quote(p, u)
            && Quote(After(p, Execute(p, Claimable(u))), v) == Quote(p, v))
  {
    ReachableInv(admin, calls);
    var p := Run(admin, calls);
    assert UserInv(p, u) && UserInv(p, v);
    AccrualFitsIff(p, u);
    if p.Accrue(u).Ok? {
      AccrualKeepsQuotes(p, u, v);
    }
  }

  lemma AccrualKeepsQuotes(p: Pool, u: Address, v: Address)
    requires UserInv(p, u) && p.Accrue(u).Ok?
    ensures var a := p.Accrue(u).value;
      Get(a.claimable, u) == Quote(p, u) && Quote(a, v) == Quote(p, v)
  {
    AccrueEffect(p, u);
    AccrueLeavesStakes(p, u);
    ProductIsNonNegative(Get(p.staked, u), 0);
    if v != u {
      AccrueLeavesOthers(p, u, v);
    }
  }

  /** A stake is accepted exactly when unpaused, positive, paid for, and the accrual and the new total fit. */
  lemma StakeSucceedsIff(admin: Address, calls: seq<Call>, call: Call)
    requires call.Stake?
    ensures var p := Run(admin, calls);
      Accepted(p, call) <==>
        && !p.paused && call.amount > 0 && AccrualFits(p, call.user)
        && p.totalStaked + call.amount <= I128_MAX && call.payerPays
  {
    ReachableInv(admin, calls);
    var p := Run(admin, calls);
    assert UserInv(p, call.user);
    AccrualFitsIff(p, call.user);
    StakeIsWithinTotal(p, Funded(admin, calls) - Claimed(admin, calls), Gifted(calls), call.user);
    if p.Accrue(call.user).Ok? {
      AccrueLeavesStakes(p, call.user);
    }
  }

  /** Stake is put to use exactly by the admin, unpaused, in a positive amount not yet in use, if the accrual fits. */
  lemma UtilizeSucceedsIff(admin: Address, calls: seq<Call>, call: Call)
    requires call.Utilize?
    ensures var p := Run(admin, calls);
      Accepted(p, call) <==>
        && call.caller == p.admin && !p.paused && AccrualFits(p, call.user)
        && 0 < call.amount <= Get(p.staked, call.user) - Get(p.used, call.user)
  {
    ReachableInv(admin, calls);
    var p := Run(admin, calls);
    assert UserInv(p, call.user);
    AccrualFitsIff(p, call.user);
    StakeIsWithinTotal(p, Funded(admin, calls) - Claimed(admin, calls), Gifted(calls), call.user);
    if p.Accrue(call.user).Ok? {
      AccrueLeavesStakes(p, call.user);
    }
  }

  /** A funding is accepted exactly from the admin, unpaused, positive, paid for, with somebody staked, while the index
      fits. */
  lemma FundSucceedsIff(admin: Address, calls: seq<Call>, call: Call)
    requires call.FundRewards?
    ensures var p := Run(admin, calls);
      Accepted(p, call) <==>
        && !p.paused && call.amount > 0 && call.from == p.admin && p.totalStaked > 0 && call.payerPays
        && call.amount * SCALE <= I128_MAX && p.index + call.amount * SCALE / p.totalStaked <= I128_MAX
  {
    ReachableInv(admin, calls);
    var p := Run(admin, calls);
    assert UserInv(p, call.from);
    if p.totalStaked > 0 {
      FloorTimesDivisor(call.amount * SCALE, p.totalStaked);
    }
  }

  /** A funding raises the index by 10^12 times the amount for each token staked, rounded down; no other call moves
      it. */
  lemma FundingRaisesIndex(p: Pool, call: Call)
    ensures var growth := After(p, Execute(p, call)).index - p.index;
      && (call.FundRewards? && Accepted(p, call) ==>
            growth * p.totalStaked <= 1_000_000_000_000 * call.amount < growth * p.totalStaked + p.totalStaked)
      && (!(call.FundRewards? && Accepted(p, call)) ==> growth == 0)
  {
    if call.FundRewards? && Accepted(p, call) {
      FloorTimesDivisor(call.amount * SCALE, p.totalStaked);
    } else if Accrues(call) && Accepted(p, call) {
      AccrueLeavesStakes(p, call.user);
    }
  }

  /** Only claims and queries answer anything. */
  lemma OnlyThoseAnswer(p: Pool, call: Call)
    requires Accepted(p, call) && !call.Claim? && !call.Claimable?
    ensures Execute(p, call).value.value == 0
  {
  }

  /** The pause as the admin last set it. */
  ghost function PausedBy(admin: Address, calls: seq<Call>): bool {
    if calls == [] then false else
      var call := calls[|calls| - 1];
      if call.SetPaused? && call.caller == admin then call.value else PausedBy(admin, calls[..|calls| - 1])
  }

  lemma {:induction false} PauseIsTheAdmins(admin: Address, calls: seq<Call>)
    ensures Run(admin, calls).admin == admin && Run(admin, calls).paused == PausedBy(admin, calls)
  {
    if calls != [] {
      PauseIsTheAdmins(admin, calls[..|calls| - 1]);
      StepPauses(Run(admin, calls[..|calls| - 1]), calls[|calls| - 1]);
    }
  }

  lemma StepPauses(p: Pool, call: Call)
    ensures var q := After(p, Execute(p, call));
      && q.admin == p.admin
      && q.paused == if call.SetPaused? && call.caller == p.admin then call.value else p.paused
  {
  }
}
