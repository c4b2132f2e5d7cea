/** mvp_staking_pool: lazy accrual against the index stands in for paying every staker on each
    funding. Over any run it never credits more than the exact shares and loses only rounding;
    and accruing more often never pays more. */
module StakingPoolEager {
  import opened Host
  import opened RewardIndex
  import opened Products
  import opened StakingPool
  import opened StakingPoolSolvency
  import opened StakingPoolOverflow

  // ---- the eager distribution ----

  /** One funding's exact share of a user, had every staker been paid on the spot. */
  ghost function ShareOf(p: Pool, call: Call, u: Address): real {
    ExactShare(Get(p.staked, u), FundedBy(p, call), p.totalStaked)
  }

  ghost function EagerShare(admin: Address, calls: seq<Call>, u: Address): real {
    if calls == [] then 0.0 else
      var front := calls[..|calls| - 1];
      EagerShare(admin, front, u) + ShareOf(Run(admin, front), calls[|calls| - 1], u)
  }

  ghost function ExposedBy(p: Pool, call: Call, u: Address): int {
    if FundedBy(p, call) > 0 then Get(p.staked, u) else 0
  }

  /** The user's stake, added up over the funding rounds. */
  ghost function Exposure(admin: Address, calls: seq<Call>, u: Address): int {
    if calls == [] then 0 else
      var front := calls[..|calls| - 1];
      Exposure(admin, front, u) + ExposedBy(Run(admin, front), calls[|calls| - 1], u)
  }

  /** 1 if the call caught up the index of a user with a stake. */
  ghost function AccruedBy(p: Pool, call: Call, u: Address): nat {
    if Get(After(p, Execute(p, call)).userIndex, u) != Get(p.userIndex, u) && Get(p.staked, u) > 0 then 1 else 0
  }

  ghost function Accruals(admin: Address, calls: seq<Call>, u: Address): nat {
    if calls == [] then 0 else
      var front := calls[..|calls| - 1];
      Accruals(admin, front, u) + AccruedBy(Run(admin, front), calls[|calls| - 1], u)
  }

  ghost function PaidTo(p: Pool, call: Call, u: Address): int {
    if call.Claim? && call.user == u then PaidBy(p, call) else 0
  }

  ghost function ClaimedBy(admin: Address, calls: seq<Call>, u: Address): int {
    if calls == [] then 0 else
      var front := calls[..|calls| - 1];
      ClaimedBy(admin, front, u) + PaidTo(Run(admin, front), calls[|calls| - 1], u)
  }

  /** Credit and pending reward of a user, scaled so that nothing is rounded. */
  ghost function ScaledCredit(p: Pool, u: Address): int {
    SCALE * Get(p.claimable, u) + Get(p.staked, u) * (p.index - Get(p.userIndex, u))
  }

  lemma AccrualRounds(p: Pool, u: Address, q: Pool)
    requires UserInv(p, u)
    requires p.Accrue(u) == Ok(q)
    ensures var loss := if Get(q.userIndex, u) != Get(p.userIndex, u) && Get(p.staked, u) > 0 then SCALE - 1 else 0;
      ScaledCredit(p, u) - loss <= ScaledCredit(q, u) <= ScaledCredit(p, u)
    ensures Get(q.userIndex, u) == q.index == p.index
    ensures Get(q.staked, u) == Get(p.staked, u)
  {
    AccrueEffect(p, u);
    var pending := Get(p.staked, u) * (p.index - Get(p.userIndex, u));
    ProductIsNonNegative(Get(p.staked, u), p.index - Get(p.userIndex, u));
    ProductIsNonNegative(Get(p.staked, u), q.index - Get(q.userIndex, u));
    assert pending - SCALE < SCALE * (pending / SCALE) <= pending;
  }

  /** After its accrual a call moves credit to a payout or leaves it alone. */
  lemma CreditAfterAccrual(p: Pool, call: Call, u: Address)
    requires Accrues(call) && call.user == u && Execute(p, call).Ok?
    requires UserInv(p, u)
    ensures var a, q := p.Accrue(u).value, After(p, Execute(p, call));
      && q.index == a.index && q.userIndex == a.userIndex
      && ScaledCredit(q, u) + SCALE * PaidTo(p, call, u) == ScaledCredit(a, u)
  {
    AccrueEffect(p, u);
    var a, q := p.Accrue(u).value, After(p, Execute(p, call));
    ProductIsNonNegative(Get(a.staked, u), a.index - Get(a.userIndex, u));
    ProductIsNonNegative(Get(q.staked, u), q.index - Get(q.userIndex, u));
  }

  /** A call other than a funding neither adds to a user's scaled credit, payouts included, nor takes
      more than one rounding from it. */
  lemma CreditDrifts(p: Pool, call: Call, u: Address)
    requires UserInv(p, u)
    requires !call.FundRewards?
    ensures var q := After(p, Execute(p, call));
      ScaledCredit(p, u) - (SCALE - 1) * AccruedBy(p, call, u)
        <= ScaledCredit(q, u) + SCALE * PaidTo(p, call, u) <= ScaledCredit(p, u)
  {
    if Execute(p, call).Ok? && Accrues(call) && call.user == u {
      AccrualRounds(p, u, p.Accrue(u).value);
      CreditAfterAccrual(p, call, u);
    } else {
      BystandersKeepCredit(p, call, u);
    }
  }

  lemma BystandersKeepCredit(p: Pool, call: Call, u: Address)
    requires !call.FundRewards? && !(Execute(p, call).Ok? && Accrues(call) && call.user == u)
    ensures var q := After(p, Execute(p, call));
      ScaledCredit(q, u) == ScaledCredit(p, u) && AccruedBy(p, call, u) == 0 && PaidTo(p, call, u) == 0
  {
    if Accrues(call) && Execute(p, call).Ok? {
      OthersUntouched(p, call, u);
    }
  }

  lemma FundingCredits(p: Pool, call: Call, u: Address)
    requires UserInv(p, u)
    requires call.FundRewards? && Execute(p, call).Ok?
    ensures var q := After(p, Execute(p, call));
      && ScaledCredit(q, u) == ScaledCredit(p, u) + Get(p.staked, u) * (call.amount * SCALE / p.totalStaked)
      && Tracks(SCALE, Get(p.staked, u) * (call.amount * SCALE / p.totalStaked),
                ShareOf(p, call, u), Get(p.staked, u), 0)
  {
    ProductSpreads(Get(p.staked, u), p.index - Get(p.userIndex, u), call.amount * SCALE / p.totalStaked);
    FloorOfShare(SCALE, Get(p.staked, u), call.amount, p.totalStaked);
  }

  /** One call: what a user is credited, payouts included, tracks that call's exact share. */
  lemma StepTracks(p: Pool, call: Call, u: Address)
    requires UserInv(p, u)
    ensures var q := After(p, Execute(p, call));
      var credited := ScaledCredit(q, u) - ScaledCredit(p, u) + SCALE * PaidTo(p, call, u);
      Tracks(SCALE, credited, ShareOf(p, call, u), ExposedBy(p, call, u), AccruedBy(p, call, u))
  {
    if call.FundRewards? {
      if Execute(p, call).Ok? {
        FundingCredits(p, call, u);
      }
    } else {
      CreditDrifts(p, call, u);
    }
  }

  /** The invariant behind the refinement. */
  lemma {:induction false} LazyTracksEager(admin: Address, calls: seq<Call>, u: Address)
    ensures var credit := ScaledCredit(Run(admin, calls), u) + SCALE * ClaimedBy(admin, calls, u);
      Tracks(SCALE, credit, EagerShare(admin, calls, u), Exposure(admin, calls, u), Accruals(admin, calls, u))
  {
    if calls != [] {
      var front := calls[..|calls| - 1];
      LazyTracksEager(admin, front, u);
      ReachableInv(admin, front);
      var p, call := Run(admin, front), calls[|calls| - 1];
      assert UserInv(p, u);
      StepTracks(p, call, u);
      TracksAdds(SCALE, ScaledCredit(p, u) + SCALE * ClaimedBy(admin, front, u),
                 EagerShare(admin, front, u), Exposure(admin, front, u), Accruals(admin, front, u),
                 ScaledCredit(After(p, Execute(p, call)), u) - ScaledCredit(p, u) + SCALE * PaidTo(p, call, u),
                 ShareOf(p, call, u), ExposedBy(p, call, u), AccruedBy(p, call, u));
    }
  }

  /** Lazy accrual refines eager distribution: what a user has claimed and can still claim never
      exceeds the exact shares of the funding rounds, and falls short by less than one unit for
      each accrual plus the exposure over SCALE. */
  lemma LazyRefinesEager(admin: Address, calls: seq<Call>, u: Address)
    ensures PaysFloor(SCALE, ClaimedBy(admin, calls, u) + Quote(Run(admin, calls), u),
                      EagerShare(admin, calls, u), Exposure(admin, calls, u), Accruals(admin, calls, u) + 1)
  {
    LazyTracksEager(admin, calls, u);
    var p := Run(admin, calls);
    QuoteRounds(p, u);
    TracksPays(SCALE, ScaledCredit(p, u), ClaimedBy(admin, calls, u), Quote(p, u),
               EagerShare(admin, calls, u), Exposure(admin, calls, u), Accruals(admin, calls, u));
  }

  lemma QuoteRounds(p: Pool, u: Address)
    ensures ScaledCredit(p, u) - (SCALE - 1) <= SCALE * Quote(p, u) <= ScaledCredit(p, u)
  {
  }

  // ---- accruing more often ----

  /** `thin` is `full` with some of its `claimable` queries left out. */
  ghost predicate Thins(full: seq<Call>, thin: seq<Call>) {
    if full == [] then thin == [] else
      var last, front := full[|full| - 1], full[..|full| - 1];
      || (thin != [] && thin[|thin| - 1] == last && Thins(front, thin[..|thin| - 1]))
      || (last.Claimable? && Thins(front, thin))
  }

  /** The call gets as far as its accrual, and what the user has earned since the last one does not fit. */
  ghost predicate AccrualOverflows(p: Pool, call: Call) {
    Accrues(call) && PassesGuards(p, call) && !AccrualFits(p, call.user)
  }

  ghost predicate AccrualsFit(admin: Address, calls: seq<Call>) {
    calls != [] ==>
      var front := calls[..|calls| - 1];
      !AccrualOverflows(Run(admin, front), calls[|calls| - 1]) && AccrualsFit(admin, front)
  }

  /** Same books; `p` has accrued user u at least as recently as `q`, and holds no more credit than
      `q` would at that index. */
  ghost predicate AccruedMore(p: Pool, q: Pool, u: Address) {
    && Get(q.userIndex, u) <= Get(p.userIndex, u)
    && Get(p.claimable, u)
       <= Get(q.claimable, u) + Get(q.staked, u) * (Get(p.userIndex, u) - Get(q.userIndex, u)) / SCALE
  }

  ghost predicate SameBut(p: Pool, q: Pool) {
    && p.admin == q.admin && p.paused == q.paused && p.totalStaked == q.totalStaked && p.index == q.index
    && p.staked == q.staked && p.used == q.used
  }

  lemma FloorIsSuperadditive(x: int, y: int)
    ensures x / SCALE + y / SCALE <= (x + y) / SCALE
  {
  }

  lemma FloorsShrink(credit: int, credit': int, s: int, late: int, early: int, now: int)
    requires s >= 0 && 0 <= credit <= credit' + s * (late - early) / SCALE && late <= now
    ensures 0 <= credit + s * (now - late) / SCALE <= credit' + s * (now - early) / SCALE
  {
    assert s * (late - early) + s * (now - late) == s * (now - early);
    FloorIsSuperadditive(s * (late - early), s * (now - late));
    ProductIsNonNegative(s, now - late);
  }

  /** An extra accrual can only round more away. */
  lemma QuoteShrinks(p: Pool, q: Pool, u: Address)
    requires UserInv(p, u) && UserInv(q, u) && SameBut(p, q) && AccruedMore(p, q, u)
    ensures 0 <= Quote(p, u) <= Quote(q, u)
  {
    FloorsShrink(Get(p.claimable, u), Get(q.claimable, u), Get(q.staked, u),
                 Get(p.userIndex, u), Get(q.userIndex, u), q.index);
  }

  /** If the thinner run's accrual fits, so does the fuller run's, and it leaves no more credit. */
  lemma AccrueTogether(p: Pool, q: Pool, u: Address)
    requires (forall v :: UserInv(p, v) && UserInv(q, v)) && SameBut(p, q)
    requires FitsI128(q.index)
    requires forall v :: AccruedMore(p, q, v)
    requires q.Accrue(u).Ok?
    ensures p.Accrue(u).Ok?
    ensures var a, b := p.Accrue(u).value, q.Accrue(u).value;
      && SameBut(a, b) && a.held == p.held && b.held == q.held
      && (forall v :: AccruedMore(a, b, v))
      && Get(a.claimable, u) == Quote(p, u) && Get(b.claimable, u) == Quote(q, u)
      && Get(a.userIndex, u) == Get(b.userIndex, u) == q.index
  {
    assert UserInv(p, u) && UserInv(q, u) && AccruedMore(p, q, u);
    QuoteShrinks(p, q, u);
    AccrueEffect(q, u);
    AccrueFits(p, q, u);
    AccrueEffect(p, u);
    var a, b := p.Accrue(u).value, q.Accrue(u).value;
    forall v ensures AccruedMore(a, b, v) {
      assert AccruedMore(p, q, v);
      if v == u {
        ProductIsNonNegative(Get(b.staked, u), Get(a.userIndex, u) - Get(b.userIndex, u));
      }
    }
  }

  lemma AccrueFits(p: Pool, q: Pool, u: Address)
    requires UserInv(p, u) && UserInv(q, u) && SameBut(p, q) && AccruedMore(p, q, u)
    requires q.Accrue(u).Ok? && FitsI128(q.index)
    ensures p.Accrue(u).Ok?
  {
    var s, i, a, b := Get(q.staked, u), q.index, Get(p.userIndex, u), Get(q.userIndex, u);
    QuoteShrinks(p, q, u);
    AccrueEffect(q, u);
    ProductIsNonNegative(s, i - a);
    ProductIsNonNegative(s, a - b);
    assert s * (i - b) == s * (i - a) + s * (a - b);
  }

  /** One call made in both runs. */
  lemma StepTogether(p: Pool, q: Pool, call: Call, gifts: nat, backing: int, backing': int)
    requires Inv(p, backing, gifts) && Inv(q, backing', gifts)
    requires SameBut(p, q) && forall v :: AccruedMore(p, q, v)
    requires !AccrualOverflows(q, call)
    ensures var a, b := After(p, Execute(p, call)), After(q, Execute(q, call));
      && SameBut(a, b) && (forall v :: AccruedMore(a, b, v))
      && 0 <= PaidBy(p, call) <= PaidBy(q, call)
  {
    if Accrues(call) {
      assert UserInv(q, call.user);
      AccrualFitsIff(q, call.user);
      if q.Accrue(call.user).Ok? {
        AccrueTogether(p, q, call.user);
        SameOutcome(p, q, call, gifts, backing, backing');
        assert UserInv(p, call.user) && UserInv(q, call.user) && AccruedMore(p, q, call.user);
        QuoteShrinks(p, q, call.user);
        CreditsTogether(p, q, call);
        BooksTogether(p, q, call);
      } else {
        assert PassesGuards(p, call) == PassesGuards(q, call) == false;
        Refused(p, call);
        Refused(q, call);
      }
    } else {
      QuietBooks(p, q, call);
      QuietCall(p, call);
      QuietCall(q, call);
      forall v ensures AccruedMore(After(p, Execute(p, call)), After(q, Execute(q, call)), v) {
        assert AccruedMore(p, q, v);
      }
    }
  }

  lemma Refused(p: Pool, call: Call)
    requires Accrues(call) && !PassesGuards(p, call)
    ensures Execute(p, call).Err?
  {
  }

  /** A call that accrues nobody touches no user's entries. */
  lemma QuietCall(p: Pool, call: Call)
    requires !Accrues(call)
    ensures var q := After(p, Execute(p, call));
      q.staked == p.staked && q.userIndex == p.userIndex && q.claimable == p.claimable
    ensures PaidBy(p, call) == 0
  {
  }

  lemma QuietBooks(p: Pool, q: Pool, call: Call)
    requires !Accrues(call) && SameBut(p, q)
    ensures SameBut(After(p, Execute(p, call)), After(q, Execute(q, call)))
  {
  }

  /** After an accrual in both runs, both calls succeed or both fail, and the fuller run pays no more. */
  lemma SameOutcome(p: Pool, q: Pool, call: Call, gifts: nat, backing: int, backing': int)
    requires Inv(p, backing, gifts) && Inv(q, backing', gifts)
    requires SameBut(p, q) && Accrues(call) && AccruedMore(p, q, call.user)
    requires p.Accrue(call.user).Ok? && q.Accrue(call.user).Ok?
    requires SameBut(p.Accrue(call.user).value, q.Accrue(call.user).value)
    ensures Execute(p, call).Ok? <==> Execute(q, call).Ok?
    ensures 0 <= PaidBy(p, call) <= PaidBy(q, call)
  {
    var u := call.user;
    AccrueEffect(p, u);
    AccrueEffect(q, u);
    QuoteShrinks(p, q, u);
    CanPay(p, backing, gifts, u);
    CanPay(q, backing', gifts, u);
  }

  lemma CreditsTogether(p: Pool, q: Pool, call: Call)
    requires SameBut(p, q) && Accrues(call)
    requires p.Accrue(call.user).Ok? && q.Accrue(call.user).Ok?
    requires forall v :: AccruedMore(p, q, v)
    requires var pa, qa := p.Accrue(call.user).value, q.Accrue(call.user).value;
      && SameBut(pa, qa) && (forall v :: AccruedMore(pa, qa, v))
      && Get(pa.userIndex, call.user) == Get(qa.userIndex, call.user)
      && 0 <= Get(pa.claimable, call.user) <= Get(qa.claimable, call.user)
    requires Execute(p, call).Ok? <==> Execute(q, call).Ok?
    ensures forall v :: AccruedMore(After(p, Execute(p, call)), After(q, Execute(q, call)), v)
  {
    var a, b := After(p, Execute(p, call)), After(q, Execute(q, call));
    forall v ensures AccruedMore(a, b, v) {
      assert AccruedMore(p, q, v);
      if Execute(q, call).Ok? {
        CreditTogether(p, q, call, v);
      }
    }
  }

  lemma CreditTogether(p: Pool, q: Pool, call: Call, v: Address)
    requires Accrues(call) && Execute(p, call).Ok? && Execute(q, call).Ok?
    requires var u, pa, qa := call.user, p.Accrue(call.user).value, q.Accrue(call.user).value;
      && AccruedMore(pa, qa, v)
      && Get(pa.userIndex, u) == Get(qa.userIndex, u)
      && 0 <= Get(pa.claimable, u) <= Get(qa.claimable, u)
    ensures AccruedMore(After(p, Execute(p, call)), After(q, Execute(q, call)), v)
  {
    AfterAccrual(p, call, v);
    AfterAccrual(q, call, v);
    if v == call.user {
      ClaimEmpties(p, call);
      ClaimEmpties(q, call);
      var a, b := After(p, Execute(p, call)), After(q, Execute(q, call));
      ProductIsNonNegative(Get(b.staked, v), Get(a.userIndex, v) - Get(b.userIndex, v));
    }
  }

  lemma BooksTogether(p: Pool, q: Pool, call: Call)
    requires SameBut(p, q) && Accrues(call)
    requires Execute(p, call).Ok? <==> Execute(q, call).Ok?
    ensures SameBut(After(p, Execute(p, call)), After(q, Execute(q, call)))
  {
    if Execute(p, call).Ok? {
      StakesAfter(p, call);
      StakesAfter(q, call);
    }
  }

  lemma ClaimEmpties(p: Pool, call: Call)
    requires Accrues(call) && Execute(p, call).Ok?
    requires Get(p.Accrue(call.user).value.claimable, call.user) >= 0
    ensures PaidBy(p, call) == if call.Claim? then Get(p.Accrue(call.user).value.claimable, call.user) else 0
  {
  }

  /** A query made in the fuller run only. */
  lemma ExtraAccrual(p: Pool, q: Pool, u: Address)
    requires (forall v :: UserInv(p, v) && UserInv(q, v)) && SameBut(p, q)
    requires forall v :: AccruedMore(p, q, v)
    ensures var a := After(p, p.Claimable(u));
      SameBut(a, q) && forall v :: AccruedMore(a, q, v)
  {
    var a := After(p, p.Claimable(u));
    assert UserInv(p, u) && UserInv(q, u);
    if p.Accrue(u).Ok? {
      AccrueEffect(p, u);
      forall v ensures AccruedMore(a, q, v) {
        assert AccruedMore(p, q, v);
        if v == u {
          QuoteShrinks(p, q, u);
        }
      }
    }
  }

  lemma {:induction false} ThinRunSimulates(admin: Address, full: seq<Call>, thin: seq<Call>, u: Address)
    requires Thins(full, thin) && AccrualsFit(admin, thin)
    ensures var p, q := Run(admin, full), Run(admin, thin);
      && SameBut(p, q) && (forall v :: AccruedMore(p, q, v))
      && Gifted(full) == Gifted(thin)
      && ClaimedBy(admin, full, u) <= ClaimedBy(admin, thin, u)
    decreases |full|
  {
    if full != [] {
      var last, front := full[|full| - 1], full[..|full| - 1];
      ReachableInv(admin, front);
      if thin != [] && thin[|thin| - 1] == last && Thins(front, thin[..|thin| - 1]) {
        var rest := thin[..|thin| - 1];
        ThinRunSimulates(admin, front, rest, u);
        ReachableInv(admin, rest);
        StepTogether(Run(admin, front), Run(admin, rest), last, Gifted(front),
                     Funded(admin, front) - Claimed(admin, front), Funded(admin, rest) - Claimed(admin, rest));
      } else {
        ThinRunSimulates(admin, front, thin, u);
        ReachableInv(admin, thin);
        ExtraAccrual(Run(admin, front), Run(admin, thin), last.user);
      }
    }
  }

  /** Extra accruals never increase a payout: inserting `claimable` queries anywhere in a run, so long as no
      accrual of the run without them overflows, leaves every user with at most the same total. */
  lemma ExtraAccrualsNeverPay(admin: Address, full: seq<Call>, thin: seq<Call>, u: Address)
    requires Thins(full, thin) && AccrualsFit(admin, thin)
    ensures ClaimedBy(admin, full, u) <= ClaimedBy(admin, thin, u)
    ensures Quote(Run(admin, full), u) <= Quote(Run(admin, thin), u)
    ensures Run(admin, full).staked == Run(admin, thin).staked
  {
    ThinRunSimulates(admin, full, thin, u);
    ReachableInv(admin, full);
    ReachableInv(admin, thin);
    var p, q := Run(admin, full), Run(admin, thin);
    assert UserInv(p, u) && UserInv(q, u) && AccruedMore(p, q, u);
    QuoteShrinks(p, q, u);
  }

  /** Whether the next claim of the fuller run pays more: exactly when the thinner run's accrual does not fit, the
      fuller run's does, and there is something to pay. */
  lemma FullerClaimPaysMoreIff(admin: Address, full: seq<Call>, thin: seq<Call>, u: Address)
    requires Thins(full, thin) && AccrualsFit(admin, thin)
    ensures var p, q := Run(admin, full), Run(admin, thin);
      PaidBy(p, Claim(u)) > PaidBy(q, Claim(u))
      <==> !q.paused && !AccrualFits(q, u) && AccrualFits(p, u) && Quote(p, u) > 0
  {
    var p, q := Run(admin, full), Run(admin, thin);
    ThinRunSimulates(admin, full, thin, u);
    ExtraAccrualsNeverPay(admin, full, thin, u);
    PayoutsNeverBounce(admin, full, u, 0);
    PayoutsNeverBounce(admin, thin, u, 0);
    ReachableInv(admin, full);
    ReachableInv(admin, thin);
    assert UserInv(p, u) && UserInv(q, u) && AccruedMore(p, q, u);
    AccrualFitsIff(p, u);
    AccrualFitsIff(q, u);
    if q.Accrue(u).Ok? {
      AccrueFits(p, q, u);
    }
  }

  /** While the rewards funded and not yet paid, scaled, fit 128 bits at every point of a run, all its accruals fit. */
  lemma {:induction false} BackedAccrualsFit(admin: Address, calls: seq<Call>)
    requires AlwaysBacked(admin, calls)
    ensures AccrualsFit(admin, calls)
  {
    if calls != [] {
      var front, call := calls[..|calls| - 1], calls[|calls| - 1];
      forall k | 0 <= k <= |front| ensures BackingFits(admin, front[..k]) {
        assert calls[..k] == front[..k];
        assert BackingFits(admin, calls[..k]);
      }
      BackedAccrualsFit(admin, front);
      assert front[..|front|] == front && BackingFits(admin, front[..|front|]);
      ReachableInv(admin, front);
      if Accrues(call) {
        BackedAccrualFits(Run(admin, front), Funded(admin, front) - Claimed(admin, front), Gifted(front), call.user);
      }
    }
  }

  lemma RunAppend(admin: Address, calls: seq<Call>, call: Call)
    ensures var p := Run(admin, calls);
      && Run(admin, calls + [call]) == After(p, Execute(p, call))
      && (forall u :: ClaimedBy(admin, calls + [call], u) == ClaimedBy(admin, calls, u) + PaidTo(p, call, u))
  {
    assert (calls + [call])[..|calls|] == calls;
  }

  lemma ThinsAppend(full: seq<Call>, thin: seq<Call>, call: Call)
    requires Thins(full, thin)
    ensures Thins(full + [call], thin + [call])
    ensures call.Claimable? ==> Thins(full + [call], thin)
  {
    assert (full + [call])[..|full|] == full && (thin + [call])[..|thin|] == thin;
  }

  const HUGE: int := 100_000_000_000_000_000_000_000_000

  ghost function StakeAndFund(admin: Address, user: Address): seq<Call> {
    [Stake(user, 10, true)] + [FundRewards(admin, HUGE, true)]
  }

  lemma StakeAndFundRuns(admin: Address, user: Address)
    ensures var p, calls := Run(admin, StakeAndFund(admin, user)), StakeAndFund(admin, user);
      && p == Initial(admin).(totalStaked := 10, index := HUGE * SCALE / 10, staked := map[user := 10],
          held := 10 + HUGE)
      && ClaimedBy(admin, calls, user) == 0
  {
    var stake, fund := Stake(user, 10, true), FundRewards(admin, HUGE, true);
    var staked := Initial(admin).(staked := map[user := 10], totalStaked := 10, held := 10);
    assert Run(admin, [stake]) == staked && ClaimedBy(admin, [stake], user) == 0 by {
      assert [] + [stake] == [stake];
      RunAppend(admin, [], stake);
      StakeFirst(admin, user);
    }
    FundOnce(staked, admin);
    RunAppend(admin, [stake], fund);
  }

  lemma StakeFirst(admin: Address, user: Address)
    ensures var p := Initial(admin);
      Execute(p, Stake(user, 10, true)) == Ok(Done(p.(staked := map[user := 10], totalStaked := 10, held := 10), 0))
  {
    assert Initial(admin).Accrue(user) == Ok(Initial(admin));
  }

  lemma FundOnce(p: Pool, from: Address)
    requires !p.paused && from == p.admin && p.totalStaked == 10 && p.index == 0
    ensures Execute(p, FundRewards(from, HUGE, true)) ==
        Ok(Done(p.(index := HUGE * SCALE / 10, held := p.held + HUGE), 0))
  {
  }

  lemma ClaimOverflows(admin: Address, user: Address)
    ensures ClaimedBy(admin, StakeAndFund(admin, user) + [FundRewards(admin, HUGE, true)] + [Claim(user)], user) == 0
  {
    var start := StakeAndFund(admin, user);
    StakeAndFundRuns(admin, user);
    RunAppend(admin, start, FundRewards(admin, HUGE, true));
    RunAppend(admin, start + [FundRewards(admin, HUGE, true)], Claim(user));
  }

  lemma QueriedClaimPays(admin: Address, user: Address)
    ensures var start, fund := StakeAndFund(admin, user), FundRewards(admin, HUGE, true);
      ClaimedBy(admin, start + [Claimable(user)] + [fund] + [Claim(user)], user) == 2 * HUGE
  {
    var start := StakeAndFund(admin, user);
    StakeAndFundRuns(admin, user);
    RunAppend(admin, start, Claimable(user));
    var p, q := Run(admin, start), Run(admin, start + [Claimable(user)]);
    assert q == p.(userIndex := map[user := p.index], claimable := map[user := HUGE]);
    RunAppend(admin, start + [Claimable(user)], FundRewards(admin, HUGE, true));
    RunAppend(admin, start + [Claimable(user)] + [FundRewards(admin, HUGE, true)], Claim(user));
  }

  /** Without that premise a query can help: ten tokens staked, 10^26 funded twice, and the claim overflows; with
      a query between the fundings it pays everything. */
  lemma QueryCanRescueClaim(admin: Address, user: Address)
    ensures var thin := StakeAndFund(admin, user) + [FundRewards(admin, HUGE, true)] + [Claim(user)];
      var full := StakeAndFund(admin, user) + [Claimable(user)] + [FundRewards(admin, HUGE, true)] + [Claim(user)];
      Thins(full, thin) && ClaimedBy(admin, thin, user) == 0 && ClaimedBy(admin, full, user) == 2 * HUGE
  {
    var start, fund := StakeAndFund(admin, user), FundRewards(admin, HUGE, true);
    ClaimOverflows(admin, user);
    QueriedClaimPays(admin, user);
    ThinsItself(start);
    ThinsAppend(start, start, Claimable(user));
    ThinsAppend(start + [Claimable(user)], start, fund);
    ThinsAppend(start + [Claimable(user)] + [fund], start + [fund], Claim(user));
  }

  lemma {:induction false} ThinsItself(calls: seq<Call>)
    ensures Thins(calls, calls)
  {
    if calls != [] {
      ThinsItself(calls[..|calls| - 1]);
    }
  }
}
