/** mvp_staking_pool: in every reachable state the pool holds enough tokens for all stake plus
    everything any set of users could claim, so no withdrawal or claim ever fails at the token. */
module StakingPoolSolvency {
  import opened Host
  import opened Products
  import opened MapSums
  import opened StakingPool

  /** The state after a run of calls, failed ones included. */
  ghost function Run(admin: Address, calls: seq<Call>): Pool {
    if calls == [] then Initial(admin) else
      var before := Run(admin, calls[..|calls| - 1]);
      After(before, Execute(before, calls[|calls| - 1]))
  }

  ghost function FundedBy(p: Pool, call: Call): int {
    if call.FundRewards? && Execute(p, call).Ok? then call.amount else 0
  }

  ghost function PaidBy(p: Pool, call: Call): int {
    if call.Claim? && Execute(p, call).Ok? then Execute(p, call).value.value else 0
  }

  ghost function GivenBy(call: Call): nat {
    if call.Gift? then call.tokens else 0
  }

  /** Tokens sent to the contract outside its entry points. */
  ghost function Gifted(calls: seq<Call>): nat {
    if calls == [] then 0 else Gifted(calls[..|calls| - 1]) + GivenBy(calls[|calls| - 1])
  }

  /** Rewards funded over a run. */
  ghost function Funded(admin: Address, calls: seq<Call>): int {
    if calls == [] then 0 else
      var front := calls[..|calls| - 1];
      Funded(admin, front) + FundedBy(Run(admin, front), calls[|calls| - 1])
  }

  /** Rewards paid out over a run. */
  ghost function Claimed(admin: Address, calls: seq<Call>): int {
    if calls == [] then 0 else
      var front := calls[..|calls| - 1];
      Claimed(admin, front) + PaidBy(Run(admin, front), calls[|calls| - 1])
  }

  /** What the index has earned each staker since the last accrual, scaled. */
  ghost function Pending(p: Pool): map<Address, int> {
    map u | u in p.staked :: p.staked[u] * (p.index - Get(p.userIndex, u))
  }

  /** What `claimable` would answer for a user, overflow aside: the stored credit plus the floor
      of what is pending. */
  ghost function Quote(p: Pool, u: Address): int {
    Get(p.claimable, u) + Get(p.staked, u) * (p.index - Get(p.userIndex, u)) / SCALE
  }

  ghost predicate UserInv(p: Pool, u: Address) {
    && 0 <= Get(p.userIndex, u) <= p.index
    && 0 <= Get(p.used, u) <= Get(p.staked, u)
    && 0 <= Get(p.claimable, u) <= I128_MAX
    && (u in p.claimable ==> u in p.staked)
  }

  ghost predicate Inv(p: Pool, backing: int, gifts: nat) {
    && FitsI128(p.index)
    && FitsI128(p.totalStaked)
    && (forall u :: UserInv(p, u))
    && Sum(p.staked) == p.totalStaked
    && SCALE * Sum(p.claimable) + Sum(Pending(p)) <= SCALE * backing
    && p.held == p.totalStaked + backing + gifts
  }

  lemma StakeIsWithinTotal(p: Pool, backing: int, gifts: nat, u: Address)
    requires Inv(p, backing, gifts)
    ensures 0 <= Get(p.staked, u) <= p.totalStaked
  {
    forall j | j in p.staked ensures p.staked[j] >= 0 {
      assert UserInv(p, j);
    }
    EntryIsWithinSum(p.staked, u);
  }

  lemma CreditIsBacked(p: Pool, backing: int, gifts: nat)
    requires Inv(p, backing, gifts)
    ensures 0 <= Sum(p.claimable) <= backing
  {
    forall j | j in p.claimable ensures p.claimable[j] >= 0 {
      assert UserInv(p, j);
    }
    var pending := Pending(p);
    forall j | j in p.staked ensures pending[j] >= 0 {
      assert UserInv(p, j);
      ProductIsNonNegative(p.staked[j], p.index - Get(p.userIndex, j));
    }
    PartialSumIsSmaller(p.claimable, {});
    PartialSumIsSmaller(pending, {});
  }

  /** What one accrual does: the index is caught up and the credit becomes the quote. */
  lemma AccrueEffect(p: Pool, u: Address)
    requires UserInv(p, u)
    requires p.Accrue(u).Ok?
    ensures var q := p.Accrue(u).value;
      && q == p.(userIndex := q.userIndex, claimable := q.claimable)
      && (forall v :: v != u ==>
            Get(q.userIndex, v) == Get(p.userIndex, v) && Get(q.claimable, v) == Get(p.claimable, v))
      && Get(q.userIndex, u) == p.index
      && Get(q.claimable, u) == Quote(p, u) >= Get(p.claimable, u)
      && (q.claimable == p.claimable || (u in p.staked && q.claimable == p.claimable[u := Quote(p, u)]))
  {
    ProductIsNonNegative(Get(p.staked, u), p.index - Get(p.userIndex, u));
  }

  lemma AccrueKeepsInv(p: Pool, backing: int, gifts: nat, u: Address)
    requires Inv(p, backing, gifts)
    requires p.Accrue(u).Ok?
    ensures var q := p.Accrue(u).value;
      Inv(q, backing, gifts) && Get(q.userIndex, u) == q.index
  {
    var q := p.Accrue(u).value;
    assert UserInv(p, u);
    AccrueEffect(p, u);
    forall v ensures UserInv(q, v) {
      assert UserInv(p, v);
    }
    AccrueMovesPending(p, u, q);
  }

  lemma AccrueMovesPending(p: Pool, u: Address, q: Pool)
    requires UserInv(p, u)
    requires p.Accrue(u) == Ok(q)
    ensures SCALE * Sum(q.claimable) + Sum(Pending(q)) <= SCALE * Sum(p.claimable) + Sum(Pending(p))
  {
    AccrueEffect(p, u);
    CaughtUp(p, u, q);
    QuoteIsFloor(p, u);
    if q.claimable != p.claimable {
      SumOfUpdate(p.claimable, u, Quote(p, u));
    }
  }

  /** Catching up one user's index takes exactly that user's entry out of the pending rewards. */
  lemma CaughtUp(p: Pool, u: Address, q: Pool)
    requires q.index == p.index && q.staked == p.staked
    requires forall v :: v != u ==> Get(q.userIndex, v) == Get(p.userIndex, v)
    requires Get(q.userIndex, u) == p.index
    ensures Sum(Pending(q)) == Sum(Pending(p)) - Get(Pending(p), u)
  {
    var before, after := Pending(p), Pending(q);
    forall v | v in p.staked ensures after[v] == if v == u then 0 else before[v] {
      if v == u {
        ProductIsNonNegative(p.staked[u], q.index - Get(q.userIndex, u));
      } else {
        assert Get(q.userIndex, v) == Get(p.userIndex, v);
      }
    }
    if u in p.staked {
      assert after == before[u := 0];
      SumOfUpdate(before, u, 0);
    } else {
      assert after == before;
    }
  }

  /** Changing the stake of a user whose index is current leaves every pending reward alone. */
  lemma RestakeKeepsPending(p: Pool, u: Address, stake: int, q: Pool)
    requires Get(p.userIndex, u) == p.index
    requires q.index == p.index && q.userIndex == p.userIndex && q.staked == p.staked[u := stake]
    ensures Sum(Pending(q)) == Sum(Pending(p))
  {
    var before, after := Pending(p), Pending(q);
    ProductIsNonNegative(stake, p.index - Get(p.userIndex, u));
    ProductIsNonNegative(Get(p.staked, u), p.index - Get(p.userIndex, u));
    assert after == before[u := 0];
    SumOfUpdate(before, u, 0);
  }

  lemma StakeKeepsInv(p: Pool, backing: int, gifts: nat, u: Address, amount: int, pays: bool)
    requires Inv(p, backing, gifts)
    requires p.Stake(u, amount, pays).Ok?
    ensures Inv(p.Stake(u, amount, pays).value.pool, backing, gifts)
  {
    AccrueKeepsInv(p, backing, gifts, u);
    var a, q := p.Accrue(u).value, p.Stake(u, amount, pays).value.pool;
    forall v ensures UserInv(q, v) {
      assert UserInv(a, v);
    }
    RestakeKeepsPending(a, u, Get(q.staked, u), q);
    SumOfUpdate(a.staked, u, Get(q.staked, u));
  }

  lemma UnstakeKeepsInv(p: Pool, backing: int, gifts: nat, u: Address, amount: int)
    requires Inv(p, backing, gifts)
    requires p.Unstake(u, amount).Ok?
    ensures Inv(p.Unstake(u, amount).value.pool, backing, gifts)
  {
    AccrueKeepsInv(p, backing, gifts, u);
    var a, q := p.Accrue(u).value, p.Unstake(u, amount).value.pool;
    assert UserInv(a, u);
    StakeIsWithinTotal(a, backing, gifts, u);
    forall v ensures UserInv(q, v) {
      assert UserInv(a, v);
    }
    RestakeKeepsPending(a, u, Get(q.staked, u), q);
    SumOfUpdate(a.staked, u, Get(q.staked, u));
  }

  lemma UtilizeKeepsInv(p: Pool, backing: int, gifts: nat, caller: Address, u: Address, amount: int)
    requires Inv(p, backing, gifts)
    requires p.Utilize(caller, u, amount).Ok?
    ensures Inv(p.Utilize(caller, u, amount).value.pool, backing, gifts)
  {
    AccrueKeepsInv(p, backing, gifts, u);
    var a, q := p.Accrue(u).value, p.Utilize(caller, u, amount).value.pool;
    assert UserInv(a, u);
    StakeIsWithinTotal(a, backing, gifts, u);
    forall v ensures UserInv(q, v) {
      assert UserInv(a, v);
    }
    assert Pending(q) == Pending(a);
  }

  lemma FundKeepsInv(p: Pool, backing: int, gifts: nat, from: Address, amount: int, pays: bool)
    requires Inv(p, backing, gifts)
    requires p.FundRewards(from, amount, pays).Ok?
    ensures Inv(p.FundRewards(from, amount, pays).value.pool, backing + amount, gifts)
  {
    var q := p.FundRewards(from, amount, pays).value.pool;
    var increment := q.index - p.index;
    FloorTimesDivisor(amount * SCALE, p.totalStaked);
    assert increment >= 0 && increment * p.totalStaked <= amount * SCALE;
    forall v ensures UserInv(q, v) {
      assert UserInv(p, v);
    }
    FundGrowsPending(p, q, increment);
  }

  lemma FundGrowsPending(p: Pool, q: Pool, increment: int)
    requires q.staked == p.staked && q.userIndex == p.userIndex && q.index == p.index + increment
    ensures Sum(Pending(q)) == Sum(Pending(p)) + increment * Sum(p.staked)
  {
    forall v | v in p.staked ensures Pending(q)[v] == Pending(p)[v] + increment * p.staked[v] {
      ProductSpreads(p.staked[v], p.index - Get(p.userIndex, v), increment);
    }
    SumIsLinear(Pending(p), p.staked, Pending(q), increment);
  }

  lemma ClaimKeepsInv(p: Pool, backing: int, gifts: nat, u: Address)
    requires Inv(p, backing, gifts)
    requires p.Claim(u).Ok?
    ensures Inv(p.Claim(u).value.pool, backing - p.Claim(u).value.value, gifts)
  {
    AccrueKeepsInv(p, backing, gifts, u);
    var a, q := p.Accrue(u).value, p.Claim(u).value.pool;
    forall v ensures UserInv(q, v) {
      assert UserInv(a, v);
    }
    assert Pending(q) == Pending(a);
    SumOfUpdate(a.claimable, u, 0);
    assert UserInv(a, u);
  }

  lemma StepKeepsInv(p: Pool, backing: int, gifts: nat, call: Call)
    requires Inv(p, backing, gifts)
    ensures Inv(After(p, Execute(p, call)), backing + FundedBy(p, call) - PaidBy(p, call), gifts + GivenBy(call))
  {
    if Execute(p, call).Ok? {
      match call {
        case Stake(user, amount, pays) => StakeKeepsInv(p, backing, gifts, user, amount, pays);
        case Unstake(user, amount) => UnstakeKeepsInv(p, backing, gifts, user, amount);
        case Utilize(caller, user, amount) => UtilizeKeepsInv(p, backing, gifts, caller, user, amount);
        case FundRewards(from, amount, pays) => FundKeepsInv(p, backing, gifts, from, amount, pays);
        case Claimable(user) => AccrueKeepsInv(p, backing, gifts, user);
        case Claim(user) => ClaimKeepsInv(p, backing, gifts, user);
        case SetPaused(_, _) => SameBooks(p, backing, gifts, call);
        case Gift(_) => SameBooks(p, backing, gifts, call);
      }
    }
  }

  lemma SameBooks(p: Pool, backing: int, gifts: nat, call: Call)
    requires Inv(p, backing, gifts) && (call.SetPaused? || call.Gift?)
    ensures Inv(After(p, Execute(p, call)), backing, gifts + GivenBy(call))
  {
    var q := After(p, Execute(p, call));
    forall v ensures UserInv(q, v) {
      assert UserInv(p, v);
    }
    assert Pending(q) == Pending(p);
  }

  lemma {:induction false} ReachableInv(admin: Address, calls: seq<Call>)
    ensures Inv(Run(admin, calls), Funded(admin, calls) - Claimed(admin, calls), Gifted(calls))
  {
    if calls != [] {
      var front := calls[..|calls| - 1];
      ReachableInv(admin, front);
      StepKeepsInv(Run(admin, front), Funded(admin, front) - Claimed(admin, front), Gifted(front), calls[|calls| - 1]);
    } else {
      assert Pending(Initial(admin)) == map[];
    }
  }

  ghost function Quotes(p: Pool, users: set<Address>): map<Address, int> {
    map u | u in p.staked && u in users :: Quote(p, u)
  }

  lemma AllQuotesAreBacked(p: Pool, backing: int, gifts: nat, users: set<Address>)
    requires Inv(p, backing, gifts)
    ensures Sum(Quotes(p, users)) <= backing
  {
    var all := map u | u in p.staked :: Quote(p, u);
    forall u | u in p.staked ensures all[u] >= 0 {
      QuoteIsFloor(p, u);
    }
    assert Quotes(p, users) == map u | u in all && u in users :: all[u];
    PartialSumIsSmaller(all, users);
    ScaledQuotes(p, all);
  }

  lemma QuoteIsFloor(p: Pool, u: Address)
    requires UserInv(p, u)
    ensures 0 <= SCALE * Quote(p, u) <= SCALE * Get(p.claimable, u) + Get(Pending(p), u)
  {
    ProductIsNonNegative(Get(p.staked, u), p.index - Get(p.userIndex, u));
  }

  lemma ScaledQuotes(p: Pool, all: map<Address, int>)
    requires forall u :: UserInv(p, u)
    requires all == map u | u in p.staked :: Quote(p, u)
    ensures SCALE * Sum(all) <= SCALE * Sum(p.claimable) + Sum(Pending(p))
  {
    var credit := map u | u in p.staked :: Get(p.claimable, u);
    var zero := map u | u in p.staked :: 0;
    var scaled := map u | u in p.staked :: 0 + SCALE * all[u];
    var owed := map u | u in p.staked :: Pending(p)[u] + SCALE * credit[u];
    forall u | u in p.staked ensures scaled[u] <= owed[u] {
      QuoteIsFloor(p, u);
    }
    SumOfZeros(zero);
    SumIsLinear(zero, all, scaled, SCALE);
    SumIsMonotone(scaled, owed);
    SumIsLinear(Pending(p), credit, owed, SCALE);
    forall u ensures u in p.claimable ==> u in p.staked {
      assert UserInv(p, u);
    }
    SumIgnoresAbsent(p.claimable, credit);
  }

  /** Padding a map with zero entries keeps its sum. */
  lemma {:induction false} SumIgnoresAbsent(m: map<Address, int>, padded: map<Address, int>)
    requires m.Keys <= padded.Keys
    requires forall u :: u in padded ==> padded[u] == Get(m, u)
    ensures Sum(m) == Sum(padded)
    decreases |padded|
  {
    if padded != map[] {
      var u :| u in padded;
      SumTakesOut(padded, u);
      SumOfRemoval(m, u);
      SumIgnoresAbsent(m - {u}, padded - {u});
    } else {
      assert m == map[];
    }
  }

  /** Solvency: after any run, the books balance and the tokens held cover all stake together with
      all that any set of users could claim, and no more is ever claimable than was funded and
      not yet paid. */
  lemma PoolIsSolvent(admin: Address, calls: seq<Call>, users: set<Address>)
    ensures var p := Run(admin, calls);
      && Sum(p.staked) == p.totalStaked
      && Sum(Quotes(p, users)) <= Funded(admin, calls) - Claimed(admin, calls)
      && p.held == p.totalStaked + Funded(admin, calls) - Claimed(admin, calls) + Gifted(calls)
      && forall u :: 0 <= Get(p.used, u) <= Get(p.staked, u) <= p.totalStaked
  {
    ReachableInv(admin, calls);
    var p, backing, gifts := Run(admin, calls), Funded(admin, calls) - Claimed(admin, calls), Gifted(calls);
    AllQuotesAreBacked(p, backing, gifts, users);
    forall u ensures 0 <= Get(p.used, u) <= Get(p.staked, u) <= p.totalStaked {
      assert UserInv(p, u);
      StakeIsWithinTotal(p, backing, gifts, u);
    }
  }

  /** What one call adds to a user's stake, and to the part of it in use. */
  ghost function Moved(p: Pool, call: Call, u: Address): (int, int) {
    if Execute(p, call).Err? then (0, 0)
    else match call
      case Stake(user, amount, _) => (if user == u then amount else 0, 0)
      case Unstake(user, amount) => (if user == u then -amount else 0, 0)
      case Utilize(_, user, amount) => (0, if user == u then amount else 0)
      case _ => (0, 0)
  }

  ghost function NetStake(admin: Address, calls: seq<Call>, u: Address): int {
    if calls == [] then 0 else
      var front := calls[..|calls| - 1];
      NetStake(admin, front, u) + Moved(Run(admin, front), calls[|calls| - 1], u).0
  }

  ghost function NetUse(admin: Address, calls: seq<Call>, u: Address): int {
    if calls == [] then 0 else
      var front := calls[..|calls| - 1];
      NetUse(admin, front, u) + Moved(Run(admin, front), calls[|calls| - 1], u).1
  }

  ghost predicate Accrues(call: Call) {
    call.Stake? || call.Unstake? || call.Utilize? || call.Claimable? || call.Claim?
  }

  lemma AccrueLeavesStakes(p: Pool, u: Address)
    requires p.Accrue(u).Ok?
    ensures var a := p.Accrue(u).value;
      && a.staked == p.staked && a.used == p.used && a.totalStaked == p.totalStaked
      && a.admin == p.admin && a.paused == p.paused && a.index == p.index
  {
  }

  lemma AccrueLeavesOthers(p: Pool, u: Address, v: Address)
    requires p.Accrue(u).Ok? && v != u
    ensures var a := p.Accrue(u).value;
      Get(a.userIndex, v) == Get(p.userIndex, v) && Get(a.claimable, v) == Get(p.claimable, v)
  {
  }

  /** What a call that accrues makes of the stakes depends on nothing but the stakes and the call. */
  lemma StakesAfter(p: Pool, call: Call)
    requires Accrues(call) && Execute(p, call).Ok?
    ensures var q := After(p, Execute(p, call));
      && q.admin == p.admin && q.paused == p.paused && q.index == p.index
      && q.totalStaked == p.totalStaked + Raised(call)
      && q.staked == (if !call.Stake? && !call.Unstake? then p.staked
                      else p.staked[call.user := Get(p.staked, call.user) + Raised(call)])
      && q.used == (if call.Utilize? then RaisedUse(p.used, call) else p.used)
  {
    AccrueLeavesStakes(p, call.user);
  }

  ghost function Raised(call: Call): int {
    if call.Stake? then call.amount else if call.Unstake? then -call.amount else 0
  }

  ghost function RaisedUse(used: map<Address, int>, call: Call): map<Address, int>
    requires call.Utilize?
  {
    var total := Get(used, call.user) + call.amount;
    if total <= 0 then used - {call.user} else used[call.user := total]
  }

  /** What a successful call changes of other users' credit, and of the caller's, after its accrual. */
  lemma AfterAccrual(p: Pool, call: Call, v: Address)
    requires Accrues(call) && Execute(p, call).Ok?
    ensures var pa, a := p.Accrue(call.user).value, After(p, Execute(p, call));
      && a.index == pa.index && a.userIndex == pa.userIndex
      && (v != call.user ==> Get(a.staked, v) == Get(pa.staked, v) && Get(a.claimable, v) == Get(pa.claimable, v))
      && Get(a.claimable, call.user) == Get(pa.claimable, call.user) - PaidBy(p, call)
  {
  }

  lemma OthersUntouched(p: Pool, call: Call, u: Address)
    requires Accrues(call) && Execute(p, call).Ok? && call.user != u
    ensures var q := After(p, Execute(p, call));
      && q.index == p.index && Get(q.userIndex, u) == Get(p.userIndex, u)
      && Get(q.staked, u) == Get(p.staked, u) && Get(q.claimable, u) == Get(p.claimable, u)
  {
    AfterAccrual(p, call, u);
    AccrueLeavesStakes(p, call.user);
    AccrueLeavesOthers(p, call.user, u);
  }

  lemma StepMovesStake(p: Pool, call: Call, u: Address)
    requires UserInv(p, u)
    ensures var q := After(p, Execute(p, call));
      && Get(q.staked, u) == Get(p.staked, u) + Moved(p, call, u).0
      && Get(q.used, u) == Get(p.used, u) + Moved(p, call, u).1
  {
    if Accrues(call) && Execute(p, call).Ok? {
      StakesAfter(p, call);
    }
  }

  /** Every user's stake is that user's own deposits less withdrawals; what is in use only grows. */
  lemma {:induction false} StakeIsNetDeposits(admin: Address, calls: seq<Call>, u: Address)
    ensures Get(Run(admin, calls).staked, u) == NetStake(admin, calls, u)
    ensures Get(Run(admin, calls).used, u) == NetUse(admin, calls, u)
  {
    if calls != [] {
      var front, call := calls[..|calls| - 1], calls[|calls| - 1];
      StakeIsNetDeposits(admin, front, u);
      ReachableInv(admin, front);
      assert UserInv(Run(admin, front), u);
      StepMovesStake(Run(admin, front), call, u);
    }
  }

  lemma CreditIsCovered(p: Pool, backing: int, gifts: nat, u: Address)
    requires Inv(p, backing, gifts)
    ensures 0 <= Get(p.claimable, u) <= backing
  {
    CreditIsBacked(p, backing, gifts);
    forall j | j in p.claimable ensures p.claimable[j] >= 0 {
      assert UserInv(p, j);
    }
    EntryIsWithinSum(p.claimable, u);
  }
}
