/** governance: what a proposal is made of, what decides it, and when calls are accepted, read off the calls of a
    run. */
module GovernanceEffects {
  import opened Host
  import opened Governance
  import opened GovernanceProofs

  ghost predicate Accepted(g: Gov, call: Call) {
    Execute(g, call).Ok?
  }

  // ---- what a proposal is made of ----

  /** The total staked in force: the admin's last setting, or the initial one. */
  ghost function TotalInForce(admin: Address, total: int, calls: seq<Call>): int {
    if calls == [] then total else
      var call := calls[|calls| - 1];
      if call.SetTotalStaked? && call.caller == admin then call.total
      else TotalInForce(admin, total, calls[..|calls| - 1])
  }

  /** How many proposals were accepted. */
  ghost function Created(admin: Address, total: int, calls: seq<Call>): nat {
    if calls == [] then 0 else
      var front, call := calls[..|calls| - 1], calls[|calls| - 1];
      Created(admin, total, front) + if call.Create? && Accepted(Run(admin, total, front), call) then 1 else 0
  }

  lemma {:induction false} TotalIsInForce(admin: Address, total: int, calls: seq<Call>)
    ensures var g := Run(admin, total, calls);
      && g.admin == admin && g.totalStaked == TotalInForce(admin, total, calls)
      && g.count == Created(admin, total, calls)
  {
    if calls != [] {
      var front, call := calls[..|calls| - 1], calls[|calls| - 1];
      TotalIsInForce(admin, total, front);
      StepCounts(Run(admin, total, front), call);
    }
  }

  lemma StepCounts(g: Gov, call: Call)
    ensures var h := After(g, Execute(g, call));
      && h.admin == g.admin
      && h.totalStaked == (if call.SetTotalStaked? && call.caller == g.admin then call.total else g.totalStaked)
      && h.count == g.count + if call.Create? && Accepted(g, call) then 1 else 0
  {
  }

  /** How the proposal with a given number came about: the run before its accepted creation, and that call. */
  datatype Origin = Origin(before: seq<Call>, create: Call)

  ghost function OriginOf(admin: Address, total: int, calls: seq<Call>, id: int): Option<Origin> {
    if calls == [] then None else
      var front, call := calls[..|calls| - 1], calls[|calls| - 1];
      if call.Create? && Accepted(Run(admin, total, front), call) && Created(admin, total, front) + 1 == id
      then Some(Origin(front, call))
      else OriginOf(admin, total, front, id)
  }

  /** A stored proposal says what its creation said, with the total then in force and an end seven days later. */
  ghost predicate IsAsCreated(admin: Address, total: int, p: Proposal, id: int, origin: Origin) {
    && origin.create.Create? && p.id == id && p.proposer == origin.create.caller
    && p.key == origin.create.key && p.current == origin.create.current && p.proposed == origin.create.proposed
    && p.createdAt == origin.create.now && p.endsAt == origin.create.now + 604_800
    && p.totalStaked == TotalInForce(admin, total, origin.before)
  }

  ghost predicate OriginInv(admin: Address, total: int, g: Gov, id: int, origin: Option<Origin>) {
    && (id in g.proposals <==> origin.Some?) && (origin.Some? ==> 1 <= id <= g.count)
    && (id in g.proposals ==> IsAsCreated(admin, total, g.proposals[id], id, origin.value))
  }

  lemma StepKeepsOrigin(admin: Address, total: int, front: seq<Call>, g: Gov, call: Call, id: int,
                        origin: Option<Origin>)
    requires OriginInv(admin, total, g, id, origin)
    requires g.totalStaked == TotalInForce(admin, total, front)
    requires g.count >= 0 && (id in g.proposals <==> 1 <= id <= g.count)
    ensures OriginInv(admin, total, After(g, Execute(g, call)), id,
                      if call.Create? && Accepted(g, call) && g.count + 1 == id then Some(Origin(front, call))
                      else origin)
  {
    StepMakesProposal(g, call, id);
    StepCounts(g, call);
    if id in g.proposals {
      VotesKeepOrigin(admin, total, g.proposals[id], After(g, Execute(g, call)).proposals[id], id, origin.value);
    }
  }

  /** Over any run the proposals are the accepted creations, numbered from one, and each says what its creation said:
      the total staked it needs a tenth of is the one in force then. */
  lemma {:induction false} ProposalsAreAsCreated(admin: Address, total: int, calls: seq<Call>, id: int)
    ensures OriginInv(admin, total, Run(admin, total, calls), id, OriginOf(admin, total, calls, id))
  {
    if calls != [] {
      var front := calls[..|calls| - 1];
      ProposalsAreAsCreated(admin, total, front, id);
      TotalIsInForce(admin, total, front);
      TallyIsSnapshots(admin, total, front, id);
      StepKeepsOrigin(admin, total, front, Run(admin, total, front), calls[|calls| - 1], id,
                      OriginOf(admin, total, front, id));
    }
  }

  lemma VotesKeepOrigin(admin: Address, total: int, p: Proposal, q: Proposal, id: int, origin: Origin)
    requires IsAsCreated(admin, total, p, id, origin)
    requires q == p.(votesFor := q.votesFor, votesAgainst := q.votesAgainst, status := q.status)
    ensures IsAsCreated(admin, total, q, id, origin)
  {
  }

  lemma StepMakesProposal(g: Gov, call: Call, id: int)
    requires g.count >= 0 && (id in g.proposals <==> 1 <= id <= g.count)
    ensures var h := After(g, Execute(g, call));
      if call.Create? && Accepted(g, call) && g.count + 1 == id
      then id in h.proposals && h.proposals[id] ==
             Proposal(id, call.caller, call.key, call.current, call.proposed, 0, 0, Active,
                      call.now, call.now + 604_800, g.totalStaked)
      else
        && (id in h.proposals <==> id in g.proposals)
        && (id in g.proposals ==>
              var p, q := g.proposals[id], h.proposals[id];
              q == p.(votesFor := q.votesFor, votesAgainst := q.votesAgainst, status := q.status))
  {
  }

  // ---- what decides it ----

  /** A vote is won by a strict majority of no fewer votes than a tenth, rounded down, of the total. */
  lemma WonIff(p: Proposal)
    requires p.totalStaked >= 0
    ensures Won(p) <==> p.votesFor > p.votesAgainst && p.totalStaked / 10 <= p.votesFor + p.votesAgainst
  {
    assert p.totalStaked * 1_000 / 10_000 == p.totalStaked / 10;
  }

  /** A proposal whose votes are no strict majority, or fewer than a tenth of the total in force when it was made, is
      never passed or executed. */
  lemma LosersNeverPass(admin: Address, total: int, calls: seq<Call>, id: int)
    requires OriginOf(admin, total, calls, id).Some?
    requires TotalInForce(admin, total, OriginOf(admin, total, calls, id).value.before) >= 0
    ensures id in Run(admin, total, calls).proposals
    ensures var p := Run(admin, total, calls).proposals[id];
      var inForce := TotalInForce(admin, total, OriginOf(admin, total, calls, id).value.before);
      p.votesFor <= p.votesAgainst || p.votesFor + p.votesAgainst < inForce / 10 ==>
        p.status != Passed && p.status != Executed
  {
    ProposalsAreAsCreated(admin, total, calls, id);
    TallyIsSnapshots(admin, total, calls, id);
    WonIff(Run(admin, total, calls).proposals[id]);
  }

  /** What accepted calls make of a proposal's status, and what they answer. */
  lemma CallsTakeEffect(g: Gov, call: Call)
    requires Accepted(g, call)
    ensures var h, answer := After(g, Execute(g, call)), Execute(g, call).value.value;
      && (call.Create? ==>
            answer == NewProposal(h.count) && h.count in h.proposals && h.proposals[h.count].status == Active)
      && (call.Finalize? ==>
            && call.id in g.proposals && call.id in h.proposals
            && h.proposals[call.id].status == (if Won(g.proposals[call.id]) then Passed else Rejected)
            && answer == Decided(h.proposals[call.id].status))
      && (call.ExecuteProposal? ==> call.id in h.proposals && h.proposals[call.id].status == Executed)
      && (call.Cancel? ==> call.id in h.proposals && h.proposals[call.id].status == Cancelled)
      && (!call.Create? && !call.Finalize? ==> answer == Nothing)
      && (call.Vote? ==>
            && call.id in g.proposals && call.id in h.proposals && h.proposals[call.id].status == Active
            && var weight := Get(g.snapshots, (call.id, call.caller));
            && h.proposals[call.id].votesFor == g.proposals[call.id].votesFor + (if call.support then weight else 0)
            && h.proposals[call.id].votesAgainst
               == g.proposals[call.id].votesAgainst + (if call.support then 0 else weight))
  {
  }

  // ---- stakes ----

  /** A voter's stake as the admin last set it, and whether a staking pool answers for stakes. */
  ghost function StakeSet(admin: Address, calls: seq<Call>, v: Address): (int, bool) {
    if calls == [] then (0, false) else
      var last := StakeSet(admin, calls[..|calls| - 1], v);
      match calls[|calls| - 1]
      case SetVoterStake(caller, voter, stake) => if caller == admin && voter == v then (stake, last.1) else last
      case SetStakingPool(caller) => if caller == admin then (last.0, true) else last
      case _ => last
  }

  /** A voter's weight is what the pool answers once there is one, and what the admin set before. */
  lemma {:induction false} StakesAreTheAdmins(admin: Address, total: int, calls: seq<Call>, v: Address,
                                              pool: map<Address, int>)
    ensures var g, stake := Run(admin, total, calls), StakeSet(admin, calls, v);
      && g.hasPool == stake.1 && Get(g.stakes, v) == stake.0
      && g.StakeFor(v, pool) == if stake.1 then Get(pool, v) else stake.0
  {
    if calls != [] {
      StakesAreTheAdmins(admin, total, calls[..|calls| - 1], v, pool);
      TotalIsInForce(admin, total, calls[..|calls| - 1]);
      StepStakes(Run(admin, total, calls[..|calls| - 1]), calls[|calls| - 1], v);
    }
  }

  lemma StepStakes(g: Gov, call: Call, v: Address)
    ensures var h := After(g, Execute(g, call));
      && h.hasPool == (g.hasPool || (call.SetStakingPool? && call.caller == g.admin))
      && Get(h.stakes, v)
         == if call.SetVoterStake? && call.caller == g.admin && call.voter == v then call.stake else Get(g.stakes, v)
  {
  }

  // ---- when calls are accepted ----

  /** A proposal is accepted exactly from somebody with a stake of at least one, while the numbers fit. */
  lemma CreateSucceedsIff(admin: Address, total: int, calls: seq<Call>, call: Call)
    requires call.Create?
    ensures var g, stake := Run(admin, total, calls), StakeSet(admin, calls, call.caller);
      Accepted(g, call) <==>
        && (if stake.1 then Get(call.pool, call.caller) else stake.0) >= 1
        && Created(admin, total, calls) < U64_MAX && call.now + 604_800 <= U64_MAX
  {
    TotalIsInForce(admin, total, calls);
    StakesAreTheAdmins(admin, total, calls, call.caller, call.pool);
  }

  /** A vote is accepted exactly on an active proposal until its end, from somebody who has not voted on it. */
  lemma VoteSucceedsIff(g: Gov, call: Call)
    requires call.Vote?
    ensures Accepted(g, call) <==>
      && call.id in g.proposals && g.proposals[call.id].status == Active && call.now <= g.proposals[call.id].endsAt
      && (call.id, call.caller) !in g.voted
      && FitsI128(Get(g.snapshots, (call.id, call.caller))
                  + if call.support then g.proposals[call.id].votesFor else g.proposals[call.id].votesAgainst)
  {
  }

  /** An active proposal is finalised by anybody after its end; a passed one is executed by anybody two days later; an
      active one is cancelled by its proposer. */
  lemma DecisionsSucceedIff(g: Gov, call: Call)
    ensures call.Finalize? ==>
      (Accepted(g, call) <==>
        && call.id in g.proposals && g.proposals[call.id].status == Active && g.proposals[call.id].endsAt < call.now
        && FitsI128(g.proposals[call.id].votesFor + g.proposals[call.id].votesAgainst)
        && FitsI128(g.proposals[call.id].totalStaked * 1_000))
    ensures call.ExecuteProposal? ==>
      (Accepted(g, call) <==>
        && call.id in g.proposals && g.proposals[call.id].status == Passed
        && 0 <= g.proposals[call.id].endsAt + 172_800 <= U64_MAX
        && g.proposals[call.id].endsAt + 172_800 <= call.now)
    ensures call.Cancel? ==>
      (Accepted(g, call) <==>
        && call.id in g.proposals && g.proposals[call.id].status == Active
        && g.proposals[call.id].proposer == call.caller)
  {
  }
}
