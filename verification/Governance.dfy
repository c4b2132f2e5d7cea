/** governance: proposals decided by votes weighted with stakes snapshotted when the proposal was made. */
module Governance {
  import opened Host

  const VOTING_PERIOD: int := 7 * 24 * 3600
  const TIMELOCK: int := 48 * 3600
  const QUORUM_BPS: int := 1_000
  const MIN_STAKE_TO_PROPOSE: int := 1

  datatype Error =
    | NotAuthorized | ProposalNotFound | ProposalNotActive | VotingNotEnded | TimelockNotElapsed | AlreadyVoted
    | InsufficientStake | ProposalNotPassed | ProposalAlreadyExecuted | Overflow

  datatype Status = Active | Passed | Rejected | Executed | Cancelled

  datatype Proposal = Proposal(
    id: int, proposer: Address, key: string, current: int, proposed: int, votesFor: int, votesAgainst: int,
    status: Status, createdAt: int, endsAt: int, totalStaked: int)

  /** What a call answers: nothing, the id of a new proposal, or the status a proposal was given. */
  datatype Value = Nothing | NewProposal(id: int) | Decided(status: Status)

  datatype Done = Done(gov: Gov, value: Value)

  type Reply = Outcome<Done, Error>

  function Register(known: seq<Address>, voter: Address): seq<Address> {
    if voter in known then known else known + [voter]
  }

  function QuorumOf(p: Proposal): int {
    TruncDiv(p.totalStaked * QUORUM_BPS, 10_000)
  }

  /** Storage. When a staking pool is set, stakes are its answers, passed to the calls that ask. */
  datatype Gov = Gov(
    admin: Address, hasPool: bool, totalStaked: int, count: int, proposals: map<int, Proposal>,
    voted: set<(int, Address)>, stakes: map<Address, int>, known: seq<Address>, snapshots: map<(int, Address), int>)
  {
    function StakeFor(voter: Address, pool: map<Address, int>): int {
      if hasPool then Get(pool, voter) else Get(stakes, voter)
    }

    /** Snapshots of the first voters of a list for one proposal. */
    function Snapshot(id: int, voters: seq<Address>, pool: map<Address, int>): map<(int, Address), int> {
      if voters == [] then snapshots else
        var last := voters[|voters| - 1];
        Snapshot(id, voters[..|voters| - 1], pool)[(id, last) := StakeFor(last, pool)]
    }

    function SetTotalStaked(caller: Address, total: int): Reply {
      if caller != admin then Err(NotAuthorized) else Ok(Done(this.(totalStaked := total), Nothing))
    }

    function SetStakingPool(caller: Address): Reply {
      if caller != admin then Err(NotAuthorized) else Ok(Done(this.(hasPool := true), Nothing))
    }

    function SetVoterStake(caller: Address, voter: Address, stake: int): Reply {
      if caller != admin then Err(NotAuthorized)
      else Ok(Done(this.(stakes := stakes[voter := stake], known := Register(known, voter)), Nothing))
    }

    function Create(proposer: Address, key: string, current: int, proposed: int, now: int,
                    pool: map<Address, int>): Reply
    {
      if StakeFor(proposer, pool) < MIN_STAKE_TO_PROPOSE then Err(InsufficientStake)
      else
        var id := count + 1;
        if !FitsU64(id) || !FitsU64(now + VOTING_PERIOD) then Err(Overflow)
        else
          var voters := Register(known, proposer);
          Ok(Done(this.(
            known := voters, snapshots := Snapshot(id, voters, pool), count := id,
            proposals := proposals[id := Proposal(id, proposer, key, current, proposed, 0, 0, Active,
                                                  now, now + VOTING_PERIOD, totalStaked)]), NewProposal(id)))
    }

    function Vote(voter: Address, id: int, support: bool, now: int): Reply {
      if id !in proposals then Err(ProposalNotFound)
      else
        var p, weight := proposals[id], Get(snapshots, (id, voter));
        if p.status != Active then Err(ProposalNotActive)
        else if now > p.endsAt then Err(VotingNotEnded)
        else if (id, voter) in voted then Err(AlreadyVoted)
        else if !FitsI128(if support then p.votesFor + weight else p.votesAgainst + weight) then Err(Overflow)
        else Ok(Done(this.(
          proposals := proposals[id := if support then p.(votesFor := p.votesFor + weight)
                                       else p.(votesAgainst := p.votesAgainst + weight)],
          voted := voted + {(id, voter)}), Nothing))
    }

    function Finalize(id: int, now: int): Reply {
      if id !in proposals then Err(ProposalNotFound)
      else
        var p := proposals[id];
        if p.status != Active then Err(ProposalNotActive)
        else if now <= p.endsAt then Err(VotingNotEnded)
        else if !FitsI128(p.votesFor + p.votesAgainst) || !FitsI128(p.totalStaked * QUORUM_BPS) then Err(Overflow)
        else
          var passes := p.votesFor + p.votesAgainst >= QuorumOf(p) && p.votesFor > p.votesAgainst;
          var status := if passes then Passed else Rejected;
          Ok(Done(this.(proposals := proposals[id := p.(status := status)]), Decided(status)))
    }

    function ExecuteProposal(id: int, now: int): Reply {
      if id !in proposals then Err(ProposalNotFound)
      else
        var p := proposals[id];
        if p.status == Executed then Err(ProposalAlreadyExecuted)
        else if p.status != Passed then Err(ProposalNotPassed)
        else if !FitsU64(p.endsAt + TIMELOCK) then Err(Overflow)
        else if now < p.endsAt + TIMELOCK then Err(TimelockNotElapsed)
        else Ok(Done(this.(proposals := proposals[id := p.(status := Executed)]), Nothing))
    }

    function Cancel(caller: Address, id: int): Reply {
      if id !in proposals then Err(ProposalNotFound)
      else if proposals[id].status != Active then Err(ProposalNotActive)
      else if proposals[id].proposer != caller then Err(NotAuthorized)
      else Ok(Done(this.(proposals := proposals[id := proposals[id].(status := Cancelled)]), Nothing))
    }
  }

  function Initial(admin: Address, totalStaked: int): Gov {
    Gov(admin, false, totalStaked, 0, map[], {}, map[], [], map[])
  }

  datatype Call =
    | SetTotalStaked(caller: Address, total: int)
    | SetStakingPool(caller: Address)
    | SetVoterStake(caller: Address, voter: Address, stake: int)
    | Create(caller: Address, key: string, current: int, proposed: int, now: nat, pool: map<Address, int>)
    | Vote(caller: Address, id: int, support: bool, now: nat)
    | Finalize(id: int, now: nat)
    | ExecuteProposal(id: int, now: nat)
    | Cancel(caller: Address, id: int)

  function Execute(g: Gov, call: Call): Reply {
    match call
    case SetTotalStaked(caller, total) => g.SetTotalStaked(caller, total)
    case SetStakingPool(caller) => g.SetStakingPool(caller)
    case SetVoterStake(caller, voter, stake) => g.SetVoterStake(caller, voter, stake)
    case Create(caller, key, current, proposed, now, pool) => g.Create(caller, key, current, proposed, now, pool)
    case Vote(caller, id, support, now) => g.Vote(caller, id, support, now)
    case Finalize(id, now) => g.Finalize(id, now)
    case ExecuteProposal(id, now) => g.ExecuteProposal(id, now)
    case Cancel(caller, id) => g.Cancel(caller, id)
  }

  function After(g: Gov, reply: Reply): Gov {
    if reply.Ok? then reply.value.gov else g
  }

  function Answer(reply: Reply): Outcome<Value, Error> {
    match reply
    case Ok(done) => Ok(done.value)
    case Err(e) => Err(e)
  }

  class Contract {
    const admin: Address
    var hasPool: bool
    var totalStaked: int
    var count: int
    var proposals: map<int, Proposal>
    var voted: set<(int, Address)>
    var stakes: map<Address, int>
    var known: seq<Address>
    var snapshots: map<(int, Address), int>

    function State(): Gov
      reads this
    {
      Gov(admin, hasPool, totalStaked, count, proposals, voted, stakes, known, snapshots)
    }

    constructor (admin: Address, totalStaked: int)
      ensures State() == Initial(admin, totalStaked)
    {
      this.admin, hasPool, this.totalStaked, count := admin, false, totalStaked, 0;
      proposals, voted, stakes, known, snapshots := map[], {}, map[], [], map[];
    }

    method RegisterKnownVoter(voter: Address)
      modifies this`known
      ensures known == Register(old(known), voter)
    {
      var isKnown := false;
      for i := 0 to |known|
        invariant known == old(known) && isKnown == (voter in known[..i])
      {
        if known[i] == voter {
          isKnown := true;
          assert voter in known;
          break;
        }
      }
      if !isKnown {
        assert known[..|known|] == known;
        known := known + [voter];
      }
    }

    method SnapshotKnownVoters(id: int, pool: map<Address, int>)
      modifies this`snapshots
      ensures snapshots == old(State()).Snapshot(id, known, pool)
    {
      for i := 0 to |known|
        invariant snapshots == old(State()).Snapshot(id, known[..i], pool)
      {
        assert known[..i + 1][..i] == known[..i];
        var stake := if hasPool then Get(pool, known[i]) else Get(stakes, known[i]);
        snapshots := snapshots[(id, known[i]) := stake];
      }
      assert known[..|known|] == known;
    }

    method SetVoterStake(caller: Address, voter: Address, stake: int) returns (r: Outcome<Value, Error>)
      modifies this
      ensures var spec := old(State()).SetVoterStake(caller, voter, stake);
        State() == After(old(State()), spec) && r == Answer(spec)
    {
      if caller != admin {
        return Err(NotAuthorized);
      }
      stakes := stakes[voter := stake];
      RegisterKnownVoter(voter);
      return Ok(Nothing);
    }

    method SetTotalStaked(caller: Address, total: int) returns (r: Outcome<Value, Error>)
      modifies this
      ensures var spec := old(State()).SetTotalStaked(caller, total);
        State() == After(old(State()), spec) && r == Answer(spec)
    {
      if caller != admin {
        return Err(NotAuthorized);
      }
      totalStaked := total;
      return Ok(Nothing);
    }

    method SetStakingPool(caller: Address) returns (r: Outcome<Value, Error>)
      modifies this
      ensures var spec := old(State()).SetStakingPool(caller);
        State() == After(old(State()), spec) && r == Answer(spec)
    {
      if caller != admin {
        return Err(NotAuthorized);
      }
      hasPool := true;
      return Ok(Nothing);
    }

    method CreateProposal(proposer: Address, key: string, current: int, proposed: int, now: int,
                          pool: map<Address, int>)
      returns (r: Outcome<Value, Error>)
      modifies this
      ensures var spec := old(State()).Create(proposer, key, current, proposed, now, pool);
        State() == After(old(State()), spec) && r == Answer(spec)
    {
      var stake := if hasPool then Get(pool, proposer) else Get(stakes, proposer);
      if stake < MIN_STAKE_TO_PROPOSE {
        return Err(InsufficientStake);
      }
      var id := count + 1;
      if !FitsU64(id) || !FitsU64(now + VOTING_PERIOD) {
        return Err(Overflow);
      }
      var total := totalStaked;
      RegisterKnownVoter(proposer);
      ghost var registered := State();
      SnapshotKnownVoters(id, pool);
      SnapshotIgnoresKnown(old(State()), registered, id, registered.known, pool);
      proposals := proposals[id := Proposal(id, proposer, key, current, proposed, 0, 0, Active,
                                            now, now + VOTING_PERIOD, total)];
      count := id;
      return Ok(NewProposal(id));
    }

    method Vote(voter: Address, id: int, support: bool, now: int) returns (r: Outcome<Value, Error>)
      modifies this
      ensures var spec := old(State()).Vote(voter, id, support, now);
        State() == After(old(State()), spec) && r == Answer(spec)
    {
      if id !in proposals {
        return Err(ProposalNotFound);
      }
      var p := proposals[id];
      if p.status != Active {
        return Err(ProposalNotActive);
      }
      if now > p.endsAt {
        return Err(VotingNotEnded);
      }
      if (id, voter) in voted {
        return Err(AlreadyVoted);
      }
      var weight := Get(snapshots, (id, voter));
      if support {
        if !FitsI128(p.votesFor + weight) {
          return Err(Overflow);
        }
        p := p.(votesFor := p.votesFor + weight);
      } else {
        if !FitsI128(p.votesAgainst + weight) {
          return Err(Overflow);
        }
        p := p.(votesAgainst := p.votesAgainst + weight);
      }
      proposals := proposals[id := p];
      voted := voted + {(id, voter)};
      return Ok(Nothing);
    }

    method FinalizeProposal(id: int, now: int) returns (r: Outcome<Value, Error>)
      modifies this
      ensures var spec := old(State()).Finalize(id, now);
        State() == After(old(State()), spec) && r == Answer(spec)
    {
      if id !in proposals {
        return Err(ProposalNotFound);
      }
      var p := proposals[id];
      if p.status != Active {
        return Err(ProposalNotActive);
      }
      if now <= p.endsAt {
        return Err(VotingNotEnded);
      }
      var totalVotes := p.votesFor + p.votesAgainst;
      if !FitsI128(totalVotes) || !FitsI128(p.totalStaked * QUORUM_BPS) {
        return Err(Overflow);
      }
      var required := TruncDiv(p.totalStaked * QUORUM_BPS, 10_000);
      if totalVotes < required {
        p := p.(status := Rejected);
      } else if p.votesFor > p.votesAgainst {
        p := p.(status := Passed);
      } else {
        p := p.(status := Rejected);
      }
      proposals := proposals[id := p];
      return Ok(Decided(p.status));
    }

    method ExecuteProposal(id: int, now: int) returns (r: Outcome<Value, Error>)
      modifies this
      ensures var spec := old(State()).ExecuteProposal(id, now);
        State() == After(old(State()), spec) && r == Answer(spec)
    {
      if id !in proposals {
        return Err(ProposalNotFound);
      }
      var p := proposals[id];
      if p.status == Executed {
        return Err(ProposalAlreadyExecuted);
      }
      if p.status != Passed {
        return Err(ProposalNotPassed);
      }
      if !FitsU64(p.endsAt + TIMELOCK) {
        return Err(Overflow);
      }
      if now < p.endsAt + TIMELOCK {
        return Err(TimelockNotElapsed);
      }
      proposals := proposals[id := p.(status := Executed)];
      return Ok(Nothing);
    }

    method CancelProposal(caller: Address, id: int) returns (r: Outcome<Value, Error>)
      modifies this
      ensures var spec := old(State()).Cancel(caller, id);
        State() == After(old(State()), spec) && r == Answer(spec)
    {
      if id !in proposals {
        return Err(ProposalNotFound);
      }
      var p := proposals[id];
      if p.status != Active {
        return Err(ProposalNotActive);
      }
      if p.proposer != caller {
        return Err(NotAuthorized);
      }
      proposals := proposals[id := p.(status := Cancelled)];
      return Ok(Nothing);
    }
  }

  /** Snapshots depend on the stakes only, not on who is registered. */
  lemma {:induction false} SnapshotIgnoresKnown(g: Gov, h: Gov, id: int, voters: seq<Address>, pool: map<Address, int>)
    requires g.(known := h.known) == h
    ensures g.Snapshot(id, voters, pool) == h.Snapshot(id, voters, pool)
  {
    if voters != [] {
      SnapshotIgnoresKnown(g, h, id, voters[..|voters| - 1], pool);
    }
  }
}
