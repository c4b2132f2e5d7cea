/** governance: tallies are the creation-time snapshots of those who voted, and nothing executes without
    having won. */
module GovernanceProofs {
  import opened Host
  import opened Members
  import opened MapSums
  import opened Governance

  ghost function Resume(g: Gov, calls: seq<Call>): Gov {
    if calls == [] then g else
      var before := Resume(g, calls[..|calls| - 1]);
      After(before, Execute(before, calls[|calls| - 1]))
  }

  ghost function Run(admin: Address, total: int, calls: seq<Call>): Gov {
    Resume(Initial(admin, total), calls)
  }

  /** Who voted on a proposal over a run, and how. */
  ghost function Ballots(admin: Address, total: int, calls: seq<Call>, id: int): map<Address, bool> {
    if calls == [] then map[] else
      var front, call := calls[..|calls| - 1], calls[|calls| - 1];
      var before := Ballots(admin, total, front, id);
      if call.Vote? && call.id == id && Execute(Run(admin, total, front), call).Ok?
      then before[call.caller := call.support] else before
  }

  /** The snapshotted weights of the voters on one side. */
  ghost function Weights(g: Gov, id: int, ballots: map<Address, bool>, side: bool): map<Address, int> {
    map v | v in ballots && ballots[v] == side :: Get(g.snapshots, (id, v))
  }

  ghost predicate Won(p: Proposal) {
    p.votesFor > p.votesAgainst && p.votesFor + p.votesAgainst >= QuorumOf(p)
  }

  ghost predicate TallyInv(g: Gov, id: int, ballots: map<Address, bool>) {
    && g.count >= 0
    && (id in g.proposals <==> 1 <= id <= g.count)
    && (forall v :: (id, v) in g.voted <==> v in ballots)
    && (id !in g.proposals ==> ballots == map[])
    && (id in g.proposals ==>
          var p := g.proposals[id];
          && p.id == id
          && p.votesFor == Sum(Weights(g, id, ballots, true))
          && p.votesAgainst == Sum(Weights(g, id, ballots, false))
          && (p.status == Passed || p.status == Executed ==> Won(p)))
  }

  lemma {:induction false} SnapshotTouchesOne(g: Gov, id: int, voters: seq<Address>, pool: map<Address, int>,
                                              other: int, v: Address)
    ensures var s := g.Snapshot(id, voters, pool);
      && (other != id ==> Get(s, (other, v)) == Get(g.snapshots, (other, v)))
      && (v in voters ==> Get(s, (id, v)) == g.StakeFor(v, pool))
      && (v !in voters ==> Get(s, (id, v)) == Get(g.snapshots, (id, v)))
  {
    if voters != [] {
      SnapshotTouchesOne(g, id, voters[..|voters| - 1], pool, other, v);
    }
  }

  /** A call leaves the snapshots of every existing proposal alone. */
  lemma SnapshotsAreFrozen(g: Gov, call: Call, id: int, v: Address)
    requires id <= g.count
    ensures Get(After(g, Execute(g, call)).snapshots, (id, v)) == Get(g.snapshots, (id, v))
  {
    if call.Create? && Execute(g, call).Ok? {
      SnapshotTouchesOne(g, g.count + 1, Register(g.known, call.caller), call.pool, id, v);
    }
  }

  lemma SameWeights(g: Gov, h: Gov, id: int, ballots: map<Address, bool>, side: bool)
    requires forall v :: Get(h.snapshots, (id, v)) == Get(g.snapshots, (id, v))
    ensures Weights(h, id, ballots, side) == Weights(g, id, ballots, side)
  {
  }

  /** One more ballot adds the voter's snapshot to one side. */
  lemma BallotMovesSum(g: Gov, h: Gov, id: int, ballots: map<Address, bool>, voter: Address, support: bool)
    requires h.snapshots == g.snapshots && voter !in ballots
    ensures var cast := ballots[voter := support];
      && Sum(Weights(h, id, cast, support)) == Sum(Weights(g, id, ballots, support)) + Get(g.snapshots, (id, voter))
      && Sum(Weights(h, id, cast, !support)) == Sum(Weights(g, id, ballots, !support))
  {
    var cast, weight := ballots[voter := support], Get(g.snapshots, (id, voter));
    assert Weights(h, id, cast, support) == Weights(g, id, ballots, support)[voter := weight];
    SumOfUpdate(Weights(g, id, ballots, support), voter, weight);
    assert Weights(h, id, cast, !support) == Weights(g, id, ballots, !support);
  }

  lemma VoteKeepsTally(g: Gov, call: Call, ballots: map<Address, bool>)
    requires call.Vote? && Execute(g, call).Ok? && TallyInv(g, call.id, ballots)
    ensures TallyInv(After(g, Execute(g, call)), call.id, ballots[call.caller := call.support])
  {
    BallotMovesSum(g, After(g, Execute(g, call)), call.id, ballots, call.caller, call.support);
  }

  /** Any other call leaves a proposal's tally and its voters alone. */
  lemma OthersKeepVotes(g: Gov, call: Call, id: int)
    requires g.count >= 0 && (id in g.proposals <==> 1 <= id <= g.count)
    requires !(call.Vote? && call.id == id && Execute(g, call).Ok?)
    ensures var h := After(g, Execute(g, call));
      && h.count >= g.count && (id in h.proposals <==> 1 <= id <= h.count)
      && (forall v :: (id, v) in h.voted <==> (id, v) in g.voted)
      && (id in g.proposals ==>
            h.proposals[id].id == g.proposals[id].id && h.proposals[id].votesFor == g.proposals[id].votesFor &&
            h.proposals[id].votesAgainst == g.proposals[id].votesAgainst &&
            h.proposals[id].totalStaked == g.proposals[id].totalStaked &&
            (h.proposals[id].status in {Passed, Executed} ==>
               g.proposals[id].status in {Passed, Executed} || Won(h.proposals[id])))
      && (id !in g.proposals && id in h.proposals ==>
            h.proposals[id].id == id && h.proposals[id].votesFor == 0 == h.proposals[id].votesAgainst &&
            h.proposals[id].status == Active)
  {
  }

  lemma OthersKeepTally(g: Gov, call: Call, id: int, ballots: map<Address, bool>)
    requires TallyInv(g, id, ballots)
    requires !(call.Vote? && call.id == id && Execute(g, call).Ok?)
    ensures TallyInv(After(g, Execute(g, call)), id, ballots)
  {
    var h := After(g, Execute(g, call));
    OthersKeepVotes(g, call, id);
    if id in g.proposals {
      forall v ensures Get(h.snapshots, (id, v)) == Get(g.snapshots, (id, v)) {
        SnapshotsAreFrozen(g, call, id, v);
      }
      SameWeights(g, h, id, ballots, true);
      SameWeights(g, h, id, ballots, false);
    } else {
      assert Weights(h, id, ballots, true) == map[] && Weights(h, id, ballots, false) == map[];
    }
  }

  /** The tally: votes for and against are, at any time, the sums of the creation-time snapshots of the
      distinct voters on either side, whatever happened to their stakes since; and only a proposal that won,
      by a strict majority meeting the snapshotted quorum, is ever passed or executed. */
  lemma {:induction false} TallyIsSnapshots(admin: Address, total: int, calls: seq<Call>, id: int)
    ensures TallyInv(Run(admin, total, calls), id, Ballots(admin, total, calls, id))
  {
    if calls != [] {
      var front, call := calls[..|calls| - 1], calls[|calls| - 1];
      TallyIsSnapshots(admin, total, front, id);
      var g, ballots := Run(admin, total, front), Ballots(admin, total, front, id);
      if call.Vote? && call.id == id && Execute(g, call).Ok? {
        VoteKeepsTally(g, call, ballots);
      } else {
        OthersKeepTally(g, call, id, ballots);
      }
    }
  }

  /** A snapshot taken at creation stays what it was: the stake then of every voter registered by then,
      the proposer among them, and nothing for anybody else. */
  lemma {:induction false} SnapshotIsCreationStake(admin: Address, total: int, calls: seq<Call>, create: Call,
                                                   more: seq<Call>, v: Address)
    requires create.Create? && Execute(Run(admin, total, calls), create).Ok?
    ensures var g := Run(admin, total, calls);
      var h := Resume(After(g, Execute(g, create)), more);
      && h.count > g.count
      && Get(h.snapshots, (g.count + 1, v))
         == if v in g.known || v == create.caller then g.StakeFor(v, create.pool) else 0
    decreases |more|
  {
    var g := Run(admin, total, calls);
    if more == [] {
      NoEarlySnapshot(admin, total, calls, g.count + 1, v);
      SnapshotTouchesOne(g, g.count + 1, Register(g.known, create.caller), create.pool, 0, v);
    } else {
      var front, call := more[..|more| - 1], more[|more| - 1];
      SnapshotIsCreationStake(admin, total, calls, create, front, v);
      SnapshotsAreFrozen(Resume(After(g, Execute(g, create)), front), call, g.count + 1, v);
    }
  }

  lemma {:induction false} NoEarlySnapshot(admin: Address, total: int, calls: seq<Call>, id: int, v: Address)
    requires id > Run(admin, total, calls).count
    ensures Get(Run(admin, total, calls).snapshots, (id, v)) == 0
  {
    if calls != [] {
      var front, call := calls[..|calls| - 1], calls[|calls| - 1];
      var g := Run(admin, total, front);
      NoEarlySnapshot(admin, total, front, id, v);
      if call.Create? && Execute(g, call).Ok? {
        SnapshotTouchesOne(g, g.count + 1, Register(g.known, call.caller), call.pool, id, v);
      }
    }
  }

  // ---- the life of a proposal ----

  ghost predicate Follows(before: Status, after: Status) {
    || before == after
    || (before == Active && after != Executed)
    || (before == Passed && after == Executed)
  }

  /** One call moves a proposal along its life only: votes count while active and in time, it passes or is
      rejected after the vote has ended, and executes no sooner than the timelock allows. */
  lemma StepFollows(g: Gov, call: Call, id: int)
    requires id in g.proposals && id <= g.count
    ensures var h := After(g, Execute(g, call));
      && id in h.proposals
      && var p, q := g.proposals[id], h.proposals[id];
      && Follows(p.status, q.status)
      && p.(status := q.status, votesFor := q.votesFor, votesAgainst := q.votesAgainst) == q
      && (q.votesFor != p.votesFor || q.votesAgainst != p.votesAgainst ==>
          p.status == Active && call.Vote? && call.now <= p.endsAt)
      && (p.status == Active && (q.status == Passed || q.status == Rejected) ==> call.Finalize? && call.now > p.endsAt)
      && (p.status == Active && q.status == Cancelled ==> call.Cancel? && call.caller == p.proposer)
      && (p.status == Passed && q.status == Executed ==> call.ExecuteProposal? && call.now >= p.endsAt + TIMELOCK)
      && (p.status == Active && q.status == Rejected ==> !Won(q))
  {
  }

  /** Finalising decides, and answers with, the status now stored: passed if and only if the vote was won. */
  lemma FinalizeDecides(g: Gov, id: int, now: int)
    requires g.Finalize(id, now).Ok?
    ensures var h := g.Finalize(id, now).value.gov;
      && id in g.proposals && id in h.proposals
      && g.Finalize(id, now).value.value == Decided(h.proposals[id].status)
      && h.proposals[id].status == if Won(g.proposals[id]) then Passed else Rejected
  {
  }

  /** A decision is final: what was rejected, executed or cancelled stays so with its tally, over any
      further run. */
  lemma {:induction false} DecisionsAreFinal(g: Gov, calls: seq<Call>, id: int)
    requires id in g.proposals && id <= g.count
    requires g.proposals[id].status in {Rejected, Executed, Cancelled}
    ensures var h := Resume(g, calls);
      id in h.proposals && id <= h.count && h.proposals[id] == g.proposals[id]
  {
    if calls != [] {
      var front := calls[..|calls| - 1];
      DecisionsAreFinal(g, front, id);
      StepFollows(Resume(g, front), calls[|calls| - 1], id);
    }
  }

  /** Call number i of a run was accepted and finalised the proposal after the voting ended. */
  ghost predicate Finalises(admin: Address, total: int, calls: seq<Call>, i: int, id: int, endsAt: int) {
    && 0 <= i < |calls| && calls[i].Finalize? && calls[i].id == id && calls[i].now > endsAt
    && Execute(Run(admin, total, calls[..i]), calls[i]).Ok?
  }

  /** Call number j of a run was accepted and executed the proposal after the timelock. */
  ghost predicate Executes(admin: Address, total: int, calls: seq<Call>, j: int, id: int, endsAt: int) {
    && 0 <= j < |calls| && calls[j].ExecuteProposal? && calls[j].id == id && calls[j].now >= endsAt + TIMELOCK
    && Execute(Run(admin, total, calls[..j]), calls[j]).Ok?
  }

  /** A passed or executed proposal won its vote and was finalised, by an accepted call after the voting ended; an
      executed one was then executed, by a later accepted call no sooner than the timelock after that end. */
  lemma {:induction false} ExecutedWasDue(admin: Address, total: int, calls: seq<Call>, id: int)
    requires id in Run(admin, total, calls).proposals
    requires Run(admin, total, calls).proposals[id].status in {Passed, Executed}
    ensures var p := Run(admin, total, calls).proposals[id];
      && Won(p)
      && exists i :: Finalises(admin, total, calls, i, id, p.endsAt)
           && (p.status == Executed ==> exists j :: i < j && Executes(admin, total, calls, j, id, p.endsAt))
  {
    TallyIsSnapshots(admin, total, calls, id);
    var front, call := calls[..|calls| - 1], calls[|calls| - 1];
    var g := Run(admin, total, front);
    var q := Run(admin, total, calls).proposals[id];
    TallyIsSnapshots(admin, total, front, id);
    StepDecides(g, call, id);
    assert calls == front + [call];
    if id in g.proposals && g.proposals[id].status in {Passed, Executed} {
      ExecutedWasDue(admin, total, front, id);
      var i :| Finalises(admin, total, front, i, id, q.endsAt)
        && (g.proposals[id].status == Executed ==> exists j :: i < j && Executes(admin, total, front, j, id, q.endsAt));
      StillThere(admin, total, front, call, i, id, q.endsAt);
      if g.proposals[id].status == Executed {
        var j :| i < j && Executes(admin, total, front, j, id, q.endsAt);
        StillThere(admin, total, front, call, j, id, q.endsAt);
      } else if q.status == Executed {
        assert Executes(admin, total, calls, |front|, id, q.endsAt);
      }
    } else {
      assert Finalises(admin, total, calls, |front|, id, q.endsAt);
    }
  }

  lemma StillThere(admin: Address, total: int, front: seq<Call>, call: Call, i: int, id: int, endsAt: int)
    ensures Finalises(admin, total, front, i, id, endsAt) ==> Finalises(admin, total, front + [call], i, id, endsAt)
    ensures Executes(admin, total, front, i, id, endsAt) ==> Executes(admin, total, front + [call], i, id, endsAt)
  {
    if 0 <= i < |front| {
      assert (front + [call])[..i] == front[..i];
    }
  }

  /** Only an accepted finalisation makes a proposal passed, and only an accepted execution makes it executed. */
  lemma StepDecides(g: Gov, call: Call, id: int)
    requires id in g.proposals ==> id <= g.count
    requires id in After(g, Execute(g, call)).proposals
    ensures var q := After(g, Execute(g, call)).proposals[id];
      && (q.status in {Passed, Executed} && !(id in g.proposals && g.proposals[id].status in {Passed, Executed}) ==>
            Execute(g, call).Ok? && call.Finalize? && call.id == id && call.now > q.endsAt && q.status == Passed)
      && (id in g.proposals && g.proposals[id].status in {Passed, Executed} ==>
            && q.endsAt == g.proposals[id].endsAt
            && (q.status == g.proposals[id].status
                || (Execute(g, call).Ok? && call.ExecuteProposal? && call.id == id && call.now >= q.endsAt + TIMELOCK
                    && g.proposals[id].status == Passed && q.status == Executed)))
  {
  }

  /** A vote is accepted once: after it, no vote of the same voter on the same proposal succeeds again. */
  lemma {:induction false} VotersVoteOnce(g: Gov, vote: Call, calls: seq<Call>, again: Call)
    requires vote.Vote? && again.Vote? && Execute(g, vote).Ok? && again.caller == vote.caller && again.id == vote.id
    ensures (vote.id, vote.caller) in Resume(After(g, Execute(g, vote)), calls).voted
    ensures Execute(Resume(After(g, Execute(g, vote)), calls), again).Err?
    decreases |calls|
  {
    if calls != [] {
      VotersVoteOnce(g, vote, calls[..|calls| - 1], again);
    }
  }

  // ---- the voters' list ----

  /** Whom a call registers, if it succeeds. */
  ghost function RegisteredBy(g: Gov, call: Call): set<Address> {
    if Execute(g, call).Err? then {}
    else if call.SetVoterStake? then {call.voter}
    else if call.Create? then {call.caller}
    else {}
  }

  ghost function Registered(admin: Address, total: int, calls: seq<Call>): set<Address> {
    if calls == [] then {} else
      var front := calls[..|calls| - 1];
      Registered(admin, total, front) + RegisteredBy(Run(admin, total, front), calls[|calls| - 1])
  }

  lemma RegisterListsOnce(known: seq<Address>, voter: Address)
    requires NoRepeats(known)
    ensures NoRepeats(Register(known, voter))
    ensures forall v :: v in Register(known, voter) <==> v in known || v == voter
  {
  }

  lemma StepRegisters(g: Gov, call: Call)
    ensures var h := After(g, Execute(g, call));
      if RegisteredBy(g, call) == {} then h.known == g.known
      else exists voter :: RegisteredBy(g, call) == {voter} && h.known == Register(g.known, voter)
  {
    if Execute(g, call).Ok? && (call.SetVoterStake? || call.Create?) {
      var voter := if call.SetVoterStake? then call.voter else call.caller;
      assert voter in RegisteredBy(g, call);
    }
  }

  /** Over any run the list of known voters holds everybody who was given a stake or made a proposal, nobody
      else, and nobody twice. */
  lemma {:induction false} VotersAreListedOnce(admin: Address, total: int, calls: seq<Call>)
    ensures var known := Run(admin, total, calls).known;
      NoRepeats(known) && forall v :: v in known <==> v in Registered(admin, total, calls)
  {
    if calls != [] {
      var front, call := calls[..|calls| - 1], calls[|calls| - 1];
      var g := Run(admin, total, front);
      VotersAreListedOnce(admin, total, front);
      StepRegisters(g, call);
      forall voter ensures NoRepeats(Register(g.known, voter)) {
        RegisterListsOnce(g.known, voter);
      }
    }
  }
}
