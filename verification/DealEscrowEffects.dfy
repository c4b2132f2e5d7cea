/** deal_escrow: who is paid, when, and what every accepted call leaves, read off the calls of a run. */
module DealEscrowEffects {
  import opened Host
  import opened DealEscrow
  import opened DealEscrowProofs

  ghost predicate Accepted(e: Escrow, call: Call) {
    Execute(e, call).Ok?
  }

  // ---- who a release pays ----

  /** What a list of payments brings an address for a deal. */
  ghost function Received(sent: seq<Payment>, d: string, w: Address): int {
    if sent == [] then 0 else
      var last := sent[|sent| - 1];
      Received(sent[..|sent| - 1], d, w) + if last.deal == d && last.to == w then last.amount else 0
  }

  lemma {:induction false} ReceivedAppend(a: seq<Payment>, b: seq<Payment>, d: string, w: Address)
    ensures Received(a + b, d, w) == Received(a, d, w) + Received(b, d, w)
    decreases |b|
  {
    if b == [] {
      assert a + b == a;
    } else {
      assert (a + b)[..|a + b| - 1] == a + b[..|b| - 1];
      ReceivedAppend(a, b[..|b| - 1], d, w);
    }
  }

  /** What a list of parts promises an address. */
  ghost function PartOf(parts: seq<(Address, int)>, w: Address): int {
    if parts == [] then 0 else (if parts[0].0 == w then parts[0].1 else 0) + PartOf(parts[1..], w)
  }

  lemma {:induction false} SplitPaysEach(deal: string, parts: seq<(Address, int)>, d: string, w: Address)
    requires forall i :: 0 <= i < |parts| ==> parts[i].1 >= 0
    ensures Received(Split(deal, parts), d, w) == if deal == d then PartOf(parts, w) else 0
    decreases |parts|
  {
    if parts != [] {
      SplitPaysEach(deal, parts[1..], d, w);
      var first := if parts[0].1 > 0 then [Payment(deal, parts[0].0, parts[0].1)] else [];
      ReceivedAppend(first, Split(deal, parts[1..]), d, w);
      assert [Payment(deal, parts[0].0, parts[0].1)][..0] == [];
    }
  }

  lemma PartOfThree(parts: seq<(Address, int)>, w: Address)
    requires |parts| == 3
    ensures PartOf(parts, w)
      == (if parts[0].0 == w then parts[0].1 else 0) + (if parts[1].0 == w then parts[1].1 else 0)
         + (if parts[2].0 == w then parts[2].1 else 0)
  {
    var two, one := parts[1..], parts[2..];
    assert two[1..] == one && one[1..] == [] && two[0] == parts[1] && one[0] == parts[2];
    assert PartOf(one, w) == if parts[2].0 == w then parts[2].1 else 0;
    assert PartOf(two, w) == (if parts[1].0 == w then parts[1].1 else 0) + PartOf(one, w);
  }

  /** An accepted release pays each address, for its deal, the principal if it is the recipient, the fee if it is the
      platform and the bounty if it is the reporter; it pays nothing else to anybody, and answers the sum. */
  lemma ReleasePaysEach(e: Escrow, call: Call, d: string, w: Address)
    requires call.Release? && Accepted(e, call)
    ensures Received(After(e, Execute(e, call)).sent, d, w)
      == Received(e.sent, d, w)
         + if d != call.deal then 0
           else (if w == call.to then call.principal else 0) + (if w == call.platform then call.fee else 0)
                + (if w == call.reporter then call.bounty else 0)
    ensures Execute(e, call).value.value == call.principal + call.fee + call.bounty == Get(e.balances, call.deal)
    ensures Get(After(e, Execute(e, call)).balances, call.deal) == 0
  {
    var parts := [(call.to, call.principal), (call.platform, call.fee), (call.reporter, call.bounty)];
    ReceivedAppend(e.sent, Split(call.deal, parts), d, w);
    SplitPaysEach(call.deal, parts, d, w);
    PartOfThree(parts, w);
  }

  /** No call pays anybody but a release and a settlement, and a settlement pays one address the amount asked. */
  lemma OnlyTheseCallsPay(birth: Birth, calls: seq<Call>, call: Call, d: string, w: Address)
    requires !call.Release?
    ensures var e := Run(birth, calls);
      Received(After(e, Execute(e, call)).sent, d, w)
      == Received(e.sent, d, w)
         + if IsSettlement(call) && Accepted(e, call) && call.deal == d && d in e.pendings && d in e.depositors
              && w == (if IsRefund(call) then e.depositors[d] else e.pendings[d].to)
           then e.pendings[d].amount else 0
  {
    var e := Run(birth, calls);
    if IsSettlement(call) && Accepted(e, call) {
      ReachableDeal(birth, calls, call.deal);
      SettlementNeedsLock(e, call, TrackOf(birth, calls, call.deal));
      var payment := Payment(call.deal, if IsRefund(call) then e.depositors[call.deal] else e.pendings[call.deal].to,
                             e.pendings[call.deal].amount);
      ReceivedAppend(e.sent, [payment], d, w);
      assert [payment][..0] == [];
    }
  }

  /** Only releases answer anything. */
  lemma OnlyReleasesAnswer(e: Escrow, call: Call)
    requires Accepted(e, call) && !call.Release?
    ensures Execute(e, call).value.value == 0
  {
  }

  // ---- when a request is paid ----

  /** The last accepted challenge on a deal. */
  ghost function LastChallenge(birth: Birth, calls: seq<Call>, d: string): Option<Call> {
    if calls == [] then None else
      var front, call := calls[..|calls| - 1], calls[|calls| - 1];
      if call.Challenge? && call.deal == d && Accepted(Run(birth, front), call) then Some(call)
      else LastChallenge(birth, front, d)
  }

  /** What is stored about a dispute is what the last challenge on the deal said. */
  ghost predicate DisputeInv(e: Escrow, last: Option<Call>, d: string) {
    d in e.disputes ==>
      && last.Some? && last.value.Challenge? && d in e.pendings
      && e.disputes[d]
         == Dispute(last.value.caller, last.value.now, e.pendings[d].reference, last.value.evidence, false)
  }

  lemma StepKeepsDispute(e: Escrow, last: Option<Call>, call: Call, d: string)
    requires DisputeInv(e, last, d)
    ensures DisputeInv(After(e, Execute(e, call)),
                       if call.Challenge? && call.deal == d && Accepted(e, call) then Some(call) else last, d)
  {
    if !Succeeds(e, call, d) {
      OtherDealsKeep(e, call, d);
    }
  }

  lemma {:induction false} DisputeIsLastChallenge(birth: Birth, calls: seq<Call>, d: string)
    ensures DisputeInv(Run(birth, calls), LastChallenge(birth, calls, d), d)
  {
    if calls != [] {
      var front := calls[..|calls| - 1];
      DisputeIsLastChallenge(birth, front, d);
      StepKeepsDispute(Run(birth, front), LastChallenge(birth, front, d), calls[|calls| - 1], d);
    }
  }

  /** An accepted timeout settlement comes no sooner than the request's time plus the window then in force, and with no
      challenge standing; or no sooner than the challenge's time plus the dispute timeout now in force. An accepted
      challenge comes no later than the end of the window, from the depositor or the recipient asked for. */
  lemma DeadlinesHold(birth: Birth, calls: seq<Call>, call: Call)
    ensures var e := Run(birth, calls);
      Accepted(e, call) && (call.SettleReleaseTimeout? || call.Challenge? || call.SettleDisputeTimeout?) ==>
        var asked := TrackOf(birth, calls, call.deal).asked;
        && asked != [] && call.deal in e.depositors
        && var ask := asked[|asked| - 1];
        && (call.SettleReleaseTimeout? ==> ask.challengeEndAt <= call.now && call.deal !in e.disputes)
        && (call.Challenge? ==>
              call.now <= ask.challengeEndAt && (call.caller == e.depositors[call.deal] || call.caller == ask.to))
        && (call.SettleDisputeTimeout? ==>
              var last := LastChallenge(birth, calls, call.deal);
              last.Some? && last.value.Challenge? && last.value.now + e.timeout <= call.now)
  {
    var e := Run(birth, calls);
    if Accepted(e, call) && (call.SettleReleaseTimeout? || call.Challenge? || call.SettleDisputeTimeout?) {
      ReachableDeal(birth, calls, call.deal);
      DisputeIsLastChallenge(birth, calls, call.deal);
      if IsSettlement(call) {
        SettlementNeedsLock(e, call, TrackOf(birth, calls, call.deal));
      }
    }
  }

  // ---- depositors ----

  /** Whose deposit on a deal was accepted first. */
  ghost function FirstDepositor(birth: Birth, calls: seq<Call>, d: string): Option<Address> {
    if calls == [] then None else
      var front, call := calls[..|calls| - 1], calls[|calls| - 1];
      var first := FirstDepositor(birth, front, d);
      if first == None && call.Deposit? && call.deal == d && Accepted(Run(birth, front), call) then Some(call.from)
      else first
  }

  lemma {:induction false} DepositorIsFirst(birth: Birth, calls: seq<Call>, d: string)
    ensures var e := Run(birth, calls);
      FirstDepositor(birth, calls, d) == if d in e.depositors then Some(e.depositors[d]) else None
  {
    if calls != [] {
      var front, call := calls[..|calls| - 1], calls[|calls| - 1];
      DepositorIsFirst(birth, front, d);
      StepKeepsDepositor(Run(birth, front), call, d);
    }
  }

  lemma StepKeepsDepositor(e: Escrow, call: Call, d: string)
    ensures var f := After(e, Execute(e, call));
      && (d in f.depositors <==>
            d in e.depositors || (call.Deposit? && call.deal == d && Accepted(e, call)))
      && (d in f.depositors ==> f.depositors[d] == if d in e.depositors then e.depositors[d] else call.from)
  {
    if !Succeeds(e, call, d) {
      OtherDealsKeep(e, call, d);
    }
  }

  // ---- when calls are accepted ----

  lemma DepositSucceedsIff(birth: Birth, calls: seq<Call>, call: Call)
    requires call.Deposit?
    ensures var e := Run(birth, calls);
      Accepted(e, call) <==>
        && !e.paused && call.amount > 0 && call.deal != "" && call.payerPays
        && Get(e.balances, call.deal) + call.amount <= I128_MAX
  {
    ReachableDeal(birth, calls, call.deal);
  }

  /** A release is accepted exactly from the admin or the operator, with the contract neither paused nor frozen nor
      recovering, of three parts that are the whole positive balance. */
  lemma ReleaseSucceedsIff(birth: Birth, calls: seq<Call>, call: Call)
    requires call.Release?
    ensures var e := Run(birth, calls);
      Accepted(e, call) <==>
        && !e.paused && e.breaker == Unfrozen && call.deal != "" && call.reference != ""
        && (call.caller == e.admin || call.caller == e.operator)
        && call.principal >= 0 && call.fee >= 0 && call.bounty >= 0
        && call.principal + call.fee + call.bounty == Get(e.balances, call.deal) > 0
  {
    PayoutsNeverBounce(birth, calls, call);
    ReachableDeal(birth, calls, call.deal);
  }

  /** A request is accepted exactly from the admin or the operator, for a deal without a pending one, of a positive
      amount within the balance. */
  lemma RequestSucceedsIff(birth: Birth, calls: seq<Call>, call: Call)
    requires call.Request?
    ensures var e := Run(birth, calls);
      Accepted(e, call) <==>
        && !e.paused && call.deal != "" && call.reference != "" && (call.caller == e.admin || call.caller == e.operator)
        && call.deal !in e.pendings && 0 < call.amount <= Get(e.balances, call.deal)
        && 0 <= call.now + e.window <= U64_MAX
  {
    ReachableDeal(birth, calls, call.deal);
  }

  /** A challenge is accepted exactly from the depositor or the recipient, on a deal with a pending request, until its
      window ends. */
  lemma ChallengeSucceedsIff(birth: Birth, calls: seq<Call>, call: Call)
    requires call.Challenge?
    ensures var e := Run(birth, calls);
      Accepted(e, call) <==>
        && !e.paused && call.deal != "" && call.evidence != "" && call.deal in e.pendings
        && call.now <= e.pendings[call.deal].challengeEndAt && call.deal in e.depositors
        && (call.caller == e.depositors[call.deal] || call.caller == e.pendings[call.deal].to)
  {
  }

  /** The resolver decides exactly the disputes whose lock still stands. */
  lemma ResolveSucceedsIff(birth: Birth, calls: seq<Call>, call: Call)
    requires call.Resolve?
    ensures var e := Run(birth, calls);
      Accepted(e, call) <==>
        && !e.paused && call.deal != "" && call.evidence != "" && e.resolver == Some(call.caller)
        && call.deal in e.disputes && e.StateOf(call.deal).locked > 0
  {
    var e, d := Run(birth, calls), call.deal;
    ReachableDeal(birth, calls, d);
    ChallengedIff(birth, calls, d);
    if d in e.disputes && e.StateOf(d).locked > 0 {
      ReachableTokens(birth, calls);
      DealIsCovered(birth, calls, d);
      LiveRequestSettles(e, d, TrackOf(birth, calls, d), call.outcome);
    }
    if Accepted(e, call) {
      SettlementNeedsLock(e, call, TrackOf(birth, calls, d));
    }
    ReachableDispute(birth, calls, d);
  }

  // ---- settings ----

  datatype Settings = Settings(window: int, timeout: int, resolver: Option<Address>, paused: bool, breaker: Breaker)

  ghost function NextSettings(last: Settings, admin: Address, call: Call): Settings {
    match call
    case ConfigureWindows(caller, window, timeout) =>
      if caller == admin && window != 0 && timeout != 0 then last.(window := window, timeout := timeout) else last
    case SetResolver(caller, who) => if caller == admin then last.(resolver := Some(who)) else last
    case SetPaused(caller, value) => if caller == admin then last.(paused := value) else last
    case MoveBreaker(state) => last.(breaker := state)
    case _ => last
  }

  /** The settings that the calls of a run leave: a day, two days, no resolver, unpaused and unfrozen to begin with. */
  ghost function SettingsOf(birth: Birth, calls: seq<Call>): Settings {
    if calls == [] then Settings(86_400, 172_800, None, false, Unfrozen)
    else NextSettings(SettingsOf(birth, calls[..|calls| - 1]), birth.admin, calls[|calls| - 1])
  }

  ghost function SettingsIn(e: Escrow): Settings {
    Settings(e.window, e.timeout, e.resolver, e.paused, e.breaker)
  }

  lemma StepSets(e: Escrow, call: Call)
    ensures var f := After(e, Execute(e, call));
      && SettingsIn(f) == NextSettings(SettingsIn(e), e.admin, call)
      && f.admin == e.admin && f.operator == e.operator
  {
  }

  lemma {:induction false} SettingsAreTheAdmins(birth: Birth, calls: seq<Call>)
    ensures var e := Run(birth, calls);
      e.admin == birth.admin && e.operator == birth.operator && SettingsIn(e) == SettingsOf(birth, calls)
  {
    if calls != [] {
      SettingsAreTheAdmins(birth, calls[..|calls| - 1]);
      StepSets(Run(birth, calls[..|calls| - 1]), calls[|calls| - 1]);
    }
  }
}
