/** deal_escrow: every token is accounted for, each rent-release request pays at most once, and a
    request that is still open can always be settled once its deadlines have passed. */
module DealEscrowProofs {
  import opened Host
  import opened MapSums
  import opened DealEscrow

  datatype Birth = Birth(admin: Address, operator: Address)

  ghost function Run(birth: Birth, calls: seq<Call>): Escrow {
    if calls == [] then Initial(birth.admin, birth.operator) else
      var before := Run(birth, calls[..|calls| - 1]);
      After(before, Execute(before, calls[|calls| - 1]))
  }

  // ---- the life of a deal's requests ----

  /** Where the latest rent-release request of a deal stands. */
  datatype Phase = Idle | Open | Challenged | Settled | Overtaken

  /** A payment by settlement, which request it settled, and whether back to the depositor. */
  datatype Settling = Settling(request: nat, payment: Payment, refund: bool)

  /** The history of one deal: what was asked, request by request, and what settlements paid. */
  datatype Track = Track(phase: Phase, asked: seq<Pending>, paid: seq<Settling>)

  predicate IsSettlement(call: Call) {
    call.Resolve? || call.SettleReleaseTimeout? || call.SettleDisputeTimeout?
  }

  /** A settlement pays the recipient asked for unless it is a refund. */
  predicate IsRefund(call: Call) {
    (call.Resolve? && call.outcome == RefundToDepositor) || call.SettleDisputeTimeout?
  }

  ghost predicate Succeeds(e: Escrow, call: Call, deal: string) {
    && Execute(e, call).Ok?
    && (call.Deposit? || call.Release? || call.Request? || call.Challenge? || IsSettlement(call))
    && call.deal == deal
  }

  ghost predicate IsLive(phase: Phase) {
    phase == Open || phase == Challenged
  }

  /** What a request asks: the challenge window is the one in force when it is made. */
  ghost function Asked(e: Escrow, call: Call): Pending
    requires call.Request?
  {
    Pending(call.to, call.amount, call.caller, call.now, call.now + e.window, call.reference)
  }

  ghost function NextTrack(e: Escrow, call: Call, deal: string, t: Track): Track {
    if !Succeeds(e, call, deal) then t
    else if call.Request? then t.(phase := Open, asked := t.asked + [Asked(e, call)])
    else if call.Challenge? then t.(phase := if t.phase == Open then Challenged else t.phase)
    else if call.Release? then t.(phase := if IsLive(t.phase) then Overtaken else t.phase)
    else if IsSettlement(call) then
      var sent := After(e, Execute(e, call)).sent;
      var paid := if sent == [] then [] else [Settling(|t.asked|, sent[|sent| - 1], IsRefund(call))];
      t.(phase := Settled, paid := t.paid + paid)
    else t
  }

  ghost function TrackOf(birth: Birth, calls: seq<Call>, deal: string): Track {
    if calls == [] then Track(Idle, [], []) else
      var front := calls[..|calls| - 1];
      NextTrack(Run(birth, front), calls[|calls| - 1], deal, TrackOf(birth, front, deal))
  }

  // ---- the invariant of one deal ----

  ghost predicate BooksInv(e: Escrow, d: string) {
    && (d in e.states <==> d in e.balances)
    && (d in e.depositors <==> d in e.balances)
    && (d in e.states ==> e.states[d].total == e.balances[d] && Consistent(e.states[d]) && FitsI128(e.balances[d]))
  }

  ghost predicate PhaseInv(e: Escrow, d: string, t: Track) {
    var locked := e.StateOf(d).locked;
    match t.phase
    case Open => HasRequest(e, d, t) && locked == e.pendings[d].amount && d !in e.disputes
    case Challenged =>
      HasRequest(e, d, t) && locked == e.pendings[d].amount && d in e.disputes &&
      !e.disputes[d].resolved && e.disputes[d].openedAt <= e.pendings[d].challengeEndAt
    case Overtaken => HasRequest(e, d, t) && locked == 0
    case _ => d !in e.pendings && d !in e.disputes && locked == 0
  }

  /** The stored pending record is the latest request. */
  ghost predicate HasRequest(e: Escrow, d: string, t: Track) {
    && d != "" && d in e.pendings && d in e.states
    && t.asked != [] && t.asked[|t.asked| - 1] == e.pendings[d]
    && e.pendings[d].amount > 0
  }

  /** One settlement: it paid what its request asked, to the recipient asked for, or to the depositor if a refund. */
  ghost predicate PaysItsRequest(e: Escrow, d: string, t: Track, s: Settling) {
    && 1 <= s.request <= |t.asked| && s.payment.deal == d && d in e.depositors
    && s.payment.amount == t.asked[s.request - 1].amount
    && s.payment.to == (if s.refund then e.depositors[d] else t.asked[s.request - 1].to)
  }

  ghost predicate SettlingInv(e: Escrow, d: string, t: Track, s: Settling) {
    PaysItsRequest(e, d, t, s) && (s.request == |t.asked| ==> t.phase == Settled)
  }

  ghost predicate PaidInv(e: Escrow, d: string, t: Track) {
    && (t.phase == Idle ==> t.asked == [] && t.paid == [])
    && (forall i :: 0 <= i < |t.paid| ==> SettlingInv(e, d, t, t.paid[i]))
    && (forall i, j :: 0 <= i < j < |t.paid| ==> t.paid[i].request < t.paid[j].request)
  }

  lemma StepKeepsBooks(e: Escrow, call: Call, d: string)
    requires BooksInv(e, d)
    ensures BooksInv(After(e, Execute(e, call)), d)
  {
  }

  lemma StepKeepsPhase(e: Escrow, call: Call, d: string, t: Track)
    requires BooksInv(e, d) && PhaseInv(e, d, t)
    ensures PhaseInv(After(e, Execute(e, call)), d, NextTrack(e, call, d, t))
    ensures IsSettlement(call) && Succeeds(e, call, d) ==> IsLive(t.phase)
  {
    if Succeeds(e, call, d) {
      if IsSettlement(call) {
        SettlementNeedsLock(e, call, t);
      }
    } else {
      OtherDealsKeep(e, call, d);
    }
  }

  /** Everything stored about a deal is the same in both. */
  ghost predicate SameDeal(e: Escrow, f: Escrow, d: string) {
    && f.StateOf(d) == e.StateOf(d) && Get(f.balances, d) == Get(e.balances, d)
    && (d in f.states <==> d in e.states)
    && (d in f.pendings <==> d in e.pendings) && (d in e.pendings ==> f.pendings[d] == e.pendings[d])
    && (d in f.disputes <==> d in e.disputes) && (d in e.disputes ==> f.disputes[d] == e.disputes[d])
    && (d in f.depositors <==> d in e.depositors) && (d in e.depositors ==> f.depositors[d] == e.depositors[d])
  }

  /** A call that does not succeed on a deal leaves everything stored about that deal alone. */
  lemma OtherDealsKeep(e: Escrow, call: Call, d: string)
    requires !Succeeds(e, call, d)
    ensures SameDeal(e, After(e, Execute(e, call)), d)
  {
    if Execute(e, call).Ok? {
      if IsSettlement(call) {
        SettlingTouchesOne(e, call.deal, if IsRefund(call) then RefundToDepositor else ReleaseToRecipient, d);
        SettlementAnswers(e, call);
      }
    }
  }

  lemma SettlingTouchesOne(e: Escrow, deal: string, outcome: Settlement, d: string)
    requires d != deal && e.Settle(deal, outcome).Ok?
    ensures SameDeal(e, e.Settle(deal, outcome).value.escrow, d)
  {
  }

  /** A settlement succeeds only on a request that still holds its lock. */
  lemma SettlementNeedsLock(e: Escrow, call: Call, t: Track)
    requires IsSettlement(call) && Execute(e, call).Ok?
    requires BooksInv(e, call.deal) && PhaseInv(e, call.deal, t)
    ensures IsLive(t.phase)
    ensures var d, f := call.deal, After(e, Execute(e, call));
      && d in e.pendings && d in e.depositors
      && f.sent == e.sent + [Payment(d, if IsRefund(call) then e.depositors[d] else e.pendings[d].to,
                                     e.pendings[d].amount)]
      && f.depositors == e.depositors
  {
  }

  lemma StepKeepsPaid(e: Escrow, call: Call, d: string, t: Track)
    requires BooksInv(e, d) && PhaseInv(e, d, t) && PaidInv(e, d, t)
    ensures PaidInv(After(e, Execute(e, call)), d, NextTrack(e, call, d, t))
  {
    var f, u := After(e, Execute(e, call)), NextTrack(e, call, d, t);
    if Succeeds(e, call, d) && IsSettlement(call) {
      SettlementNeedsLock(e, call, t);
    } else {
      DepositorStays(e, call, d);
    }
    forall i | 0 <= i < |u.paid| ensures SettlingInv(f, d, u, u.paid[i]) {
      if i < |t.paid| {
        assert SettlingInv(e, d, t, t.paid[i]);
      }
    }
    forall i, j | 0 <= i < j < |u.paid| ensures u.paid[i].request < u.paid[j].request {
      assert SettlingInv(e, d, t, t.paid[i]);
    }
  }

  lemma DepositorStays(e: Escrow, call: Call, d: string)
    ensures var f := After(e, Execute(e, call));
      d in e.depositors ==> d in f.depositors && f.depositors[d] == e.depositors[d]
  {
  }

  lemma {:induction false} ReachableDeal(birth: Birth, calls: seq<Call>, d: string)
    ensures var e, t := Run(birth, calls), TrackOf(birth, calls, d);
      BooksInv(e, d) && PhaseInv(e, d, t) && PaidInv(e, d, t)
  {
    if calls != [] {
      var front, call := calls[..|calls| - 1], calls[|calls| - 1];
      ReachableDeal(birth, front, d);
      var e, t := Run(birth, front), TrackOf(birth, front, d);
      StepKeepsBooks(e, call, d);
      StepKeepsPhase(e, call, d, t);
      StepKeepsPaid(e, call, d, t);
    }
  }

  // ---- at most one payment for each request ----

  /** Each rent-release request is settled at most once, and then for the amount it asked, to the
      recipient it named or back to the depositor. */
  lemma RequestPaysAtMostOnce(birth: Birth, calls: seq<Call>, d: string)
    ensures var e, t := Run(birth, calls), TrackOf(birth, calls, d);
      && (forall i, j :: 0 <= i < j < |t.paid| ==> t.paid[i].request != t.paid[j].request)
      && (forall i :: 0 <= i < |t.paid| ==> PaysItsRequest(e, d, t, t.paid[i]))
  {
    ReachableDeal(birth, calls, d);
    var e, t := Run(birth, calls), TrackOf(birth, calls, d);
    forall i | 0 <= i < |t.paid| ensures PaysItsRequest(e, d, t, t.paid[i]) {
      assert SettlingInv(e, d, t, t.paid[i]);
    }
    forall i, j | 0 <= i < j < |t.paid| ensures t.paid[i].request != t.paid[j].request {
      assert t.paid[i].request < t.paid[j].request;
    }
  }

  /** What storage says about the latest request: a lock belongs to a pending release of that amount with
      a recorded depositor, and a dispute to a pending release. */
  lemma LocksBelongToRequests(birth: Birth, calls: seq<Call>, d: string)
    ensures var e := Run(birth, calls);
      && 0 <= e.StateOf(d).locked == e.StateOf(d).pendingPayout <= e.StateOf(d).total
      && e.StateOf(d).total == Get(e.balances, d)
      && (e.StateOf(d).locked > 0 ==>
            d in e.pendings && e.pendings[d].amount == e.StateOf(d).locked && d in e.depositors)
      && (d in e.disputes ==> d in e.pendings && !e.disputes[d].resolved)
  {
    ReachableDispute(birth, calls, d);
    ReachableDeal(birth, calls, d);
  }

  lemma {:induction false} ReachableDispute(birth: Birth, calls: seq<Call>, d: string)
    ensures var e := Run(birth, calls);
      d in e.disputes ==> d in e.pendings && !e.disputes[d].resolved
  {
    if calls != [] {
      var front, call := calls[..|calls| - 1], calls[|calls| - 1];
      ReachableDispute(birth, front, d);
      if !Succeeds(Run(birth, front), call, d) {
        OtherDealsKeep(Run(birth, front), call, d);
      }
    }
  }

  lemma OvertakenStays(e: Escrow, call: Call, d: string, t: Track)
    requires BooksInv(e, d) && PhaseInv(e, d, t) && t.phase == Overtaken
    ensures NextTrack(e, call, d, t) == t
  {
    if Succeeds(e, call, d) && IsSettlement(call) {
      SettlementNeedsLock(e, call, t);
    }
  }

  /** Storage tells an overtaken request: its pending record is there, its lock is gone. */
  lemma OvertakenIff(birth: Birth, calls: seq<Call>, d: string)
    ensures var e := Run(birth, calls);
      TrackOf(birth, calls, d).phase == Overtaken <==> d in e.pendings && e.StateOf(d).locked == 0
  {
    ReachableDeal(birth, calls, d);
  }

  /** A request overtaken by a release of the whole deal never pays afterwards, whatever follows; nor is
      any later request on that deal accepted, because the pending record stays. */
  lemma {:induction false} OvertakenNeverPays(birth: Birth, calls: seq<Call>, more: seq<Call>, d: string)
    requires d in Run(birth, calls).pendings && Run(birth, calls).StateOf(d).locked == 0
    ensures TrackOf(birth, calls, d).phase == Overtaken
    ensures TrackOf(birth, calls + more, d) == TrackOf(birth, calls, d)
    ensures Run(birth, calls + more).StateOf(d).locked == 0
    ensures d in Run(birth, calls + more).pendings
    decreases |more|
  {
    OvertakenIff(birth, calls, d);
    if more == [] {
      assert calls + more == calls;
    } else {
      var front, call := more[..|more| - 1], more[|more| - 1];
      OvertakenNeverPays(birth, calls, front, d);
      assert (calls + more)[..|calls + more| - 1] == calls + front;
      ReachableDeal(birth, calls + front, d);
      OvertakenStays(Run(birth, calls + front), call, d, TrackOf(birth, calls, d));
    }
    ReachableDeal(birth, calls + more, d);
  }

  lemma RunAppend(birth: Birth, calls: seq<Call>, call: Call)
    ensures var e := Run(birth, calls);
      Run(birth, calls + [call]) == After(e, Execute(e, call))
  {
    assert (calls + [call])[..|calls|] == calls;
  }

  /** It does happen: a deposit of one, a request for it, and a release of the deal. */
  lemma RequestsGetOvertaken(admin: Address, d: string)
    requires d != ""
    ensures var release := Release(admin, d, admin, 1, admin, 0, admin, 0, "ref");
      var calls := [Deposit(admin, d, 1, true)] + [Request(admin, d, admin, 1, "ref", 0)] + [release];
      TrackOf(Birth(admin, admin), calls, d).phase == Overtaken
  {
    var birth, deposit := Birth(admin, admin), Deposit(admin, d, 1, true);
    var request := Request(admin, d, admin, 1, "ref", 0);
    var release := Release(admin, d, admin, 1, admin, 0, admin, 0, "ref");
    assert [] + [deposit] == [deposit];
    RunAppend(birth, [], deposit);
    RunAppend(birth, [deposit], request);
    var e := Run(birth, [deposit] + [request]);
    assert d in e.pendings && e.held == 1 && Get(e.balances, d) == 1;
    RunAppend(birth, [deposit] + [request], release);
    OvertakenIff(birth, [deposit] + [request] + [release], d);
  }

  // ---- who can be paid once a request is challenged ----

  /** Storage tells a challenged request: a dispute is there, and the lock still is. It tells an open one by a lock
      without a dispute. */
  lemma ChallengedIff(birth: Birth, calls: seq<Call>, d: string)
    ensures var e, phase := Run(birth, calls), TrackOf(birth, calls, d).phase;
      && (phase == Challenged <==> d in e.disputes && e.StateOf(d).locked > 0)
      && (phase == Open <==> d !in e.disputes && e.StateOf(d).locked > 0)
  {
    ReachableDeal(birth, calls, d);
    ReachableDispute(birth, calls, d);
  }

  /** While a request is challenged, tokens of its deal leave only by the resolver's decision, by a release
      that admin or operator makes, or back to the depositor when the dispute times out. */
  lemma ChallengedPaysOnlyByDecision(birth: Birth, calls: seq<Call>, call: Call, d: string, i: nat)
    requires d in Run(birth, calls).disputes && Run(birth, calls).StateOf(d).locked > 0
    requires var e := Run(birth, calls);
      |e.sent| <= i < |After(e, Execute(e, call)).sent| && After(e, Execute(e, call)).sent[i].deal == d
    ensures var e := Run(birth, calls);
      || (call.Resolve? && e.resolver == Some(call.caller))
      || (call.Release? && (call.caller == e.admin || call.caller == e.operator))
      || (call.SettleDisputeTimeout? && d in e.depositors
          && After(e, Execute(e, call)).sent[i].to == e.depositors[d])
  {
    ChallengedIff(birth, calls, d);
    ReachableDeal(birth, calls, d);
    var e := Run(birth, calls);
    if IsSettlement(call) && Execute(e, call).Ok? {
      ReachableDeal(birth, calls, call.deal);
      SettlementNeedsLock(e, call, TrackOf(birth, calls, call.deal));
    }
  }

  // ---- progress ----

  /** Once an unpaused deal's lock has outlived both deadlines, exactly one of the two timeout settlements
      is enabled; it succeeds, pays the locked amount and clears the lock. */
  lemma TimeoutSettlesEveryLock(birth: Birth, calls: seq<Call>, d: string, now: int)
    requires var e := Run(birth, calls);
      && !e.paused && e.StateOf(d).locked > 0
      && d in e.pendings && e.pendings[d].challengeEndAt + e.timeout <= now <= U64_MAX
    ensures var e := Run(birth, calls);
      var byRelease, byDispute := e.SettleReleaseTimeout(d, now), e.SettleDisputeTimeout(d, now);
      && (byRelease.Ok? <==> d !in e.disputes) && (byDispute.Ok? <==> d in e.disputes)
      && var f := After(e, if d in e.disputes then byDispute else byRelease);
      && f.StateOf(d).locked == 0 && d !in f.pendings && d !in f.disputes
      && f.held == e.held - e.StateOf(d).locked
      && f.sent == e.sent + [Payment(d, if d in e.disputes then e.depositors[d] else e.pendings[d].to,
                                     e.StateOf(d).locked)]
  {
    var e, t := Run(birth, calls), TrackOf(birth, calls, d);
    ReachableDeal(birth, calls, d);
    ReachableTokens(birth, calls);
    DealIsCovered(birth, calls, d);
    ReachableWindows(birth, calls, d);
    LiveRequestSettles(e, d, t, if d in e.disputes then RefundToDepositor else ReleaseToRecipient);
  }

  /** A live request can always be settled. */
  lemma LiveRequestSettles(e: Escrow, d: string, t: Track, outcome: Settlement)
    requires BooksInv(e, d) && PhaseInv(e, d, t) && IsLive(t.phase)
    requires Get(e.balances, d) <= e.held
    ensures e.Settle(d, outcome).Ok?
    ensures var f := e.Settle(d, outcome).value.escrow;
      && f.StateOf(d).locked == 0 && d !in f.pendings && d !in f.disputes
      && d in e.pendings && d in e.depositors && e.pendings[d].amount == e.StateOf(d).locked
      && f.held == e.held - e.StateOf(d).locked
      && f.sent == e.sent + [Payment(d, if outcome == RefundToDepositor then e.depositors[d] else e.pendings[d].to,
                                     e.StateOf(d).locked)]
  {
  }

  ghost predicate WindowsInv(e: Escrow, d: string) {
    && e.timeout > 0 && e.window > 0
    && (d in e.disputes && d in e.pendings ==> 0 <= e.disputes[d].openedAt <= e.pendings[d].challengeEndAt)
  }

  lemma StepKeepsWindows(e: Escrow, call: Call, d: string)
    requires WindowsInv(e, d) && (d in e.disputes ==> d in e.pendings)
    ensures WindowsInv(After(e, Execute(e, call)), d)
  {
    if !Succeeds(e, call, d) {
      OtherDealsKeep(e, call, d);
    }
  }

  lemma {:induction false} ReachableWindows(birth: Birth, calls: seq<Call>, d: string)
    ensures WindowsInv(Run(birth, calls), d)
  {
    if calls != [] {
      var front := calls[..|calls| - 1];
      ReachableWindows(birth, front, d);
      ReachableDispute(birth, front, d);
      StepKeepsWindows(Run(birth, front), calls[|calls| - 1], d);
    }
  }

  // ---- conservation ----

  ghost function SentFor(sent: seq<Payment>, d: string): int {
    if sent == [] then 0 else
      SentFor(sent[..|sent| - 1], d) + if sent[|sent| - 1].deal == d then sent[|sent| - 1].amount else 0
  }

  ghost function DepositedBy(e: Escrow, call: Call, d: string): int {
    if call.Deposit? && Succeeds(e, call, d) then call.amount else 0
  }

  ghost function Deposited(birth: Birth, calls: seq<Call>, d: string): int {
    if calls == [] then 0 else
      var front := calls[..|calls| - 1];
      Deposited(birth, front, d) + DepositedBy(Run(birth, front), calls[|calls| - 1], d)
  }

  ghost function Gifted(calls: seq<Call>): nat {
    if calls == [] then 0 else
      Gifted(calls[..|calls| - 1]) + if calls[|calls| - 1].Gift? then calls[|calls| - 1].tokens else 0
  }

  lemma {:induction false} SentForAppend(a: seq<Payment>, b: seq<Payment>, d: string)
    ensures SentFor(a + b, d) == SentFor(a, d) + SentFor(b, d)
    decreases |b|
  {
    if b == [] {
      assert a + b == a;
    } else {
      assert (a + b)[..|a + b| - 1] == a + b[..|b| - 1];
      SentForAppend(a, b[..|b| - 1], d);
    }
  }

  ghost function PartsTotal(parts: seq<(Address, int)>): int {
    if parts == [] then 0 else parts[0].1 + PartsTotal(parts[1..])
  }

  lemma {:induction false} SplitPaysTotal(deal: string, parts: seq<(Address, int)>, d: string)
    requires forall i :: 0 <= i < |parts| ==> parts[i].1 >= 0
    ensures SentFor(Split(deal, parts), d) == if deal == d then PartsTotal(parts) else 0
    decreases |parts|
  {
    if parts != [] {
      SplitPaysTotal(deal, parts[1..], d);
      var first := if parts[0].1 > 0 then [Payment(deal, parts[0].0, parts[0].1)] else [];
      SentForAppend(first, Split(deal, parts[1..]), d);
      OnePayment(deal, parts[0].0, parts[0].1, d);
    }
  }

  lemma OnePayment(deal: string, to: Address, amount: int, d: string)
    ensures SentFor([Payment(deal, to, amount)], d) == if deal == d then amount else 0
  {
    assert [Payment(deal, to, amount)][..0] == [];
  }

  lemma ReleaseBalances(e: Escrow, call: Call, d: string)
    requires call.Release? && Execute(e, call).Ok?
    ensures var f := After(e, Execute(e, call));
      Get(f.balances, d) + SentFor(f.sent, d) == Get(e.balances, d) + SentFor(e.sent, d)
  {
    var parts := [(call.to, call.principal), (call.platform, call.fee), (call.reporter, call.bounty)];
    SplitPaysTotal(call.deal, parts, d);
    TotalOfThree(parts);
    SentForAppend(e.sent, Split(call.deal, parts), d);
  }

  lemma TotalOfThree(parts: seq<(Address, int)>)
    requires |parts| == 3
    ensures PartsTotal(parts) == parts[0].1 + parts[1].1 + parts[2].1
  {
    var rest := parts[1..];
    var last := rest[1..];
    assert last[1..] == [] && rest[0] == parts[1] && last[0] == parts[2];
    assert PartsTotal(last) == parts[2].1 + PartsTotal([]);
  }

  lemma SettlementBalances(e: Escrow, call: Call, d: string)
    requires IsSettlement(call) && Execute(e, call).Ok? && BooksInv(e, call.deal)
    ensures var f := After(e, Execute(e, call));
      Get(f.balances, d) + SentFor(f.sent, d) == Get(e.balances, d) + SentFor(e.sent, d)
  {
    var f := After(e, Execute(e, call));
    var paid := f.sent[|f.sent| - 1];
    assert f.sent == e.sent + [Payment(paid.deal, paid.to, paid.amount)];
    SentForAppend(e.sent, [Payment(paid.deal, paid.to, paid.amount)], d);
    OnePayment(paid.deal, paid.to, paid.amount, d);
    assert Get(f.balances, call.deal) == Get(e.balances, call.deal) - paid.amount;
  }

  lemma StepBalances(e: Escrow, call: Call, d: string)
    requires forall k :: BooksInv(e, k)
    ensures var f := After(e, Execute(e, call));
      Get(f.balances, d) + SentFor(f.sent, d) == Get(e.balances, d) + SentFor(e.sent, d) + DepositedBy(e, call, d)
  {
    if Execute(e, call).Ok? && call.Release? {
      ReleaseBalances(e, call, d);
    } else if Execute(e, call).Ok? && IsSettlement(call) {
      assert BooksInv(e, call.deal);
      SettlementBalances(e, call, d);
    }
  }

  /** Per deal, deposits equal the balance plus everything paid out for it. */
  lemma {:induction false} DealConserves(birth: Birth, calls: seq<Call>, d: string)
    ensures var e := Run(birth, calls);
      Deposited(birth, calls, d) == Get(e.balances, d) + SentFor(e.sent, d)
  {
    if calls != [] {
      var front := calls[..|calls| - 1];
      DealConserves(birth, front, d);
      forall k ensures BooksInv(Run(birth, front), k) {
        ReachableDeal(birth, front, k);
      }
      StepBalances(Run(birth, front), calls[|calls| - 1], d);
    }
  }

  lemma StepKeepsTokens(e: Escrow, call: Call)
    requires forall d :: BooksInv(e, d)
    ensures var f := After(e, Execute(e, call));
      f.held - Sum(f.balances) == e.held - Sum(e.balances) + if call.Gift? then call.tokens else 0
  {
    if Execute(e, call).Ok? && (call.Deposit? || call.Release? || IsSettlement(call)) {
      assert BooksInv(e, call.deal);
      var f := After(e, Execute(e, call));
      SumOfUpdate(e.balances, call.deal, f.balances[call.deal]);
    }
  }

  /** The contract's tokens are the sum of the deal balances, plus whatever was sent to it unasked. */
  lemma {:induction false} ReachableTokens(birth: Birth, calls: seq<Call>)
    ensures var e := Run(birth, calls);
      e.held == Sum(e.balances) + Gifted(calls)
  {
    if calls != [] {
      var front := calls[..|calls| - 1];
      ReachableTokens(birth, front);
      forall d ensures BooksInv(Run(birth, front), d) {
        ReachableDeal(birth, front, d);
      }
      StepKeepsTokens(Run(birth, front), calls[|calls| - 1]);
    }
  }

  lemma DealIsCovered(birth: Birth, calls: seq<Call>, d: string)
    ensures var e := Run(birth, calls);
      0 <= Get(e.balances, d) <= Sum(e.balances)
  {
    var e := Run(birth, calls);
    forall k | k in e.balances ensures e.balances[k] >= 0 {
      ReachableDeal(birth, calls, k);
    }
    EntryIsWithinSum(e.balances, d);
  }

  /** No reachable release or settlement fails for want of tokens, and no settlement trips over the
      bookkeeping checks while its request is live. */
  lemma PayoutsNeverBounce(birth: Birth, calls: seq<Call>, call: Call)
    requires call.Release? || IsSettlement(call)
    ensures Execute(Run(birth, calls), call) != Err(TokenFailed)
    ensures IsLive(TrackOf(birth, calls, call.deal).phase) ==>
      Execute(Run(birth, calls), call) != Err(MigrationInvariantViolation)
  {
    var e, d := Run(birth, calls), call.deal;
    ReachableDeal(birth, calls, d);
    ReachableTokens(birth, calls);
    DealIsCovered(birth, calls, d);
    if IsSettlement(call) {
      var outcome := if IsRefund(call) then RefundToDepositor else ReleaseToRecipient;
      SettleNeverBounces(e, d, outcome, TrackOf(birth, calls, d));
      SettlementAnswers(e, call);
    } else {
      ReleaseNeverBounces(e, call);
    }
  }

  lemma SettlementAnswers(e: Escrow, call: Call)
    requires IsSettlement(call)
    ensures var settled := e.Settle(call.deal, if IsRefund(call) then RefundToDepositor else ReleaseToRecipient);
      || Execute(e, call) == settled
      || (Execute(e, call) != Err(TokenFailed) && Execute(e, call) != Err(MigrationInvariantViolation))
  {
  }

  lemma ReleaseNeverBounces(e: Escrow, call: Call)
    requires call.Release? && Get(e.balances, call.deal) <= e.held
    ensures Execute(e, call) != Err(TokenFailed) && Execute(e, call) != Err(MigrationInvariantViolation)
  {
  }

  lemma SettleNeverBounces(e: Escrow, d: string, outcome: Settlement, t: Track)
    requires BooksInv(e, d) && PhaseInv(e, d, t)
    requires Get(e.balances, d) <= e.held
    ensures e.Settle(d, outcome) != Err(TokenFailed)
    ensures IsLive(t.phase) ==> e.Settle(d, outcome).Ok?
  {
    if IsLive(t.phase) {
      LiveRequestSettles(e, d, t, outcome);
    }
  }
}
