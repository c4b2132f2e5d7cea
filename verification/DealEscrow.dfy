/** deal_escrow: per-deal deposits, releases, and rent releases that can be challenged, resolved or
    settled by timeout. */
module DealEscrow {
  import opened Host

  datatype Error =
    | NotAuthorized | Paused | InvalidAmount | InsufficientBalance | EmptyString | InvalidSplit | Frozen
    | RecoveryDelayNotMet | InvalidReleaseWindow | PendingReleaseExists | NoPendingRelease | DisputeNotAllowed
    | NoOpenDispute | InvalidSettlement | MigrationInvariantViolation | Overflow | TokenFailed

  datatype DealState = DealState(total: int, locked: int, pendingPayout: int)

  datatype Pending = Pending(
    to: Address, amount: int, requestedBy: Address, requestedAt: int, challengeEndAt: int, reference: string)

  datatype Dispute = Dispute(
    openedBy: Address, openedAt: int, evidence: string, challengeEvidence: string, resolved: bool)

  datatype Settlement = ReleaseToRecipient | RefundToDepositor

  datatype Breaker = Unfrozen | Frozen | RecoveryAwaiting

  /** A token transfer out of the contract, and the deal it was made for. */
  datatype Payment = Payment(deal: string, to: Address, amount: int)

  datatype Done = Done(escrow: Escrow, value: int)

  type Reply = Outcome<Done, Error>

  /** assert_deal_invariants. */
  predicate Consistent(s: DealState) {
    && s.total >= 0 && s.locked >= 0 && s.pendingPayout >= 0
    && s.locked == s.pendingPayout
    && s.locked <= s.total
  }

  /** The payments of a release, zero parts left out. */
  function Split(deal: string, parts: seq<(Address, int)>): seq<Payment> {
    if parts == [] then []
    else (if parts[0].1 > 0 then [Payment(deal, parts[0].0, parts[0].1)] else []) + Split(deal, parts[1..])
  }

  /** Storage, the tokens held, and the transfers out so far. */
  datatype Escrow = Escrow(
    admin: Address, operator: Address, resolver: Option<Address>, window: int, timeout: int, paused: bool,
    breaker: Breaker, balances: map<string, int>, depositors: map<string, Address>, states: map<string, DealState>,
    pendings: map<string, Pending>, disputes: map<string, Dispute>, held: int, sent: seq<Payment>)
  {
    function StateOf(deal: string): DealState {
      if deal in states then states[deal] else DealState(Get(balances, deal), 0, 0)
    }

    predicate MayOperate(caller: Address) {
      caller == admin || caller == operator
    }

    function Deposit(from: Address, deal: string, amount: int, payerPays: bool): Reply {
      if paused then Err(Paused)
      else if amount <= 0 then Err(InvalidAmount)
      else if deal == "" then Err(EmptyString)
      else if !payerPays then Err(TokenFailed)
      else
        var total := Get(balances, deal) + amount;
        var state := StateOf(deal).(total := total);
        if !FitsI128(total) then Err(Overflow)
        else if !Consistent(state) then Err(MigrationInvariantViolation)
        else Ok(Done(this.(
          balances := balances[deal := total],
          depositors := if deal in depositors then depositors else depositors[deal := from],
          states := states[deal := state], held := held + amount), 0))
    }

    function Release(caller: Address, deal: string, parts: seq<(Address, int)>, reference: string): Reply
      requires |parts| == 3
    {
      if paused then Err(Paused)
      else if breaker == Breaker.Frozen then Err(Error.Frozen)
      else if breaker == RecoveryAwaiting then Err(RecoveryDelayNotMet)
      else if deal == "" || reference == "" then Err(EmptyString)
      else if !MayOperate(caller) then Err(NotAuthorized)
      else if parts[0].1 < 0 || parts[1].1 < 0 || parts[2].1 < 0 then Err(InvalidAmount)
      else
        var cur := Get(balances, deal);
        if cur <= 0 then Err(InsufficientBalance)
        else if !FitsI128(parts[0].1 + parts[1].1 + parts[2].1) then Err(Overflow)
        else if parts[0].1 + parts[1].1 + parts[2].1 != cur then Err(InvalidSplit)
        else if held < cur then Err(TokenFailed)
        else Ok(Done(this.(
          balances := balances[deal := 0], states := states[deal := DealState(0, 0, 0)],
          held := held - cur, sent := sent + Split(deal, parts)), cur))
    }

    function Request(caller: Address, deal: string, to: Address, amount: int, reference: string, now: int): Reply {
      if paused then Err(Paused)
      else if amount <= 0 then Err(InvalidAmount)
      else if deal == "" || reference == "" then Err(EmptyString)
      else if !MayOperate(caller) then Err(NotAuthorized)
      else if deal in pendings then Err(PendingReleaseExists)
      else
        var state := StateOf(deal).(locked := amount, pendingPayout := amount);
        if state.total < amount then Err(InsufficientBalance)
        else if !Consistent(state) then Err(MigrationInvariantViolation)
        else if !FitsU64(now + window) then Err(Overflow)
        else Ok(Done(this.(
          states := states[deal := state],
          pendings := pendings[deal := Pending(to, amount, caller, now, now + window, reference)]), 0))
    }

    function Challenge(caller: Address, deal: string, evidence: string, now: int): Reply {
      if paused then Err(Paused)
      else if deal == "" || evidence == "" then Err(EmptyString)
      else if deal !in pendings then Err(NoPendingRelease)
      else if now > pendings[deal].challengeEndAt then Err(DisputeNotAllowed)
      else if deal !in depositors then Err(DisputeNotAllowed)
      else if caller != depositors[deal] && caller != pendings[deal].to then Err(NotAuthorized)
      else Ok(Done(this.(
        disputes := disputes[deal := Dispute(caller, now, pendings[deal].reference, evidence, false)]), 0))
    }

    function Resolve(caller: Address, deal: string, outcome: Settlement, evidence: string): Reply {
      if paused then Err(Paused)
      else if deal == "" || evidence == "" then Err(EmptyString)
      else if resolver != Some(caller) then Err(NotAuthorized)
      else if deal !in disputes then Err(NoOpenDispute)
      else if disputes[deal].resolved then Err(InvalidSettlement)
      else Settle(deal, outcome)
    }

    function SettleReleaseTimeout(deal: string, now: int): Reply {
      if paused then Err(Paused)
      else if deal == "" then Err(EmptyString)
      else if deal in disputes then Err(DisputeNotAllowed)
      else if deal !in pendings then Err(NoPendingRelease)
      else if now < pendings[deal].challengeEndAt then Err(InvalidReleaseWindow)
      else Settle(deal, ReleaseToRecipient)
    }

    function SettleDisputeTimeout(deal: string, now: int): Reply {
      if paused then Err(Paused)
      else if deal == "" then Err(EmptyString)
      else if deal !in disputes then Err(NoOpenDispute)
      else if disputes[deal].resolved then Err(InvalidSettlement)
      else if !FitsU64(disputes[deal].openedAt + timeout) then Err(Overflow)
      else if now < disputes[deal].openedAt + timeout then Err(InvalidReleaseWindow)
      else Settle(deal, RefundToDepositor)
    }

    /** settle_release_inner. */
    function Settle(deal: string, outcome: Settlement): Reply {
      if deal !in pendings then Err(NoPendingRelease)
      else if deal !in depositors then Err(InvalidSettlement)
      else
        var pending, state := pendings[deal], StateOf(deal);
        var left := DealState(state.total - pending.amount, 0, 0);
        if state.locked != pending.amount || state.pendingPayout != pending.amount then Err(MigrationInvariantViolation)
        else if held < pending.amount then Err(TokenFailed)
        else if !Consistent(left) then Err(MigrationInvariantViolation)
        else
          var recipient := if outcome == ReleaseToRecipient then pending.to else depositors[deal];
          Ok(Done(this.(
            states := states[deal := left], balances := balances[deal := left.total],
            pendings := pendings - {deal}, disputes := disputes - {deal},
            held := held - pending.amount, sent := sent + [Payment(deal, recipient, pending.amount)]), 0))
    }

    function ConfigureWindows(caller: Address, newWindow: int, newTimeout: int): Reply {
      if caller != admin then Err(NotAuthorized)
      else if newWindow == 0 || newTimeout == 0 then Err(InvalidReleaseWindow)
      else Ok(Done(this.(window := newWindow, timeout := newTimeout), 0))
    }

    function SetResolver(caller: Address, who: Address): Reply {
      if caller != admin then Err(NotAuthorized) else Ok(Done(this.(resolver := Some(who)), 0))
    }

    function SetPaused(caller: Address, value: bool): Reply {
      if caller != admin then Err(NotAuthorized) else Ok(Done(this.(paused := value), 0))
    }
  }

  function Initial(admin: Address, operator: Address): Escrow {
    Escrow(admin, operator, None, 24 * 60 * 60, 48 * 60 * 60, false, Unfrozen,
           map[], map[], map[], map[], map[], 0, [])
  }

  /** Calls, a move of the circuit breaker to any state, and tokens sent straight to the contract. */
  datatype Call =
    | Deposit(from: Address, deal: string, amount: int, payerPays: bool)
    | Release(caller: Address, deal: string, to: Address, principal: int, platform: Address, fee: int,
              reporter: Address, bounty: int, reference: string)
    | Request(caller: Address, deal: string, to: Address, amount: int, reference: string, now: nat)
    | Challenge(caller: Address, deal: string, evidence: string, now: nat)
    | Resolve(caller: Address, deal: string, outcome: Settlement, evidence: string)
    | SettleReleaseTimeout(deal: string, now: nat)
    | SettleDisputeTimeout(deal: string, now: nat)
    | ConfigureWindows(caller: Address, window: nat, timeout: nat)
    | SetResolver(caller: Address, who: Address)
    | SetPaused(caller: Address, value: bool)
    | MoveBreaker(state: Breaker)
    | Gift(tokens: nat)

  function Execute(e: Escrow, call: Call): Reply {
    match call
    case Deposit(from, deal, amount, pays) => e.Deposit(from, deal, amount, pays)
    case Release(caller, deal, to, principal, platform, fee, reporter, bounty, reference) =>
      e.Release(caller, deal, [(to, principal), (platform, fee), (reporter, bounty)], reference)
    case Request(caller, deal, to, amount, reference, now) => e.Request(caller, deal, to, amount, reference, now)
    case Challenge(caller, deal, evidence, now) => e.Challenge(caller, deal, evidence, now)
    case Resolve(caller, deal, outcome, evidence) => e.Resolve(caller, deal, outcome, evidence)
    case SettleReleaseTimeout(deal, now) => e.SettleReleaseTimeout(deal, now)
    case SettleDisputeTimeout(deal, now) => e.SettleDisputeTimeout(deal, now)
    case ConfigureWindows(caller, window, timeout) => e.ConfigureWindows(caller, window, timeout)
    case SetResolver(caller, who) => e.SetResolver(caller, who)
    case SetPaused(caller, value) => e.SetPaused(caller, value)
    case MoveBreaker(state) => Ok(Done(e.(breaker := state), 0))
    case Gift(tokens) => Ok(Done(e.(held := e.held + tokens), 0))
  }

  function After(e: Escrow, reply: Reply): Escrow {
    if reply.Ok? then reply.value.escrow else e
  }

  function Answer(reply: Reply): Outcome<int, Error> {
    match reply
    case Ok(done) => Ok(done.value)
    case Err(e) => Err(e)
  }

  class Contract {
    const admin: Address
    const operator: Address
    var resolver: Option<Address>
    var window: int
    var timeout: int
    var paused: bool
    var breaker: Breaker
    var balances: map<string, int>
    var depositors: map<string, Address>
    var states: map<string, DealState>
    var pendings: map<string, Pending>
    var disputes: map<string, Dispute>
    var held: int
    var sent: seq<Payment>

    function State(): Escrow
      reads this
    {
      Escrow(admin, operator, resolver, window, timeout, paused, breaker,
             balances, depositors, states, pendings, disputes, held, sent)
    }

    constructor (admin: Address, operator: Address)
      ensures State() == Initial(admin, operator)
    {
      this.admin, this.operator := admin, operator;
      resolver, window, timeout, paused, breaker := None, 24 * 60 * 60, 48 * 60 * 60, false, Unfrozen;
      balances, depositors, states, pendings, disputes := map[], map[], map[], map[], map[];
      held, sent := 0, [];
    }

    /** What the host does when a call fails. */
    method RollBack(entry: Escrow)
      requires entry.admin == admin && entry.operator == operator
      modifies this
      ensures State() == entry
    {
      resolver, window, timeout := entry.resolver, entry.window, entry.timeout;
      paused, breaker := entry.paused, entry.breaker;
      balances, depositors, states := entry.balances, entry.depositors, entry.states;
      pendings, disputes, held, sent := entry.pendings, entry.disputes, entry.held, entry.sent;
    }

    /** A transfer out, made by the token contract. */
    method Transfer(deal: string, to: Address, amount: int)
      requires amount <= held
      modifies this`held, this`sent
      ensures held == old(held) - amount && sent == old(sent) + [Payment(deal, to, amount)]
    {
      held := held - amount;
      sent := sent + [Payment(deal, to, amount)];
    }

    method Deposit(from: Address, deal: string, amount: int, payerPays: bool) returns (r: Outcome<int, Error>)
      modifies this
      ensures var spec := old(State()).Deposit(from, deal, amount, payerPays);
        State() == After(old(State()), spec) && r == Answer(spec)
    {
      if paused {
        return Err(Paused);
      }
      if amount <= 0 {
        return Err(InvalidAmount);
      }
      if deal == "" {
        return Err(EmptyString);
      }
      if !payerPays {
        return Err(TokenFailed);
      }
      var entry := State();
      var state := State().StateOf(deal);
      held := held + amount;
      var cur := Get(balances, deal);
      if !FitsI128(cur + amount) {
        RollBack(entry);
        return Err(Overflow);
      }
      balances := balances[deal := cur + amount];
      if deal !in depositors {
        depositors := depositors[deal := from];
      }
      state := state.(total := cur + amount);
      if !Consistent(state) {
        RollBack(entry);
        return Err(MigrationInvariantViolation);
      }
      states := states[deal := state];
      return Ok(0);
    }

    method Release(caller: Address, deal: string, to: Address, principal: int, platform: Address, fee: int,
                   reporter: Address, bounty: int, reference: string) returns (r: Outcome<int, Error>)
      modifies this
      ensures var parts := [(to, principal), (platform, fee), (reporter, bounty)];
        var spec := old(State()).Release(caller, deal, parts, reference);
        State() == After(old(State()), spec) && r == Answer(spec)
    {
      if paused {
        return Err(Paused);
      }
      match breaker {
        case Unfrozen =>
        case Frozen => return Err(Error.Frozen);
        case RecoveryAwaiting => return Err(RecoveryDelayNotMet);
      }
      if deal == "" || reference == "" {
        return Err(EmptyString);
      }
      if caller != admin && caller != operator {
        return Err(NotAuthorized);
      }
      if principal < 0 || fee < 0 || bounty < 0 {
        return Err(InvalidAmount);
      }
      var cur := Get(balances, deal);
      if cur <= 0 {
        return Err(InsufficientBalance);
      }
      if !FitsI128(principal + fee + bounty) {
        return Err(Overflow);
      }
      if principal + fee + bounty != cur {
        return Err(InvalidSplit);
      }
      if held < cur {
        return Err(TokenFailed);
      }
      balances := balances[deal := 0];
      states := states[deal := DealState(0, 0, 0)];
      PayParts(deal, to, principal, platform, fee, reporter, bounty);
      return Ok(cur);
    }

    method PayParts(deal: string, to: Address, principal: int, platform: Address, fee: int,
                    reporter: Address, bounty: int)
      requires principal >= 0 && fee >= 0 && bounty >= 0 && principal + fee + bounty <= held
      modifies this`held, this`sent
      ensures held == old(held) - (principal + fee + bounty)
      ensures sent == old(sent) + Split(deal, [(to, principal), (platform, fee), (reporter, bounty)])
    {
      if principal > 0 {
        Transfer(deal, to, principal);
      }
      if fee > 0 {
        Transfer(deal, platform, fee);
      }
      if bounty > 0 {
        Transfer(deal, reporter, bounty);
      }
      SplitOfThree(deal, [(to, principal), (platform, fee), (reporter, bounty)]);
    }

    /** Marks a stored dispute resolved, then removes it. */
    method CloseDispute(deal: string)
      modifies this`disputes
      ensures disputes == old(disputes) - {deal}
    {
      if deal in disputes {
        disputes := disputes[deal := disputes[deal].(resolved := true)];
        disputes := disputes - {deal};
      }
    }

    /** Everything a settlement writes once its transfer is out. */
    method StoreSettled(deal: string, state: DealState)
      modifies this`states, this`balances, this`pendings, this`disputes
      ensures states == old(states)[deal := state] && balances == old(balances)[deal := state.total]
      ensures pendings == old(pendings) - {deal} && disputes == old(disputes) - {deal}
    {
      states := states[deal := state];
      balances := balances[deal := state.total];
      pendings := pendings - {deal};
      CloseDispute(deal);
    }

    method RequestRentRelease(caller: Address, deal: string, to: Address, amount: int, reference: string, now: int)
      returns (r: Outcome<int, Error>)
      modifies this
      ensures var spec := old(State()).Request(caller, deal, to, amount, reference, now);
        State() == After(old(State()), spec) && r == Answer(spec)
    {
      if paused {
        return Err(Paused);
      }
      if amount <= 0 {
        return Err(InvalidAmount);
      }
      if deal == "" || reference == "" {
        return Err(EmptyString);
      }
      if caller != admin && caller != operator {
        return Err(NotAuthorized);
      }
      if deal in pendings {
        return Err(PendingReleaseExists);
      }
      var entry := states;
      var state := State().StateOf(deal);
      if state.total < amount {
        return Err(InsufficientBalance);
      }
      state := state.(locked := amount);
      state := state.(pendingPayout := amount);
      if !Consistent(state) {
        return Err(MigrationInvariantViolation);
      }
      states := states[deal := state];
      if !FitsU64(now + window) {
        states := entry;
        return Err(Overflow);
      }
      pendings := pendings[deal := Pending(to, amount, caller, now, now + window, reference)];
      return Ok(0);
    }

    method ChallengeRentRelease(caller: Address, deal: string, evidence: string, now: int)
      returns (r: Outcome<int, Error>)
      modifies this
      ensures var spec := old(State()).Challenge(caller, deal, evidence, now);
        State() == After(old(State()), spec) && r == Answer(spec)
    {
      if paused {
        return Err(Paused);
      }
      if deal == "" || evidence == "" {
        return Err(EmptyString);
      }
      if deal !in pendings {
        return Err(NoPendingRelease);
      }
      var pending := pendings[deal];
      if now > pending.challengeEndAt || deal !in depositors {
        return Err(DisputeNotAllowed);
      }
      if caller != depositors[deal] && caller != pending.to {
        return Err(NotAuthorized);
      }
      disputes := disputes[deal := Dispute(caller, now, pending.reference, evidence, false)];
      return Ok(0);
    }

    method ResolveRentDispute(caller: Address, deal: string, outcome: Settlement, evidence: string)
      returns (r: Outcome<int, Error>)
      modifies this
      ensures var spec := old(State()).Resolve(caller, deal, outcome, evidence);
        State() == After(old(State()), spec) && r == Answer(spec)
    {
      if paused {
        return Err(Paused);
      }
      if deal == "" || evidence == "" {
        return Err(EmptyString);
      }
      if resolver.None? || caller != resolver.value {
        return Err(NotAuthorized);
      }
      if deal !in disputes {
        return Err(NoOpenDispute);
      }
      if disputes[deal].resolved {
        return Err(InvalidSettlement);
      }
      r := SettleReleaseInner(deal, outcome);
    }

    method SettleRentReleaseTimeout(deal: string, now: int) returns (r: Outcome<int, Error>)
      modifies this
      ensures var spec := old(State()).SettleReleaseTimeout(deal, now);
        State() == After(old(State()), spec) && r == Answer(spec)
    {
      if paused {
        return Err(Paused);
      }
      if deal == "" {
        return Err(EmptyString);
      }
      if deal in disputes {
        return Err(DisputeNotAllowed);
      }
      if deal !in pendings {
        return Err(NoPendingRelease);
      }
      if now < pendings[deal].challengeEndAt {
        return Err(InvalidReleaseWindow);
      }
      r := SettleReleaseInner(deal, ReleaseToRecipient);
    }

    method SettleDisputeTimeout(deal: string, now: int) returns (r: Outcome<int, Error>)
      modifies this
      ensures var spec := old(State()).SettleDisputeTimeout(deal, now);
        State() == After(old(State()), spec) && r == Answer(spec)
    {
      if paused {
        return Err(Paused);
      }
      if deal == "" {
        return Err(EmptyString);
      }
      if deal !in disputes {
        return Err(NoOpenDispute);
      }
      var dispute := disputes[deal];
      if dispute.resolved {
        return Err(InvalidSettlement);
      }
      if !FitsU64(dispute.openedAt + timeout) {
        return Err(Overflow);
      }
      if now < dispute.openedAt + timeout {
        return Err(InvalidReleaseWindow);
      }
      r := SettleReleaseInner(deal, RefundToDepositor);
    }

    method SettleReleaseInner(deal: string, outcome: Settlement) returns (r: Outcome<int, Error>)
      modifies this
      ensures var spec := old(State()).Settle(deal, outcome);
        State() == After(old(State()), spec) && r == Answer(spec)
    {
      var entry := State();
      if deal !in pendings {
        return Err(NoPendingRelease);
      }
      if deal !in depositors {
        return Err(InvalidSettlement);
      }
      var pending := pendings[deal];
      var state := State().StateOf(deal);
      if state.locked != pending.amount || state.pendingPayout != pending.amount {
        return Err(MigrationInvariantViolation);
      }
      var recipient;
      match outcome {
        case ReleaseToRecipient => recipient := pending.to;
        case RefundToDepositor => recipient := depositors[deal];
      }
      if held < pending.amount {
        return Err(TokenFailed);
      }
      Transfer(deal, recipient, pending.amount);
      state := DealState(state.total - pending.amount, 0, 0);
      if !Consistent(state) {
        RollBack(entry);
        return Err(MigrationInvariantViolation);
      }
      StoreSettled(deal, state);
      return Ok(0);
    }

    method ConfigureDisputeWindows(caller: Address, newWindow: int, newTimeout: int) returns (r: Outcome<int, Error>)
      modifies this
      ensures var spec := old(State()).ConfigureWindows(caller, newWindow, newTimeout);
        State() == After(old(State()), spec) && r == Answer(spec)
    {
      if caller != admin {
        return Err(NotAuthorized);
      }
      if newWindow == 0 || newTimeout == 0 {
        return Err(InvalidReleaseWindow);
      }
      window := newWindow;
      timeout := newTimeout;
      return Ok(0);
    }

    method SetResolver(caller: Address, who: Address) returns (r: Outcome<int, Error>)
      modifies this
      ensures var spec := old(State()).SetResolver(caller, who);
        State() == After(old(State()), spec) && r == Answer(spec)
    {
      if caller != admin {
        return Err(NotAuthorized);
      }
      resolver := Some(who);
      return Ok(0);
    }

    method SetPaused(caller: Address, value: bool) returns (r: Outcome<int, Error>)
      modifies this
      ensures var spec := old(State()).SetPaused(caller, value);
        State() == After(old(State()), spec) && r == Answer(spec)
    {
      if caller != admin {
        return Err(NotAuthorized);
      }
      paused := value;
      return Ok(0);
    }
  }

  lemma SplitOfThree(deal: string, parts: seq<(Address, int)>)
    requires |parts| == 3
    ensures Split(deal, parts)
      == (if parts[0].1 > 0 then [Payment(deal, parts[0].0, parts[0].1)] else [])
       + (if parts[1].1 > 0 then [Payment(deal, parts[1].0, parts[1].1)] else [])
       + (if parts[2].1 > 0 then [Payment(deal, parts[2].0, parts[2].1)] else [])
  {
    var rest := parts[1..];
    var last := rest[1..];
    assert last[0] == parts[2] && last[1..] == [] && rest[0] == parts[1];
    assert Split(deal, last)
        == (if parts[2].1 > 0 then [Payment(deal, parts[2].0, parts[2].1)] else []) + Split(deal, []);
  }
}
