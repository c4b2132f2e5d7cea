/** epoch_rewards: index-based rewards recorded in a chain of epochs, each sealed in turn. */
module EpochRewards {
  import opened Host

  const SCALE: int := 1_000_000_000

  datatype Error =
    | NotAuthorized | InvalidAmount | EpochAlreadySealed | EpochNotFound | OutOfOrderSealing
    | EpochNotExpired | Paused | ClaimBeforeSeal | Overflow

  datatype UserStake = UserStake(amount: int, index: int)

  datatype Epoch = Epoch(
    number: int, startTs: int, duration: int, endTs: int, sealTs: int, isSealed: bool, totalRewards: int,
    carriedForward: int, indexAtSeal: int, dust: int, claimableAtSeal: int)

  datatype Done = Done(books: Books, value: int)

  type Reply = Outcome<Done, Error>

  /** calc_pending: what a stake has earned since its index, None when the product overflows. */
  function Pending(stake: UserStake, index: int): Option<int> {
    if stake.amount == 0 then Some(0)
    else if !FitsI128(index - stake.index) || !FitsI128(stake.amount * (index - stake.index)) then None
    else Some(TruncDiv(stake.amount * (index - stake.index), SCALE))
  }

  function Opened(number: int, startTs: int, duration: int, carried: int): Epoch {
    Epoch(number, startTs, duration, 0, 0, false, 0, carried, 0, 0, 0)
  }

  /** The contract's storage. */
  datatype Books = Books(
    admin: Address, operator: Option<Address>, paused: bool, currentEpoch: int, rewardIndex: int, totalStaked: int,
    stakes: map<Address, UserStake>, unclaimed: map<Address, int>, epochs: map<int, Epoch>, startIndex: map<int, int>)
  {
    function StakeOf(user: Address): UserStake {
      if user in stakes then stakes[user] else UserStake(0, 0)
    }

    predicate MayOperate(caller: Address) {
      caller == admin || operator == Some(caller)
    }

    /** Banks the pending rewards of a user and gives the user a new stake at the current index. */
    function Restake(user: Address, change: int): Reply {
      var pending := Pending(StakeOf(user), rewardIndex);
      if pending.None? then Err(Overflow)
      else if pending.value > 0 && !FitsI128(Get(unclaimed, user) + pending.value) then Err(Overflow)
      else if !FitsI128(StakeOf(user).amount + change) || !FitsI128(totalStaked + change) then Err(Overflow)
      else Ok(Done(this.(
        unclaimed := if pending.value > 0 then unclaimed[user := Get(unclaimed, user) + pending.value] else unclaimed,
        stakes := stakes[user := UserStake(StakeOf(user).amount + change, rewardIndex)],
        totalStaked := totalStaked + change), 0))
    }

    function Stake(user: Address, amount: int): Reply {
      if amount <= 0 then Err(InvalidAmount) else Restake(user, amount)
    }

    function Unstake(user: Address, amount: int): Reply {
      if amount <= 0 || StakeOf(user).amount < amount then Err(InvalidAmount) else Restake(user, -amount)
    }

    function Fund(caller: Address, amount: int): Reply {
      if paused then Err(Paused)
      else if !MayOperate(caller) then Err(NotAuthorized)
      else if amount <= 0 then Err(InvalidAmount)
      else
        var delta := if totalStaked > 0 then amount * SCALE / totalStaked else 0;
        var dust := if totalStaked > 0 then amount - delta * totalStaked / SCALE else amount;
        if totalStaked > 0 && (!FitsI128(amount * SCALE) || !FitsI128(rewardIndex + delta)) then Err(Overflow)
        else if currentEpoch !in epochs then Ok(Done(this.(rewardIndex := rewardIndex + delta), 0))
        else
          var e := epochs[currentEpoch];
          if !FitsI128(e.totalRewards + amount) || !FitsI128(e.dust + dust) then Err(Overflow)
          else Ok(Done(this.(
            rewardIndex := rewardIndex + delta,
            epochs := epochs[currentEpoch := e.(totalRewards := e.totalRewards + amount, dust := e.dust + dust)]), 0))
    }

    /** The record a sealing leaves: what the index says is claimable, and the rest as dust, never negative. */
    function SealedRecord(e: Epoch, now: int): Option<Epoch> {
      var start := Get(startIndex, currentEpoch);
      if totalStaked > 0 && (!FitsI128(rewardIndex - start) || !FitsI128(totalStaked * (rewardIndex - start))) then None
      else
        var claimable := if totalStaked > 0 then TruncDiv(totalStaked * (rewardIndex - start), SCALE) else 0;
        var rest := e.totalRewards - claimable;
        if !FitsI128(rest) then None
        else Some(e.(endTs := now, sealTs := now, isSealed := true, indexAtSeal := rewardIndex,
                     dust := if rest < 0 then 0 else rest, claimableAtSeal := claimable))
    }

    function Seal(caller: Address, target: int, nextDuration: int, now: int): Reply {
      if !MayOperate(caller) then Err(NotAuthorized)
      else if target != currentEpoch then Err(OutOfOrderSealing)
      else if target !in epochs then Err(EpochNotFound)
      else
        var e := epochs[target];
        if e.isSealed then Err(EpochAlreadySealed)
        else if !FitsU64(e.startTs + e.duration) then Err(Overflow)
        else if now < e.startTs + e.duration then Err(EpochNotExpired)
        else
          var record := SealedRecord(e, now);
          var carried := e.carriedForward + e.totalRewards;
          if record.None? || !FitsI128(carried) || !FitsU64(currentEpoch + 1) then Err(Overflow)
          else Ok(Done(this.(
            currentEpoch := currentEpoch + 1,
            startIndex := startIndex[currentEpoch + 1 := rewardIndex],
            epochs := epochs[target := record.value]
                            [currentEpoch + 1 := Opened(currentEpoch + 1, e.startTs + e.duration, nextDuration,
                                                        e.carriedForward + e.totalRewards)]), 0))
    }

    function Claim(user: Address): Reply {
      if currentEpoch <= 1 then Err(ClaimBeforeSeal)
      else
        var pending := Pending(StakeOf(user), rewardIndex);
        if pending.None? || !FitsI128(pending.value + Get(unclaimed, user)) then Err(Overflow)
        else Ok(Done(this.(stakes := stakes[user := StakeOf(user).(index := rewardIndex)],
                           unclaimed := unclaimed[user := 0]), pending.value + Get(unclaimed, user)))
    }

    function SetOperator(caller: Address, who: Address): Reply {
      if caller != admin then Err(NotAuthorized) else Ok(Done(this.(operator := Some(who)), 0))
    }

    function SetPaused(caller: Address, value: bool): Reply {
      if caller != admin then Err(NotAuthorized) else Ok(Done(this.(paused := value), 0))
    }
  }

  function Initial(admin: Address, duration: int, now: int): Books {
    Books(admin, None, false, 1, 0, 0, map[], map[], map[1 := Opened(1, now, duration, 0)], map[1 := 0])
  }

  datatype Call =
    | Stake(user: Address, amount: int)
    | Unstake(user: Address, amount: int)
    | Fund(caller: Address, amount: int)
    | Seal(caller: Address, target: int, nextDuration: int, now: int)
    | Claim(user: Address)
    | SetOperator(caller: Address, who: Address)
    | SetPaused(caller: Address, value: bool)

  function Execute(b: Books, call: Call): Reply {
    match call
    case Stake(user, amount) => b.Stake(user, amount)
    case Unstake(user, amount) => b.Unstake(user, amount)
    case Fund(caller, amount) => b.Fund(caller, amount)
    case Seal(caller, target, nextDuration, now) => b.Seal(caller, target, nextDuration, now)
    case Claim(user) => b.Claim(user)
    case SetOperator(caller, who) => b.SetOperator(caller, who)
    case SetPaused(caller, value) => b.SetPaused(caller, value)
  }

  function After(b: Books, reply: Reply): Books {
    if reply.Ok? then reply.value.books else b
  }

  function Answer(reply: Reply): Outcome<int, Error> {
    match reply
    case Ok(done) => Ok(done.value)
    case Err(e) => Err(e)
  }

  class Contract {
    const admin: Address
    var operator: Option<Address>
    var paused: bool
    var currentEpoch: int
    var rewardIndex: int
    var totalStaked: int
    var stakes: map<Address, UserStake>
    var unclaimed: map<Address, int>
    var epochs: map<int, Epoch>
    var startIndex: map<int, int>

    function State(): Books
      reads this
    {
      Books(admin, operator, paused, currentEpoch, rewardIndex, totalStaked, stakes, unclaimed, epochs, startIndex)
    }

    constructor (admin: Address, duration: int, now: int)
      ensures State() == Initial(admin, duration, now)
    {
      this.admin := admin;
      operator, paused, currentEpoch, rewardIndex, totalStaked := None, false, 1, 0, 0;
      stakes, unclaimed := map[], map[];
      epochs := map[1 := Opened(1, now, duration, 0)];
      startIndex := map[1 := 0];
    }

    /** Settles what a user has earned; true when the arithmetic overflows, storage then untouched. */
    method Bank(user: Address, stake: UserStake) returns (overflow: bool)
      modifies this`unclaimed
      ensures var pending := Pending(stake, rewardIndex);
        var banked := if pending == None then None
                      else if pending.value <= 0 then Some(old(unclaimed))
                      else if !FitsI128(Get(old(unclaimed), user) + pending.value) then None
                      else Some(old(unclaimed)[user := Get(old(unclaimed), user) + pending.value]);
        overflow == banked.None? && unclaimed == if overflow then old(unclaimed) else banked.value
    {
      var pending := Pending(stake, rewardIndex);
      if pending.None? {
        return true;
      }
      if pending.value > 0 {
        var previous := Get(unclaimed, user);
        if !FitsI128(previous + pending.value) {
          return true;
        }
        unclaimed := unclaimed[user := previous + pending.value];
      }
      return false;
    }

    method Stake(user: Address, amount: int) returns (r: Outcome<int, Error>)
      modifies this
      ensures var spec := old(State()).Stake(user, amount);
        State() == After(old(State()), spec) && r == Answer(spec)
    {
      if amount <= 0 {
        return Err(InvalidAmount);
      }
      var stake, entry := State().StakeOf(user), unclaimed;
      var overflow := Bank(user, stake);
      if overflow || !FitsI128(stake.amount + amount) || !FitsI128(totalStaked + amount) {
        unclaimed := entry;
        return Err(Overflow);
      }
      stakes := stakes[user := UserStake(stake.amount + amount, rewardIndex)];
      totalStaked := totalStaked + amount;
      return Ok(0);
    }

    method Unstake(user: Address, amount: int) returns (r: Outcome<int, Error>)
      modifies this
      ensures var spec := old(State()).Unstake(user, amount);
        State() == After(old(State()), spec) && r == Answer(spec)
    {
      if amount <= 0 {
        return Err(InvalidAmount);
      }
      var stake, entry := State().StakeOf(user), unclaimed;
      if stake.amount < amount {
        return Err(InvalidAmount);
      }
      var overflow := Bank(user, stake);
      if overflow || !FitsI128(stake.amount - amount) || !FitsI128(totalStaked - amount) {
        unclaimed := entry;
        return Err(Overflow);
      }
      stakes := stakes[user := UserStake(stake.amount - amount, rewardIndex)];
      totalStaked := totalStaked - amount;
      return Ok(0);
    }

    method FundEpochRewards(caller: Address, amount: int) returns (r: Outcome<int, Error>)
      modifies this
      ensures var spec := old(State()).Fund(caller, amount);
        State() == After(old(State()), spec) && r == Answer(spec)
    {
      if paused {
        return Err(Paused);
      }
      if caller != admin && operator != Some(caller) {
        return Err(NotAuthorized);
      }
      if amount <= 0 {
        return Err(InvalidAmount);
      }
      var entry := rewardIndex;
      var dust := amount;
      if totalStaked > 0 {
        var delta := amount * SCALE / totalStaked;
        if !FitsI128(amount * SCALE) || !FitsI128(rewardIndex + delta) {
          return Err(Overflow);
        }
        dust := amount - delta * totalStaked / SCALE;
        rewardIndex := rewardIndex + delta;
      }
      if currentEpoch in epochs {
        var e := epochs[currentEpoch];
        if !FitsI128(e.totalRewards + amount) || !FitsI128(e.dust + dust) {
          rewardIndex := entry;
          return Err(Overflow);
        }
        epochs := epochs[currentEpoch := e.(totalRewards := e.totalRewards + amount, dust := e.dust + dust)];
      }
      return Ok(0);
    }

    method SealEpoch(caller: Address, target: int, nextDuration: int, now: int) returns (r: Outcome<int, Error>)
      modifies this
      ensures var spec := old(State()).Seal(caller, target, nextDuration, now);
        State() == After(old(State()), spec) && r == Answer(spec)
    {
      if caller != admin && operator != Some(caller) {
        return Err(NotAuthorized);
      }
      if target != currentEpoch {
        return Err(OutOfOrderSealing);
      }
      if target !in epochs {
        return Err(EpochNotFound);
      }
      var e := epochs[target];
      if e.isSealed {
        return Err(EpochAlreadySealed);
      }
      if !FitsU64(e.startTs + e.duration) {
        return Err(Overflow);
      }
      if now < e.startTs + e.duration {
        return Err(EpochNotExpired);
      }
      var start := Get(startIndex, target);
      var claimable := 0;
      if totalStaked > 0 {
        if !FitsI128(rewardIndex - start) || !FitsI128(totalStaked * (rewardIndex - start)) {
          return Err(Overflow);
        }
        claimable := TruncDiv(totalStaked * (rewardIndex - start), SCALE);
      }
      var dust := e.totalRewards - claimable;
      var carry := e.carriedForward + e.totalRewards;
      var next := currentEpoch + 1;
      if !FitsI128(dust) || !FitsI128(carry) || !FitsU64(next) {
        return Err(Overflow);
      }
      if dust < 0 {
        dust := 0;
      }
      epochs := epochs[target := e.(endTs := now, sealTs := now, isSealed := true, indexAtSeal := rewardIndex,
                                    dust := dust, claimableAtSeal := claimable)];
      currentEpoch := next;
      startIndex := startIndex[next := rewardIndex];
      epochs := epochs[next := Opened(next, e.startTs + e.duration, nextDuration, carry)];
      return Ok(0);
    }

    method Claim(user: Address) returns (r: Outcome<int, Error>)
      modifies this
      ensures var spec := old(State()).Claim(user);
        State() == After(old(State()), spec) && r == Answer(spec)
    {
      if currentEpoch <= 1 {
        return Err(ClaimBeforeSeal);
      }
      var stake := State().StakeOf(user);
      var live := Pending(stake, rewardIndex);
      var banked := Get(unclaimed, user);
      if live.None? || !FitsI128(live.value + banked) {
        return Err(Overflow);
      }
      stakes := stakes[user := stake.(index := rewardIndex)];
      unclaimed := unclaimed[user := 0];
      return Ok(live.value + banked);
    }
  }
}
