/** mvp_staking_pool: stakes, the part of a stake put to use, and rewards that accrue lazily
    against one global fixed-point index. */
module StakingPool {
  import opened Host

  /** REWARD_INDEX_SCALE. */
  const SCALE: int := 1_000_000_000_000

  datatype Error =
    | Paused | AmountNotPositive | Overflow | TokenFailed | NotAuthorized
    | InsufficientUnusedStake | UtilizationExceedsUnused | NoStakers

  /** What a successful call leaves in storage, and what it returns (0 where it returns nothing). */
  datatype Done = Done(pool: Pool, value: int)

  type Reply = Outcome<Done, Error>

  /** The contract's storage, and the number of tokens the token contract holds for it. */
  datatype Pool = Pool(
    admin: Address, paused: bool, totalStaked: int, index: int,
    staked: map<Address, int>, used: map<Address, int>,
    userIndex: map<Address, int>, claimable: map<Address, int>, held: int)
  {
    function Unused(user: Address): int {
      SaturatingSub(Get(staked, user), Get(used, user))
    }

    /** Brings the user's credit up to the global index. */
    function Accrue(user: Address): Outcome<Pool, Error> {
      var delta := index - Get(userIndex, user);
      var stake := Get(staked, user);
      if delta <= 0 then
        Ok(this)
      else if stake <= 0 then
        Ok(this.(userIndex := userIndex[user := index]))
      else if !FitsI128(delta) || !FitsI128(stake * delta) then
        Err(Overflow)
      else
        var accrued := stake * delta / SCALE;
        if accrued <= 0 then
          Ok(this.(userIndex := userIndex[user := index]))
        else if !FitsI128(Get(claimable, user) + accrued) then
          Err(Overflow)
        else
          Ok(this.(userIndex := userIndex[user := index],
                   claimable := claimable[user := Get(claimable, user) + accrued]))
    }

    function Stake(user: Address, amount: int, payerPays: bool): Reply {
      if paused then Err(Paused)
      else if amount <= 0 then Err(AmountNotPositive)
      else match Accrue(user)
        case Err(e) => Err(e)
        case Ok(p) =>
          if !FitsI128(Get(p.staked, user) + amount) || !FitsI128(p.totalStaked + amount) then Err(Overflow)
          else if !payerPays then Err(TokenFailed)
          else Ok(Done(p.(staked := p.staked[user := Get(p.staked, user) + amount],
                          totalStaked := p.totalStaked + amount,
                          held := p.held + amount), 0))
    }

    function Unstake(user: Address, amount: int): Reply {
      if paused then Err(Paused)
      else if amount <= 0 then Err(AmountNotPositive)
      else match Accrue(user)
        case Err(e) => Err(e)
        case Ok(p) =>
          if amount > p.Unused(user) then Err(InsufficientUnusedStake)
          else if p.held < amount then Err(TokenFailed)
          else Ok(Done(p.(staked := p.staked[user := Get(p.staked, user) - amount],
                          totalStaked := p.totalStaked - amount,
                          held := p.held - amount), 0))
    }

    function Utilize(caller: Address, user: Address, amount: int): Reply {
      if caller != admin then Err(NotAuthorized)
      else if paused then Err(Paused)
      else if amount <= 0 then Err(AmountNotPositive)
      else match Accrue(user)
        case Err(e) => Err(e)
        case Ok(p) =>
          if amount > p.Unused(user) then Err(UtilizationExceedsUnused)
          else if !FitsI128(Get(p.used, user) + amount) then Err(Overflow)
          else
            var total := Get(p.used, user) + amount;
            Ok(Done(p.(used := if total <= 0 then p.used - {user} else p.used[user := total]), 0))
    }

    function FundRewards(from: Address, amount: int, payerPays: bool): Reply {
      if paused then Err(Paused)
      else if amount <= 0 then Err(AmountNotPositive)
      else if from != admin then Err(NotAuthorized)
      else if totalStaked <= 0 then Err(NoStakers)
      else if !payerPays then Err(TokenFailed)
      else if !FitsI128(amount * SCALE) || !FitsI128(index + amount * SCALE / totalStaked) then Err(Overflow)
      else Ok(Done(this.(index := index + amount * SCALE / totalStaked, held := held + amount), 0))
    }

    /** The getter `claimable`: it accrues, and it does so even while the pool is paused. */
    function Claimable(user: Address): Reply {
      match Accrue(user)
      case Err(e) => Err(e)
      case Ok(p) => Ok(Done(p, Get(p.claimable, user)))
    }

    function Claim(to: Address): Reply {
      if paused then Err(Paused)
      else match Accrue(to)
        case Err(e) => Err(e)
        case Ok(p) =>
          var amount := Get(p.claimable, to);
          if amount <= 0 then Ok(Done(p, 0))
          else if p.held < amount then Err(TokenFailed)
          else Ok(Done(p.(claimable := p.claimable[to := 0], held := p.held - amount), amount))
    }

    function SetPaused(caller: Address, value: bool): Reply {
      if caller != admin then Err(NotAuthorized) else Ok(Done(this.(paused := value), 0))
    }
  }

  function Initial(admin: Address): Pool {
    Pool(admin, false, 0, 0, map[], map[], map[], map[], 0)
  }

  /** A call made by anybody, or a transfer of tokens straight to the contract's address. */
  datatype Call =
    | Stake(user: Address, amount: int, payerPays: bool)
    | Unstake(user: Address, amount: int)
    | Utilize(caller: Address, user: Address, amount: int)
    | FundRewards(from: Address, amount: int, payerPays: bool)
    | Claimable(user: Address)
    | Claim(user: Address)
    | SetPaused(caller: Address, value: bool)
    | Gift(tokens: nat)

  function Execute(p: Pool, call: Call): Reply {
    match call
    case Stake(user, amount, pays) => p.Stake(user, amount, pays)
    case Unstake(user, amount) => p.Unstake(user, amount)
    case Utilize(caller, user, amount) => p.Utilize(caller, user, amount)
    case FundRewards(from, amount, pays) => p.FundRewards(from, amount, pays)
    case Claimable(user) => p.Claimable(user)
    case Claim(user) => p.Claim(user)
    case SetPaused(caller, value) => p.SetPaused(caller, value)
    case Gift(tokens) => Ok(Done(p.(held := p.held + tokens), 0))
  }

  /** A failed call reverts: storage stays as it was. */
  function After(p: Pool, reply: Reply): Pool {
    if reply.Ok? then reply.value.pool else p
  }

  function Answer(reply: Reply): Outcome<int, Error> {
    match reply
    case Ok(done) => Ok(done.value)
    case Err(e) => Err(e)
  }

  /** The contract: per-key storage that its entry points overwrite entry by entry. */
  class Contract {
    const admin: Address
    var paused: bool
    var totalStaked: int
    var index: int
    var staked: map<Address, int>
    var used: map<Address, int>
    var userIndex: map<Address, int>
    var claimable: map<Address, int>
    var held: int

    function State(): Pool
      reads this
    {
      Pool(admin, paused, totalStaked, index, staked, used, userIndex, claimable, held)
    }

    constructor (admin: Address)
      ensures State() == Initial(admin)
    {
      this.admin := admin;
      paused, totalStaked, index, held := false, 0, 0, 0;
      staked, used, userIndex, claimable := map[], map[], map[], map[];
    }

    /** What the host does when a call fails. */
    method RollBack(entry: Pool)
      requires entry.admin == admin
      modifies this
      ensures State() == entry
    {
      paused, totalStaked, index, held := entry.paused, entry.totalStaked, entry.index, entry.held;
      staked, used := entry.staked, entry.used;
      userIndex, claimable := entry.userIndex, entry.claimable;
    }

    method AccrueUserRewards(user: Address) returns (overflow: bool)
      modifies this`userIndex, this`claimable
      ensures var accrued := old(State()).Accrue(user);
        if overflow then accrued == Err(Overflow) && State() == old(State()) else accrued == Ok(State())
    {
      var userIdx := Get(userIndex, user);
      if index <= userIdx {
        return false;
      }
      var stake := Get(staked, user);
      if stake > 0 {
        var delta := index - userIdx;
        if !FitsI128(delta) || !FitsI128(stake * delta) {
          return true;
        }
        var accrued := stake * delta / SCALE;
        if accrued > 0 {
          var current := Get(claimable, user);
          if !FitsI128(current + accrued) {
            return true;
          }
          claimable := claimable[user := current + accrued];
        }
      }
      userIndex := userIndex[user := index];
      return false;
    }

    method Stake(user: Address, amount: int, payerPays: bool) returns (r: Outcome<int, Error>)
      modifies this
      ensures var spec := old(State()).Stake(user, amount, payerPays);
        State() == After(old(State()), spec) && r == Answer(spec)
    {
      var entry := State();
      if paused {
        return Err(Paused);
      }
      if amount <= 0 {
        return Err(AmountNotPositive);
      }
      var overflow := AccrueUserRewards(user);
      var balance := Get(staked, user);
      if overflow || !FitsI128(balance + amount) || !FitsI128(totalStaked + amount) {
        RollBack(entry);
        return Err(Overflow);
      }
      staked := staked[user := balance + amount];
      totalStaked := totalStaked + amount;
      if !payerPays {
        RollBack(entry);
        return Err(TokenFailed);
      }
      held := held + amount;
      return Ok(0);
    }

    method Unstake(user: Address, amount: int) returns (r: Outcome<int, Error>)
      modifies this
      ensures var spec := old(State()).Unstake(user, amount);
        State() == After(old(State()), spec) && r == Answer(spec)
    {
      var entry := State();
      if paused {
        return Err(Paused);
      }
      if amount <= 0 {
        return Err(AmountNotPositive);
      }
      var overflow := AccrueUserRewards(user);
      if overflow {
        return Err(Overflow);
      }
      var balance := Get(staked, user);
      if amount > SaturatingSub(balance, Get(used, user)) {
        RollBack(entry);
        return Err(InsufficientUnusedStake);
      }
      staked := staked[user := balance - amount];
      totalStaked := totalStaked - amount;
      if held < amount {
        RollBack(entry);
        return Err(TokenFailed);
      }
      held := held - amount;
      return Ok(0);
    }

    method UtilizeStake(caller: Address, user: Address, amount: int) returns (r: Outcome<int, Error>)
      modifies this
      ensures var spec := old(State()).Utilize(caller, user, amount);
        State() == After(old(State()), spec) && r == Answer(spec)
    {
      var entry := State();
      if caller != admin {
        return Err(NotAuthorized);
      }
      if paused {
        return Err(Paused);
      }
      if amount <= 0 {
        return Err(AmountNotPositive);
      }
      var overflow := AccrueUserRewards(user);
      if overflow {
        return Err(Overflow);
      }
      var already := Get(used, user);
      if amount > SaturatingSub(Get(staked, user), already) {
        RollBack(entry);
        return Err(UtilizationExceedsUnused);
      }
      if !FitsI128(already + amount) {
        RollBack(entry);
        return Err(Overflow);
      }
      if already + amount <= 0 {
        used := used - {user};
      } else {
        used := used[user := already + amount];
      }
      return Ok(0);
    }

    method FundRewards(from: Address, amount: int, payerPays: bool) returns (r: Outcome<int, Error>)
      modifies this
      ensures var spec := old(State()).FundRewards(from, amount, payerPays);
        State() == After(old(State()), spec) && r == Answer(spec)
    {
      var entry := State();
      if paused {
        return Err(Paused);
      }
      if amount <= 0 {
        return Err(AmountNotPositive);
      }
      if from != admin {
        return Err(NotAuthorized);
      }
      if totalStaked <= 0 {
        return Err(NoStakers);
      }
      if !payerPays {
        return Err(TokenFailed);
      }
      held := held + amount;
      var increment := amount * SCALE / totalStaked;
      if !FitsI128(amount * SCALE) || !FitsI128(index + increment) {
        RollBack(entry);
        return Err(Overflow);
      }
      index := index + increment;
      return Ok(0);
    }

    method ClaimableRewards(user: Address) returns (r: Outcome<int, Error>)
      modifies this
      ensures var spec := old(State()).Claimable(user);
        State() == After(old(State()), spec) && r == Answer(spec)
    {
      var overflow := AccrueUserRewards(user);
      return if overflow then Err(Overflow) else Ok(Get(claimable, user));
    }

    method Claim(to: Address) returns (r: Outcome<int, Error>)
      modifies this
      ensures var spec := old(State()).Claim(to);
        State() == After(old(State()), spec) && r == Answer(spec)
    {
      var entry := State();
      if paused {
        return Err(Paused);
      }
      var overflow := AccrueUserRewards(to);
      if overflow {
        return Err(Overflow);
      }
      var amount := Get(claimable, to);
      if amount <= 0 {
        return Ok(0);
      }
      claimable := claimable[to := 0];
      if held < amount {
        RollBack(entry);
        return Err(TokenFailed);
      }
      held := held - amount;
      return Ok(amount);
    }

    method SetPaused(caller: Address, value: bool) returns (r: Outcome<int, Error>)
      modifies this
      ensures var spec := old(State()).SetPaused(caller, value);
        State() == After(old(State()), spec) && r == Answer(spec)
    {
      if caller != admin {
        return Err(NotAuthorized);
      }
      paused := value;
      return Ok(0);
    }
  }
}
