/** bond_collateral: positions of collateral against issued bonds, and their partial liquidation at an
    oracle price. */
module BondCollateral {
  import opened Host

  /** A price of PRICE_SCALE makes one unit of collateral worth one unit of bond. */
  const PRICE_SCALE: int := 10_000_000

  datatype Error =
    | NotAuthorized | Paused | InvalidAmount | InsufficientCollateral | PositionNotFound | CannotLiquidate
    | BelowThreshold | InvalidThreshold | InvalidRewardCap | CollateralRatioTooLow | OracleStale
    | Overflow | TokenFailed

  datatype PositionId = PositionId(id: nat)

  datatype Position = Position(owner: Address, collateral: int, bond: int, createdAt: int)

  datatype OraclePrice = OraclePrice(price: int, timestamp: int)

  datatype Done = Done(vault: Vault, value: int)

  type Reply = Outcome<Done, Error>

  function Min(a: int, b: int): int {
    if a <= b then a else b
  }

  function Max(a: int, b: int): int {
    if a >= b then a else b
  }

  // ---- the arithmetic of a liquidation ----

  /** calculate_collateral_ratio_oracle: the ratio in percent, its low 32 bits; None on overflow. */
  function OracleRatio(collateral: int, bond: int, price: int): Option<int> {
    if bond == 0 then Some(U32_MAX)
    else if price == 0 then Some(0)
    else if !FitsI128(collateral * price) || !FitsI128(collateral * price * 100) then None
    else if !FitsI128(PRICE_SCALE * bond) then None
    else Some(TruncDiv(collateral * price * 100, PRICE_SCALE * bond) % 0x1_0000_0000)
  }

  /** What is missing to the target, scaled, and what each unit seized brings it closer. */
  function Missing(collateral: int, bond: int, price: int, target: int): int {
    target * bond * PRICE_SCALE - 100 * collateral * price
  }

  function PerUnit(price: int, target: int): int {
    price * (target - 100)
  }

  /** compute_seize_amount, overflow aside. */
  function SeizeAmount(collateral: int, bond: int, price: int, target: int): int {
    if target <= 100 || price == 0 || PerUnit(price, target) <= 0 then collateral
    else TruncDiv(Missing(collateral, bond, price, target), PerUnit(price, target))
  }

  predicate SeizeFits(collateral: int, bond: int, price: int, target: int) {
    target <= 100 || price == 0 ||
    (FitsI128(target * bond) && FitsI128(target * bond * PRICE_SCALE) && FitsI128(100 * collateral) &&
     FitsI128(100 * collateral * price) && FitsI128(Missing(collateral, bond, price, target)) &&
     FitsI128(PerUnit(price, target)))
  }

  /** At least one unit, at most everything. */
  function Seized(collateral: int, bond: int, price: int, target: int): int {
    Min(Max(SeizeAmount(collateral, bond, price, target), 1), collateral)
  }

  /** The bond retired for what is seized. */
  function Retired(seized: int, bond: int, price: int): int {
    Min(TruncDiv(seized * price, PRICE_SCALE), bond)
  }

  function KeeperReward(seized: int, cap: int): int {
    Min(TruncDiv(seized * cap, 10_000), seized)
  }

  datatype Vault = Vault(
    admin: Address, paused: bool, warning: int, liquidation: int, rewardCap: int, hasFeed: bool, staleness: int,
    target: int, positions: map<PositionId, Position>, totalCollateral: int, held: int)
  {
    function SetThresholds(caller: Address, newWarning: int, newLiquidation: int): Reply {
      if paused then Err(Paused)
      else if caller != admin then Err(NotAuthorized)
      else if newWarning <= newLiquidation || newLiquidation < 100 then Err(InvalidThreshold)
      else Ok(Done(this.(warning := newWarning, liquidation := newLiquidation), 0))
    }

    function SetKeeperRewardCap(caller: Address, cap: int): Reply {
      if paused then Err(Paused)
      else if caller != admin then Err(NotAuthorized)
      else if cap > 5000 then Err(InvalidRewardCap)
      else Ok(Done(this.(rewardCap := cap), 0))
    }

    function SetOracleFeed(caller: Address, limit: int): Reply {
      if paused then Err(Paused)
      else if caller != admin then Err(NotAuthorized)
      else Ok(Done(this.(hasFeed := true, staleness := limit), 0))
    }

    function SetTarget(caller: Address, ratio: int): Reply {
      if paused then Err(Paused)
      else if caller != admin then Err(NotAuthorized)
      else if ratio <= 100 then Err(InvalidThreshold)
      else Ok(Done(this.(target := ratio), 0))
    }

    function SetPaused(caller: Address, value: bool): Reply {
      if caller != admin then Err(NotAuthorized) else Ok(Done(this.(paused := value), 0))
    }

    function PositionOr(id: PositionId, owner: Address, now: int): Position {
      if id in positions then positions[id] else Position(owner, 0, 0, now)
    }

    function Deposit(owner: Address, id: PositionId, amount: int, payerPays: bool, now: int): Reply {
      var pos := PositionOr(id, owner, now);
      if paused then Err(Paused)
      else if amount <= 0 then Err(InvalidAmount)
      else if !payerPays then Err(TokenFailed)
      else if pos.owner != owner then Err(NotAuthorized)
      else if !FitsI128(pos.collateral + amount) || !FitsI128(totalCollateral + amount) then Err(Overflow)
      else Ok(Done(this.(
        positions := positions[id := pos.(collateral := pos.collateral + amount, createdAt := now)],
        totalCollateral := totalCollateral + amount, held := held + amount), 0))
    }

    /** `quotient` is what the f64 division gave for the ratio. */
    function IssueBond(owner: Address, id: PositionId, amount: int, quotient: int, now: int): Reply {
      var pos := PositionOr(id, owner, now);
      if paused then Err(Paused)
      else if amount <= 0 then Err(InvalidAmount)
      else if pos.owner != owner then Err(NotAuthorized)
      else if !FitsI128(pos.bond + amount) then Err(Overflow)
      else if (if pos.bond + amount == 0 then U32_MAX else quotient) < liquidation then Err(CollateralRatioTooLow)
      else Ok(Done(this.(positions := positions[id := pos.(bond := pos.bond + amount)]), 0))
    }

    function RedeemBond(owner: Address, id: PositionId, amount: int): Reply {
      if paused then Err(Paused)
      else if amount <= 0 then Err(InvalidAmount)
      else if id !in positions then Err(PositionNotFound)
      else
        var pos := positions[id];
        if pos.owner != owner then Err(NotAuthorized)
        else if pos.bond < amount then Err(InsufficientCollateral)
        else Ok(Done(this.(positions := positions[id := pos.(bond := pos.bond - amount)]), 0))
    }

    function Withdraw(owner: Address, id: PositionId, amount: int, quotient: int): Reply {
      if paused then Err(Paused)
      else if amount <= 0 then Err(InvalidAmount)
      else if id !in positions then Err(PositionNotFound)
      else
        var pos := positions[id];
        if pos.owner != owner then Err(NotAuthorized)
        else if pos.collateral < amount then Err(InsufficientCollateral)
        else if pos.bond > 0 && quotient < liquidation then Err(BelowThreshold)
        else if held < amount then Err(TokenFailed)
        else Ok(Done(this.(
          positions := positions[id := pos.(collateral := pos.collateral - amount)],
          totalCollateral := totalCollateral - amount, held := held - amount), 0))
    }

    /** The price a liquidation uses: the feed's, if it is fresh, or one to one without a feed. */
    function EffectivePrice(quote: OraclePrice, now: int): Outcome<int, Error> {
      if !hasFeed then Ok(PRICE_SCALE)
      else if !FitsU64(quote.timestamp + staleness) then Err(Overflow)
      else if now > quote.timestamp + staleness then Err(OracleStale)
      else Ok(quote.price)
    }

    function Liquidate(id: PositionId, quote: OraclePrice, now: int): Reply {
      if paused then Err(Paused)
      else if id !in positions then Err(PositionNotFound)
      else if positions[id].bond == 0 || positions[id].collateral == 0 then Err(CannotLiquidate)
      else match EffectivePrice(quote, now)
        case Err(e) => Err(e)
        case Ok(price) =>
          var pos := positions[id];
          var ratio := OracleRatio(pos.collateral, pos.bond, price);
          if ratio.None? then Err(Overflow)
          else if ratio.value >= liquidation then Err(CannotLiquidate)
          else if !SeizeFits(pos.collateral, pos.bond, price, target) then Err(Overflow)
          else Settle(id, price)
    }

    function Settle(id: PositionId, price: int): Reply
      requires id in positions
    {
      var pos := positions[id];
      var seized := Seized(pos.collateral, pos.bond, price, target);
      var retired := Retired(seized, pos.bond, price);
      var reward := KeeperReward(seized, rewardCap);
      var collateral, bond := pos.collateral - seized, pos.bond - retired;
      var drop := if collateral == 0 || bond == 0 then pos.collateral else seized;
      if !FitsI128(seized * price) || !FitsI128(seized * rewardCap) || !FitsI128(bond) then Err(Overflow)
      else if OracleRatio(collateral, bond, price).None? then Err(Overflow)
      else if reward > 0 && held < reward then Err(TokenFailed)
      else Ok(Done(this.(
        positions := if collateral == 0 || bond == 0 then positions - {id}
                     else positions[id := pos.(collateral := collateral, bond := bond)],
        totalCollateral := SaturatingSub(totalCollateral, drop),
        held := held - Max(reward, 0)), seized))
    }
  }

  function Initial(admin: Address): Vault {
    Vault(admin, false, 150, 120, 500, false, 3600, 150, map[], 0, 0)
  }

  datatype Call =
    | SetThresholds(caller: Address, warning: U32, liquidation: U32)
    | SetKeeperRewardCap(caller: Address, cap: U32)
    | SetOracleFeed(caller: Address, limit: nat)
    | SetTarget(caller: Address, ratio: U32)
    | SetPaused(caller: Address, value: bool)
    | Deposit(owner: Address, id: PositionId, amount: int, payerPays: bool, now: int)
    | IssueBond(owner: Address, id: PositionId, amount: int, quotient: int, now: int)
    | RedeemBond(owner: Address, id: PositionId, amount: int)
    | Withdraw(owner: Address, id: PositionId, amount: int, quotient: int)
    | Liquidate(id: PositionId, quote: OraclePrice, now: int)
    | Gift(tokens: nat)

  function Execute(v: Vault, call: Call): Reply {
    match call
    case SetThresholds(caller, warning, liquidation) => v.SetThresholds(caller, warning, liquidation)
    case SetKeeperRewardCap(caller, cap) => v.SetKeeperRewardCap(caller, cap)
    case SetOracleFeed(caller, limit) => v.SetOracleFeed(caller, limit)
    case SetTarget(caller, ratio) => v.SetTarget(caller, ratio)
    case SetPaused(caller, value) => v.SetPaused(caller, value)
    case Deposit(owner, id, amount, pays, now) => v.Deposit(owner, id, amount, pays, now)
    case IssueBond(owner, id, amount, quotient, now) => v.IssueBond(owner, id, amount, quotient, now)
    case RedeemBond(owner, id, amount) => v.RedeemBond(owner, id, amount)
    case Withdraw(owner, id, amount, quotient) => v.Withdraw(owner, id, amount, quotient)
    case Liquidate(id, quote, now) => v.Liquidate(id, quote, now)
    case Gift(tokens) => Ok(Done(v.(held := v.held + tokens), 0))
  }

  function After(v: Vault, reply: Reply): Vault {
    if reply.Ok? then reply.value.vault else v
  }

  function Answer(reply: Reply): Outcome<int, Error> {
    match reply
    case Ok(done) => Ok(done.value)
    case Err(e) => Err(e)
  }

  class Contract {
    const admin: Address
    var paused: bool
    var warning: int
    var liquidation: int
    var rewardCap: int
    var hasFeed: bool
    var staleness: int
    var target: int
    var positions: map<PositionId, Position>
    var totalCollateral: int
    var held: int

    function State(): Vault
      reads this
    {
      Vault(admin, paused, warning, liquidation, rewardCap, hasFeed, staleness, target,
            positions, totalCollateral, held)
    }

    constructor (admin: Address)
      ensures State() == Initial(admin)
    {
      this.admin := admin;
      paused, warning, liquidation, rewardCap := false, 150, 120, 500;
      hasFeed, staleness, target := false, 3600, 150;
      positions, totalCollateral, held := map[], 0, 0;
    }

    method DepositCollateral(owner: Address, id: PositionId, amount: int, payerPays: bool, now: int)
      returns (r: Outcome<int, Error>)
      modifies this
      ensures var spec := old(State()).Deposit(owner, id, amount, payerPays, now);
        State() == After(old(State()), spec) && r == Answer(spec)
    {
      if paused {
        return Err(Paused);
      }
      if amount <= 0 {
        return Err(InvalidAmount);
      }
      if !payerPays {
        return Err(TokenFailed);
      }
      var entry := held;
      held := held + amount;
      var pos := if id in positions then positions[id] else Position(owner, 0, 0, now);
      if pos.owner != owner {
        held := entry;
        return Err(NotAuthorized);
      }
      if !FitsI128(pos.collateral + amount) || !FitsI128(totalCollateral + amount) {
        held := entry;
        return Err(Overflow);
      }
      pos := pos.(collateral := pos.collateral + amount);
      pos := pos.(createdAt := now);
      positions := positions[id := pos];
      totalCollateral := totalCollateral + amount;
      return Ok(0);
    }

    method IssueBond(owner: Address, id: PositionId, amount: int, quotient: int, now: int)
      returns (r: Outcome<int, Error>)
      modifies this
      ensures var spec := old(State()).IssueBond(owner, id, amount, quotient, now);
        State() == After(old(State()), spec) && r == Answer(spec)
    {
      if paused {
        return Err(Paused);
      }
      if amount <= 0 {
        return Err(InvalidAmount);
      }
      var pos := if id in positions then positions[id] else Position(owner, 0, 0, now);
      if pos.owner != owner {
        return Err(NotAuthorized);
      }
      if !FitsI128(pos.bond + amount) {
        return Err(Overflow);
      }
      pos := pos.(bond := pos.bond + amount);
      var ratio := if pos.bond == 0 then U32_MAX else quotient;
      if ratio < liquidation {
        return Err(CollateralRatioTooLow);
      }
      positions := positions[id := pos];
      return Ok(0);
    }

    method RedeemBond(owner: Address, id: PositionId, amount: int) returns (r: Outcome<int, Error>)
      modifies this
      ensures var spec := old(State()).RedeemBond(owner, id, amount);
        State() == After(old(State()), spec) && r == Answer(spec)
    {
      if paused {
        return Err(Paused);
      }
      if amount <= 0 {
        return Err(InvalidAmount);
      }
      if id !in positions {
        return Err(PositionNotFound);
      }
      var pos := positions[id];
      if pos.owner != owner {
        return Err(NotAuthorized);
      }
      if pos.bond < amount {
        return Err(InsufficientCollateral);
      }
      positions := positions[id := pos.(bond := pos.bond - amount)];
      return Ok(0);
    }

    method WithdrawCollateral(owner: Address, id: PositionId, amount: int, quotient: int)
      returns (r: Outcome<int, Error>)
      modifies this
      ensures var spec := old(State()).Withdraw(owner, id, amount, quotient);
        State() == After(old(State()), spec) && r == Answer(spec)
    {
      if paused {
        return Err(Paused);
      }
      if amount <= 0 {
        return Err(InvalidAmount);
      }
      if id !in positions {
        return Err(PositionNotFound);
      }
      var pos := positions[id];
      if pos.owner != owner {
        return Err(NotAuthorized);
      }
      if pos.collateral < amount {
        return Err(InsufficientCollateral);
      }
      if pos.bond > 0 && quotient < liquidation {
        return Err(BelowThreshold);
      }
      var entry := positions;
      positions := positions[id := pos.(collateral := pos.collateral - amount)];
      if held < amount {
        positions := entry;
        return Err(TokenFailed);
      }
      held := held - amount;
      totalCollateral := totalCollateral - amount;
      return Ok(0);
    }

    method Liquidate(id: PositionId, quote: OraclePrice, now: int) returns (r: Outcome<int, Error>)
      modifies this
      ensures var spec := old(State()).Liquidate(id, quote, now);
        State() == After(old(State()), spec) && r == Answer(spec)
    {
      if paused {
        return Err(Paused);
      }
      if id !in positions {
        return Err(PositionNotFound);
      }
      var pos := positions[id];
      if pos.bond == 0 || pos.collateral == 0 {
        return Err(CannotLiquidate);
      }
      var price := PRICE_SCALE;
      if hasFeed {
        if !FitsU64(quote.timestamp + staleness) {
          return Err(Overflow);
        }
        if now > quote.timestamp + staleness {
          return Err(OracleStale);
        }
        price := quote.price;
      }
      var ratio := OracleRatio(pos.collateral, pos.bond, price);
      if ratio.None? {
        return Err(Overflow);
      }
      if ratio.value >= liquidation {
        return Err(CannotLiquidate);
      }
      if !SeizeFits(pos.collateral, pos.bond, price, target) {
        return Err(Overflow);
      }
      r := SettleLiquidation(id, price);
    }

    /** The second half of `liquidate`: what is seized, retired and paid, and the books afterwards. */
    method SettleLiquidation(id: PositionId, price: int) returns (r: Outcome<int, Error>)
      requires id in positions
      modifies this
      ensures var spec := old(State()).Settle(id, price);
        State() == After(old(State()), spec) && r == Answer(spec)
    {
      var pos := positions[id];
      var raw := SeizeAmount(pos.collateral, pos.bond, price, target);
      var seized := Min(Max(raw, 1), pos.collateral);
      var retired := Min(TruncDiv(seized * price, PRICE_SCALE), pos.bond);
      var reward := Min(TruncDiv(seized * rewardCap, 10_000), seized);
      var collateral := pos.collateral - seized;
      var bond := pos.bond - retired;
      if !FitsI128(seized * price) || !FitsI128(seized * rewardCap) || !FitsI128(bond)
         || OracleRatio(collateral, bond, price).None? {
        return Err(Overflow);
      }
      var entry, entryTotal := positions, totalCollateral;
      if collateral == 0 || bond == 0 {
        positions := positions - {id};
        totalCollateral := SaturatingSub(totalCollateral, pos.collateral);
      } else {
        positions := positions[id := pos.(collateral := collateral, bond := bond)];
        totalCollateral := SaturatingSub(totalCollateral, seized);
      }
      if reward > 0 {
        if held < reward {
          positions, totalCollateral := entry, entryTotal;
          return Err(TokenFailed);
        }
        held := held - reward;
      }
      return Ok(seized);
    }

    method SetThresholds(caller: Address, newWarning: int, newLiquidation: int) returns (r: Outcome<int, Error>)
      modifies this
      ensures var spec := old(State()).SetThresholds(caller, newWarning, newLiquidation);
        State() == After(old(State()), spec) && r == Answer(spec)
    {
      if paused {
        return Err(Paused);
      }
      if caller != admin {
        return Err(NotAuthorized);
      }
      if newWarning <= newLiquidation || newLiquidation < 100 {
        return Err(InvalidThreshold);
      }
      warning := newWarning;
      liquidation := newLiquidation;
      return Ok(0);
    }

    method SetKeeperRewardCap(caller: Address, cap: int) returns (r: Outcome<int, Error>)
      modifies this
      ensures var spec := old(State()).SetKeeperRewardCap(caller, cap);
        State() == After(old(State()), spec) && r == Answer(spec)
    {
      if paused {
        return Err(Paused);
      }
      if caller != admin {
        return Err(NotAuthorized);
      }
      if cap > 5000 {
        return Err(InvalidRewardCap);
      }
      rewardCap := cap;
      return Ok(0);
    }

    method SetOracleFeed(caller: Address, limit: int) returns (r: Outcome<int, Error>)
      modifies this
      ensures var spec := old(State()).SetOracleFeed(caller, limit);
        State() == After(old(State()), spec) && r == Answer(spec)
    {
      if paused {
        return Err(Paused);
      }
      if caller != admin {
        return Err(NotAuthorized);
      }
      hasFeed := true;
      staleness := limit;
      return Ok(0);
    }

    method SetTargetHealthRatio(caller: Address, ratio: int) returns (r: Outcome<int, Error>)
      modifies this
      ensures var spec := old(State()).SetTarget(caller, ratio);
        State() == After(old(State()), spec) && r == Answer(spec)
    {
      if paused {
        return Err(Paused);
      }
      if caller != admin {
        return Err(NotAuthorized);
      }
      if ratio <= 100 {
        return Err(InvalidThreshold);
      }
      target := ratio;
      return Ok(0);
    }

    method SetPaused(caller: Address, value: bool) returns (r: Outcome<int, Error>)
      modifies this
      ensures var spec := old(State()).SetPaused(caller, value);
        State() == After(old(State()), spec) && r == Answer(spec)
    {
      if caller != admin {
        return Err(NotAuthorized);
      }
      paused := value;
      return Ok(0);
    }
  }
}
