/** bond_collateral: what every accepted call does, read off the calls of a run. */
module BondEffects {
  import opened Host
  import opened Products
  import opened BondCollateral
  import opened BondLiquidation
  import opened BondAccounting

  ghost predicate Accepted(v: Vault, call: Call) {
    Execute(v, call).Ok?
  }

  // ---- the keeper ----

  /** The keeper of an accepted liquidation is paid, in tokens, the reward cap in basis points of what was seized,
      rounded down. */
  lemma KeeperIsPaid(admin: Address, calls: seq<Call>, call: Call)
    requires call.Liquidate?
    ensures var v := Run(admin, calls);
      Accepted(v, call) ==>
        var seized, paid := Execute(v, call).value.value, PaidBy(v, call);
        10_000 * paid <= seized * v.rewardCap < 10_000 * (paid + 1)
  {
    ReachableInv(admin, calls);
    var v := Run(admin, calls);
    LiquidateSettles(v, call);
    if Accepted(v, call) {
      assert Sound(v.positions[call.id]);
      SettlementPays(v, call.id, PriceOf(v, call));
    }
  }

  lemma SettlementPays(v: Vault, id: PositionId, price: int)
    requires id in v.positions && v.positions[id].collateral > 0 && 0 <= v.rewardCap <= 5000
    ensures v.Settle(id, price).Ok? ==>
      var seized, paid := v.Settle(id, price).value.value, v.held - v.Settle(id, price).value.vault.held;
      10_000 * paid <= seized * v.rewardCap < 10_000 * (paid + 1)
  {
    var s := Seized(v.positions[id].collateral, v.positions[id].bond, price, v.target);
    SeizedRange(v.positions[id].collateral, v.positions[id].bond, price, v.target);
    RewardRounds(s, v.rewardCap);
  }

  lemma RewardRounds(seized: int, cap: int)
    requires seized >= 0 && 0 <= cap <= 5000
    ensures var paid := Max(KeeperReward(seized, cap), 0);
      10_000 * paid <= seized * cap < 10_000 * (paid + 1)
  {
    ProductIsMonotone(0, seized, cap);
    ProductIsMonotone(cap, 5000, seized);
  }

  /** A liquidation leaves in the contract all the collateral it takes off the books but what it pays the keeper,
      which is at most half of what it seized. */
  lemma LiquidationKeepsRest(admin: Address, calls: seq<Call>, call: Call)
    requires call.Liquidate?
    ensures var v := Run(admin, calls);
      var w := After(v, Execute(v, call));
      Accepted(v, call) ==>
        var seized, paid := Execute(v, call).value.value, PaidBy(v, call);
        && 0 <= 2 * paid <= seized <= v.totalCollateral - w.totalCollateral
        && (w.held - w.totalCollateral) - (v.held - v.totalCollateral) == v.totalCollateral - w.totalCollateral - paid
  {
    ReachableInv(admin, calls);
    var v := Run(admin, calls);
    KeeperIsPaid(admin, calls, call);
    PayoutsNeverBounce(admin, calls, call);
    LiquidateSettles(v, call);
    if Accepted(v, call) {
      assert Sound(v.positions[call.id]);
      SettleKeepsInv(v, call.id, PriceOf(v, call), Kept(admin, calls));
      var seized, paid := Execute(v, call).value.value, PaidBy(v, call);
      ProductIsMonotone(0, v.rewardCap, seized);
      ProductIsMonotone(v.rewardCap, 5000, seized);
    }
  }

  // ---- the price ----

  /** An accepted liquidation goes by the feed's quote, which is then no older than the limit, or by one to one when
      there is no feed. */
  lemma LiquidationPriceIsFresh(v: Vault, call: Call)
    requires call.Liquidate?
    ensures Accepted(v, call) && v.hasFeed ==>
      call.now <= call.quote.timestamp + v.staleness && v.EffectivePrice(call.quote, call.now) == Ok(call.quote.price)
    ensures Accepted(v, call) && !v.hasFeed ==> v.EffectivePrice(call.quote, call.now) == Ok(10_000_000)
  {
  }

  /** A price is to be had exactly when there is no feed, or its quote is no older than the limit. */
  lemma PriceIff(v: Vault, quote: OraclePrice, now: int)
    requires now <= U64_MAX && 0 <= quote.timestamp + v.staleness
    ensures v.EffectivePrice(quote, now).Ok? <==>
      v.hasFeed ==> now <= quote.timestamp + v.staleness <= U64_MAX
  {
  }

  /** An accepted liquidation at a price other than zero had products that fit 128 bits; none that do not fit passes. */
  lemma LiquidationNeedsFit(admin: Address, calls: seq<Call>, call: Call)
    requires call.Liquidate?
    ensures var v := Run(admin, calls);
      Accepted(v, call) ==>
        && call.id in v.positions && v.EffectivePrice(call.quote, call.now).Ok?
        && var pos, price := v.positions[call.id], PriceOf(v, call);
        price != 0 ==>
          && FitsI128(pos.collateral * price * 100) && FitsI128(v.target * (10_000_000 * pos.bond))
          && FitsI128(price * (v.target - 100))
          && FitsI128(v.target * (10_000_000 * pos.bond) - pos.collateral * price * 100)
          && FitsI128(Execute(v, call).value.value * v.rewardCap)
  {
    ReachableInv(admin, calls);
    var v := Run(admin, calls);
    LiquidateSettles(v, call);
    if Accepted(v, call) {
      var pos, price := v.positions[call.id], PriceOf(v, call);
      LiquidationChecks(v, call);
      FitMeans(pos.collateral, pos.bond, price, v.target);
    }
  }

  lemma LiquidationChecks(v: Vault, call: Call)
    requires call.Liquidate? && Accepted(v, call)
    requires call.id in v.positions && v.EffectivePrice(call.quote, call.now).Ok?
    ensures var pos, price := v.positions[call.id], PriceOf(v, call);
      && pos.bond != 0 && OracleRatio(pos.collateral, pos.bond, price).Some?
      && SeizeFits(pos.collateral, pos.bond, price, v.target)
      && FitsI128(Execute(v, call).value.value * v.rewardCap)
  {
  }

  lemma FitMeans(collateral: int, bond: int, price: int, target: int)
    requires bond != 0 && price != 0 && target > 100 ==> OracleRatio(collateral, bond, price).Some?
    requires SeizeFits(collateral, bond, price, target)
    ensures bond != 0 && price != 0 && target > 100 ==>
      && FitsI128(collateral * price * 100) && FitsI128(target * (10_000_000 * bond))
      && FitsI128(price * (target - 100))
      && FitsI128(target * (10_000_000 * bond) - collateral * price * 100)
  {
    ScaledCollateral(collateral, price);
    assert target * bond * PRICE_SCALE == target * (PRICE_SCALE * bond);
  }

  /** Only liquidations answer anything. */
  lemma OnlyLiquidationsAnswer(v: Vault, call: Call)
    requires Accepted(v, call) && !call.Liquidate?
    ensures Execute(v, call).value.value == 0
  {
  }

  // ---- bonds ----

  ghost function Bonds(v: Vault, id: PositionId): int {
    if id in v.positions then v.positions[id].bond else 0
  }

  /** What a call adds to a position's bond: issues and redemptions what they say; a liquidation that deletes the
      position all of it, and any other the whole units that the seized collateral is worth at the price. */
  ghost predicate BondMoves(v: Vault, call: Call, id: PositionId, before: int, after: int) {
    if !Accepted(v, call) then after == before
    else match call
      case IssueBond(_, target, amount, _, _) => after == before + if target == id then amount else 0
      case RedeemBond(_, target, amount) => after == before - if target == id then amount else 0
      case Liquidate(target, _, _) =>
        if target != id then after == before
        else if id !in After(v, Execute(v, call)).positions then after == 0
        else
          var worth := Execute(v, call).value.value * PriceOf(v, call);
          10_000_000 * (before - after) <= worth < 10_000_000 * (before - after + 1)
      case _ => after == before
  }

  lemma StepMovesBond(v: Vault, kept: int, call: Call, id: PositionId)
    requires Inv(v, kept)
    requires call.Liquidate? && Accepted(v, call) ==> v.EffectivePrice(call.quote, call.now).Ok?
    ensures BondMoves(v, call, id, Bonds(v, id), Bonds(After(v, Execute(v, call)), id))
  {
    if call.Liquidate? && Accepted(v, call) && call.id == id {
      LiquidateSettles(v, call);
      assert Sound(v.positions[id]);
      SettlementMovesBond(v, id, PriceOf(v, call));
    }
  }

  lemma SettlementMovesBond(v: Vault, id: PositionId, price: int)
    requires id in v.positions && v.positions[id].collateral > 0 && v.positions[id].bond > 0 && v.target > 100
    ensures v.Settle(id, price).Ok? ==>
      var w := v.Settle(id, price).value.vault;
      id in w.positions ==>
        var worth, gone := v.Settle(id, price).value.value * price, v.positions[id].bond - w.positions[id].bond;
        10_000_000 * gone <= worth < 10_000_000 * (gone + 1)
  {
    var pos := v.positions[id];
    var s := Seized(pos.collateral, pos.bond, price, v.target);
    SeizedRange(pos.collateral, pos.bond, price, v.target);
    if price <= 0 {
      WorthlessIsSeizedWhole(pos.collateral, pos.bond, price, v.target);
    } else {
      ProductIsMonotone(0, s, price);
    }
  }

  /** Over any run, what the next call makes of a position's bond. */
  lemma BondFollowsCalls(admin: Address, calls: seq<Call>, call: Call, id: PositionId)
    ensures var v := Run(admin, calls);
      call.Liquidate? && Accepted(v, call) ==> v.EffectivePrice(call.quote, call.now).Ok?
    ensures var v := Run(admin, calls);
      BondMoves(v, call, id, Bonds(v, id), Bonds(After(v, Execute(v, call)), id))
  {
    ReachableInv(admin, calls);
    StepMovesBond(Run(admin, calls), Kept(admin, calls), call, id);
  }

  // ---- owners ----

  /** A position belongs to whoever first deposited to it or issued a bond on it; only that owner deposits, issues,
      redeems and withdraws; a deposit stamps it. */
  lemma OwnerIsFirst(v: Vault, call: Call, id: PositionId)
    ensures var w := After(v, Execute(v, call));
      && (id in v.positions && id in w.positions ==> w.positions[id].owner == v.positions[id].owner)
      && (id !in v.positions && id in w.positions ==>
            (call.Deposit? || call.IssueBond?) && call.id == id && w.positions[id].owner == call.owner)
      && (Accepted(v, call) && (call.Deposit? || call.IssueBond? || call.RedeemBond? || call.Withdraw?) ==>
            call.id in w.positions && w.positions[call.id].owner == call.owner)
      && (Accepted(v, call) && call.Deposit? ==> w.positions[call.id].createdAt == call.now)
      && (id in v.positions && id in w.positions && w.positions[id].createdAt != v.positions[id].createdAt ==>
            call.Deposit? && call.id == id)
      && (id !in v.positions && id in w.positions ==> w.positions[id].createdAt == call.now)
  {
  }

  // ---- when calls are accepted ----

  ghost predicate Owns(v: Vault, id: PositionId, owner: Address) {
    id in v.positions ==> v.positions[id].owner == owner
  }

  lemma DepositSucceedsIff(v: Vault, call: Call)
    requires call.Deposit?
    ensures Accepted(v, call) <==>
      && !v.paused && call.amount > 0 && call.payerPays && Owns(v, call.id, call.owner)
      && FitsI128(call.amount + (if call.id in v.positions then v.positions[call.id].collateral else 0))
      && FitsI128(v.totalCollateral + call.amount)
  {
  }

  lemma BondCallsSucceedIff(v: Vault, call: Call)
    requires call.IssueBond? || call.RedeemBond?
    ensures call.IssueBond? ==>
      var bond := Bonds(v, call.id) + call.amount;
      (Accepted(v, call) <==>
        && !v.paused && call.amount > 0 && Owns(v, call.id, call.owner) && FitsI128(bond)
        && (bond != 0 ==> v.liquidation <= call.quotient) && (bond == 0 ==> v.liquidation <= U32_MAX))
    ensures call.RedeemBond? ==>
      (Accepted(v, call) <==>
        && !v.paused && call.id in v.positions && v.positions[call.id].owner == call.owner
        && 0 < call.amount <= v.positions[call.id].bond)
  {
  }

  /** A withdrawal is accepted exactly from the owner, of part of the collateral, and, while a bond stands, at a ratio
      no lower than the liquidation threshold; tokens never lack. */
  lemma WithdrawalSucceedsIff(admin: Address, calls: seq<Call>, call: Call)
    requires call.Withdraw?
    ensures var v := Run(admin, calls);
      Accepted(v, call) <==>
        && !v.paused && call.id in v.positions && v.positions[call.id].owner == call.owner
        && 0 < call.amount <= v.positions[call.id].collateral
        && (v.positions[call.id].bond > 0 ==> v.liquidation <= call.quotient)
  {
    PayoutsNeverBounce(admin, calls, call);
  }

  // ---- settings ----

  datatype Settings = Settings(
    warning: int, liquidation: int, rewardCap: int, hasFeed: bool, staleness: int, target: int, paused: bool)

  /** What a call makes of the settings: only the admin changes them, within their ranges, and while paused can only
      lift the pause. */
  ghost function NextSettings(last: Settings, admin: Address, call: Call): Settings {
    match call
    case SetPaused(caller, value) => if caller == admin then last.(paused := value) else last
    case SetThresholds(caller, warning, liquidation) =>
      if last.paused || caller != admin || warning <= liquidation || liquidation < 100 then last
      else last.(warning := warning, liquidation := liquidation)
    case SetKeeperRewardCap(caller, cap) =>
      if last.paused || caller != admin || cap > 5000 then last else last.(rewardCap := cap)
    case SetOracleFeed(caller, limit) =>
      if last.paused || caller != admin then last else last.(hasFeed := true, staleness := limit)
    case SetTarget(caller, ratio) =>
      if last.paused || caller != admin || ratio <= 100 then last else last.(target := ratio)
    case _ => last
  }

  /** The settings that the calls of a run leave: 150, 120, 5 percent, no feed, an hour, 150 and unpaused to begin
      with. */
  ghost function SettingsOf(admin: Address, calls: seq<Call>): Settings {
    if calls == [] then Settings(150, 120, 500, false, 3600, 150, false)
    else NextSettings(SettingsOf(admin, calls[..|calls| - 1]), admin, calls[|calls| - 1])
  }

  ghost function SettingsIn(v: Vault): Settings {
    Settings(v.warning, v.liquidation, v.rewardCap, v.hasFeed, v.staleness, v.target, v.paused)
  }

  predicate IsSetter(call: Call) {
    call.SetThresholds? || call.SetKeeperRewardCap? || call.SetOracleFeed? || call.SetTarget? || call.SetPaused?
  }

  lemma OthersKeepSettings(v: Vault, call: Call)
    requires !IsSetter(call)
    ensures var w := After(v, Execute(v, call));
      w.admin == v.admin && SettingsIn(w) == SettingsIn(v)
  {
  }

  lemma SettersSet(v: Vault, call: Call)
    requires IsSetter(call)
    ensures var w := After(v, Execute(v, call));
      w.admin == v.admin && SettingsIn(w) == NextSettings(SettingsIn(v), v.admin, call)
  {
  }

  lemma {:induction false} SettingsAreTheAdmins(admin: Address, calls: seq<Call>)
    ensures Run(admin, calls).admin == admin && SettingsIn(Run(admin, calls)) == SettingsOf(admin, calls)
  {
    if calls != [] {
      var front, call := calls[..|calls| - 1], calls[|calls| - 1];
      SettingsAreTheAdmins(admin, front);
      if IsSetter(call) {
        SettersSet(Run(admin, front), call);
      } else {
        OthersKeepSettings(Run(admin, front), call);
      }
    }
  }
}
