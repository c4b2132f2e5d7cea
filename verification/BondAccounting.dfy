/** bond_collateral: over any run the recorded total is the sum over positions, the tokens held cover
    it, payouts never bounce, and every liquidation does what BondLiquidation says. */
module BondAccounting {
  import opened Host
  import opened Products
  import opened MapSums
  import opened BondCollateral
  import opened BondLiquidation

  ghost function Run(admin: Address, calls: seq<Call>): Vault {
    if calls == [] then Initial(admin) else
      var before := Run(admin, calls[..|calls| - 1]);
      After(before, Execute(before, calls[|calls| - 1]))
  }

  ghost function Collaterals(v: Vault): map<PositionId, int> {
    map id | id in v.positions :: v.positions[id].collateral
  }

  /** What a call adds to one position's collateral; a deleted position loses all it had. */
  ghost function MovedBy(v: Vault, call: Call, id: PositionId): int {
    if Execute(v, call).Err? then 0
    else match call
      case Deposit(_, target, amount, _, _) => if target == id then amount else 0
      case Withdraw(_, target, amount, _) => if target == id then -amount else 0
      case Liquidate(target, _, _) =>
        if target != id || id !in v.positions then 0
        else if id in After(v, Execute(v, call)).positions then -Execute(v, call).value.value
        else -v.positions[id].collateral
      case _ => 0
  }

  /** Tokens that leave the contract. */
  ghost function PaidBy(v: Vault, call: Call): int {
    v.held - After(v, Execute(v, call)).held
  }

  /** Tokens a call leaves in the contract beyond what it records: gifts, and what a liquidation takes
      from the books without paying it to the keeper. */
  ghost function KeptBy(v: Vault, call: Call): int {
    if Execute(v, call).Err? then 0
    else match call
      case Gift(tokens) => tokens
      case Liquidate(id, _, _) => -MovedBy(v, call, id) - PaidBy(v, call)
      case _ => 0
  }

  ghost function Kept(admin: Address, calls: seq<Call>): int {
    if calls == [] then 0 else
      var front := calls[..|calls| - 1];
      Kept(admin, front) + KeptBy(Run(admin, front), calls[|calls| - 1])
  }

  ghost function Moved(admin: Address, calls: seq<Call>, id: PositionId): int {
    if calls == [] then 0 else
      var front := calls[..|calls| - 1];
      Moved(admin, front, id) + MovedBy(Run(admin, front), calls[|calls| - 1], id)
  }

  ghost predicate Sound(pos: Position) {
    pos.collateral >= 0 && pos.bond >= 0
  }

  ghost predicate Inv(v: Vault, kept: int) {
    && (forall id :: id in v.positions ==> Sound(v.positions[id]))
    && Sum(Collaterals(v)) == v.totalCollateral
    && FitsI128(v.totalCollateral)
    && v.held == v.totalCollateral + kept && kept >= 0
    && 100 <= v.liquidation < v.warning <= U32_MAX && 0 <= v.rewardCap <= 5000 && v.target > 100
  }

  lemma PositionIsWithinTotal(v: Vault, kept: int, id: PositionId)
    requires Inv(v, kept)
    ensures 0 <= Get(Collaterals(v), id) <= v.totalCollateral
  {
    EntryIsWithinSum(Collaterals(v), id);
  }

  /** Writing one position moves the sum by the change of its collateral. */
  lemma PositionWritten(v: Vault, id: PositionId, pos: Position, w: Vault)
    requires w.positions == v.positions[id := pos]
    ensures Sum(Collaterals(w)) == Sum(Collaterals(v)) - Get(Collaterals(v), id) + pos.collateral
  {
    assert Collaterals(w) == Collaterals(v)[id := pos.collateral];
    SumOfUpdate(Collaterals(v), id, pos.collateral);
  }

  lemma PositionRemoved(v: Vault, id: PositionId, w: Vault)
    requires w.positions == v.positions - {id}
    ensures Sum(Collaterals(w)) == Sum(Collaterals(v)) - Get(Collaterals(v), id)
  {
    assert Collaterals(w) == Collaterals(v) - {id};
    SumOfRemoval(Collaterals(v), id);
  }

  lemma RewardRange(seized: int, cap: int)
    requires seized >= 0 && 0 <= cap <= 5000
    ensures 0 <= KeeperReward(seized, cap) <= seized
  {
    ProductIsMonotone(0, seized, cap);
  }

  lemma SettleKeepsInv(v: Vault, id: PositionId, price: int, kept: int)
    requires Inv(v, kept) && id in v.positions && v.positions[id].collateral > 0
    ensures v.Settle(id, price) != Err(TokenFailed)
    ensures v.Settle(id, price).Ok? ==>
      var s, w := v.Settle(id, price).value.value, v.Settle(id, price).value.vault;
      var drop := if id in w.positions then s else v.positions[id].collateral;
      && 1 <= s <= v.positions[id].collateral
      && Inv(w, kept + drop - KeeperReward(s, v.rewardCap))
  {
    var pos := v.positions[id];
    var s := Seized(pos.collateral, pos.bond, price, v.target);
    SeizedRange(pos.collateral, pos.bond, price, v.target);
    RewardRange(s, v.rewardCap);
    PositionIsWithinTotal(v, kept, id);
    if v.Settle(id, price).Ok? {
      var w := v.Settle(id, price).value.vault;
      if id in w.positions {
        PositionWritten(v, id, w.positions[id], w);
      } else {
        PositionRemoved(v, id, w);
      }
    }
  }

  lemma StepKeepsInv(v: Vault, call: Call, kept: int)
    requires Inv(v, kept)
    ensures Inv(After(v, Execute(v, call)), kept + KeptBy(v, call))
    ensures KeptBy(v, call) >= 0
    ensures (call.Withdraw? || call.Liquidate?) ==> Execute(v, call) != Err(TokenFailed)
  {
    var w := After(v, Execute(v, call));
    if call.Deposit? || call.IssueBond? || call.RedeemBond? || call.Withdraw? {
      PositionIsWithinTotal(v, kept, call.id);
      if Execute(v, call).Ok? {
        PositionWritten(v, call.id, w.positions[call.id], w);
      }
    } else if call.Liquidate? {
      LiquidationKeepsInv(v, call, kept);
    } else {
      assert Collaterals(w) == Collaterals(v);
    }
  }

  /** The price a liquidation goes by. */
  ghost function PriceOf(v: Vault, call: Call): int
    requires call.Liquidate? && v.EffectivePrice(call.quote, call.now).Ok?
  {
    v.EffectivePrice(call.quote, call.now).value
  }

  lemma LiquidationKeepsInv(v: Vault, call: Call, kept: int)
    requires Inv(v, kept) && call.Liquidate?
    ensures Inv(After(v, Execute(v, call)), kept + KeptBy(v, call)) && KeptBy(v, call) >= 0
    ensures Execute(v, call) != Err(TokenFailed)
  {
    LiquidateSettles(v, call);
    if Execute(v, call).Ok? || Execute(v, call) == Err(TokenFailed) {
      var price := PriceOf(v, call);
      assert Sound(v.positions[call.id]);
      SettleKeepsInv(v, call.id, price, kept);
      if v.Settle(call.id, price).Ok? {
        RewardRange(v.Settle(call.id, price).value.value, v.rewardCap);
      }
    }
  }

  /** A liquidation that gets past its guards is the settlement at the effective price. */
  lemma LiquidateSettles(v: Vault, call: Call)
    requires call.Liquidate?
    ensures Execute(v, call).Ok? || Execute(v, call) == Err(TokenFailed) ==>
      && call.id in v.positions && v.positions[call.id].bond != 0 && v.positions[call.id].collateral != 0
      && v.EffectivePrice(call.quote, call.now).Ok?
      && var price, pos := v.EffectivePrice(call.quote, call.now).value, v.positions[call.id];
      && Execute(v, call) == v.Settle(call.id, price)
      && OracleRatio(pos.collateral, pos.bond, price).Some?
      && OracleRatio(pos.collateral, pos.bond, price).value < v.liquidation
  {
  }

  lemma {:induction false} ReachableInv(admin: Address, calls: seq<Call>)
    ensures Inv(Run(admin, calls), Kept(admin, calls))
  {
    if calls != [] {
      var front := calls[..|calls| - 1];
      ReachableInv(admin, front);
      StepKeepsInv(Run(admin, front), calls[|calls| - 1], Kept(admin, front));
    } else {
      assert Collaterals(Run(admin, calls)) == map[];
    }
  }

  /** After any run the recorded total is the sum over the stored positions, and the tokens held are that
      total plus exactly what gifts and liquidations left behind. */
  lemma CollateralIsAccountedFor(admin: Address, calls: seq<Call>)
    ensures var v := Run(admin, calls);
      && Sum(Collaterals(v)) == v.totalCollateral
      && v.held == v.totalCollateral + Kept(admin, calls)
      && Kept(admin, calls) >= 0
  {
    ReachableInv(admin, calls);
  }

  /** No reachable withdrawal or keeper reward fails for want of tokens, and the saturating subtraction
      of a liquidation is an exact one. */
  lemma PayoutsNeverBounce(admin: Address, calls: seq<Call>, call: Call)
    requires call.Withdraw? || call.Liquidate?
    ensures var v := Run(admin, calls);
      && Execute(v, call) != Err(TokenFailed)
      && After(v, Execute(v, call)).totalCollateral == v.totalCollateral + MovedBy(v, call, call.id)
  {
    ReachableInv(admin, calls);
    var v, kept := Run(admin, calls), Kept(admin, calls);
    StepKeepsInv(v, call, kept);
    PositionIsWithinTotal(v, kept, call.id);
    if call.Liquidate? && Execute(v, call).Ok? {
      LiquidateSettles(v, call);
      assert Sound(v.positions[call.id]);
      SettleKeepsInv(v, call.id, v.EffectivePrice(call.quote, call.now).value, kept);
    }
  }

  lemma StepMovesCollateral(v: Vault, call: Call, id: PositionId)
    ensures Get(Collaterals(After(v, Execute(v, call))), id) == Get(Collaterals(v), id) + MovedBy(v, call, id)
  {
    if call.Liquidate? {
      LiquidateSettles(v, call);
    }
  }

  /** Every position's collateral is its own deposits less its own withdrawals and seizures. */
  lemma {:induction false} CollateralIsNetDeposits(admin: Address, calls: seq<Call>, id: PositionId)
    ensures Get(Collaterals(Run(admin, calls)), id) == Moved(admin, calls, id)
  {
    if calls != [] {
      var front := calls[..|calls| - 1];
      CollateralIsNetDeposits(admin, front, id);
      StepMovesCollateral(Run(admin, front), calls[|calls| - 1], id);
    } else {
      assert Collaterals(Run(admin, calls)) == map[];
    }
  }

  /** What is left of a liquidated position: its owner's still, smaller, and at the target up to the rounding
      of one unit of collateral and one of bond. */
  ghost predicate CuredPosition(pos: Position, left: Position, price: int, target: int) {
    && left.owner == pos.owner
    && 0 < left.collateral < pos.collateral && 0 < left.bond <= pos.bond
    && 100 * left.collateral * price + PerUnit(price, target) + target * PRICE_SCALE > target * PRICE_SCALE * left.bond
  }

  /** A position the liquidation deletes for want of collateral or of bond. */
  ghost predicate Exhausts(pos: Position, price: int) {
    pos.collateral * price <= PRICE_SCALE * pos.bond || pos.collateral == 1 || price >= PRICE_SCALE * pos.bond
  }

  /** What seizing `seized` units of a position at a price made of it. */
  ghost predicate Cures(v: Vault, w: Vault, id: PositionId, price: int, seized: int)
    requires id in v.positions && v.positions[id].bond > 0
  {
    var pos := v.positions[id];
    if price <= 0 then id !in w.positions && seized == pos.collateral
    else
      && (Healthy(pos.collateral, pos.bond, price, v.liquidation) ==>
          WholeRatio(pos.collateral, pos.bond, price) > U32_MAX)
      && (id !in w.positions <==> Exhausts(pos, price))
      && (id in w.positions ==> CuredPosition(pos, w.positions[id], price, v.target))
      && (id !in w.positions && seized < pos.collateral <==> pos.collateral >= 2 && price >= PRICE_SCALE * pos.bond)
      && (id !in w.positions && seized < pos.collateral && v.liquidation <= 200 ==>
            WholeRatio(pos.collateral, pos.bond, price) > U32_MAX)
  }

  /** Any liquidation that succeeds. A worthless position is seized whole. A position with a positive price was
      below the threshold, unless its ratio wraps; it is deleted exactly when it is worth no more than its bond,
      is a single unit, or has a unit worth the whole bond; only the last strands collateral, and never with a
      threshold of at most 200 and a ratio that does not wrap. Otherwise what is left is cured. */
  lemma LiquidationCures(admin: Address, calls: seq<Call>, call: Call)
    requires call.Liquidate?
    ensures var v := Run(admin, calls);
      Execute(v, call).Ok? ==>
        && call.id in v.positions && v.positions[call.id].bond > 0 && v.EffectivePrice(call.quote, call.now).Ok?
        && Cures(v, After(v, Execute(v, call)), call.id, PriceOf(v, call), Execute(v, call).value.value)
  {
    ReachableInv(admin, calls);
    var v := Run(admin, calls);
    LiquidateSettles(v, call);
    if Execute(v, call).Ok? {
      assert Sound(v.positions[call.id]);
      var price, pos := PriceOf(v, call), v.positions[call.id];
      if price <= 0 {
        WorthlessIsSeizedWhole(pos.collateral, pos.bond, price, v.target);
      } else {
        WorthIsNotNegative(pos.collateral, pos.bond, price);
        GuardIsExact(pos.collateral, pos.bond, price, v.liquidation);
        SettlementCures(v, call.id, price);
      }
    }
  }

  lemma WorthIsNotNegative(collateral: int, bond: int, price: int)
    requires collateral >= 0 && bond > 0 && price >= 0
    ensures WholeRatio(collateral, bond, price) >= 0
  {
    ProductIsMonotone(0, collateral, price);
    FloorBelow(collateral * price * 100, PRICE_SCALE * bond, 0);
  }

  lemma SettlementCures(v: Vault, id: PositionId, price: int)
    requires id in v.positions && v.positions[id].collateral > 0 && v.positions[id].bond > 0
    requires price > 0 && v.target > 100
    ensures v.Settle(id, price).Ok? ==>
      var s, w, pos := v.Settle(id, price).value.value, v.Settle(id, price).value.vault, v.positions[id];
      && (id !in w.positions <==> Exhausts(pos, price))
      && (id in w.positions ==> CuredPosition(pos, w.positions[id], price, v.target))
      && (id !in w.positions && s < pos.collateral <==> pos.collateral >= 2 && price >= PRICE_SCALE * pos.bond)
      && (id !in w.positions && v.liquidation <= 200 && !Healthy(pos.collateral, pos.bond, price, v.liquidation)
          ==> s == pos.collateral)
  {
    var pos := v.positions[id];
    var s := Seized(pos.collateral, pos.bond, price, v.target);
    FullSeizure(pos.collateral, pos.bond, price, v.target);
    StrandedIff(pos.collateral, pos.bond, price, v.target);
    RetiredRange(s, pos.bond, price);
    if s < pos.collateral {
      ReachesTargetUpToRounding(pos.collateral, pos.bond, price, v.target);
    }
    if v.liquidation <= 200 && !Healthy(pos.collateral, pos.bond, price, v.liquidation) {
      LiquidationStrandsNothing(pos.collateral, pos.bond, price, v.target, v.liquidation);
    }
  }

  /** The products of a liquidation at a positive price fit 128 bits. */
  ghost predicate ProductsFit(pos: Position, price: int, target: int, cap: int) {
    && FitsI128(pos.collateral * price * 100) && FitsI128(target * (PRICE_SCALE * pos.bond))
    && FitsI128(PerUnit(price, target)) && FitsI128(pos.collateral * cap)
  }

  lemma SeizureFits(pos: Position, price: int, target: int, cap: int)
    requires Sound(pos) && price > 0 && target > 100 && ProductsFit(pos, price, target, cap)
    ensures SeizeFits(pos.collateral, pos.bond, price, target)
    ensures OracleRatio(pos.collateral, pos.bond, price).Some?
  {
    var value, debt := pos.collateral * price, PRICE_SCALE * pos.bond;
    ProductIsMonotone(0, pos.collateral, price);
    ProductIsMonotone(1, price, pos.collateral);
    ProductIsMonotone(1, target, debt);
    ProductIsMonotone(0, pos.bond, target);
    assert target * pos.bond * PRICE_SCALE == target * debt;
    assert 100 * pos.collateral * price == value * 100;
  }

  lemma SettlementFits(pos: Position, price: int, target: int, cap: int)
    requires Sound(pos) && pos.collateral > 0 && pos.bond > 0 && price > 0 && target > 100 && cap >= 0
    requires ProductsFit(pos, price, target, cap)
    ensures var s := Seized(pos.collateral, pos.bond, price, target);
      var bond := pos.bond - Retired(s, pos.bond, price);
      && FitsI128(s * price) && FitsI128(s * cap) && FitsI128(bond)
      && OracleRatio(pos.collateral - s, bond, price).Some?
  {
    var s := Seized(pos.collateral, pos.bond, price, target);
    SeizedRange(pos.collateral, pos.bond, price, target);
    RetiredRange(s, pos.bond, price);
    SeizureFits(pos, price, target, cap);
    ProductIsMonotone(1, s, price);
    ProductIsMonotone(s, pos.collateral, price);
    ProductIsMonotone(0, s, cap);
    ProductIsMonotone(s, pos.collateral, cap);
    ProductIsMonotone(0, pos.collateral - s, price);
    ProductIsMonotone(pos.collateral - s, pos.collateral, price);
  }

  /** The other way round: while the products fit and the ratio does not wrap, a position with a positive price can
      be liquidated exactly when the contract is not paused, there is something to seize, and it is unhealthy. */
  lemma LiquidationSucceedsIff(admin: Address, calls: seq<Call>, call: Call)
    requires call.Liquidate?
    ensures var v := Run(admin, calls);
      call.id in v.positions && v.positions[call.id].bond > 0 && v.EffectivePrice(call.quote, call.now).Ok? ==>
        var pos, price := v.positions[call.id], PriceOf(v, call);
        price > 0 && ProductsFit(pos, price, v.target, v.rewardCap)
        && WholeRatio(pos.collateral, pos.bond, price) <= U32_MAX ==>
          (Execute(v, call).Ok? <==>
            !v.paused && pos.collateral > 0 && !Healthy(pos.collateral, pos.bond, price, v.liquidation))
  {
    ReachableInv(admin, calls);
    LiquidatesIff(Run(admin, calls), Kept(admin, calls), call);
  }

  lemma LiquidatesIff(v: Vault, kept: int, call: Call)
    requires Inv(v, kept) && call.Liquidate?
    ensures call.id in v.positions && v.positions[call.id].bond > 0 && v.EffectivePrice(call.quote, call.now).Ok? ==>
        var pos, price := v.positions[call.id], PriceOf(v, call);
        price > 0 && ProductsFit(pos, price, v.target, v.rewardCap)
        && WholeRatio(pos.collateral, pos.bond, price) <= U32_MAX ==>
          (Execute(v, call).Ok? <==>
            !v.paused && pos.collateral > 0 && !Healthy(pos.collateral, pos.bond, price, v.liquidation))
  {
    if call.id in v.positions && v.positions[call.id].bond > 0 && v.EffectivePrice(call.quote, call.now).Ok? {
      var pos, price := v.positions[call.id], PriceOf(v, call);
      assert Sound(pos);
      if price > 0 && pos.collateral > 0 && ProductsFit(pos, price, v.target, v.rewardCap) {
        SeizureFits(pos, price, v.target, v.rewardCap);
        SettlementFits(pos, price, v.target, v.rewardCap);
        WorthIsNotNegative(pos.collateral, pos.bond, price);
        GuardIsExact(pos.collateral, pos.bond, price, v.liquidation);
        SettleKeepsInv(v, call.id, price, kept);
        SettleSucceeds(v, call.id, price);
      }
    }
  }

  lemma SettleSucceeds(v: Vault, id: PositionId, price: int)
    requires id in v.positions && v.Settle(id, price) != Err(TokenFailed)
    requires var pos := v.positions[id];
      var s := Seized(pos.collateral, pos.bond, price, v.target);
      var bond := pos.bond - Retired(s, pos.bond, price);
      && FitsI128(s * price) && FitsI128(s * v.rewardCap) && FitsI128(bond)
      && OracleRatio(pos.collateral - s, bond, price).Some?
    ensures v.Settle(id, price).Ok?
  {
  }

  /** When what is left is worse than the position was, and when it is at the target, read off the position, the
      price and the target before the call. */
  ghost predicate RoundsAs(pos: Position, left: Position, price: int, target: int) {
    var n, d := Missing(pos.collateral, pos.bond, price, target), PerUnit(price, target);
    var surplus := pos.collateral * price - PRICE_SCALE * pos.bond;
    var worse := Worse(pos.collateral, pos.bond, left.collateral, left.bond);
    var met := Healthy(left.collateral, left.bond, price, target);
    d > 0 &&
    if n >= d
    then && (worse <==> pos.collateral * ((n / d * price) % PRICE_SCALE) > n / d * surplus)
         && (met <==> n % d == 0 && (n / d * price) % PRICE_SCALE == 0)
    else && (worse <==> pos.collateral * (price % PRICE_SCALE) > surplus)
         && (met <==> n + target * (price % PRICE_SCALE) <= d)
  }

  /** Which positions that survive a liquidation come out of it worse than they were, and which at the target. */
  lemma LiquidationWorsensIff(admin: Address, calls: seq<Call>, call: Call)
    requires call.Liquidate?
    ensures var v := Run(admin, calls);
      var w := After(v, Execute(v, call));
      Execute(v, call).Ok? && call.id in w.positions ==>
        && call.id in v.positions && v.EffectivePrice(call.quote, call.now).Ok? && PriceOf(v, call) > 0
        && RoundsAs(v.positions[call.id], w.positions[call.id], PriceOf(v, call), v.target)
  {
    LiquidationCures(admin, calls, call);
    ReachableInv(admin, calls);
    var v := Run(admin, calls);
    LiquidateSettles(v, call);
    if Execute(v, call).Ok? && call.id in After(v, Execute(v, call)).positions {
      assert Sound(v.positions[call.id]);
      SettlementRoundsAs(v, call.id, PriceOf(v, call));
    }
  }

  lemma SettlementRoundsAs(v: Vault, id: PositionId, price: int)
    requires id in v.positions && v.positions[id].collateral > 0 && v.positions[id].bond > 0
    requires price > 0 && v.target > 100
    ensures v.Settle(id, price).Ok? && id in v.Settle(id, price).value.vault.positions ==>
      RoundsAs(v.positions[id], v.Settle(id, price).value.vault.positions[id], price, v.target)
  {
    var pos := v.positions[id];
    SettlementCures(v, id, price);
    SettlementLeaves(v, id, price);
    WorsensIff(pos.collateral, pos.bond, price, v.target);
    MeetsTargetIff(pos.collateral, pos.bond, price, v.target);
  }

  lemma SettlementLeaves(v: Vault, id: PositionId, price: int)
    requires id in v.positions
    ensures v.Settle(id, price).Ok? && id in v.Settle(id, price).value.vault.positions ==>
      var pos, left := v.positions[id], v.Settle(id, price).value.vault.positions[id];
      var s := Seized(pos.collateral, pos.bond, price, v.target);
      left.collateral == pos.collateral - s && left.bond == pos.bond - Retired(s, pos.bond, price)
  {
  }

  // ---- the floating-point ratio ----

  /** `quotient` is 100 * collateral / bond up to the relative error `eps` of whatever arithmetic computed `x`,
      cut off to a whole number and to 32 bits. */
  ghost predicate IsRatio(quotient: int, x: real, collateral: int, bond: int, eps: real) {
    && x * bond as real <= (100 * collateral) as real * (1.0 + eps)
    && quotient == if x >= U32_MAX as real then U32_MAX else x.Floor
  }

  /** A position is worth the threshold, one to one, up to the relative error; exactly so without one. */
  ghost predicate Covered(pos: Position, threshold: int, eps: real) {
    && (threshold * pos.bond) as real <= (100 * pos.collateral) as real * (1.0 + eps)
    && (eps == 0.0 ==> Healthy(pos.collateral, pos.bond, PRICE_SCALE, threshold))
  }

  /** Issuing a bond or withdrawing collateral leaves a position at the liquidation threshold, one to one, up to the
      relative error of the ratio; exactly at it, and so out of reach of a liquidation without a feed, if the ratio
      was exact. */
  lemma GuardedCallsLeaveCover(v: Vault, call: Call, x: real, eps: real)
    requires call.IssueBond? || call.Withdraw?
    ensures var w := After(v, Execute(v, call));
      Execute(v, call).Ok? ==>
        && call.id in w.positions
        && var pos := w.positions[call.id];
        pos.bond > 0 && IsRatio(call.quotient, x, pos.collateral, pos.bond, eps) ==> Covered(pos, v.liquidation, eps)
  {
    GuardPassed(v, call);
    var w := After(v, Execute(v, call));
    if Execute(v, call).Ok? && w.positions[call.id].bond > 0 {
      RatioCovers(w.positions[call.id], v.liquidation, call.quotient, x, eps);
    }
  }

  lemma GuardPassed(v: Vault, call: Call)
    requires call.IssueBond? || call.Withdraw?
    ensures var w := After(v, Execute(v, call));
      Execute(v, call).Ok? ==>
        call.id in w.positions && (w.positions[call.id].bond > 0 ==> call.quotient >= v.liquidation)
  {
  }

  lemma RatioCovers(pos: Position, threshold: int, quotient: int, x: real, eps: real)
    requires pos.bond > 0 && quotient >= threshold
    ensures IsRatio(quotient, x, pos.collateral, pos.bond, eps) ==> Covered(pos, threshold, eps)
  {
    if IsRatio(quotient, x, pos.collateral, pos.bond, eps) {
      assert x >= quotient as real >= threshold as real;
      RealMonotone(threshold as real, x, pos.bond as real);
      assert (threshold * pos.bond) as real == threshold as real * pos.bond as real;
      if eps == 0.0 {
        WorthOneToOne(pos.collateral, pos.bond, threshold);
      }
    }
  }

  lemma WorthOneToOne(collateral: int, bond: int, threshold: int)
    ensures Healthy(collateral, bond, PRICE_SCALE, threshold) <==> threshold * bond <= 100 * collateral
  {
    assert threshold * PRICE_SCALE * bond == PRICE_SCALE * (threshold * bond);
  }

  lemma RealMonotone(x: real, y: real, z: real)
    requires z >= 0.0 && x <= y
    ensures x * z <= y * z
  {
  }

  // ---- runs from an empty contract ----

  /** A contract with a price feed and one position of `collateral` against `bond`. */
  ghost function Opening(admin: Address, owner: Address, id: PositionId, collateral: int, bond: int, ratio: U32)
    : seq<Call>
  {
    [SetOracleFeed(admin, 3600), Deposit(owner, id, collateral, true, 0), IssueBond(owner, id, bond, ratio, 0)]
  }

  lemma RunOfThree(admin: Address, a: Call, b: Call, c: Call)
    ensures var v0 := Initial(admin);
      var v1 := After(v0, Execute(v0, a));
      var v2 := After(v1, Execute(v1, b));
      Run(admin, [a, b, c]) == After(v2, Execute(v2, c))
  {
    assert [a, b, c][..2] == [a, b] && [a, b][..1] == [a] && [a][..0] == [];
    assert Run(admin, [a][..0]) == Initial(admin);
    assert Run(admin, [a]) == After(Initial(admin), Execute(Initial(admin), a));
  }

  lemma OpeningRuns(admin: Address, owner: Address, id: PositionId, collateral: int, bond: int, ratio: U32)
    requires 0 < collateral <= I128_MAX && 0 < bond <= I128_MAX && ratio >= 120
    ensures Run(admin, Opening(admin, owner, id, collateral, bond, ratio))
      == Initial(admin).(hasFeed := true, positions := map[id := Position(owner, collateral, bond, 0)],
                         totalCollateral := collateral, held := collateral)
  {
    var calls := Opening(admin, owner, id, collateral, bond, ratio);
    RunOfThree(admin, calls[0], calls[1], calls[2]);
  }

  /** With the initial thresholds, a position of two units against one at 5_500_000 stands at 110 percent and is
      liquidated into one unit against one: 55 percent. */
  lemma LiquidationCanWorsen(admin: Address, owner: Address, id: PositionId)
    ensures var v := Run(admin, Opening(admin, owner, id, 2, 1, 200));
      var call := Liquidate(id, OraclePrice(5_500_000, 0), 0);
      && Execute(v, call).Ok?
      && id in v.positions && id in After(v, Execute(v, call)).positions
      && var pos, left := v.positions[id], After(v, Execute(v, call)).positions[id];
      && pos.collateral == 2 && pos.bond == 1 && left.collateral == 1 && left.bond == 1
      && Healthy(2, 1, 5_500_000, 110) && !Healthy(1, 1, 5_500_000, 56)
  {
    OpeningRuns(admin, owner, id, 2, 1, 200);
  }

  /** A position worth 2^32 percent of its bond reads as worth nothing and is liquidated. */
  lemma RatioWraps(admin: Address, owner: Address, id: PositionId)
    ensures var collateral := 42_949_672_960_000_000;
      var v := Run(admin, Opening(admin, owner, id, collateral, 1_000_000_000, U32_MAX));
      && id in v.positions && Healthy(v.positions[id].collateral, v.positions[id].bond, PRICE_SCALE, U32_MAX)
      && v.liquidation == 120
      && Execute(v, Liquidate(id, OraclePrice(PRICE_SCALE, 0), 0)).Ok?
  {
    OpeningRuns(admin, owner, id, 42_949_672_960_000_000, 1_000_000_000, U32_MAX);
  }

  /** With the liquidation threshold raised to 201, a position of two units, one of them worth the bond, is
      liquidated: one unit is seized, and the position is deleted with the other in it. */
  lemma StrandsAboveTwoHundred(admin: Address, owner: Address, id: PositionId)
    ensures var v := Run(admin, Opening(admin, owner, id, 2, 1, 200) + [SetThresholds(admin, 202, 201)]);
      var reply := Execute(v, Liquidate(id, OraclePrice(PRICE_SCALE, 0), 0));
      && v.liquidation == 201 && id in v.positions && v.positions[id].collateral == 2
      && reply.Ok? && reply.value.value == 1 && id !in reply.value.vault.positions
  {
    var calls := Opening(admin, owner, id, 2, 1, 200);
    OpeningRuns(admin, owner, id, 2, 1, 200);
    assert (calls + [SetThresholds(admin, 202, 201)])[..|calls|] == calls;
  }
}
