/** bond_collateral: what one liquidation achieves. All statements are in exact integer arithmetic;
    a position of `collateral` against `bond` at `price` is healthy at `target` percent when
    100 * collateral * price >= target * PRICE_SCALE * bond. */
module BondLiquidation {
  import opened Host
  import opened Products
  import opened BondCollateral

  ghost predicate Healthy(collateral: int, bond: int, price: int, percent: int) {
    100 * collateral * price >= percent * PRICE_SCALE * bond
  }

  /** The exact value, scaled, of the bond left if no rounding took place. */
  ghost predicate ExactlyCured(collateral: int, bond: int, price: int, target: int, seized: int) {
    100 * (collateral - seized) * price >= target * (PRICE_SCALE * bond - seized * price)
  }

  /** Truncation is invisible to any bound of one or more. */
  lemma TruncAtLeast(n: int, d: int, k: int)
    requires d > 0 && k >= 1
    ensures TruncDiv(n, d) >= k <==> n >= k * d
  {
    ProductIsMonotone(1, k, d);
    if n < 0 {
      FloorBelow(-n, d, 0);
    } else {
      FloorBelow(n, d, k);
    }
  }

  // ---- the guard ----

  /** The ratio in percent before its high bits are cut off. */
  function WholeRatio(collateral: int, bond: int, price: int): int
    requires bond != 0
  {
    TruncDiv(collateral * price * 100, PRICE_SCALE * bond)
  }

  /** A position passes the liquidation guard exactly when it is not healthy at the threshold, while the
      ratio fits 32 bits. Outside them the guard is right if and only if the low 32 bits happen to fall on
      the right side: not below the threshold for a ratio too large, below it for a negative one. */
  lemma GuardIsExact(collateral: int, bond: int, price: int, threshold: int)
    requires collateral >= 0 && bond > 0 && 1 <= threshold <= U32_MAX
    requires OracleRatio(collateral, bond, price).Some?
    ensures var passes := OracleRatio(collateral, bond, price).value < threshold;
      var ratio := WholeRatio(collateral, bond, price);
      && (0 <= ratio <= U32_MAX ==> (passes <==> !Healthy(collateral, bond, price, threshold)))
      && ((passes <==> !Healthy(collateral, bond, price, threshold))
          <==> && (ratio > U32_MAX ==> ratio % 0x1_0000_0000 >= threshold)
               && (ratio < 0 ==> ratio % 0x1_0000_0000 < threshold))
  {
    var n, d := collateral * price * 100, PRICE_SCALE * bond;
    FloorBelow(n, d, threshold);
    FloorBelow(n, d, 0);
    FloorBelow(-n, d, 0);
    ProductIsMonotone(1, threshold, d);
    ScaledBond(threshold, bond);
    ScaledCollateral(collateral, price);
    if price == 0 {
      assert n == 0;
    }
  }

  lemma ScaledBond(percent: int, bond: int)
    ensures percent * PRICE_SCALE * bond == percent * (PRICE_SCALE * bond)
  {
  }

  lemma ScaledCollateral(collateral: int, price: int)
    ensures 100 * collateral * price == collateral * price * 100
  {
  }

  // ---- the seizure ----

  /** Seizing everything overshoots what is missing by the target's share of the surplus. */
  lemma SeizingAll(collateral: int, bond: int, price: int, target: int)
    ensures collateral * PerUnit(price, target) - Missing(collateral, bond, price, target)
            == target * (collateral * price - PRICE_SCALE * bond)
  {
    var value := collateral * price;
    assert collateral * (price * (target - 100)) == value * (target - 100) == target * value - 100 * value;
  }

  /** Everything is seized exactly when the collateral is worth no more than the bond, or is a single unit. */
  lemma FullSeizure(collateral: int, bond: int, price: int, target: int)
    requires collateral > 0 && bond > 0 && price > 0 && target > 100
    ensures Seized(collateral, bond, price, target) == collateral
            <==> collateral * price <= PRICE_SCALE * bond || collateral == 1
  {
    var n, d := Missing(collateral, bond, price, target), PerUnit(price, target);
    ProductIsMonotone(1, price, target - 100);
    TruncAtLeast(n, d, collateral);
    SeizingAll(collateral, bond, price, target);
    SignOfProduct(target, collateral * price - PRICE_SCALE * bond);
  }

  lemma SignOfProduct(x: int, y: int)
    requires x > 0
    ensures x * y <= 0 <==> y <= 0
  {
  }

  /** A price of zero or less, or a target of at most 100 percent, seizes everything. */
  lemma WorthlessIsSeizedWhole(collateral: int, bond: int, price: int, target: int)
    requires collateral > 0 && (price <= 0 || target <= 100)
    ensures Seized(collateral, bond, price, target) == collateral
  {
    if price < 0 && target > 100 {
      ProductIsMonotone(price, -1, target - 100);
    }
  }

  /** Never too much: no smaller whole seizure would have cured the position, unless one unit was taken
      because the rule takes at least one. */
  lemma SeizesNoMoreThanNeeded(collateral: int, bond: int, price: int, target: int, enough: int)
    requires collateral > 0 && bond > 0 && price > 0 && target > 100
    requires 0 <= enough && ExactlyCured(collateral, bond, price, target, enough)
    ensures Seized(collateral, bond, price, target) <= Max(1, enough)
  {
    var n, d := Missing(collateral, bond, price, target), PerUnit(price, target);
    var most := Max(1, enough);
    ProductIsMonotone(1, price, target - 100);
    CuredMeansCovered(collateral, bond, price, target, enough);
    TruncAtLeast(n, d, most + 1);
    ProductIsMonotone(enough, most, d);
    assert (most + 1) * d == most * d + d;
  }

  /** Seizing s brings the exact position to the target if and only if s units cover what is missing. */
  lemma CuredMeansCovered(collateral: int, bond: int, price: int, target: int, s: int)
    ensures ExactlyCured(collateral, bond, price, target, s)
            <==> s * PerUnit(price, target) >= Missing(collateral, bond, price, target)
  {
    var value, debt, paid := collateral * price, PRICE_SCALE * bond, s * price;
    assert 100 * (collateral - s) * price == 100 * value - 100 * paid by {
      assert (collateral - s) * price == value - paid;
    }
    assert target * (debt - paid) == target * debt - target * paid;
    assert s * (price * (target - 100)) == paid * (target - 100) == target * paid - 100 * paid;
  }

  // ---- the position left behind ----

  /** Exactly how far the remaining position is from the target: the last unit's surplus, less what
      flooring the retired bond costs. */
  lemma Shortfall(collateral: int, bond: int, price: int, target: int, s: int)
    requires price > 0 && s >= 0 && s * price <= PRICE_SCALE * bond
    ensures 100 * (collateral - s) * price - target * PRICE_SCALE * (bond - Retired(s, bond, price))
            == s * PerUnit(price, target) - Missing(collateral, bond, price, target)
               - target * ((s * price) % PRICE_SCALE)
  {
    var value, debt, paid := collateral * price, PRICE_SCALE * bond, s * price;
    ProductIsMonotone(0, s, price);
    var lost := paid % PRICE_SCALE;
    var retired := paid / PRICE_SCALE;
    assert PRICE_SCALE * retired == paid - lost;
    assert retired <= bond;
    assert Retired(s, bond, price) == retired;
    assert 100 * (collateral - s) * price == 100 * value - 100 * paid by {
      assert (collateral - s) * price == value - paid;
    }
    assert target * PRICE_SCALE * (bond - retired) == target * debt - target * paid + target * lost by {
      assert PRICE_SCALE * (bond - retired) == debt - paid + lost;
      assert target * (debt - paid + lost) == target * debt - target * paid + target * lost;
      assert target * PRICE_SCALE * (bond - retired) == target * (PRICE_SCALE * (bond - retired));
    }
    assert s * (price * (target - 100)) == paid * (target - 100) == target * paid - 100 * paid;
  }

  /** A position worth more than its bond comes out of a liquidation at the target up to a fixed rounding:
      less than one unit's worth of collateral and one unit of bond, at the target. */
  lemma ReachesTargetUpToRounding(collateral: int, bond: int, price: int, target: int)
    requires collateral > 0 && bond > 0 && price > 0 && target > 100
    requires collateral * price > PRICE_SCALE * bond
    ensures var s := Seized(collateral, bond, price, target);
      var bond' := bond - Retired(s, bond, price);
      100 * (collateral - s) * price + PerUnit(price, target) + target * PRICE_SCALE > target * PRICE_SCALE * bond'
  {
    var s := Seized(collateral, bond, price, target);
    var n, d := Missing(collateral, bond, price, target), PerUnit(price, target);
    ProductIsMonotone(1, price, target - 100);
    ProductIsMonotone(0, collateral - s, price);
    ScaledCollateral(collateral - s, price);
    if s * price >= PRICE_SCALE * bond {
      RetiresAllIff(s, bond, price);
      assert target * PRICE_SCALE * (bond - Retired(s, bond, price)) == 0;
    } else {
      TruncAtLeast(n, d, s + 1);
      assert (s + 1) * d == s * d + d;
      Shortfall(collateral, bond, price, target, s);
      RoundingIsSmall(s * d - n, d, target, (s * price) % PRICE_SCALE);
    }
  }

  lemma RoundingIsSmall(over: int, d: int, target: int, lost: int)
    requires over + d > 0 && target > 0 && 0 <= lost < PRICE_SCALE
    ensures over - target * lost + d + target * PRICE_SCALE > 0
  {
    ProductIsMonotone(lost, PRICE_SCALE, target);
  }

  /** How many units are seized: all of a position worth no more than its bond, else the whole units
      missing, and one unit if not even one is missing. */
  function UnitsSeized(collateral: int, bond: int, price: int, target: int): int
    requires PerUnit(price, target) > 0
  {
    var n, d := Missing(collateral, bond, price, target), PerUnit(price, target);
    if collateral * price <= PRICE_SCALE * bond then collateral else if n >= d then n / d else 1
  }

  /** The clamps of the code never cut into the whole units missing, and those are worth less than the debt. */
  lemma SeizedInClosedForm(collateral: int, bond: int, price: int, target: int)
    requires collateral > 0 && bond > 0 && price > 0 && target > 100
    ensures PerUnit(price, target) > 0
    ensures Seized(collateral, bond, price, target) == UnitsSeized(collateral, bond, price, target)
    ensures collateral * price > PRICE_SCALE * bond
            && Missing(collateral, bond, price, target) >= PerUnit(price, target) ==>
      UnitsSeized(collateral, bond, price, target) * price < PRICE_SCALE * bond
  {
    var n, d := Missing(collateral, bond, price, target), PerUnit(price, target);
    ProductIsMonotone(1, price, target - 100);
    FullSeizure(collateral, bond, price, target);
    SeizingAll(collateral, bond, price, target);
    SignOfProduct(target, collateral * price - PRICE_SCALE * bond);
    TruncAtLeast(n, d, 1);
    if n >= d {
      TruncAtLeast(n, d, collateral);
      TruncAtLeast(n, d, n / d);
      CoveredRetiresLess(collateral, bond, price, target, n / d);
    }
  }

  /** Whether s units reach the target: all of the bond is retired, or they cover the missing amount and what
      flooring the retired bond costs. */
  lemma UnitsMeetTarget(collateral: int, bond: int, price: int, target: int, s: int)
    requires 1 <= s <= collateral && bond > 0 && price > 0 && target > 100
    ensures Healthy(collateral - s, bond - Retired(s, bond, price), price, target)
      <==> s * price >= PRICE_SCALE * bond
           || Missing(collateral, bond, price, target) + target * ((s * price) % PRICE_SCALE)
              <= s * PerUnit(price, target)
  {
    RetiresAllIff(s, bond, price);
    if s * price < PRICE_SCALE * bond {
      Shortfall(collateral, bond, price, target, s);
    } else {
      ProductIsMonotone(0, collateral - s, price);
      ScaledCollateral(collateral - s, price);
    }
  }

  /** The target itself is met exactly when: with all seized, the collateral was worth the bond; with whole
      units missing, neither floor rounds; and otherwise one unit retires the whole bond or covers what is
      missing and its own rounding. */
  lemma MeetsTargetIff(collateral: int, bond: int, price: int, target: int)
    requires collateral > 0 && bond > 0 && price > 0 && target > 100
    ensures PerUnit(price, target) > 0
    ensures var s := Seized(collateral, bond, price, target);
      var met := Healthy(collateral - s, bond - Retired(s, bond, price), price, target);
      var n, d := Missing(collateral, bond, price, target), PerUnit(price, target);
      if collateral * price <= PRICE_SCALE * bond then met <==> collateral * price == PRICE_SCALE * bond
      else if n >= d then met <==> n % d == 0 && (n / d * price) % PRICE_SCALE == 0
      else met <==> price >= PRICE_SCALE * bond || n + target * (price % PRICE_SCALE) <= d
  {
    var s := Seized(collateral, bond, price, target);
    var n, d := Missing(collateral, bond, price, target), PerUnit(price, target);
    SeizedInClosedForm(collateral, bond, price, target);
    SeizedRange(collateral, bond, price, target);
    if collateral * price <= PRICE_SCALE * bond {
      AllMeetsTarget(collateral, bond, price, target);
    } else {
      UnitsMeetTarget(collateral, bond, price, target, s);
      if n >= d {
        NoRounding(n, d, target, (s * price) % PRICE_SCALE);
      }
    }
  }

  lemma SeizedRange(collateral: int, bond: int, price: int, target: int)
    requires collateral > 0
    ensures 1 <= Seized(collateral, bond, price, target) <= collateral
  {
  }

  lemma AllMeetsTarget(collateral: int, bond: int, price: int, target: int)
    requires collateral > 0 && bond > 0 && price > 0 && target > 100
    ensures Healthy(0, bond - Retired(collateral, bond, price), price, target) <==>
        collateral * price >= PRICE_SCALE * bond
  {
    RetiresAllIff(collateral, bond, price);
    SignOfProduct(target * PRICE_SCALE, bond - Retired(collateral, bond, price));
  }

  lemma NoRounding(n: int, d: int, target: int, lost: int)
    requires d > 0 && target > 0 && lost >= 0
    ensures n + target * lost <= n / d * d <==> n % d == 0 && lost == 0
  {
    assert n == n / d * d + n % d;
    ProductIsMonotone(0, lost, target);
    SignOfProduct(target, lost);
  }

  /** The collateral per unit of bond has fallen. */
  ghost predicate Worse(collateral: int, bond: int, collateral': int, bond': int) {
    collateral' * bond < collateral * bond'
  }

  /** Seizing s units for less than the whole bond makes a position worse exactly when the bond that the floor
      fails to retire outweighs the discount. */
  lemma UnitsWorsen(collateral: int, bond: int, price: int, s: int)
    requires s >= 1 && price > 0 && s * price < PRICE_SCALE * bond
    ensures Worse(collateral, bond, collateral - s, bond - Retired(s, bond, price))
      <==> collateral * ((s * price) % PRICE_SCALE) > s * (collateral * price - PRICE_SCALE * bond)
  {
    var paid := s * price;
    ProductIsMonotone(1, s, price);
    var r, lost := paid / PRICE_SCALE, paid % PRICE_SCALE;
    assert Retired(s, bond, price) == r;
    assert collateral * (PRICE_SCALE * r) == collateral * paid - collateral * lost;
    assert collateral * (PRICE_SCALE * r) == PRICE_SCALE * (collateral * r);
    assert s * (collateral * price - PRICE_SCALE * bond) == collateral * paid - PRICE_SCALE * (s * bond) by {
      assert s * (collateral * price) == collateral * paid;
    }
    assert (collateral - s) * bond == collateral * bond - s * bond;
    assert collateral * (bond - r) == collateral * bond - collateral * r;
  }

  /** Rounding can leave a liquidated position worse off than it was, exactly when: all was seized and did not
      cover the bond; or the fraction of a bond unit that the seized units are worth beyond whole ones, times
      the collateral, exceeds their share of the surplus. */
  lemma WorsensIff(collateral: int, bond: int, price: int, target: int)
    requires collateral > 0 && bond > 0 && price > 0 && target > 100
    ensures PerUnit(price, target) > 0
    ensures var s := Seized(collateral, bond, price, target);
      var worse := Worse(collateral, bond, collateral - s, bond - Retired(s, bond, price));
      var n, d := Missing(collateral, bond, price, target), PerUnit(price, target);
      var surplus := collateral * price - PRICE_SCALE * bond;
      if surplus <= 0 then worse <==> surplus < 0
      else if n >= d then worse <==> collateral * ((n / d * price) % PRICE_SCALE) > n / d * surplus
      else worse <==> price < PRICE_SCALE * bond && collateral * (price % PRICE_SCALE) > surplus
  {
    var s := Seized(collateral, bond, price, target);
    SeizedInClosedForm(collateral, bond, price, target);
    SeizedRange(collateral, bond, price, target);
    RetiresAllIff(s, bond, price);
    if s * price < PRICE_SCALE * bond && collateral * price > PRICE_SCALE * bond {
      UnitsWorsen(collateral, bond, price, s);
    } else {
      RetiredRange(s, bond, price);
      NothingOwed(collateral - s, bond, collateral, bond - Retired(s, bond, price));
    }
  }

  lemma NothingOwed(left: int, bond: int, collateral: int, owed: int)
    requires left >= 0 && bond > 0 && collateral > 0 && owed >= 0
    ensures owed == 0 ==> !Worse(collateral, bond, left, owed)
    ensures left == 0 && owed > 0 ==> Worse(collateral, bond, left, owed)
  {
    ProductIsMonotone(0, left, bond);
    if owed > 0 {
      ProductIsMonotone(1, owed, collateral);
    }
  }

  lemma RetiredRange(s: int, bond: int, price: int)
    requires s >= 1 && bond > 0 && price > 0
    ensures 0 <= Retired(s, bond, price) <= bond
  {
    ProductIsMonotone(0, s, price);
  }

  // ---- no collateral is stranded ----

  /** Collateral is left over in a deleted position exactly when there is more than one unit and a
      single unit is worth the whole bond. */
  lemma StrandedIff(collateral: int, bond: int, price: int, target: int)
    requires collateral > 0 && bond > 0 && price > 0 && target > 100
    ensures var s := Seized(collateral, bond, price, target);
      bond - Retired(s, bond, price) == 0 && collateral - s > 0
      <==> collateral >= 2 && price >= PRICE_SCALE * bond
  {
    var s := Seized(collateral, bond, price, target);
    FullSeizure(collateral, bond, price, target);
    RetiresAllIff(s, bond, price);
    ProductIsMonotone(1, s, price);
    if s >= 2 {
      ProductIsMonotone(1, price, target - 100);
      TruncAtLeast(Missing(collateral, bond, price, target), PerUnit(price, target), s);
      CoveredRetiresLess(collateral, bond, price, target, s);
    }
    if collateral >= 2 {
      ProductIsMonotone(2, collateral, price);
    }
  }

  lemma RetiresAllIff(s: int, bond: int, price: int)
    requires s >= 1 && bond > 0 && price > 0
    ensures bond - Retired(s, bond, price) == 0 <==> s * price >= PRICE_SCALE * bond
  {
    TruncAtLeast(s * price, PRICE_SCALE, bond);
  }

  /** Units that do not overshoot what is missing are worth less than the debt when the collateral is
      worth more. */
  lemma CoveredRetiresLess(collateral: int, bond: int, price: int, target: int, s: int)
    requires target > 100
    ensures s * PerUnit(price, target) <= Missing(collateral, bond, price, target)
            && collateral * price > PRICE_SCALE * bond
            ==> s * price < PRICE_SCALE * bond
  {
    var value, debt, paid := collateral * price, PRICE_SCALE * bond, s * price;
    assert s * (price * (target - 100)) == paid * (target - 100);
    assert Missing(collateral, bond, price, target) == target * debt - 100 * value;
    if paid >= debt {
      ProductIsMonotone(debt, paid, target - 100);
      assert debt * (target - 100) == target * debt - 100 * debt;
    }
  }

  /** With a threshold of at most 200 percent a liquidated position is deleted only when all of its
      collateral was seized, never because its bond alone reached zero. */
  lemma LiquidationStrandsNothing(collateral: int, bond: int, price: int, target: int, threshold: int)
    requires collateral > 0 && bond > 0 && price > 0 && target > 100 && threshold <= 200
    requires !Healthy(collateral, bond, price, threshold)
    ensures var s := Seized(collateral, bond, price, target);
      bond - Retired(s, bond, price) == 0 ==> collateral - s == 0
  {
    StrandedIff(collateral, bond, price, target);
    if collateral >= 2 && price >= PRICE_SCALE * bond {
      TwoUnitsAreHealthy(collateral, bond, price, threshold);
    }
  }

  lemma TwoUnitsAreHealthy(collateral: int, bond: int, price: int, threshold: int)
    requires collateral >= 2 && bond > 0 && price >= PRICE_SCALE * bond && threshold <= 200
    ensures Healthy(collateral, bond, price, threshold)
  {
    var debt := PRICE_SCALE * bond;
    ProductIsMonotone(2, collateral, price);
    ProductIsMonotone(threshold, 200, debt);
    assert threshold * PRICE_SCALE * bond == threshold * debt;
    assert 100 * collateral * price == 100 * (collateral * price);
  }
}
