/** What every contract of the workspace takes from its host: machine integers whose
    overflow aborts the call, Rust's truncating division, and results.

    A call that fails, by an error value or by a panic, leaves no trace in storage. */
module Host {
  datatype Option<+T> = None | Some(value: T)

  datatype Outcome<+T, +E> = Ok(value: T) | Err(error: E)

  datatype Address = Address(id: nat)

  const I128_MAX: int := 0x7FFF_FFFF_FFFF_FFFF_FFFF_FFFF_FFFF_FFFF
  const I128_MIN: int := -I128_MAX - 1
  const U64_MAX: int := 0xFFFF_FFFF_FFFF_FFFF
  const U32_MAX: int := 0xFFFF_FFFF

  type U32 = x: int | 0 <= x <= 0xFFFF_FFFF

  predicate FitsI128(x: int) {
    I128_MIN <= x <= I128_MAX
  }

  predicate FitsU64(x: int) {
    0 <= x <= U64_MAX
  }

  /** Rust's integer division: the quotient is rounded toward zero. */
  function TruncDiv(a: int, b: int): int
    requires b != 0
  {
    if a >= 0 then a / b else -((-a) / b)
  }

  /** i128::saturating_sub. */
  function SaturatingSub(a: int, b: int): int {
    if a - b < I128_MIN then I128_MIN else if a - b > I128_MAX then I128_MAX else a - b
  }

  /** An absent storage entry of an amount reads as zero. */
  function Get<K>(m: map<K, int>, k: K): int {
    if k in m then m[k] else 0
  }
}

/** Members of collections, for proofs that need to name one, and facts about sequences. */
module Members {
  ghost predicate NoRepeats<T>(s: seq<T>) {
    forall i, j :: 0 <= i < j < |s| ==> s[i] != s[j]
  }

  lemma Reassociate<T>(a: seq<T>, b: seq<T>, c: seq<T>)
    ensures a + (b + c) == a + b + c
  {
  }

  lemma AnyOf<T(!new)>(s: set<T>) returns (x: T)
    requires s != {}
    ensures x in s
  {
    x :| x in s;
  }

  lemma AnyIn<T(!new)>(m: multiset<T>) returns (x: T)
    requires m != multiset{}
    ensures x in m
  {
    x :| x in m;
  }

  lemma PositionOf<T>(s: seq<T>, x: T) returns (i: nat)
    requires x in multiset(s)
    ensures i < |s| && s[i] == x
  {
    i :| 0 <= i < |s| && s[i] == x;
  }
}

/** Facts about products and quotients of integers, named so that proofs can ask for one at a time. */
module Products {
  lemma ProductIsNonNegative(x: int, y: int)
    ensures x >= 0 && y >= 0 ==> x * y >= 0
    ensures x == 0 || y == 0 ==> x * y == 0
  {
  }

  lemma ProductIsMonotone(x: int, y: int, z: int)
    requires x <= y && z >= 0
    ensures x * z <= y * z
  {
  }

  lemma ProductSpreads(x: int, y: int, z: int)
    ensures x * (y + z) == x * y + z * x
  {
  }

  lemma FloorBelow(n: int, d: int, t: int)
    requires d > 0
    ensures n / d < t <==> n < t * d
  {
    var q := n / d;
    assert q * d <= n < q * d + d;
    if q < t {
      ProductIsMonotone(q + 1, t, d);
      assert (q + 1) * d == q * d + d;
    } else {
      ProductIsMonotone(t, q, d);
    }
  }

  lemma FloorTimesDivisor(a: int, d: int)
    requires d > 0
    ensures a - d < a / d * d <= a
    ensures a >= 0 ==> a / d >= 0
  {
  }
}

/** Sums over the values of a finite map, the shape in which every bookkeeping claim about
    "all users", "all positions" or "all deals" is stated. */
module MapSums {
  import opened Host

  ghost function Sum<K(!new)>(m: map<K, int>): int
    decreases |m|
  {
    if m == map[] then 0 else
      var k :| k in m;
      m[k] + Sum(m - {k})
  }

  lemma {:induction false} SumTakesOut<K(!new)>(m: map<K, int>, k: K)
    requires k in m
    ensures Sum(m) == m[k] + Sum(m - {k})
    decreases |m|
  {
    var first :| first in m && Sum(m) == m[first] + Sum(m - {first});
    if first != k {
      SumTakesOut(m - {first}, k);
      SumTakesOut(m - {k}, first);
      assert m - {first} - {k} == m - {k} - {first};
    }
  }

  lemma {:induction false} SumOfUpdate<K(!new)>(m: map<K, int>, k: K, v: int)
    ensures Sum(m[k := v]) == Sum(m) - Get(m, k) + v
  {
    SumTakesOut(m[k := v], k);
    assert m[k := v] - {k} == m - {k};
    if k in m {
      SumTakesOut(m, k);
    } else {
      assert m - {k} == m;
    }
  }

  lemma {:induction false} SumOfRemoval<K(!new)>(m: map<K, int>, k: K)
    ensures Sum(m - {k}) == Sum(m) - Get(m, k)
  {
    if k in m {
      SumTakesOut(m, k);
    } else {
      assert m - {k} == m;
    }
  }

  lemma SplitFirst(c: int, m: int, w: int, restM: int, restW: int)
    ensures m + c * w + (restM + c * restW) == m + restM + c * (w + restW)
  {
  }

  /** Raising every entry of `m` by `c` times the entry of `w` raises the sum by c times the sum of `w`. */
  lemma {:induction false} SumIsLinear<K(!new)>(m: map<K, int>, w: map<K, int>, raised: map<K, int>, c: int)
    requires m.Keys == w.Keys == raised.Keys
    requires forall k :: k in m ==> raised[k] == m[k] + c * w[k]
    ensures Sum(raised) == Sum(m) + c * Sum(w)
    decreases |m|
  {
    if m != map[] {
      var k :| k in m;
      SumTakesOut(m, k);
      SumTakesOut(w, k);
      SumTakesOut(raised, k);
      SumIsLinear(m - {k}, w - {k}, raised - {k}, c);
      SplitFirst(c, m[k], w[k], Sum(m - {k}), Sum(w - {k}));
    } else {
      assert w == map[] && raised == map[];
    }
  }

  lemma {:induction false} SumOfZeros<K(!new)>(m: map<K, int>)
    requires forall k :: k in m ==> m[k] == 0
    ensures Sum(m) == 0
    decreases |m|
  {
    if m != map[] {
      var k :| k in m;
      SumTakesOut(m, k);
      SumOfZeros(m - {k});
    }
  }

  /** The part of a non-negative map that falls on `keys` sums to no more than the whole. */
  lemma {:induction false} PartialSumIsSmaller<K(!new)>(m: map<K, int>, keys: set<K>)
    requires forall k :: k in m ==> m[k] >= 0
    ensures 0 <= Sum(map k | k in m && k in keys :: m[k]) <= Sum(m)
    decreases |m|
  {
    var part := map k | k in m && k in keys :: m[k];
    if m != map[] {
      var k :| k in m;
      SumTakesOut(m, k);
      PartialSumIsSmaller(m - {k}, keys);
      var rest := map j | j in m - {k} && j in keys :: (m - {k})[j];
      if k in keys {
        SumTakesOut(part, k);
        assert part - {k} == rest;
      } else {
        assert part == rest;
      }
    } else {
      assert part == map[];
    }
  }

  /** Entry by entry, a smaller map has a smaller sum. */
  lemma {:induction false} SumIsMonotone<K(!new)>(m: map<K, int>, larger: map<K, int>)
    requires m.Keys == larger.Keys
    requires forall k :: k in m ==> m[k] <= larger[k]
    ensures Sum(m) <= Sum(larger)
    decreases |m|
  {
    if m != map[] {
      var k :| k in m;
      SumTakesOut(m, k);
      SumTakesOut(larger, k);
      SumIsMonotone(m - {k}, larger - {k});
    } else {
      assert larger == map[];
    }
  }

  lemma EntryIsWithinSum<K(!new)>(m: map<K, int>, k: K)
    requires forall j :: j in m ==> m[j] >= 0
    ensures 0 <= Get(m, k) <= Sum(m)
  {
    PartialSumIsSmaller(m, {k});
    if k in m {
      SumTakesOut(m, k);
      PartialSumIsSmaller(m - {k}, m.Keys - {k});
    }
  }
}
