/** oracle_price_feeds: the median outvotes a faulty minority, prices and staleness agree, and reports
    cannot be replayed. */
module OracleProofs {
  import opened Host
  import opened Members
  import opened OraclePriceFeeds

  // ---- the sorted copy ----

  ghost predicate Sorted(s: seq<int>) {
    forall i, j :: 0 <= i < j < |s| ==> s[i] <= s[j]
  }

  /** What the selection sort outputs is a sorted permutation of its input, i128::MAX or not. */
  lemma {:induction false} AscendingIsSortedPermutation(m: multiset<int>)
    ensures multiset(Ascending(m)) == m && Sorted(Ascending(m))
    decreases |m|
  {
    if m != multiset{} {
      var least := Least(m);
      var tail := Ascending(m - multiset{least});
      AscendingIsSortedPermutation(m - multiset{least});
      AscendingStep(m);
      HeadAndTail(m, least, tail);
    }
  }

  lemma HeadAndTail(m: multiset<int>, least: int, tail: seq<int>)
    requires least in m && (forall y :: y in m ==> least <= y)
    requires multiset(tail) == m - multiset{least} && Sorted(tail)
    ensures multiset([least] + tail) == m && Sorted([least] + tail)
  {
    forall i | 0 <= i < |tail| ensures least <= tail[i] {
      assert tail[i] in multiset(tail);
    }
  }

  // ---- counting ----

  ghost function Count(s: seq<int>, p: int -> bool): nat {
    if s == [] then 0 else Count(s[..|s| - 1], p) + if p(s[|s| - 1]) then 1 else 0
  }

  lemma {:induction false} CountConcat(a: seq<int>, b: seq<int>, p: int -> bool)
    ensures Count(a + b, p) == Count(a, p) + Count(b, p)
    decreases |b|
  {
    if b == [] {
      assert a + b == a;
    } else {
      CountConcat(a, b[..|b| - 1], p);
      assert (a + b)[..|a + b| - 1] == a + b[..|b| - 1];
    }
  }

  lemma CountOne(x: int, p: int -> bool)
    ensures Count([x], p) == if p(x) then 1 else 0
  {
    assert [x][..0] == [];
  }

  lemma TakeOut(a: multiset<int>, b: multiset<int>, x: int)
    requires a + multiset{x} == b + multiset{x}
    ensures a == b
  {
    assert a == a + multiset{x} - multiset{x} && b == b + multiset{x} - multiset{x};
  }

  lemma {:induction false} CountOfPermutation(a: seq<int>, b: seq<int>, p: int -> bool)
    requires multiset(a) == multiset(b)
    ensures Count(a, p) == Count(b, p)
    decreases |a|
  {
    if a != [] {
      var x := a[|a| - 1];
      assert x in multiset(a);
      var i := PositionOf(b, x);
      assert a == a[..|a| - 1] + [x] && b == b[..i] + [x] + b[i + 1..];
      TakeOut(multiset(a[..|a| - 1]), multiset(b[..i] + b[i + 1..]), x);
      CountOfPermutation(a[..|a| - 1], b[..i] + b[i + 1..], p);
      CountConcat(b[..i] + [x], b[i + 1..], p);
      CountConcat(b[..i], [x], p);
      CountConcat(b[..i], b[i + 1..], p);
      CountOne(x, p);
    } else {
      assert |multiset(b)| == 0 && b == [];
    }
  }

  lemma {:induction false} CountAll(s: seq<int>, p: int -> bool)
    requires forall i :: 0 <= i < |s| ==> p(s[i])
    ensures Count(s, p) == |s|
  {
    if s != [] {
      CountAll(s[..|s| - 1], p);
    }
  }

  /** At most the positions outside `clear` can satisfy p. */
  lemma {:induction false} CountOutside(s: seq<int>, clear: set<int>, p: int -> bool)
    requires forall i :: i in clear ==> 0 <= i < |s| && !p(s[i])
    ensures Count(s, p) + |clear| <= |s|
  {
    if s != [] {
      var n := |s| - 1;
      CountOutside(s[..n], clear - {n}, p);
      assert n !in clear ==> clear - {n} == clear;
    } else if clear != {} {
      var i := AnyOf(clear);
      assert false;
    }
  }

  // ---- robustness ----

  lemma PrefixCounts(s: seq<int>, k: nat, p: int -> bool)
    requires k < |s| && forall i :: 0 <= i <= k ==> p(s[i])
    ensures Count(s, p) >= k + 1
  {
    CountAll(s[..k + 1], p);
    CountConcat(s[..k + 1], s[k + 1..], p);
    assert s[..k + 1] + s[k + 1..] == s;
  }

  lemma SuffixCounts(s: seq<int>, k: nat, p: int -> bool)
    requires k < |s| && forall i :: k <= i < |s| ==> p(s[i])
    ensures Count(s, p) >= |s| - k
  {
    CountAll(s[k..], p);
    CountConcat(s[..k], s[k..], p);
    assert s[..k] + s[k..] == s;
  }

  ghost predicate MostWithin(values: seq<int>, honest: set<int>, lo: int, hi: int) {
    && (forall i :: i in honest ==> 0 <= i < |values| && lo <= values[i] <= hi)
    && 2 * |honest| > |values|
  }

  lemma SameLength(a: seq<int>, b: seq<int>)
    requires multiset(a) == multiset(b)
    ensures |a| == |b|
  {
    assert |multiset(a)| == |a| && |multiset(b)| == |b|;
  }

  lemma NotBelow(values: seq<int>, s: seq<int>, honest: set<int>, lo: int, hi: int, k: nat)
    requires MostWithin(values, honest, lo, hi) && multiset(values) == multiset(s) && Sorted(s)
    requires k < |s| && |values| - 2 <= 2 * k
    ensures lo <= s[k]
  {
    SameLength(values, s);
    if s[k] < lo {
      var below := x => x < lo;
      CountOutside(values, honest, below);
      CountOfPermutation(values, s, below);
      PrefixCounts(s, k, below);
    }
  }

  lemma NotAbove(values: seq<int>, s: seq<int>, honest: set<int>, lo: int, hi: int, k: nat)
    requires MostWithin(values, honest, lo, hi) && multiset(values) == multiset(s) && Sorted(s)
    requires k < |s| && 2 * k <= |values|
    ensures s[k] <= hi
  {
    SameLength(values, s);
    if s[k] > hi {
      var above := x => x > hi;
      CountOutside(values, honest, above);
      CountOfPermutation(values, s, above);
      SuffixCounts(s, k, above);
    }
  }

  /** If more than half of the values are within [lo, hi], so are the middle ones of the sorted copy. */
  lemma MiddleIsWithin(values: seq<int>, honest: set<int>, lo: int, hi: int, k: nat)
    requires MostWithin(values, honest, lo, hi)
    requires |values| - 2 <= 2 * k <= |values| && k < |values|
    ensures lo <= Ascending(multiset(values))[k] <= hi
  {
    var s := Ascending(multiset(values));
    AscendingIsSortedPermutation(multiset(values));
    NotBelow(values, s, honest, lo, hi, k);
    NotAbove(values, s, honest, lo, hi, k);
  }

  /** A faulty minority cannot move the median out of the range of the rest; and if twice that range fits
      128 bits it cannot make the median panic either. */
  lemma HonestMajorityBoundsMedian(values: seq<int>, honest: set<int>, lo: int, hi: int)
    requires MostWithin(values, honest, lo, hi)
    ensures MedianOf(values).Some? ==> lo <= MedianOf(values).value <= hi
    ensures FitsI128(2 * lo) && FitsI128(2 * hi) ==> MedianOf(values).Some?
  {
    var first := AnyOf(honest);
    var mid := |values| / 2;
    MiddleIsWithin(values, honest, lo, hi, mid);
    if |values| % 2 == 0 {
      MiddleIsWithin(values, honest, lo, hi, mid - 1);
    }
    MiddleBoundsMedian(values, lo, hi);
  }

  lemma MiddleBoundsMedian(values: seq<int>, lo: int, hi: int)
    requires values != []
    requires var mid, sorted := |values| / 2, Ascending(multiset(values));
      lo <= sorted[mid] <= hi && (|values| % 2 == 0 ==> lo <= sorted[mid - 1] <= hi)
    ensures MedianOf(values).Some? ==> lo <= MedianOf(values).value <= hi
    ensures FitsI128(2 * lo) && FitsI128(2 * hi) ==> MedianOf(values).Some?
  {
    var mid, sorted := |values| / 2, Ascending(multiset(values));
    if |values| % 2 == 0 {
      MeanIsBetween(sorted[mid - 1], sorted[mid], lo, hi);
    }
  }

  lemma MeanIsBetween(a: int, b: int, lo: int, hi: int)
    requires lo <= a <= hi && lo <= b <= hi
    ensures lo <= TruncDiv(a + b, 2) <= hi
    ensures FitsI128(2 * lo) && FitsI128(2 * hi) ==> FitsI128(a + b)
  {
  }

  // ---- sources ----

  /** The source's stored report is no older than the staleness limit. */
  ghost predicate ReportedSince(f: Feeds, pair: string, source: Address, now: int) {
    (pair, source) in f.data && now - f.data[(pair, source)].timestamp <= f.staleness && 0 <= f.staleness
  }

  ghost function FreshSources(f: Feeds, pair: string, srcs: seq<Address>, now: int): seq<Address> {
    if srcs == [] then [] else
      var last := srcs[|srcs| - 1];
      FreshSources(f, pair, srcs[..|srcs| - 1], now) + if ReportedSince(f, pair, last, now) then [last] else []
  }

  lemma {:induction false} FreshPricesMatchSources(f: Feeds, pair: string, srcs: seq<Address>, now: int)
    ensures var live, prices := FreshSources(f, pair, srcs, now), f.FreshPrices(pair, srcs, now);
      && |live| == |prices|
      && (forall i :: 0 <= i < |live| ==>
            ReportedSince(f, pair, live[i], now) && live[i] in srcs && prices[i] == f.data[(pair, live[i])].price)
  {
    if srcs != [] {
      FreshPricesMatchSources(f, pair, srcs[..|srcs| - 1], now);
    }
  }

  lemma {:induction false} FreshSourcesDiffer(f: Feeds, pair: string, srcs: seq<Address>, now: int)
    requires NoRepeats(srcs)
    ensures NoRepeats(FreshSources(f, pair, srcs, now))
  {
    if srcs != [] {
      FreshSourcesDiffer(f, pair, srcs[..|srcs| - 1], now);
      FreshPricesMatchSources(f, pair, srcs[..|srcs| - 1], now);
    }
  }

  /** More than half of the fresh sources reporting within [lo, hi] keeps the price within it. */
  lemma HonestSourcesBoundPrice(f: Feeds, pair: string, now: int, honest: set<int>, lo: int, hi: int)
    requires f.SourcesOf(pair) != [] && f.GetPrice(pair, now).Ok?
    requires var live := FreshSources(f, pair, f.SourcesOf(pair), now);
      && (forall i :: i in honest ==>
            && 0 <= i < |live| && (pair, live[i]) in f.data
            && lo <= f.data[(pair, live[i])].price <= hi)
      && 2 * |honest| > |live|
    ensures lo <= f.GetPrice(pair, now).value.price <= hi
  {
    FreshPricesMatchSources(f, pair, f.SourcesOf(pair), now);
    HonestMajorityBoundsMedian(f.FreshPrices(pair, f.SourcesOf(pair), now), honest, lo, hi);
  }

  // ---- runs ----

  datatype Birth = Birth(admin: Address, operator: Address, staleness: nat, deviation: nat)

  ghost function Resume(f: Feeds, calls: seq<Call>): Feeds {
    if calls == [] then f else
      var before := Resume(f, calls[..|calls| - 1]);
      After(before, Execute(before, calls[|calls| - 1]))
  }

  ghost function Run(birth: Birth, calls: seq<Call>): Feeds {
    Resume(Initial(birth.admin, birth.operator, birth.staleness, birth.deviation), calls)
  }

  // ---- prices and staleness ----

  /** The two values whose mean is the median of an even number of values do not overflow together. */
  ghost predicate MiddleFits(values: seq<int>) {
    var mid := |values| / 2;
    values != [] && |values| % 2 == 0 ==>
      FitsI128(Ascending(multiset(values))[mid - 1] + Ascending(multiset(values))[mid])
  }

  /** A feed answers with a price exactly when it is not stale, some source reported recently, and the two
      middle reports, if their number is even, do not overflow together. A feed without registered sources
      answers exactly when it is not stale. */
  lemma PriceIffNotStale(f: Feeds, pair: string, now: int)
    ensures var recent := f.FreshPrices(pair, f.SourcesOf(pair), now);
      f.GetPrice(pair, now).Ok? <==>
        !f.IsStale(pair, now) && (f.SourcesOf(pair) != [] ==> recent != [] && MiddleFits(recent))
    ensures f.SourcesOf(pair) != [] ==> (f.GetPrice(pair, now) == Err(NoQuorum) <==> f.IsStale(pair, now))
  {
  }

  /** Twice each value fits 128 bits. */
  ghost predicate Moderate(values: seq<int>) {
    forall i :: 0 <= i < |values| ==> FitsI128(2 * values[i])
  }

  lemma ModerateMiddleFits(values: seq<int>)
    requires Moderate(values)
    ensures MiddleFits(values)
  {
    var mid := |values| / 2;
    if values != [] && |values| % 2 == 0 {
      AscendingPermutes(values);
      ModerateStays(values, Ascending(multiset(values)), mid - 1);
      ModerateStays(values, Ascending(multiset(values)), mid);
    }
  }

  lemma AscendingPermutes(values: seq<int>)
    ensures |Ascending(multiset(values))| == |values| && multiset(Ascending(multiset(values))) == multiset(values)
  {
    AscendingIsSortedPermutation(multiset(values));
  }

  lemma ModerateStays(values: seq<int>, sorted: seq<int>, k: nat)
    requires Moderate(values) && multiset(sorted) == multiset(values) && k < |sorted|
    ensures FitsI128(2 * sorted[k])
  {
    assert sorted[k] in multiset(sorted);
    var i := PositionOf(values, sorted[k]);
  }

  /** As long as twice each recent report fits 128 bits, a feed with a positive quorum answers exactly when it is
      not stale; with a quorum of zero somebody must also have reported recently. */
  lemma ModeratePricesAnswer(f: Feeds, pair: string, now: int)
    requires f.SourcesOf(pair) != [] && Moderate(f.FreshPrices(pair, f.SourcesOf(pair), now))
    ensures f.GetPrice(pair, now).Ok? <==>
      !f.IsStale(pair, now) && (f.QuorumOf(pair) > 0 || f.FreshPrices(pair, f.SourcesOf(pair), now) != [])
  {
    ModerateMiddleFits(f.FreshPrices(pair, f.SourcesOf(pair), now));
    PriceIffNotStale(f, pair, now);
  }

  lemma RunAppend(birth: Birth, calls: seq<Call>, call: Call)
    ensures var f := Run(birth, calls);
      Run(birth, calls + [call]) == After(f, Execute(f, call))
  {
    assert (calls + [call])[..|calls|] == calls;
  }

  /** A feed with one source and a quorum of zero, to which nobody has reported, is not stale and has no price. */
  lemma ZeroQuorumHasNoPrice(admin: Address, source: Address, pair: string, now: int)
    ensures var f := Run(Birth(admin, admin, 0, 0), [AddSource(admin, pair, source), SetQuorum(admin, pair, 0)]);
      !f.IsStale(pair, now) && f.GetPrice(pair, now) == Err(Panic)
  {
    var birth := Birth(admin, admin, 0, 0);
    RunAppend(birth, [], AddSource(admin, pair, source));
    RunAppend(birth, [AddSource(admin, pair, source)], SetQuorum(admin, pair, 0));
    assert [] + [AddSource(admin, pair, source)] == [AddSource(admin, pair, source)];
    assert [AddSource(admin, pair, source)] + [SetQuorum(admin, pair, 0)] ==
        [AddSource(admin, pair, source), SetQuorum(admin, pair, 0)];
    var f := Run(birth, [AddSource(admin, pair, source), SetQuorum(admin, pair, 0)]);
    assert f.SourcesOf(pair) == [source] && [source][..0] == [];
    assert f.FreshPrices(pair, [source], now) == f.FreshPrices(pair, [], now) == [];
  }

  /** Two sources that both report i128::MAX leave a feed that is not stale and has no price. */
  lemma MiddleOverflowHasNoPrice(admin: Address, a: Address, b: Address, pair: string)
    requires a != b
    ensures var f := Run(Birth(admin, admin, 0, 0),
                         [AddSource(admin, pair, a)] + [AddSource(admin, pair, b)] +
                         [UpdatePrice(a, pair, I128_MAX, 1, 0)] + [UpdatePrice(b, pair, I128_MAX, 1, 0)]);
      !f.IsStale(pair, 0) && f.GetPrice(pair, 0) == Err(Panic)
  {
    var birth, c0, c1 := Birth(admin, admin, 0, 0), AddSource(admin, pair, a), AddSource(admin, pair, b);
    var c2, c3 := UpdatePrice(a, pair, I128_MAX, 1, 0), UpdatePrice(b, pair, I128_MAX, 1, 0);
    RunAppend(birth, [], c0);
    assert [] + [c0] == [c0];
    RunAppend(birth, [c0], c1);
    RunAppend(birth, [c0] + [c1], c2);
    RunAppend(birth, [c0] + [c1] + [c2], c3);
    BothReport(Run(birth, [c0] + [c1]), pair, a, b, I128_MAX);
    TopOverflows();
    PriceIffNotStale(Run(birth, [c0] + [c1] + [c2] + [c3]), pair, 0);
  }

  lemma BothReport(f: Feeds, pair: string, a: Address, b: Address, price: int)
    requires f.SourcesOf(pair) == [a, b] && a != b && f.data == map[] && f.staleness >= 0
    ensures var g := After(f, Execute(f, UpdatePrice(a, pair, price, 1, 0)));
      var h := After(g, Execute(g, UpdatePrice(b, pair, price, 1, 0)));
      && h.SourcesOf(pair) == [a, b] && h.quorums == f.quorums
      && h.FreshPrices(pair, [a, b], 0) == [price, price]
  {
    var g := After(f, Execute(f, UpdatePrice(a, pair, price, 1, 0)));
    assert g == f.(data := map[(pair, a) := SourceData(price, 0, 1)]);
    var h := After(g, Execute(g, UpdatePrice(b, pair, price, 1, 0)));
    assert h == g.(data := g.data[(pair, b) := SourceData(price, 0, 1)]);
    TwoReports(h, pair, a, b);
  }

  lemma TwoReports(f: Feeds, pair: string, a: Address, b: Address)
    requires f.IsFresh(pair, a, 0) && f.IsFresh(pair, b, 0)
    ensures f.FreshPrices(pair, [a, b], 0) == [f.data[(pair, a)].price, f.data[(pair, b)].price]
  {
    assert [a, b][..1] == [a] && [a][..0] == [];
    assert f.FreshPrices(pair, [a][..0], 0) == [];
    assert f.FreshPrices(pair, [a], 0) == [f.data[(pair, a)].price];
  }

  lemma TopOverflows()
    ensures !MiddleFits([I128_MAX, I128_MAX])
  {
    var values := [I128_MAX, I128_MAX];
    var sorted := Ascending(multiset(values));
    AscendingIsSortedPermutation(multiset(values));
    forall k | 0 <= k < 2 ensures sorted[k] == I128_MAX {
      assert sorted[k] in multiset(sorted);
    }
  }

  // ---- registered sources ----

  lemma {:induction false} WithoutKeepsDistinct(srcs: seq<Address>, source: Address)
    requires NoRepeats(srcs)
    ensures NoRepeats(Without(srcs, source))
    ensures forall x :: x in Without(srcs, source) <==> x in srcs && x != source
  {
    if srcs != [] {
      var front, last := srcs[..|srcs| - 1], srcs[|srcs| - 1];
      WithoutKeepsDistinct(front, source);
      assert srcs == front + [last];
      assert last !in front;
      assert last !in Without(front, source);
    }
  }

  /** Over any run no source is registered twice for a feed, so none has two votes in its median, and a
      quorum of q means q different sources. */
  lemma {:induction false} EachSourceVotesOnce(birth: Birth, calls: seq<Call>, pair: string, now: int)
    ensures var f := Run(birth, calls);
      && NoRepeats(f.SourcesOf(pair))
      && NoRepeats(FreshSources(f, pair, f.SourcesOf(pair), now))
      && |FreshSources(f, pair, f.SourcesOf(pair), now)| == |f.FreshPrices(pair, f.SourcesOf(pair), now)|
  {
    if calls != [] {
      var front, call := calls[..|calls| - 1], calls[|calls| - 1];
      EachSourceVotesOnce(birth, front, pair, now);
      if call.RemoveSource? && call.pair == pair {
        WithoutKeepsDistinct(Run(birth, front).SourcesOf(pair), call.source);
      }
    }
    var f := Run(birth, calls);
    FreshSourcesDiffer(f, pair, f.SourcesOf(pair), now);
    FreshPricesMatchSources(f, pair, f.SourcesOf(pair), now);
  }

  lemma StepRaisesSequence(f: Feeds, call: Call, pair: string, source: Address)
    ensures var g := After(f, Execute(f, call));
      && f.SequenceOf(pair, source) <= g.SequenceOf(pair, source)
      && (call.UpdatePrice? && call.pair == pair && call.caller == source && Execute(f, call).Ok? ==>
            f.SequenceOf(pair, source) < g.SequenceOf(pair, source) == call.sequence)
  {
  }

  lemma {:induction false} SequenceNeverFalls(f: Feeds, calls: seq<Call>, pair: string, source: Address)
    ensures f.SequenceOf(pair, source) <= Resume(f, calls).SequenceOf(pair, source)
  {
    if calls != [] {
      var front := calls[..|calls| - 1];
      SequenceNeverFalls(f, front, pair, source);
      StepRaisesSequence(Resume(f, front), calls[|calls| - 1], pair, source);
    }
  }

  /** Once a report is accepted, no report of that source for that feed with the same or a lower sequence is
      ever accepted again, whatever happens between, even if the source is removed and added back. */
  lemma ReportsCannotBeReplayed(f: Feeds, report: Call, calls: seq<Call>, replay: Call)
    requires report.UpdatePrice? && replay.UpdatePrice? && Execute(f, report).Ok?
    requires replay.pair == report.pair && replay.caller == report.caller && replay.sequence <= report.sequence
    ensures Execute(Resume(After(f, Execute(f, report)), calls), replay).Err?
  {
    StepRaisesSequence(f, report, report.pair, report.caller);
    SequenceNeverFalls(After(f, Execute(f, report)), calls, report.pair, report.caller);
  }

  /** An accepted report is less than one basis point beyond the allowed deviation from the source's last. */
  lemma ReportsDeviateLittle(f: Feeds, call: Call)
    requires call.UpdatePrice? && Execute(f, call).Ok?
    requires f.Previous(call.pair, call.caller).Some? && f.Previous(call.pair, call.caller).value != 0
    ensures var previous := f.Previous(call.pair, call.caller).value;
      Abs(call.price - previous) * 10000 < (f.maxDeviation + 1) * Abs(previous)
  {
    var previous := f.Previous(call.pair, call.caller).value;
    QuotientBound(Abs(call.price - previous) * 10000, Abs(previous), f.maxDeviation);
  }

  lemma QuotientBound(n: int, d: int, q: int)
    requires n >= 0 && d > 0 && n / d <= q
    ensures n < (q + 1) * d
  {
    var k := n / d;
    assert n < k * d + d;
    if k < q {
      assert (q - k) * d >= 0;
    }
    assert (q + 1) * d == k * d + (q - k) * d + d;
  }
}
