/** oracle_price_feeds: the median is the middle, and what every accepted call leaves, read off the calls of a run. */
module OracleEffects {
  import opened Host
  import opened Products
  import opened OraclePriceFeeds
  import opened OracleProofs

  ghost predicate Accepted(f: Feeds, call: Call) {
    Execute(f, call).Ok?
  }

  // ---- the median ----

  ghost predicate Positions(values: seq<int>, s: set<int>) {
    forall i :: i in s ==> 0 <= i < |values|
  }

  /** Positions `low` and `high` part all others from those of the middle: none of `low` holds more, and none of `high`
      less. */
  ghost predicate Parts(values: seq<int>, low: set<int>, high: set<int>, most: int, least: int) {
    && Positions(values, low) && Positions(values, high)
    && (forall i :: i in low ==> values[i] <= most) && (forall i :: i in high ==> least <= values[i])
  }

  /** If more than k positions hold at most x, so does entry k of the sorted copy. */
  lemma SortedAtMost(values: seq<int>, low: set<int>, x: int, k: nat)
    requires Positions(values, low) && (forall i :: i in low ==> values[i] <= x)
    requires k < |values| && |low| > k
    ensures Ascending(multiset(values))[k] <= x
  {
    var s := Ascending(multiset(values));
    AscendingIsSortedPermutation(multiset(values));
    EntryAtMost(values, s, low, x, k);
  }

  lemma EntryAtMost(values: seq<int>, s: seq<int>, low: set<int>, x: int, k: nat)
    requires Positions(values, low) && (forall i :: i in low ==> values[i] <= x)
    requires k < |s| && |low| > k && multiset(values) == multiset(s) && Sorted(s)
    ensures s[k] <= x
  {
    var above := y => y > x;
    SameLength(values, s);
    CountOutside(values, low, above);
    CountOfPermutation(values, s, above);
    if s[k] > x {
      SuffixCounts(s, k, above);
    }
  }

  /** If all but k positions hold at least x, so does entry k of the sorted copy. */
  lemma SortedAtLeast(values: seq<int>, high: set<int>, x: int, k: nat)
    requires Positions(values, high) && (forall i :: i in high ==> x <= values[i])
    requires k < |values| && |high| >= |values| - k
    ensures x <= Ascending(multiset(values))[k]
  {
    var s := Ascending(multiset(values));
    AscendingIsSortedPermutation(multiset(values));
    EntryAtLeast(values, s, high, x, k);
  }

  lemma EntryAtLeast(values: seq<int>, s: seq<int>, high: set<int>, x: int, k: nat)
    requires Positions(values, high) && (forall i :: i in high ==> x <= values[i])
    requires k < |s| && |high| >= |values| - k && multiset(values) == multiset(s) && Sorted(s)
    ensures x <= s[k]
  {
    var below := y => y < x;
    SameLength(values, s);
    CountOutside(values, high, below);
    CountOfPermutation(values, s, below);
    if s[k] < x {
      PrefixCounts(s, k, below);
    }
  }

  /** An odd number of values: the answer is the one that half of the others do not exceed and half do not fall
      below. */
  lemma OddMedianIsMiddle(values: seq<int>, low: set<int>, high: set<int>, p: int)
    requires |values| % 2 == 1 && 0 <= p < |values| && p !in low && p !in high
    requires Parts(values, low, high, values[p], values[p])
    requires |low| == |high| == |values| / 2
    ensures MedianOf(values) == Some(values[p])
  {
    assert |low + {p}| == |low| + 1 && |high + {p}| == |high| + 1;
    SortedAtMost(values, low + {p}, values[p], |values| / 2);
    SortedAtLeast(values, high + {p}, values[p], |values| / 2);
  }

  /** An even number of values: the answer is the mean of the two middle ones, rounded toward zero. Half of the values
      do not exceed the one at p, which is among them; the other half do not fall below the one at q. */
  lemma EvenMedianIsMean(values: seq<int>, low: set<int>, high: set<int>, p: int, q: int)
    requires values != [] && |values| % 2 == 0 && 0 <= p < |values| && 0 <= q < |values|
    requires p in low && q in high && low !! high && |low| == |high| == |values| / 2
    requires values[p] <= values[q] && Parts(values, low, high, values[p], values[q])
    ensures var sum := values[p] + values[q];
      && (MedianOf(values).Some? <==> FitsI128(sum))
      && (MedianOf(values).Some? ==>
            var m := MedianOf(values).value;
            Abs(2 * m) <= Abs(sum) < Abs(2 * m) + 2 && (sum >= 0 ==> m >= 0) && (sum <= 0 ==> m <= 0))
  {
    MiddlePair(values, low, high, p, q);
    MeanRounds(values[p], values[q]);
  }

  lemma MiddlePair(values: seq<int>, low: set<int>, high: set<int>, p: int, q: int)
    requires values != [] && |values| % 2 == 0 && 0 <= p < |values| && 0 <= q < |values|
    requires p in low && q in high && low !! high && |low| == |high| == |values| / 2
    requires values[p] <= values[q] && Parts(values, low, high, values[p], values[q])
    ensures var sorted, mid := Ascending(multiset(values)), |values| / 2;
      sorted[mid - 1] == values[p] && sorted[mid] == values[q]
  {
    var mid := |values| / 2;
    assert |high + {p}| == |high| + 1 && |low + {q}| == |low| + 1;
    SortedAtMost(values, low, values[p], mid - 1);
    SortedAtLeast(values, high + {p}, values[p], mid - 1);
    SortedAtMost(values, low + {q}, values[q], mid);
    SortedAtLeast(values, high, values[q], mid);
  }

  lemma MeanRounds(a: int, b: int)
    ensures var m := TruncDiv(a + b, 2);
      Abs(2 * m) <= Abs(a + b) < Abs(2 * m) + 2 && (a + b >= 0 ==> m >= 0) && (a + b <= 0 ==> m <= 0)
  {
  }

  /** So it is for the price of a feed with sources: what it answers is the median of the fresh reports, at seven
      decimals and the present time. */
  lemma PriceIsMean(f: Feeds, pair: string, now: int, low: set<int>, high: set<int>, p: int, q: int)
    requires f.SourcesOf(pair) != []
    requires var values := f.FreshPrices(pair, f.SourcesOf(pair), now);
      && values != [] && |values| % 2 == 0 && 0 <= p < |values| && 0 <= q < |values|
      && p in low && q in high && low !! high && |low| == |high| == |values| / 2
      && values[p] <= values[q] && Parts(values, low, high, values[p], values[q])
    ensures var values := f.FreshPrices(pair, f.SourcesOf(pair), now);
      f.GetPrice(pair, now).Ok? ==>
        var sum, feed := values[p] + values[q], f.GetPrice(pair, now).value;
        && Abs(2 * feed.price) <= Abs(sum) < Abs(2 * feed.price) + 2
        && (sum >= 0 ==> feed.price >= 0) && (sum <= 0 ==> feed.price <= 0)
        && feed.pair == pair && feed.decimals == 7 && feed.updatedAt == now && feed.sequence == 0
  {
    EvenMedianIsMean(f.FreshPrices(pair, f.SourcesOf(pair), now), low, high, p, q);
  }

  lemma PriceIsMiddle(f: Feeds, pair: string, now: int, low: set<int>, high: set<int>, p: int)
    requires f.SourcesOf(pair) != []
    requires var values := f.FreshPrices(pair, f.SourcesOf(pair), now);
      && |values| % 2 == 1 && 0 <= p < |values| && p !in low && p !in high
      && Parts(values, low, high, values[p], values[p]) && |low| == |high| == |values| / 2
    ensures var values := f.FreshPrices(pair, f.SourcesOf(pair), now);
      f.GetPrice(pair, now).Ok? ==> f.GetPrice(pair, now).value == PriceFeed(pair, values[p], 7, now, 0)
  {
    OddMedianIsMiddle(f.FreshPrices(pair, f.SourcesOf(pair), now), low, high, p);
  }

  // ---- reports ----

  /** The last accepted report of a source for a feed. */
  ghost function LastReport(birth: Birth, calls: seq<Call>, pair: string, source: Address): Option<SourceData> {
    if calls == [] then None else
      var front, call := calls[..|calls| - 1], calls[|calls| - 1];
      if call.UpdatePrice? && call.pair == pair && call.caller == source && Accepted(Run(birth, front), call)
      then Some(SourceData(call.price, call.now, call.sequence))
      else LastReport(birth, front, pair, source)
  }

  /** What is stored for a source is its last accepted report. */
  lemma {:induction false} StoredIsLastReport(birth: Birth, calls: seq<Call>, pair: string, source: Address)
    ensures var data := Run(birth, calls).data;
      LastReport(birth, calls, pair, source) == if (pair, source) in data then Some(data[(pair, source)]) else None
  {
    if calls != [] {
      var front, call := calls[..|calls| - 1], calls[|calls| - 1];
      StoredIsLastReport(birth, front, pair, source);
      StepStores(Run(birth, front), call, pair, source);
    }
  }

  lemma StepStores(f: Feeds, call: Call, pair: string, source: Address)
    ensures var g := After(f, Execute(f, call));
      if call.UpdatePrice? && call.pair == pair && call.caller == source && Accepted(f, call)
      then (pair, source) in g.data && g.data[(pair, source)] == SourceData(call.price, call.now, call.sequence)
      else
        && ((pair, source) in g.data <==> (pair, source) in f.data)
        && ((pair, source) in f.data ==> g.data[(pair, source)] == f.data[(pair, source)])
  {
  }

  /** The last report accepted for a feed while it had no registered sources. */
  ghost function LastOpenReport(birth: Birth, calls: seq<Call>, pair: string): Option<PriceFeed> {
    if calls == [] then None else
      var front, call := calls[..|calls| - 1], calls[|calls| - 1];
      var f := Run(birth, front);
      if call.UpdatePrice? && call.pair == pair && f.SourcesOf(pair) == [] && Accepted(f, call)
      then Some(PriceFeed(pair, call.price, 7, call.now, call.sequence))
      else LastOpenReport(birth, front, pair)
  }

  lemma {:induction false} FeedIsLastOpenReport(birth: Birth, calls: seq<Call>, pair: string)
    ensures var f := Run(birth, calls);
      && LastOpenReport(birth, calls, pair) == (if pair in f.feeds then Some(f.feeds[pair]) else None)
      && Get(f.sequences, pair) == (if pair in f.feeds then f.feeds[pair].sequence else 0)
  {
    if calls != [] {
      var front, call := calls[..|calls| - 1], calls[|calls| - 1];
      FeedIsLastOpenReport(birth, front, pair);
      StepStoresFeed(Run(birth, front), call, pair);
    }
  }

  lemma StepStoresFeed(f: Feeds, call: Call, pair: string)
    ensures var g := After(f, Execute(f, call));
      if call.UpdatePrice? && call.pair == pair && f.SourcesOf(pair) == [] && Accepted(f, call)
      then
        && pair in g.feeds && g.feeds[pair] == PriceFeed(pair, call.price, 7, call.now, call.sequence)
        && Get(g.sequences, pair) == call.sequence
      else
        && (pair in g.feeds <==> pair in f.feeds) && (pair in f.feeds ==> g.feeds[pair] == f.feeds[pair])
        && Get(g.sequences, pair) == Get(f.sequences, pair)
  {
  }

  /** A feed without registered sources answers its last report exactly while that is no older than the limit. */
  lemma OpenFeedAnswersLastReport(birth: Birth, calls: seq<Call>, pair: string, now: nat)
    ensures var f, last := Run(birth, calls), LastOpenReport(birth, calls, pair);
      f.SourcesOf(pair) == [] ==>
        && (f.GetPrice(pair, now).Ok? <==>
              last.Some? && (now - last.value.updatedAt <= f.staleness || now <= last.value.updatedAt))
        && (f.GetPrice(pair, now).Ok? ==> f.GetPrice(pair, now).value == last.value)
  {
    FeedIsLastOpenReport(birth, calls, pair);
    StalenessIsNotNegative(birth, calls);
  }

  lemma {:induction false} StalenessIsNotNegative(birth: Birth, calls: seq<Call>)
    ensures Run(birth, calls).staleness >= 0
  {
    if calls != [] {
      StalenessIsNotNegative(birth, calls[..|calls| - 1]);
    }
  }

  /** A change of at most `limit` basis points, rounded down, that does not overflow. */
  ghost predicate SmallChange(before: int, after: int, limit: int) {
    before == 0 ||
    (10_000 * Abs(after - before) <= I128_MAX && before != I128_MIN
     && 10_000 * Abs(after - before) < (limit + 1) * Abs(before))
  }

  lemma SmallChangeIff(before: int, after: int, limit: int)
    ensures CheckDeviation(before, after, limit).Ok? && FitsI128(before) ==> SmallChange(before, after, limit)
    ensures SmallChange(before, after, limit) && FitsI128(before) ==> CheckDeviation(before, after, limit).Ok?
  {
    if before != 0 {
      FloorBelow(10_000 * Abs(after - before), Abs(before), limit + 1);
    }
  }

  /** A report is accepted exactly from a registered source, or from the admin or operator while there is none; with a
      sequence above the source's last, and then also above the feed's; and with a small enough change from the
      source's last price, or, without one and without sources, the feed's. */
  lemma UpdateSucceedsIff(f: Feeds, call: Call)
    requires call.UpdatePrice?
    requires var last := f.Previous(call.pair, call.caller); last.Some? ==> FitsI128(last.value)
    ensures var open, key := f.SourcesOf(call.pair) == [], (call.pair, call.caller);
      Accepted(f, call) <==>
        && (if open then call.caller == f.admin || call.caller == f.operator else call.caller in f.SourcesOf(call.pair))
        && (if key in f.data then f.data[key].sequence else 0) < call.sequence
        && (open ==> Get(f.sequences, call.pair) < call.sequence)
        && (key in f.data ==> SmallChange(f.data[key].price, call.price, f.maxDeviation))
        && (key !in f.data && open && call.pair in f.feeds ==>
              SmallChange(f.feeds[call.pair].price, call.price, f.maxDeviation))
  {
    var last := f.Previous(call.pair, call.caller);
    if last.Some? {
      SmallChangeIff(last.value, call.price, f.maxDeviation);
    }
  }

  // ---- registration and settings ----

  /** Whom the admin has added to a feed and not removed since. */
  ghost function Registered(birth: Birth, calls: seq<Call>, pair: string): set<Address> {
    if calls == [] then {} else
      var last := Registered(birth, calls[..|calls| - 1], pair);
      match calls[|calls| - 1]
      case AddSource(caller, feed, source) => if caller == birth.admin && feed == pair then last + {source} else last
      case RemoveSource(caller, feed, source) =>
        if caller == birth.admin && feed == pair then last - {source} else last
      case _ => last
  }

  lemma {:induction false} SourcesAreRegistered(birth: Birth, calls: seq<Call>, pair: string)
    ensures forall x :: x in Run(birth, calls).SourcesOf(pair) <==> x in Registered(birth, calls, pair)
  {
    if calls != [] {
      var front, call := calls[..|calls| - 1], calls[|calls| - 1];
      SourcesAreRegistered(birth, front, pair);
      SettingsAreTheAdmins(birth, front, pair);
      EachSourceVotesOnce(birth, front, pair, 0);
      if call.RemoveSource? && call.pair == pair {
        WithoutKeepsDistinct(Run(birth, front).SourcesOf(pair), call.source);
      }
    }
  }

  datatype Settings = Settings(staleness: int, deviation: int, quorum: int)

  ghost function NextSettings(last: Settings, admin: Address, call: Call, pair: string): Settings {
    match call
    case SetStaleness(caller, threshold) => if caller == admin then last.(staleness := threshold) else last
    case SetMaxDeviation(caller, bps) => if caller == admin then last.(deviation := bps) else last
    case SetQuorum(caller, feed, quorum) => if caller == admin && feed == pair then last.(quorum := quorum) else last
    case _ => last
  }

  /** Ten minutes and five percent unless set at birth, and a quorum of one, until the admin sets them. */
  ghost function SettingsOf(birth: Birth, calls: seq<Call>, pair: string): Settings {
    if calls == [] then
      Settings(if birth.staleness == 0 then 600 else birth.staleness,
               if birth.deviation == 0 then 500 else birth.deviation, 1)
    else NextSettings(SettingsOf(birth, calls[..|calls| - 1], pair), birth.admin, calls[|calls| - 1], pair)
  }

  ghost function SettingsIn(f: Feeds, pair: string): Settings {
    Settings(f.staleness, f.maxDeviation, f.QuorumOf(pair))
  }

  predicate IsSetter(call: Call) {
    call.SetStaleness? || call.SetMaxDeviation? || call.SetQuorum?
  }

  lemma SettersSet(f: Feeds, call: Call, pair: string)
    requires IsSetter(call)
    ensures var g := After(f, Execute(f, call));
      && g.admin == f.admin && g.operator == f.operator
      && SettingsIn(g, pair) == NextSettings(SettingsIn(f, pair), f.admin, call, pair)
  {
  }

  lemma OthersKeepSettings(f: Feeds, call: Call, pair: string)
    requires !IsSetter(call)
    ensures var g := After(f, Execute(f, call));
      g.admin == f.admin && g.operator == f.operator && SettingsIn(g, pair) == SettingsIn(f, pair)
  {
  }

  lemma {:induction false} SettingsAreTheAdmins(birth: Birth, calls: seq<Call>, pair: string)
    ensures var f := Run(birth, calls);
      f.admin == birth.admin && f.operator == birth.operator && SettingsIn(f, pair) == SettingsOf(birth, calls, pair)
  {
    if calls != [] {
      SettingsAreTheAdmins(birth, calls[..|calls| - 1], pair);
      var f, call := Run(birth, calls[..|calls| - 1]), calls[|calls| - 1];
      if IsSetter(call) {
        SettersSet(f, call, pair);
      } else {
        OthersKeepSettings(f, call, pair);
      }
    }
  }
}
