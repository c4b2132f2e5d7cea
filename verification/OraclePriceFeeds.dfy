/** oracle_price_feeds: prices reported by sources, and their median. */
module OraclePriceFeeds {
  import opened Host
  import opened Members

  datatype Error =
    | NotAuthorized | InvalidSequence | PriceTooStale | UnknownPair | PriceDeviationTooLarge | NoQuorum
    | UnknownSource | Panic

  datatype PriceFeed = PriceFeed(pair: string, price: int, decimals: int, updatedAt: int, sequence: int)

  datatype SourceData = SourceData(price: int, timestamp: int, sequence: int)

  // ---- the median ----

  lemma {:induction false} FindLeast(m: multiset<int>) returns (least: int)
    requires m != multiset{}
    ensures least in m && forall y :: y in m ==> least <= y
    decreases |m|
  {
    var x := AnyIn(m);
    var rest := m - multiset{x};
    least := x;
    if rest != multiset{} {
      var z := FindLeast(rest);
      if z < x {
        least := z;
      }
    }
    forall y | y in m ensures least <= y {
      if y != x {
        assert y in rest;
      }
    }
  }

  ghost function Least(m: multiset<int>): (x: int)
    requires m != multiset{}
    ensures x in m && forall y :: y in m ==> x <= y
  {
    assert exists x :: x in m && forall y :: y in m ==> x <= y by {
      var least := FindLeast(m);
    }
    var x :| x in m && forall y :: y in m ==> x <= y;
    x
  }

  /** The elements in ascending order. */
  ghost function Ascending(m: multiset<int>): (s: seq<int>)
    ensures |s| == |m|
    decreases |m|
  {
    if m == multiset{} then [] else [Least(m)] + Ascending(m - multiset{Least(m)})
  }

  lemma AscendingStep(m: multiset<int>)
    requires m != multiset{}
    ensures Ascending(m) == [Least(m)] + Ascending(m - multiset{Least(m)})
    ensures |m - multiset{Least(m)}| == |m| - 1
  {
  }

  /** The median of a list: None where the source panics, on an empty list or when the sum of the two
      middle values overflows. */
  ghost function MedianOf(values: seq<int>): Option<int> {
    var sorted, mid := Ascending(multiset(values)), |values| / 2;
    if values == [] then None
    else if |values| % 2 == 1 then Some(sorted[mid])
    else if !FitsI128(sorted[mid - 1] + sorted[mid]) then None
    else Some(TruncDiv(sorted[mid - 1] + sorted[mid], 2))
  }

  predicate AllFit(values: seq<int>) {
    forall i :: 0 <= i < |values| ==> FitsI128(values[i])
  }

  /** The values at positions not yet marked used. */
  ghost function Unused(values: seq<int>, used: seq<bool>): multiset<int>
    requires |values| == |used|
  {
    if values == [] then multiset{} else
      var n := |values| - 1;
      Unused(values[..n], used[..n]) + if used[n] then multiset{} else multiset{values[n]}
  }

  lemma {:induction false} UnusedHolds(values: seq<int>, used: seq<bool>, i: nat)
    requires |values| == |used| && i < |values| && !used[i]
    ensures values[i] in Unused(values, used)
  {
    var n := |values| - 1;
    if i < n {
      UnusedHolds(values[..n], used[..n], i);
    }
  }

  lemma {:induction false} UnusedComesFrom(values: seq<int>, used: seq<bool>, x: int) returns (i: nat)
    requires |values| == |used| && x in Unused(values, used)
    ensures i < |values| && !used[i] && values[i] == x
  {
    var n := |values| - 1;
    if !used[n] && values[n] == x {
      i := n;
    } else {
      i := UnusedComesFrom(values[..n], used[..n], x);
    }
  }

  lemma {:induction false} MarkOne(values: seq<int>, used: seq<bool>, i: nat)
    requires |values| == |used| && i < |values| && !used[i]
    ensures Unused(values, used) == Unused(values, used[i := true]) + multiset{values[i]}
  {
    var n := |values| - 1;
    var marked := used[i := true];
    if i < n {
      MarkOne(values[..n], used[..n], i);
      assert marked[..n] == used[..n][i := true];
      PutLast(Unused(values[..n], marked[..n]), multiset{values[i]},
              if used[n] then multiset{} else multiset{values[n]});
    } else {
      assert marked[..n] == used[..n];
      assert Unused(values, marked) == Unused(values[..n], used[..n]);
    }
  }

  lemma PutLast(a: multiset<int>, b: multiset<int>, c: multiset<int>)
    ensures a + b + c == a + c + b
  {
  }

  lemma GiveAndTake(a: multiset<int>, x: int)
    ensures a + multiset{x} - multiset{x} == a
  {
  }

  lemma MarkUsed(values: seq<int>, used: seq<bool>, i: nat)
    requires |values| == |used| && i < |values|
    ensures Unused(values, used[i := true])
      == Unused(values, used) - if used[i] then multiset{} else multiset{values[i]}
  {
    if used[i] {
      assert used[i := true] == used;
    } else {
      MarkOne(values, used, i);
      GiveAndTake(Unused(values, used[i := true]), values[i]);
    }
  }

  lemma {:induction false} AllUnused(values: seq<int>, used: seq<bool>)
    requires |values| == |used| && forall i :: 0 <= i < |used| ==> !used[i]
    ensures Unused(values, used) == multiset(values)
  {
    if values != [] {
      var n := |values| - 1;
      AllUnused(values[..n], used[..n]);
      assert values == values[..n] + [values[n]];
    }
  }

  /** One scan of the selection sort: the least unused value, or i128::MAX at position 0 when no unused
      value is smaller. */
  method ScanUnused(values: seq<int>, used: seq<bool>) returns (minVal: int, minIdx: nat)
    requires |values| == |used| && values != [] && AllFit(values)
    ensures ScanResult(values, used, minVal, minIdx)
  {
    minVal, minIdx := I128_MAX, 0;
    for j := 0 to |values|
      invariant minIdx < |values| && minVal <= I128_MAX
      invariant forall i :: 0 <= i < j && !used[i] ==> minVal <= values[i]
      invariant if minVal == I128_MAX then minIdx == 0 else !used[minIdx] && values[minIdx] == minVal
    {
      if !used[j] {
        var v := values[j];
        if v < minVal {
          minVal := v;
          minIdx := j;
        }
      }
    }
  }

  /** What is left to output and what is still unused agree, except on how many i128::MAX there are. */
  ghost predicate AgreeBelowMax(rest: multiset<int>, unused: multiset<int>) {
    && (forall x :: x in rest ==> x <= I128_MAX)
    && (forall x :: x != I128_MAX ==> rest[x] == unused[x])
  }

  /** After k rounds of the selection sort: what is output so far, and what is left. */
  ghost predicate Selecting(values: seq<int>, used: seq<bool>, sorted: seq<int>, rest: multiset<int>) {
    && |used| == |values| && |sorted| + |rest| == |values|
    && sorted + Ascending(rest) == Ascending(multiset(values))
    && AgreeBelowMax(rest, Unused(values, used))
  }

  ghost predicate ScanResult(values: seq<int>, used: seq<bool>, minVal: int, minIdx: nat) {
    && |used| == |values| && minIdx < |values| && minVal <= I128_MAX && AllFit(values)
    && (forall i :: 0 <= i < |values| && !used[i] ==> minVal <= values[i])
    && (if minVal == I128_MAX then minIdx == 0 else !used[minIdx] && values[minIdx] == minVal)
  }

  /** The scan finds the least of what is left. */
  lemma ScanIsLeast(values: seq<int>, used: seq<bool>, rest: multiset<int>, minVal: int, minIdx: nat)
    requires ScanResult(values, used, minVal, minIdx) && rest != multiset{}
    requires AgreeBelowMax(rest, Unused(values, used))
    ensures minVal == Least(rest)
  {
    var unused, least := Unused(values, used), Least(rest);
    if minVal < I128_MAX {
      UnusedHolds(values, used, minIdx);
      assert rest[minVal] == unused[minVal] > 0;
    }
    if least < I128_MAX {
      assert unused[least] == rest[least] > 0;
      var i := UnusedComesFrom(values, used, least);
    }
  }

  /** Marking the position the scan reported keeps the agreement, even when it was marked before. */
  lemma MarkKeepsAgreement(values: seq<int>, used: seq<bool>, rest: multiset<int>, minVal: int, minIdx: nat)
    requires ScanResult(values, used, minVal, minIdx)
    requires AgreeBelowMax(rest, Unused(values, used))
    ensures AgreeBelowMax(rest - multiset{minVal}, Unused(values, used[minIdx := true]))
  {
    MarkUsed(values, used, minIdx);
    if minVal == I128_MAX {
      assert !used[minIdx] ==> values[minIdx] == I128_MAX;
      TakingMaxAgrees(rest, Unused(values, used), if used[minIdx] then multiset{} else multiset{I128_MAX});
    } else {
      TakingAgrees(rest, Unused(values, used), minVal);
    }
  }

  lemma TakingAgrees(rest: multiset<int>, unused: multiset<int>, x: int)
    requires AgreeBelowMax(rest, unused)
    ensures AgreeBelowMax(rest - multiset{x}, unused - multiset{x})
  {
  }

  lemma TakingMaxAgrees(rest: multiset<int>, unused: multiset<int>, taken: multiset<int>)
    requires AgreeBelowMax(rest, unused) && (taken == multiset{} || taken == multiset{I128_MAX})
    ensures AgreeBelowMax(rest - multiset{I128_MAX}, unused - taken)
  {
  }

  lemma SelectOne(values: seq<int>, used: seq<bool>, sorted: seq<int>, rest: multiset<int>, minVal: int, minIdx: nat)
    requires Selecting(values, used, sorted, rest) && |sorted| < |values|
    requires ScanResult(values, used, minVal, minIdx)
    ensures Selecting(values, used[minIdx := true], sorted + [minVal], rest - multiset{minVal})
  {
    assert AgreeBelowMax(rest - multiset{minVal}, Unused(values, used[minIdx := true])) by {
      MarkKeepsAgreement(values, used, rest, minVal, minIdx);
    }
    OutputOne(sorted, rest, minVal) by {
      ScanIsLeast(values, used, rest, minVal, minIdx);
    }
  }

  lemma OutputOne(sorted: seq<int>, rest: multiset<int>, least: int)
    requires rest != multiset{} && least == Least(rest)
    ensures sorted + Ascending(rest) == sorted + [least] + Ascending(rest - multiset{least})
    ensures |sorted| + |rest| == |sorted + [least]| + |rest - multiset{least}|
  {
    AscendingStep(rest);
    Reassociate(sorted, [least], Ascending(rest - multiset{least}));
  }

  lemma StartSelecting(values: seq<int>, used: seq<bool>)
    requires |used| == |values| && AllFit(values) && forall i :: 0 <= i < |used| ==> !used[i]
    ensures Selecting(values, used, [], multiset(values))
  {
    AllUnused(values, used);
    assert [] + Ascending(multiset(values)) == Ascending(multiset(values));
  }

  lemma SelectedAll(values: seq<int>, used: seq<bool>, sorted: seq<int>, rest: multiset<int>)
    requires Selecting(values, used, sorted, rest) && |sorted| == |values|
    ensures sorted == Ascending(multiset(values))
  {
    assert rest == multiset{};
    assert Ascending(rest) == [] && sorted + [] == sorted;
  }

  /** The sorting half of median: a selection sort that marks positions in `used`. When only i128::MAX is
      left unused the scan marks position 0 again and again, yet outputs what is due. */
  method SortedCopy(values: seq<int>) returns (sorted: seq<int>)
    requires AllFit(values)
    ensures sorted == Ascending(multiset(values))
  {
    sorted := [];
    var used := seq(|values|, _ => false);
    ghost var rest := multiset(values);
    StartSelecting(values, used);
    for k := 0 to |values|
      invariant |sorted| == k && Selecting(values, used, sorted, rest)
    {
      var minVal, minIdx := ScanUnused(values, used);
      SelectOne(values, used, sorted, rest, minVal, minIdx);
      used := used[minIdx := true];
      sorted := sorted + [minVal];
      rest := rest - multiset{minVal};
    }
    SelectedAll(values, used, sorted, rest);
  }

  /** median: the middle of the sorted copy, or the truncated mean of the two middle values. */
  method Median(values: seq<int>) returns (m: Option<int>)
    requires AllFit(values)
    ensures m == MedianOf(values)
  {
    var n := |values|;
    var sorted := SortedCopy(values);
    if n % 2 == 1 {
      return Some(sorted[n / 2]);
    }
    var mid := n / 2;
    if mid == 0 || !FitsI128(sorted[mid - 1] + sorted[mid]) {
      return None;
    }
    return Some(TruncDiv(sorted[mid - 1] + sorted[mid], 2));
  }

  // ---- storage ----

  function SaturatingAge(now: int, timestamp: int): int {
    if now < timestamp then 0 else now - timestamp
  }

  datatype Done = Done(feeds: Feeds)

  type Reply = Outcome<Done, Error>

  datatype Feeds = Feeds(
    admin: Address, operator: Address, staleness: int, maxDeviation: int, sources: map<string, seq<Address>>,
    data: map<(string, Address), SourceData>, quorums: map<string, int>, feeds: map<string, PriceFeed>,
    sequences: map<string, int>)
  {
    function SourcesOf(pair: string): seq<Address> {
      if pair in sources then sources[pair] else []
    }

    function QuorumOf(pair: string): int {
      if pair in quorums then quorums[pair] else 1
    }

    function AddSource(caller: Address, pair: string, source: Address): Reply {
      if caller != admin then Err(NotAuthorized)
      else if source in SourcesOf(pair) then Ok(Done(this))
      else Ok(Done(this.(sources := sources[pair := SourcesOf(pair) + [source]])))
    }

    function RemoveSource(caller: Address, pair: string, source: Address): Reply {
      if caller != admin then Err(NotAuthorized)
      else Ok(Done(this.(sources := sources[pair := Without(SourcesOf(pair), source)])))
    }

    function SetQuorum(caller: Address, pair: string, quorum: int): Reply {
      if caller != admin then Err(NotAuthorized) else Ok(Done(this.(quorums := quorums[pair := quorum])))
    }

    function SetStaleness(caller: Address, threshold: int): Reply {
      if caller != admin then Err(NotAuthorized) else Ok(Done(this.(staleness := threshold)))
    }

    function SetMaxDeviation(caller: Address, bps: int): Reply {
      if caller != admin then Err(NotAuthorized) else Ok(Done(this.(maxDeviation := bps)))
    }

    function SequenceOf(pair: string, source: Address): int {
      if (pair, source) in data then data[(pair, source)].sequence else 0
    }

    /** The price a new one is compared with, if any. */
    function Previous(pair: string, source: Address): Option<int> {
      if (pair, source) in data then Some(data[(pair, source)].price)
      else if SourcesOf(pair) == [] && pair in feeds then Some(feeds[pair].price)
      else None
    }

    function CheckPrevious(pair: string, source: Address, price: int): Outcome<(), Error> {
      var previous := Previous(pair, source);
      if previous.Some? then CheckDeviation(previous.value, price, maxDeviation) else Ok(())
    }

    function UpdatePrice(caller: Address, pair: string, price: int, sequence: int, now: int): Reply {
      var single := SourcesOf(pair) == [];
      if single && caller != admin && caller != operator then Err(NotAuthorized)
      else if !single && caller !in SourcesOf(pair) then Err(UnknownSource)
      else if sequence <= SequenceOf(pair, caller) then Err(InvalidSequence)
      else if single && sequence <= Get(sequences, pair) then Err(InvalidSequence)
      else if CheckPrevious(pair, caller, price).Err? then Err(CheckPrevious(pair, caller, price).error)
      else
        var stored := data[(pair, caller) := SourceData(price, now, sequence)];
        if single then Ok(Done(this.(
          data := stored, feeds := feeds[pair := PriceFeed(pair, price, 7, now, sequence)],
          sequences := sequences[pair := sequence])))
        else Ok(Done(this.(data := stored)))
    }

    predicate IsFresh(pair: string, source: Address, now: int) {
      (pair, source) in data && SaturatingAge(now, data[(pair, source)].timestamp) <= staleness
    }

    /** The fresh prices of some sources, in order. */
    function FreshPrices(pair: string, srcs: seq<Address>, now: int): seq<int> {
      if srcs == [] then [] else
        var last := srcs[|srcs| - 1];
        FreshPrices(pair, srcs[..|srcs| - 1], now) + if IsFresh(pair, last, now) then [data[(pair, last)].price] else []
    }

    ghost function GetPrice(pair: string, now: int): Outcome<PriceFeed, Error> {
      if SourcesOf(pair) != [] then
        var recent := FreshPrices(pair, SourcesOf(pair), now);
        if |recent| < QuorumOf(pair) then Err(NoQuorum)
        else (match MedianOf(recent)
              case None => Err(Panic)
              case Some(price) => Ok(PriceFeed(pair, price, 7, now, 0)))
      else if pair !in feeds then Err(UnknownPair)
      else if SaturatingAge(now, feeds[pair].updatedAt) > staleness then Err(PriceTooStale)
      else Ok(feeds[pair])
    }

    predicate IsStale(pair: string, now: int) {
      if SourcesOf(pair) != [] then |FreshPrices(pair, SourcesOf(pair), now)| < QuorumOf(pair)
      else pair !in feeds || SaturatingAge(now, feeds[pair].updatedAt) > staleness
    }
  }

  function Abs(x: int): int {
    if x < 0 then -x else x
  }

  /** The deviation guard, in basis points of the previous price. */
  function CheckDeviation(previous: int, price: int, limit: int): Outcome<(), Error> {
    var diff := if price > previous then price - previous else previous - price;
    if previous == 0 then Ok(())
    else if !FitsI128(diff) || !FitsI128(diff * 10000) || !FitsI128(Abs(previous)) then Err(Panic)
    else if TruncDiv(diff * 10000, Abs(previous)) > limit then Err(PriceDeviationTooLarge)
    else Ok(())
  }

  function Without(srcs: seq<Address>, source: Address): seq<Address> {
    if srcs == [] then [] else
      Without(srcs[..|srcs| - 1], source) + if srcs[|srcs| - 1] == source then [] else [srcs[|srcs| - 1]]
  }

  function Initial(admin: Address, operator: Address, staleness: nat, deviation: nat): Feeds {
    Feeds(admin, operator, if staleness == 0 then 600 else staleness, if deviation == 0 then 500 else deviation,
          map[], map[], map[], map[], map[])
  }

  datatype Call =
    | AddSource(caller: Address, pair: string, source: Address)
    | RemoveSource(caller: Address, pair: string, source: Address)
    | SetQuorum(caller: Address, pair: string, quorum: nat)
    | SetStaleness(caller: Address, threshold: nat)
    | SetMaxDeviation(caller: Address, bps: nat)
    | UpdatePrice(caller: Address, pair: string, price: int, sequence: nat, now: nat)

  function Execute(f: Feeds, call: Call): Reply {
    match call
    case AddSource(caller, pair, source) => f.AddSource(caller, pair, source)
    case RemoveSource(caller, pair, source) => f.RemoveSource(caller, pair, source)
    case SetQuorum(caller, pair, quorum) => f.SetQuorum(caller, pair, quorum)
    case SetStaleness(caller, threshold) => f.SetStaleness(caller, threshold)
    case SetMaxDeviation(caller, bps) => f.SetMaxDeviation(caller, bps)
    case UpdatePrice(caller, pair, price, sequence, now) => f.UpdatePrice(caller, pair, price, sequence, now)
  }

  function After(f: Feeds, reply: Reply): Feeds {
    if reply.Ok? then reply.value.feeds else f
  }

  function Answer(reply: Reply): Outcome<(), Error> {
    match reply
    case Ok(_) => Ok(())
    case Err(e) => Err(e)
  }

  class Contract {
    const admin: Address
    const operator: Address
    var staleness: int
    var maxDeviation: int
    var sources: map<string, seq<Address>>
    var data: map<(string, Address), SourceData>
    var quorums: map<string, int>
    var feeds: map<string, PriceFeed>
    var sequences: map<string, int>

    function State(): Feeds
      reads this
    {
      Feeds(admin, operator, staleness, maxDeviation, sources, data, quorums, feeds, sequences)
    }

    constructor (admin: Address, operator: Address, staleness: nat, deviation: nat)
      ensures State() == Initial(admin, operator, staleness, deviation)
    {
      this.admin, this.operator := admin, operator;
      this.staleness := if staleness == 0 then 600 else staleness;
      maxDeviation := if deviation == 0 then 500 else deviation;
      sources, data, quorums, feeds, sequences := map[], map[], map[], map[], map[];
    }

    method AddSource(caller: Address, pair: string, source: Address) returns (r: Outcome<(), Error>)
      modifies this
      ensures var spec := old(State()).AddSource(caller, pair, source);
        State() == After(old(State()), spec) && r == Answer(spec)
    {
      if caller != admin {
        return Err(NotAuthorized);
      }
      var current := if pair in sources then sources[pair] else [];
      if source !in current {
        sources := sources[pair := current + [source]];
      }
      return Ok(());
    }

    method RemoveSource(caller: Address, pair: string, source: Address) returns (r: Outcome<(), Error>)
      modifies this
      ensures var spec := old(State()).RemoveSource(caller, pair, source);
        State() == After(old(State()), spec) && r == Answer(spec)
    {
      if caller != admin {
        return Err(NotAuthorized);
      }
      var current := if pair in sources then sources[pair] else [];
      var kept := [];
      for i := 0 to |current|
        invariant kept == Without(current[..i], source)
      {
        assert current[..i + 1][..i] == current[..i];
        if current[i] != source {
          kept := kept + [current[i]];
        }
      }
      assert current[..|current|] == current;
      sources := sources[pair := kept];
      return Ok(());
    }

    method SetQuorum(caller: Address, pair: string, quorum: int) returns (r: Outcome<(), Error>)
      modifies this
      ensures var spec := old(State()).SetQuorum(caller, pair, quorum);
        State() == After(old(State()), spec) && r == Answer(spec)
    {
      if caller != admin {
        return Err(NotAuthorized);
      }
      quorums := quorums[pair := quorum];
      return Ok(());
    }

    method UpdatePrice(caller: Address, pair: string, price: int, sequence: int, now: int)
      returns (r: Outcome<(), Error>)
      modifies this
      ensures var spec := old(State()).UpdatePrice(caller, pair, price, sequence, now);
        State() == After(old(State()), spec) && r == Answer(spec)
    {
      var registered := if pair in sources then sources[pair] else [];
      if registered == [] {
        if caller != admin && caller != operator {
          return Err(NotAuthorized);
        }
      } else if caller !in registered {
        return Err(UnknownSource);
      }
      var current := 0;
      if (pair, caller) in data {
        current := data[(pair, caller)].sequence;
      }
      if sequence <= current {
        return Err(InvalidSequence);
      }
      if registered == [] && sequence <= Get(sequences, pair) {
        return Err(InvalidSequence);
      }
      var previous: Option<int> := None;
      if (pair, caller) in data {
        previous := Some(data[(pair, caller)].price);
      } else if registered == [] && pair in feeds {
        previous := Some(feeds[pair].price);
      }
      if previous.Some? {
        var check := CheckDeviation(previous.value, price, maxDeviation);
        if check.Err? {
          return Err(check.error);
        }
      }
      data := data[(pair, caller) := SourceData(price, now, sequence)];
      if registered == [] {
        feeds := feeds[pair := PriceFeed(pair, price, 7, now, sequence)];
        sequences := sequences[pair := sequence];
      }
      return Ok(());
    }

    method GetPrice(pair: string, now: int) returns (r: Outcome<PriceFeed, Error>)
      requires forall key :: key in data ==> FitsI128(data[key].price)
      ensures r == State().GetPrice(pair, now)
    {
      var registered := if pair in sources then sources[pair] else [];
      if registered != [] {
        var quorum := if pair in quorums then quorums[pair] else 1;
        var recent: seq<int> := [];
        for i := 0 to |registered|
          invariant recent == State().FreshPrices(pair, registered[..i], now)
          invariant AllFit(recent)
        {
          assert registered[..i + 1][..i] == registered[..i];
          var source := registered[i];
          if (pair, source) in data {
            var reported := data[(pair, source)];
            if SaturatingAge(now, reported.timestamp) <= staleness {
              recent := recent + [reported.price];
            }
          }
        }
        assert registered[..|registered|] == registered;
        if |recent| < quorum {
          return Err(NoQuorum);
        }
        var price := Median(recent);
        if price.None? {
          return Err(Panic);
        }
        return Ok(PriceFeed(pair, price.value, 7, now, 0));
      }
      if pair !in feeds {
        return Err(UnknownPair);
      }
      if SaturatingAge(now, feeds[pair].updatedAt) > staleness {
        return Err(PriceTooStale);
      }
      return Ok(feeds[pair]);
    }

    method IsStale(pair: string, now: int) returns (stale: bool)
      ensures stale == State().IsStale(pair, now)
    {
      var registered := if pair in sources then sources[pair] else [];
      if registered != [] {
        var quorum := if pair in quorums then quorums[pair] else 1;
        var recent := 0;
        for i := 0 to |registered|
          invariant recent == |State().FreshPrices(pair, registered[..i], now)|
        {
          assert registered[..i + 1][..i] == registered[..i];
          if (pair, registered[i]) in data && SaturatingAge(now, data[(pair, registered[i])].timestamp) <= staleness {
            recent := recent + 1;
          }
        }
        assert registered[..|registered|] == registered;
        return recent < quorum;
      }
      if pair !in feeds {
        return true;
      }
      return SaturatingAge(now, feeds[pair].updatedAt) > staleness;
    }
  }
}
