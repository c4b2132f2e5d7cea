/** rent_payments: no two receipts share a sort key, following the cursor lists every receipt once, and it
    still does while receipts are being appended. */
module RentPaymentsProofs {
  import opened Host
  import opened RentPayments
  import opened RentPaymentsOrder

  datatype Call =
    | Create(deal: U64, amount: int, payer: Address, reference: seq<int>, now: U64)
    | SetPaused(value: bool)

  ghost function Apply(s: Store, call: Call): Store {
    match call
    case Create(deal, amount, payer, reference, now) => After(s, s.Create(deal, amount, payer, reference, now))
    case SetPaused(value) => s.(paused := value)
  }

  ghost predicate Creates(s: Store, call: Call) {
    call.Create? && s.Create(call.deal, call.amount, call.payer, call.reference, call.now).Ok?
  }

  ghost function Run(admin: Address, calls: seq<Call>): Store {
    if calls == [] then Initial(admin) else Apply(Run(admin, calls[..|calls| - 1]), calls[|calls| - 1])
  }

  ghost function Created(admin: Address, calls: seq<Call>): nat {
    if calls == [] then 0 else
      var front := calls[..|calls| - 1];
      Created(admin, front) + if Creates(Run(admin, front), calls[|calls| - 1]) then 1 else 0
  }

  /** How often the global counter was raised: once by every creation, and once more by those for the reserved
      id, whose own count it is. */
  ghost function Raised(s: Store, created: nat): nat {
    created + |s.Receipts(U64_MAX)|
  }

  /** The global counter has not wrapped. */
  ghost predicate CounterLasts(admin: Address, calls: seq<Call>) {
    Raised(Run(admin, calls), Created(admin, calls)) <= U64_MAX
  }

  lemma LastedBefore(admin: Address, calls: seq<Call>)
    requires calls != [] && CounterLasts(admin, calls)
    ensures CounterLasts(admin, calls[..|calls| - 1])
  {
    var s, call := Run(admin, calls[..|calls| - 1]), calls[|calls| - 1];
    if Creates(s, call) {
      WhatCreateCounts(s, call, U64_MAX);
    }
  }

  // ---- counts ----

  const TWO_64: int := 0x1_0000_0000_0000_0000

  /** A deal's own count, and the count under the reserved id, which counts every receipt as well, and wraps. */
  ghost predicate CountInv(s: Store, d: int, created: nat) {
    if d == U64_MAX
    then Get(s.counts, d) == Raised(s, created) % TWO_64 && |s.Receipts(d)| <= created
    else Get(s.counts, d) == |s.Receipts(d)|
  }

  lemma WrapsLate(x: int, k: int)
    ensures (x % TWO_64 + k) % TWO_64 == (x + k) % TWO_64
  {
  }

  /** What one creation does to a count and to a list. */
  lemma WhatCreateCounts(s: Store, call: Call, d: int)
    requires Creates(s, call)
    ensures var t, counted := Apply(s, call), s.counts[call.deal := Get(s.counts, call.deal) + 1];
      && Get(t.counts, d) == (if d == U64_MAX then NextCounter(counted) else Get(counted, d))
      && |t.Receipts(d)| == |s.Receipts(d)| + if d == call.deal then 1 else 0
  {
  }

  lemma StepKeepsCount(s: Store, call: Call, d: int, created: nat)
    requires CountInv(s, d, created)
    ensures CountInv(Apply(s, call), d, created + if Creates(s, call) then 1 else 0)
  {
    if Creates(s, call) {
      WhatCreateCounts(s, call, d);
      WrapsLate(Raised(s, created), 1);
      WrapsLate(Raised(s, created), 2);
    }
  }

  lemma {:induction false} ReachableCount(admin: Address, calls: seq<Call>, d: int)
    ensures CountInv(Run(admin, calls), d, Created(admin, calls))
  {
    if calls != [] {
      var front, call := calls[..|calls| - 1], calls[|calls| - 1];
      ReachableCount(admin, front, d);
      StepKeepsCount(Run(admin, front), call, d, Created(admin, front));
    }
  }

  /** receipt_count is the number of the deal's receipts for every deal but the id the global counter shares; for
      that one it is right if and only if no receipt exists at all, or a multiple of 2^64 of them. */
  lemma CountIsExactBut(admin: Address, calls: seq<Call>, d: int)
    ensures var s := Run(admin, calls);
      Get(s.counts, d) == |s.Receipts(d)|
      <==> d != U64_MAX || (|s.Receipts(d)| <= U64_MAX && Created(admin, calls) % TWO_64 == 0)
  {
    ReachableCount(admin, calls, d);
    CountReads(Run(admin, calls), d, Created(admin, calls));
  }

  /** One receipt, of any other deal, and the reserved id counts a receipt it does not have. */
  lemma CountGoesWrong(admin: Address, deal: U64, payer: Address, reference: seq<int>, now: U64)
    requires deal != U64_MAX
    ensures var s := Run(admin, [Create(deal, 1, payer, reference, now)]);
      Get(s.counts, U64_MAX) == 1 && s.Receipts(U64_MAX) == []
  {
    var call := Create(deal, 1, payer, reference, now);
    assert [call][..0] == [] && Run(admin, [call][..0]) == Initial(admin);
    assert Creates(Initial(admin), call);
    WhatCreateCounts(Initial(admin), call, U64_MAX);
  }

  lemma CountReads(s: Store, d: int, created: nat)
    requires CountInv(s, d, created)
    ensures Get(s.counts, d) == |s.Receipts(d)| <==>
        d != U64_MAX || (|s.Receipts(d)| <= U64_MAX && created % TWO_64 == 0)
  {
    SameRemainder(created, |s.Receipts(d)|);
  }

  lemma SameRemainder(created: nat, own: nat)
    ensures (created + own) % TWO_64 == own <==> own <= U64_MAX && created % TWO_64 == 0
  {
    WrapsLate(created, own);
  }

  // ---- unique sort keys ----

  ghost predicate At(s: Store, d: int, i: int) {
    0 <= i < |s.Receipts(d)|
  }

  ghost predicate Appends(s: Store, t: Store, deal: int, r: Receipt) {
    && t.Receipts(deal) == s.Receipts(deal) + [r]
    && (forall d :: d != deal ==> t.Receipts(d) == s.Receipts(d))
    && (deal, r.reference) !in s.used && t.used == s.used + {(deal, r.reference)}
  }

  ghost function NewestOf(t: Store, deal: int): Receipt
    requires At(t, deal, |t.Receipts(deal)| - 1)
  {
    t.Receipts(deal)[|t.Receipts(deal)| - 1]
  }

  /** What one creation appends: the receipt asked for, under the next counter. */
  lemma WhatCreateAppends(s: Store, call: Call)
    requires Creates(s, call)
    ensures var t := Apply(s, call);
      && At(t, call.deal, |t.Receipts(call.deal)| - 1)
      && var r := NewestOf(t, call.deal);
      && Appends(s, t, call.deal, r)
      && r.deal == call.deal && r.timestamp == call.now && r.reference == call.reference
      && r.amount == call.amount && r.payer == call.payer && r.txId == TxId(call.now, Get(t.counts, U64_MAX))
  {
  }

  lemma RaisedGrows(s: Store, call: Call, created: nat)
    requires Creates(s, call)
    ensures Raised(s, created) < Raised(Apply(s, call), created + 1)
  {
    WhatCreateCounts(s, call, U64_MAX);
  }

  /** How often the global counter had been raised when a receipt got its id. */
  ghost function RaiseOf(admin: Address, calls: seq<Call>, d: int, i: int): nat {
    if calls == [] then 0 else
      var front := calls[..|calls| - 1];
      if At(Run(admin, front), d, i) then RaiseOf(admin, front, d, i)
      else Raised(Run(admin, calls), Created(admin, calls))
  }

  /** The value the global counter then had. */
  ghost function CounterOf(admin: Address, calls: seq<Call>, d: int, i: int): int {
    if calls == [] then 0 else
      var front := calls[..|calls| - 1];
      if At(Run(admin, front), d, i) then CounterOf(admin, front, d, i) else Get(Run(admin, calls).counts, U64_MAX)
  }

  /** A receipt belongs to its deal, and its id is made from its timestamp and a counter. */
  ghost predicate WellFormed(r: Receipt, d: int, counter: int) {
    r.deal == d && FitsU64(r.timestamp) && FitsU64(counter) && r.txId == TxId(r.timestamp, counter)
  }

  lemma NewestIsWellFormed(s: Store, call: Call)
    requires Creates(s, call)
    ensures var t := Apply(s, call);
      && At(t, call.deal, |t.Receipts(call.deal)| - 1)
      && WellFormed(NewestOf(t, call.deal), call.deal, Get(t.counts, U64_MAX))
  {
    WhatCreateAppends(s, call);
  }

  /** A creation leaves every stored receipt where it is; only one place is new. */
  lemma ReceiptsStay(s: Store, call: Call, d: int, i: int)
    ensures At(s, d, i) ==> At(Apply(s, call), d, i) && Apply(s, call).Receipts(d)[i] == s.Receipts(d)[i]
    ensures At(Apply(s, call), d, i) && !At(s, d, i) ==>
      Creates(s, call) && d == call.deal && i == |Apply(s, call).Receipts(d)| - 1
  {
    if Creates(s, call) {
      WhatCreateAppends(s, call);
    }
  }

  lemma NewestAt(s: Store, call: Call, d: int, i: int)
    requires At(Apply(s, call), d, i) && !At(s, d, i)
    ensures Creates(s, call) && WellFormed(Apply(s, call).Receipts(d)[i], d, Get(Apply(s, call).counts, U64_MAX))
  {
    ReceiptsStay(s, call, d, i);
    NewestIsWellFormed(s, call);
  }

  lemma {:induction false} ReceiptIsWellFormed(admin: Address, calls: seq<Call>, d: int, i: int)
    requires At(Run(admin, calls), d, i)
    ensures WellFormed(Run(admin, calls).Receipts(d)[i], d, CounterOf(admin, calls, d, i))
  {
    var front, call := calls[..|calls| - 1], calls[|calls| - 1];
    if At(Run(admin, front), d, i) {
      ReceiptIsWellFormed(admin, front, d, i);
      ReceiptsStay(Run(admin, front), call, d, i);
    } else {
      NewestAt(Run(admin, front), call, d, i);
    }
  }

  /** The counter is the raise, but for what 64 bits cut off. */
  lemma {:induction false} CounterIsRaise(admin: Address, calls: seq<Call>, d: int, i: int)
    requires At(Run(admin, calls), d, i)
    ensures CounterOf(admin, calls, d, i) == RaiseOf(admin, calls, d, i) % TWO_64
  {
    var front := calls[..|calls| - 1];
    if At(Run(admin, front), d, i) {
      CounterIsRaise(admin, front, d, i);
    } else {
      ReachableCount(admin, calls, U64_MAX);
    }
  }

  lemma IdsCollideIff(r: Receipt, q: Receipt, d: int, e: int, a: int, b: int)
    requires WellFormed(r, d, a) && WellFormed(q, e, b)
    ensures r.txId == q.txId <==> KeyOf(r) == KeyOf(q)
    ensures r.txId == q.txId <==> r.timestamp == q.timestamp && a == b
  {
    TxIdIsInjective(r.timestamp, a, q.timestamp, b);
  }

  lemma CountersOrder(r: Receipt, q: Receipt, d: int, a: int, b: int)
    requires WellFormed(r, d, a) && WellFormed(q, d, b) && a < b && r.timestamp <= q.timestamp
    ensures Before(KeyOf(r), KeyOf(q))
  {
    TxIdOrder(r.timestamp, a, q.timestamp, b);
  }

  lemma LowBits(x: nat)
    requires x <= U64_MAX
    ensures x % TWO_64 == x
  {
  }

  lemma {:induction false} RaiseIsWithin(admin: Address, calls: seq<Call>, d: int, i: int)
    requires At(Run(admin, calls), d, i)
    ensures RaiseOf(admin, calls, d, i) <= Raised(Run(admin, calls), Created(admin, calls))
  {
    var front, call := calls[..|calls| - 1], calls[|calls| - 1];
    var s := Run(admin, front);
    if Creates(s, call) {
      RaisedGrows(s, call, Created(admin, front));
    }
    if At(s, d, i) {
      RaiseIsWithin(admin, front, d, i);
    }
  }

  /** Later receipts of a deal have later raises; receipts of other deals have other raises. */
  lemma {:induction false} RaisesDiffer(admin: Address, calls: seq<Call>, d: int, i: int, e: int, j: int)
    requires At(Run(admin, calls), d, i) && At(Run(admin, calls), e, j)
    requires d != e || i < j
    ensures RaiseOf(admin, calls, d, i) != RaiseOf(admin, calls, e, j)
    ensures d == e ==> RaiseOf(admin, calls, d, i) < RaiseOf(admin, calls, e, j)
  {
    var front, call := calls[..|calls| - 1], calls[|calls| - 1];
    var s := Run(admin, front);
    if Creates(s, call) {
      WhatCreateAppends(s, call);
      RaisedGrows(s, call, Created(admin, front));
    }
    if At(s, d, i) {
      RaiseIsWithin(admin, front, d, i);
      if At(s, e, j) {
        RaisesDiffer(admin, front, d, i, e, j);
      }
    } else {
      RaiseIsWithin(admin, front, e, j);
    }
  }

  lemma {:induction false} ReachableReference(admin: Address, calls: seq<Call>, d: int, i: int)
    requires At(Run(admin, calls), d, i)
    ensures (d, Run(admin, calls).Receipts(d)[i].reference) in Run(admin, calls).used
  {
    var front, call := calls[..|calls| - 1], calls[|calls| - 1];
    var s := Run(admin, front);
    if Creates(s, call) {
      WhatCreateAppends(s, call);
    }
    if At(s, d, i) {
      ReachableReference(admin, front, d, i);
    }
  }

  /** Two receipts, of any deals, share an id, and then also a sort key, if and only if they have the same
      timestamp and between them the counter went round: their raises differ by a multiple of 2^64. */
  lemma KeysCollideIff(admin: Address, calls: seq<Call>, d: int, i: int, e: int, j: int)
    requires At(Run(admin, calls), d, i) && At(Run(admin, calls), e, j)
    ensures var r, q := Run(admin, calls).Receipts(d)[i], Run(admin, calls).Receipts(e)[j];
      && (r.txId == q.txId <==> KeyOf(r) == KeyOf(q))
      && (r.txId == q.txId <==>
            r.timestamp == q.timestamp && RaiseOf(admin, calls, d, i) % TWO_64 == RaiseOf(admin, calls, e, j) % TWO_64)
  {
    ReceiptIsWellFormed(admin, calls, d, i);
    ReceiptIsWellFormed(admin, calls, e, j);
    CounterIsRaise(admin, calls, d, i);
    CounterIsRaise(admin, calls, e, j);
    IdsCollideIff(Run(admin, calls).Receipts(d)[i], Run(admin, calls).Receipts(e)[j], d, e,
                  CounterOf(admin, calls, d, i), CounterOf(admin, calls, e, j));
  }

  /** So while the counter has not wrapped, no two stored receipts, of any deals, share an id or a sort key. */
  lemma KeysAreUnique(admin: Address, calls: seq<Call>, d: int, i: int, e: int, j: int)
    requires CounterLasts(admin, calls)
    requires At(Run(admin, calls), d, i) && At(Run(admin, calls), e, j) && (d != e || i != j)
    ensures var s := Run(admin, calls);
      s.Receipts(d)[i].txId != s.Receipts(e)[j].txId && KeyOf(s.Receipts(d)[i]) != KeyOf(s.Receipts(e)[j])
  {
    KeysCollideIff(admin, calls, d, i, e, j);
    RaiseIsWithin(admin, calls, d, i);
    RaiseIsWithin(admin, calls, e, j);
    LowBits(RaiseOf(admin, calls, d, i));
    LowBits(RaiseOf(admin, calls, e, j));
    if d != e || i < j {
      RaisesDiffer(admin, calls, d, i, e, j);
    } else {
      RaisesDiffer(admin, calls, e, j, d, i);
    }
  }

  /** A payment reference is accepted once per deal. */
  lemma {:induction false} ReferencesAreUnique(admin: Address, calls: seq<Call>, d: int, i: int, j: int)
    requires At(Run(admin, calls), d, i) && At(Run(admin, calls), d, j) && i < j
    ensures Run(admin, calls).Receipts(d)[i].reference != Run(admin, calls).Receipts(d)[j].reference
  {
    var front, call := calls[..|calls| - 1], calls[|calls| - 1];
    var s := Run(admin, front);
    if Creates(s, call) {
      WhatCreateAppends(s, call);
    }
    if At(s, d, j) {
      ReferencesAreUnique(admin, front, d, i, j);
    } else {
      ReachableReference(admin, front, d, i);
    }
  }

  // ---- following the cursor ----

  ghost function EndOf(n: nat, limit: nat, length: nat): nat {
    if n + limit < length then n + limit else length
  }

  /** In a list without duplicate keys, the page taken at the cursor left by the first n receipts starts
      where they end. */
  lemma PageContinues(receipts: seq<Receipt>, limit: nat, n: nat, cursor: Option<Key>)
    requires DistinctKeys(receipts) && 1 <= limit <= 100 && n <= |receipts|
    requires if n == 0 then cursor == None else cursor == Some(KeyOf(Sort(receipts)[n - 1]))
    ensures PageOf(receipts, limit, cursor)
      == if n + limit > U32_MAX then Err(Overflow) else Ok(PageFrom(Sort(receipts), n, limit))
  {
    if n > 0 {
      SortIsStrict(receipts);
      CursorLeadsOn(Sort(receipts), n);
    }
  }

  lemma WhatPageHolds(sorted: seq<Receipt>, n: nat, limit: nat)
    requires n <= |sorted| && limit >= 1
    ensures var page, end := PageFrom(sorted, n, limit), EndOf(n, limit, |sorted|);
      && page.receipts == sorted[n..end]
      && (page.hasNext <==> end < |sorted|)
      && (page.hasNext ==> |page.receipts| == limit && page.nextCursor == KeyOf(sorted[end - 1]))
  {
  }

  ghost function Joined(pages: seq<Page>): seq<Receipt> {
    if pages == [] then [] else Joined(pages[..|pages| - 1]) + pages[|pages| - 1].receipts
  }

  lemma JoinedAppend(pages: seq<Page>, page: Page)
    ensures Joined(pages + [page]) == Joined(pages) + page.receipts
  {
    assert (pages + [page])[..|pages|] == pages;
  }

  /** All pages so far were full and had a next one; together they are the first n of the sorted list. */
  ghost predicate Collecting(receipts: seq<Receipt>, limit: nat, pages: seq<Page>, cursor: Option<Key>, n: nat) {
    && n <= |receipts| && Joined(pages) == Sort(receipts)[..n]
    && (if n == 0 then cursor == None else cursor == Some(KeyOf(Sort(receipts)[n - 1])))
    && FullPages(pages, limit)
  }

  ghost predicate FullPages(pages: seq<Page>, limit: nat) {
    forall k :: 0 <= k < |pages| ==> pages[k].hasNext && |pages[k].receipts| == limit
  }

  /** The pages are the sorted list, all full and with a next one except the last. */
  ghost predicate Complete(receipts: seq<Receipt>, limit: nat, pages: seq<Page>) {
    && Joined(pages) == Sort(receipts)
    && pages != [] && !pages[|pages| - 1].hasNext
    && FullPages(pages[..|pages| - 1], limit)
  }

  /** The smallest multiple of the limit that holds all receipts: where the last page would end if full. */
  function RoundedUp(length: nat, limit: nat): (end: nat)
    requires limit > 0
    ensures length <= end < length + limit
  {
    if length == 0 then 0 else if length <= limit then limit else limit + RoundedUp(length - limit, limit)
  }

  lemma CollectOne(receipts: seq<Receipt>, limit: nat, pages: seq<Page>, cursor: Option<Key>, n: nat)
    requires limit >= 1 && Collecting(receipts, limit, pages, cursor, n)
    ensures var page, end := PageFrom(Sort(receipts), n, limit), EndOf(n, limit, |receipts|);
      if page.hasNext
      then end == n + limit < |receipts| && Collecting(receipts, limit, pages + [page], Some(page.nextCursor), end)
      else Complete(receipts, limit, pages + [page]) && |receipts| <= n + limit
  {
    CollectPage(Sort(receipts), limit, pages, n);
  }

  lemma CollectPage(sorted: seq<Receipt>, limit: nat, pages: seq<Page>, n: nat)
    requires limit >= 1 && n <= |sorted| && Joined(pages) == sorted[..n] && FullPages(pages, limit)
    ensures var page, end := PageFrom(sorted, n, limit), EndOf(n, limit, |sorted|);
      && Joined(pages + [page]) == sorted[..end] && (pages + [page])[..|pages|] == pages
      && (page.hasNext <==> n + limit < |sorted|)
      && (page.hasNext ==> FullPages(pages + [page], limit) && page.nextCursor == KeyOf(sorted[end - 1]))
      && (!page.hasNext ==> sorted[..end] == sorted)
  {
    var page := PageFrom(sorted, n, limit);
    WhatPageHolds(sorted, n, limit);
    SliceGrows(sorted, n, EndOf(n, limit, |sorted|));
    JoinedAppend(pages, page);
  }

  lemma ReceiptsAreDistinct(admin: Address, calls: seq<Call>, d: int)
    requires CounterLasts(admin, calls)
    ensures DistinctKeys(Run(admin, calls).Receipts(d))
  {
    var rs := Run(admin, calls).Receipts(d);
    forall i, j | 0 <= i < j < |rs| ensures KeyOf(rs[i]) != KeyOf(rs[j]) {
      KeysAreUnique(admin, calls, d, i, d, j);
    }
  }

  /** The n receipts seen fill whole pages, and there are more. */
  ghost predicate WholePages(length: nat, limit: nat, n: nat)
    requires limit > 0
  {
    && n <= length && (n < length || n == 0)
    && RoundedUp(length, limit) == n + RoundedUp(length - n, limit)
  }

  lemma OnePageOn(length: nat, limit: nat, n: nat)
    requires limit > 0 && WholePages(length, limit, n)
    ensures n + limit < length ==> WholePages(length, limit, n + limit)
    ensures n + limit >= length ==> RoundedUp(length, limit) <= n + limit
    ensures length > 0 ==> RoundedUp(length, limit) >= n + limit
  {
  }

  /** A client following the cursors of a deal from the first page on, in any state a run leads to, stops after
      finitely many pages, all of them full and with a next one except the last, which together are the sorted
      list. The one thing that can stop it is the 32-bit sum of a page's start and the limit, and does if and
      only if the list, rounded up to full pages, does not fit 32 bits. */
  method FollowCursors(c: Contract, deal: U64, limit: nat, ghost admin: Address, ghost calls: seq<Call>)
    returns (listed: bool, pages: seq<Page>)
    requires c.State() == Run(admin, calls) && CounterLasts(admin, calls) && 1 <= limit <= 100
    ensures listed <==> RoundedUp(|Run(admin, calls).Receipts(deal)|, limit) <= U32_MAX
    ensures var receipts := Run(admin, calls).Receipts(deal);
      listed ==> Complete(receipts, limit, pages) && Sorted(Joined(pages)) &&
          multiset(Joined(pages)) == multiset(receipts)
  {
    ghost var receipts := Run(admin, calls).Receipts(deal);
    ReceiptsAreDistinct(admin, calls, deal);
    pages := [];
    ghost var n: nat := 0;
    var cursor: Option<Key> := None;
    var more := true;
    while more
      invariant n <= |receipts|
      invariant more ==> Collecting(receipts, limit, pages, cursor, n) && WholePages(|receipts|, limit, n)
      invariant !more ==> Complete(receipts, limit, pages) && RoundedUp(|receipts|, limit) <= U32_MAX
      decreases more, |receipts| - n
    {
      PageContinues(receipts, limit, n, cursor);
      OnePageOn(|receipts|, limit, n);
      var answer := c.ListReceiptsByDeal(deal, limit, cursor);
      if answer.Err? {
        return false, pages;
      }
      var page := answer.value;
      CollectOne(receipts, limit, pages, cursor, n);
      pages := pages + [page];
      more := page.hasNext;
      cursor := Some(page.nextCursor);
      n := EndOf(n, limit, |receipts|);
    }
    SortIsASort(receipts);
    listed := true;
  }

  // ---- pages while receipts are appended ----

  /** The latest timestamp written. */
  ghost function Clock(calls: seq<Call>): int {
    if calls == [] then 0
    else if calls[|calls| - 1].Create? then calls[|calls| - 1].now
    else Clock(calls[..|calls| - 1])
  }

  /** Time never goes back. */
  ghost predicate Clocked(calls: seq<Call>) {
    calls != [] ==>
      var front, call := calls[..|calls| - 1], calls[|calls| - 1];
      Clocked(front) && (call.Create? ==> call.now >= Clock(front))
  }

  lemma {:induction false} TimesAscend(admin: Address, calls: seq<Call>, d: int, i: int, j: int)
    requires Clocked(calls) && At(Run(admin, calls), d, j) && 0 <= i <= j
    ensures 0 <= Run(admin, calls).Receipts(d)[i].timestamp <= Run(admin, calls).Receipts(d)[j].timestamp <=
        Clock(calls)
  {
    var front, call := calls[..|calls| - 1], calls[|calls| - 1];
    if At(Run(admin, front), d, j) {
      TimesAscend(admin, front, d, i, j);
    } else if i < j {
      TimesAscend(admin, front, d, i, i);
    }
  }

  lemma InStoredOrder(admin: Address, calls: seq<Call>, d: int, i: int, j: int)
    requires CounterLasts(admin, calls) && Clocked(calls) && At(Run(admin, calls), d, j) && 0 <= i < j
    ensures Before(KeyOf(Run(admin, calls).Receipts(d)[i]), KeyOf(Run(admin, calls).Receipts(d)[j]))
  {
    ReceiptIsWellFormed(admin, calls, d, i);
    ReceiptIsWellFormed(admin, calls, d, j);
    RaiseIsWithin(admin, calls, d, i);
    RaiseIsWithin(admin, calls, d, j);
    RaisesDiffer(admin, calls, d, i, d, j);
    TimesAscend(admin, calls, d, i, j);
    CounterIsRaise(admin, calls, d, i);
    CounterIsRaise(admin, calls, d, j);
    LowBits(RaiseOf(admin, calls, d, i));
    LowBits(RaiseOf(admin, calls, d, j));
    CountersOrder(Run(admin, calls).Receipts(d)[i], Run(admin, calls).Receipts(d)[j], d,
                  CounterOf(admin, calls, d, i), CounterOf(admin, calls, d, j));
  }

  /** With an honest clock, receipts are stored in the order they are listed. */
  lemma StoredInOrder(admin: Address, calls: seq<Call>, d: int)
    requires CounterLasts(admin, calls) && Clocked(calls)
    ensures var rs := Run(admin, calls).Receipts(d);
      StrictlySorted(rs) && Sort(rs) == rs
  {
    var rs := Run(admin, calls).Receipts(d);
    forall i, j | 0 <= i < j < |rs| ensures Before(KeyOf(rs[i]), KeyOf(rs[j])) {
      InStoredOrder(admin, calls, d, i, j);
    }
    SortOfSorted(rs);
  }

  /** Receipts are only ever appended. */
  lemma {:induction false} ReceiptsGrow(admin: Address, calls: seq<Call>, more: seq<Call>, d: int)
    ensures Run(admin, calls).Receipts(d) <= Run(admin, calls + more).Receipts(d)
    decreases |more|
  {
    if more == [] {
      assert calls + more == calls;
    } else {
      ReceiptsGrow(admin, calls, more[..|more| - 1], d);
      assert (calls + more)[..|calls + more| - 1] == calls + more[..|more| - 1];
    }
  }

  /** Between two page requests of a client, others may write. */
  datatype Event = Write(call: Call) | Fetch(limit: nat)

  /** What the client has: the pages so far, the cursor, and whether it saw the last page. */
  datatype View = View(seen: seq<Receipt>, cursor: Option<Key>, done: bool)

  ghost function Writes(events: seq<Event>): seq<Call> {
    if events == [] then [] else
      Writes(events[..|events| - 1]) + if events[|events| - 1].Write? then [events[|events| - 1].call] else []
  }

  ghost function Advanced(v: View, page: Page): View {
    View(v.seen + page.receipts, if page.hasNext then Some(page.nextCursor) else v.cursor, !page.hasNext)
  }

  ghost function Fetched(v: View, receipts: seq<Receipt>, limit: nat): View {
    if v.done then v
    else match PageOf(receipts, limit, v.cursor)
      case Err(_) => v
      case Ok(page) => Advanced(v, page)
  }

  /** The client's view of a deal after a history of `calls` and then `events`. */
  ghost function Play(admin: Address, calls: seq<Call>, deal: int, events: seq<Event>): View {
    if events == [] then View([], None, false) else
      var front, event := events[..|events| - 1], events[|events| - 1];
      var before := Play(admin, calls, deal, front);
      if event.Write? then before
      else Fetched(before, Run(admin, calls + Writes(front)).Receipts(deal), event.limit)
  }

  ghost predicate ViewInv(v: View, receipts: seq<Receipt>, first: seq<Receipt>) {
    && v.seen <= receipts
    && (if v.done then first <= v.seen
        else if v.seen == [] then v.cursor == None
        else v.cursor == Some(KeyOf(v.seen[|v.seen| - 1])))
  }

  lemma FetchKeepsView(v: View, receipts: seq<Receipt>, first: seq<Receipt>, limit: nat)
    requires ViewInv(v, receipts, first) && first <= receipts
    requires !v.done && PageOf(receipts, limit, v.cursor).Ok? ==>
      PageOf(receipts, limit, v.cursor) == Ok(PageFrom(receipts, |v.seen|, limit))
    ensures ViewInv(Fetched(v, receipts, limit), receipts, first)
  {
    if !v.done && PageOf(receipts, limit, v.cursor).Ok? {
      var page := PageFrom(receipts, |v.seen|, limit);
      FetchedIs(v, receipts, limit, page);
      PageKeepsView(v, receipts, first, limit, page);
    }
  }

  lemma FetchIsStable(v: View, receipts: seq<Receipt>, first: seq<Receipt>, limit: nat)
    requires ViewInv(v, receipts, first) && first <= receipts
    requires StrictlySorted(receipts)
    ensures ViewInv(Fetched(v, receipts, limit), receipts, first)
  {
    if !v.done && 1 <= limit <= 100 {
      PageContinuesView(v, receipts, first, limit);
    }
    FetchKeepsView(v, receipts, first, limit);
  }

  lemma PageContinuesView(v: View, receipts: seq<Receipt>, first: seq<Receipt>, limit: nat)
    requires ViewInv(v, receipts, first) && !v.done && 1 <= limit <= 100
    requires StrictlySorted(receipts)
    ensures PageOf(receipts, limit, v.cursor).Ok? ==>
      PageOf(receipts, limit, v.cursor) == Ok(PageFrom(receipts, |v.seen|, limit))
  {
    SortOfSorted(receipts);
    StrictIsDistinct(receipts);
    assert |v.seen| > 0 ==> v.seen[|v.seen| - 1] == receipts[|v.seen| - 1];
    PageContinues(receipts, limit, |v.seen|, v.cursor);
  }

  lemma PageKeepsView(v: View, receipts: seq<Receipt>, first: seq<Receipt>, limit: nat, page: Page)
    requires ViewInv(v, receipts, first) && first <= receipts && !v.done && limit >= 1
    requires page == PageFrom(receipts, |v.seen|, limit)
    ensures ViewInv(Advanced(v, page), receipts, first)
  {
    var n := |v.seen|;
    var end := EndOf(n, limit, |receipts|);
    assert v.seen == receipts[..n];
    WhatPageHolds(receipts, n, limit);
    SliceGrows(receipts, n, end);
    assert end > 0 ==> receipts[..end][end - 1] == receipts[end - 1];
  }

  lemma FetchedIs(v: View, receipts: seq<Receipt>, limit: nat, page: Page)
    requires !v.done && PageOf(receipts, limit, v.cursor) == Ok(page)
    ensures Fetched(v, receipts, limit) == Advanced(v, page)
  {
  }

  lemma SliceGrows(s: seq<Receipt>, n: nat, end: nat)
    requires n <= end <= |s|
    ensures s[..n] + s[n..end] == s[..end] && s[..end] <= s && (end == |s| ==> s[..end] == s)
  {
  }

  lemma StrictIsDistinct(s: seq<Receipt>)
    requires StrictlySorted(s)
    ensures DistinctKeys(s)
  {
    forall i, j | 0 <= i < j < |s| ensures KeyOf(s[i]) != KeyOf(s[j]) {
      BeforeIsStrictTotal(KeyOf(s[i]), KeyOf(s[j]), KeyOf(s[i]));
    }
  }

  /** Pagination is stable under appends: with time never going back, what a client has collected is always
      a prefix of the sorted list as it now stands, nothing skipped and nothing twice, whatever was written
      between its requests; and once it has seen the last page it has every receipt that existed when it
      started. */
  lemma {:induction false} PagesAreStable(admin: Address, calls: seq<Call>, deal: int, events: seq<Event>)
    requires CounterLasts(admin, calls + Writes(events)) && Clocked(calls + Writes(events))
    ensures var v, receipts := Play(admin, calls, deal, events), Run(admin, calls + Writes(events)).Receipts(deal);
      && Sort(receipts) == receipts
      && v.seen <= receipts
      && (v.done ==> Run(admin, calls).Receipts(deal) <= v.seen)
      && ViewInv(v, receipts, Run(admin, calls).Receipts(deal))
    decreases |events|
  {
    var all := calls + Writes(events);
    StoredInOrder(admin, all, deal);
    ReceiptsGrow(admin, calls, Writes(events), deal);
    if events != [] {
      var front, event := events[..|events| - 1], events[|events| - 1];
      var sofar := calls + Writes(front);
      PrefixLasts(admin, calls, events);
      PagesAreStable(admin, calls, deal, front);
      StoredInOrder(admin, sofar, deal);
      ReceiptsGrow(admin, calls, Writes(front), deal);
      EventKeepsView(admin, calls, deal, events, Run(admin, calls).Receipts(deal));
    }
  }

  lemma PrefixLasts(admin: Address, calls: seq<Call>, events: seq<Event>)
    requires events != [] && CounterLasts(admin, calls + Writes(events)) && Clocked(calls + Writes(events))
    ensures CounterLasts(admin, calls + Writes(events[..|events| - 1])) &&
        Clocked(calls + Writes(events[..|events| - 1]))
  {
    var all, sofar := calls + Writes(events), calls + Writes(events[..|events| - 1]);
    if events[|events| - 1].Write? {
      assert all[..|all| - 1] == sofar;
      LastedBefore(admin, all);
    } else {
      assert all == sofar;
    }
  }

  lemma EventKeepsView(admin: Address, calls: seq<Call>, deal: int, events: seq<Event>, first: seq<Receipt>)
    requires events != []
    requires var front := events[..|events| - 1];
      var receipts := Run(admin, calls + Writes(front)).Receipts(deal);
      && ViewInv(Play(admin, calls, deal, front), receipts, first) && first <= receipts
      && StrictlySorted(receipts)
    ensures ViewInv(Play(admin, calls, deal, events), Run(admin, calls + Writes(events)).Receipts(deal), first)
  {
    var front, event := events[..|events| - 1], events[|events| - 1];
    var all, sofar := calls + Writes(events), calls + Writes(front);
    if event.Write? {
      assert all == sofar + [event.call];
      ReceiptsGrow(admin, sofar, [event.call], deal);
    } else {
      assert all == sofar;
      FetchIsStable(Play(admin, calls, deal, front), Run(admin, sofar).Receipts(deal), first, event.limit);
    }
  }
}
