/** rent_payments: receipts with generated transaction ids, listed in pages by a (timestamp, tx_id) cursor. */
module RentPayments {
  import opened Host

  type U64 = x: int | 0 <= x <= 0xFFFF_FFFF_FFFF_FFFF

  datatype Error = InvalidAmount | InvalidLimit | Paused | DuplicateReference | Overflow

  /** A sort key, and so also a cursor: a timestamp and the 32 bytes of a transaction id. */
  datatype Key = Key(timestamp: int, txId: seq<int>)

  datatype Receipt = Receipt(
    id: int, deal: int, amount: int, timestamp: int, txId: seq<int>, payer: Address, reference: seq<int>)

  datatype Page = Page(receipts: seq<Receipt>, hasNext: bool, nextCursor: Key)

  // ---- transaction ids ----

  /** The low k bytes of n, most significant first. */
  function BigEndian(n: int, k: nat): (bytes: seq<int>)
    requires n >= 0
    ensures |bytes| == k
    decreases k
  {
    if k == 0 then [] else BigEndian(n / 256, k - 1) + [n % 256]
  }

  function TxId(timestamp: U64, counter: U64): (bytes: seq<int>)
    ensures |bytes| == 32
  {
    BigEndian(timestamp, 8) + BigEndian(counter, 8) +
        seq(16, i requires 0 <= i < 16 => (timestamp % 256 + 16 + i) % 256)
  }

  // ---- order ----

  /** Rust's order on byte arrays. */
  predicate LexLess(a: seq<int>, b: seq<int>) {
    if b == [] then false
    else if a == [] then true
    else a[0] < b[0] || (a[0] == b[0] && LexLess(a[1..], b[1..]))
  }

  predicate Before(a: Key, b: Key) {
    a.timestamp < b.timestamp || (a.timestamp == b.timestamp && LexLess(a.txId, b.txId))
  }

  function KeyOf(r: Receipt): Key {
    Key(r.timestamp, r.txId)
  }

  /** Where insertion from the right puts a receipt. */
  function Insert(s: seq<Receipt>, r: Receipt): (t: seq<Receipt>)
    ensures |t| == |s| + 1
  {
    if s == [] || !Before(KeyOf(r), KeyOf(s[|s| - 1])) then s + [r]
    else Insert(s[..|s| - 1], r) + [s[|s| - 1]]
  }

  function Sort(s: seq<Receipt>): (t: seq<Receipt>)
    ensures |t| == |s|
  {
    if s == [] then [] else Insert(Sort(s[..|s| - 1]), s[|s| - 1])
  }

  // ---- pages ----

  /** How many receipts of a sorted list come no later than the cursor before the first that does. */
  function StartAfter(s: seq<Receipt>, cursor: Key): (start: nat)
    ensures start <= |s|
  {
    if s == [] || Before(cursor, KeyOf(s[0])) then 0 else 1 + StartAfter(s[1..], cursor)
  }

  function PageFrom(sorted: seq<Receipt>, start: nat, limit: nat): Page
    requires start <= |sorted|
  {
    var end := if start + limit < |sorted| then start + limit else |sorted|;
    var page := sorted[start..end];
    if end < |sorted| && page != [] then Page(page, true, KeyOf(page[|page| - 1]))
    else Page(page, false, Key(0, seq(32, _ => 0)))
  }

  function PageOf(receipts: seq<Receipt>, limit: nat, cursor: Option<Key>): Outcome<Page, Error> {
    if limit == 0 || limit > 100 then Err(InvalidLimit)
    else
      var sorted := Sort(receipts);
      var start := if cursor.Some? then StartAfter(sorted, cursor.value) else 0;
      if start + limit > U32_MAX then Err(Overflow) else Ok(PageFrom(sorted, start, limit))
  }

  // ---- storage ----

  datatype Done = Done(store: Store, value: Receipt)

  type Reply = Outcome<Done, Error>

  /** The global counter is the count kept under the deal id u64::MAX; it wraps. */
  function NextCounter(counts: map<int, int>): U64 {
    (Get(counts, U64_MAX) + 1) % 0x1_0000_0000_0000_0000
  }

  datatype Store = Store(
    admin: Address, paused: bool, receipts: map<int, seq<Receipt>>, counts: map<int, int>, used: set<(int, seq<int>)>)
  {
    function Receipts(deal: int): seq<Receipt> {
      if deal in receipts then receipts[deal] else []
    }

    /** The deal's own count goes up first, then the global counter. */
    function Create(deal: U64, amount: int, payer: Address, reference: seq<int>, now: U64): Reply {
      if paused then Err(Paused)
      else if amount <= 0 then Err(InvalidAmount)
      else if (deal, reference) in used then Err(DuplicateReference)
      else
        var id := Get(counts, deal) + 1;
        if !FitsU64(id) then Err(Overflow)
        else
          var counted := counts[deal := id];
          var counter := NextCounter(counted);
          var receipt := Receipt(id, deal, amount, now, TxId(now, counter), payer, reference);
          Ok(Done(this.(
            counts := counted[U64_MAX := counter],
            receipts := receipts[deal := Receipts(deal) + [receipt]],
            used := used + {(deal, reference)}), receipt))
    }
  }

  function Initial(admin: Address): Store {
    Store(admin, false, map[], map[], {})
  }

  function After(s: Store, reply: Reply): Store {
    if reply.Ok? then reply.value.store else s
  }

  function Answer(reply: Reply): Outcome<Receipt, Error> {
    match reply
    case Ok(done) => Ok(done.value)
    case Err(e) => Err(e)
  }

  /** Writes a u64 into eight bytes, last byte first. */
  method PutU64(bytes: array<int>, at: nat, value: U64)
    requires at + 8 <= bytes.Length
    modifies bytes
    ensures bytes[at..at + 8] == BigEndian(value, 8)
    ensures bytes[..at] == old(bytes[..at]) && bytes[at + 8..] == old(bytes[at + 8..])
  {
    var rest: int := value;
    var i := 8;
    while i > 0
      invariant 0 <= i <= 8 && rest >= 0
      invariant BigEndian(value, 8) == BigEndian(rest, i) + bytes[at + i..at + 8]
      invariant bytes[..at] == old(bytes[..at]) && bytes[at + 8..] == old(bytes[at + 8..])
    {
      i := i - 1;
      ghost var tail := bytes[at + i + 1..at + 8];
      bytes[at + i] := rest % 256;
      assert bytes[at + i..at + 8] == [rest % 256] + tail;
      assert BigEndian(rest, i + 1) == BigEndian(rest / 256, i) + [rest % 256];
      rest := rest / 256;
    }
  }

  method BuildTxId(timestamp: U64, counter: U64) returns (id: seq<int>)
    ensures id == TxId(timestamp, counter)
  {
    var bytes := new int[32](_ => 0);
    PutU64(bytes, 0, timestamp);
    PutU64(bytes, 8, counter);
    assert bytes[..16] == bytes[..8] + bytes[8..16];
    FillPattern(bytes, timestamp % 256);
    assert bytes[..] == bytes[..16] + bytes[16..];
    return bytes[..];
  }

  /** The last sixteen bytes: the timestamp's low byte plus the position, wrapped. */
  method FillPattern(bytes: array<int>, low: int)
    requires bytes.Length == 32
    modifies bytes
    ensures bytes[..16] == old(bytes[..16])
    ensures bytes[16..] == seq(16, i requires 0 <= i < 16 => (low + 16 + i) % 256)
  {
    for i := 16 to 32
      invariant bytes[..16] == old(bytes[..16])
      invariant forall k :: 16 <= k < i ==> bytes[k] == (low + k) % 256
    {
      bytes[i] := (low + i) % 256;
    }
  }

  lemma SortStep(s: seq<Receipt>, i: nat)
    requires i < |s|
    ensures Sort(s[..i + 1]) == Insert(Sort(s[..i]), s[i])
  {
    assert s[..i + 1][..i] == s[..i] && s[..i + 1][i] == s[i];
  }

  /** The insertion sort of the listing, in place. */
  method SortInPlace(a: array<Receipt>)
    modifies a
    ensures a[..] == Sort(old(a[..]))
  {
    ghost var was := a[..];
    if a.Length > 0 {
      SortStep(was, 0);
      assert Sort(was[..0]) == [] && was[..1] == [was[0]];
    }
    if a.Length > 1 {
      var i := 1;
      while i < a.Length
        invariant 1 <= i <= a.Length
        invariant a[..i] == Sort(was[..i])
        invariant forall k :: i <= k < a.Length ==> a[k] == was[k]
      {
        InsertInPlace(a, i);
        SortStep(was, i);
        i := i + 1;
      }
    }
    assert was[..a.Length] == was && a[..a.Length] == a[..];
  }

  /** The receipts of p between j and i, each one place to the right, leaving a gap at j. */
  ghost predicate Shifted(c: seq<Receipt>, p: seq<Receipt>, j: int, i: int) {
    && 0 <= j <= i < |p| == |c|
    && (forall k :: 0 <= k < j || i < k < |p| ==> c[k] == p[k])
    && (forall k :: j < k <= i ==> c[k] == p[k - 1])
  }

  lemma ShiftOne(c: seq<Receipt>, p: seq<Receipt>, j: int, i: int)
    requires Shifted(c, p, j, i) && j > 0
    ensures Shifted(c[j := c[j - 1]], p, j - 1, i)
  {
  }

  lemma PassOne(p: seq<Receipt>, key: Receipt, j: nat, i: nat)
    requires 0 < j <= i <= |p| && Before(KeyOf(key), KeyOf(p[j - 1]))
    ensures Insert(p[..j], key) + p[j..i] == Insert(p[..j - 1], key) + p[j - 1..i]
  {
    assert p[..j][..j - 1] == p[..j - 1];
    assert [p[j - 1]] + p[j..i] == p[j - 1..i];
    assert Insert(p[..j], key) == Insert(p[..j - 1], key) + [p[j - 1]];
  }

  lemma FillGap(c: seq<Receipt>, p: seq<Receipt>, key: Receipt, j: nat, i: nat)
    requires Shifted(c, p, j, i) && (j == 0 || !Before(KeyOf(key), KeyOf(p[j - 1])))
    ensures c[j := key][..i + 1] == Insert(p[..j], key) + p[j..i]
  {
    assert Insert(p[..j], key) == p[..j] + [key];
    assert c[j := key][..i + 1] == p[..j] + [key] + p[j..i];
  }

  /** One pass: shifts the later receipts right and drops receipt i into the gap. */
  method InsertInPlace(a: array<Receipt>, i: nat)
    requires i < a.Length
    modifies a
    ensures a[..i + 1] == Insert(old(a[..i]), old(a[i]))
    ensures forall k :: i < k < a.Length ==> a[k] == old(a[k])
  {
    ghost var p := a[..];
    var key := a[i];
    var j := i;
    assert p[i..i] == [];
    while j > 0 && Before(KeyOf(key), KeyOf(a[j - 1]))
      invariant 0 <= j <= i && Shifted(a[..], p, j, i)
      invariant Insert(p[..i], key) == Insert(p[..j], key) + p[j..i]
    {
      ghost var c := a[..];
      ShiftOne(c, p, j, i);
      PassOne(p, key, j, i);
      a[j] := a[j - 1];
      assert a[..] == c[j := c[j - 1]];
      j := j - 1;
    }
    ghost var c := a[..];
    FillGap(c, p, key, j, i);
    a[j] := key;
    assert a[..] == c[j := key];
    assert a[..i + 1] == c[j := key][..i + 1];
    assert p[..i] == old(a[..i]);
  }

  /** list_receipts_by_deal: copies the stored receipts, sorts the copy, finds where the cursor ends, with 0
      standing for "not found" until checked, and cuts out the page. */
  method ListReceipts(receipts: seq<Receipt>, limit: nat, cursor: Option<Key>) returns (r: Outcome<Page, Error>)
    ensures r == PageOf(receipts, limit, cursor)
  {
    if limit == 0 || limit > 100 {
      return Err(InvalidLimit);
    }
    var sorted := SortedCopy(receipts);
    var start := 0;
    if cursor.Some? {
      start := FindStart(sorted, cursor.value);
    }
    if start + limit > U32_MAX {
      return Err(Overflow);
    }
    var page := CutPage(sorted, start, limit);
    return Ok(page);
  }

  method SortedCopy(receipts: seq<Receipt>) returns (sorted: seq<Receipt>)
    ensures sorted == Sort(receipts)
  {
    var copy := new Receipt[|receipts|](i requires 0 <= i < |receipts| => receipts[i]);
    assert copy[..] == receipts;
    SortInPlace(copy);
    return copy[..];
  }

  method CutPage(sorted: seq<Receipt>, start: nat, limit: nat) returns (r: Page)
    requires start <= |sorted|
    ensures r == PageFrom(sorted, start, limit)
  {
    var end := if start + limit < |sorted| then start + limit else |sorted|;
    var page := [];
    for i := start to end
      invariant page == sorted[start..i]
    {
      page := page + [sorted[i]];
    }
    if end < |sorted| && page != [] {
      var last := page[|page| - 1];
      return Page(page, true, Key(last.timestamp, last.txId));
    }
    return Page(page, false, Key(0, seq(32, _ => 0)));
  }

  method FindStart(sorted: seq<Receipt>, cursor: Key) returns (start: nat)
    ensures start == StartAfter(sorted, cursor)
  {
    start := 0;
    var i := 0;
    while i < |sorted|
      invariant 0 <= i <= |sorted| && start == 0
      invariant StartAfter(sorted, cursor) == i + StartAfter(sorted[i..], cursor)
      invariant i > 0 ==> !Before(cursor, KeyOf(sorted[0]))
    {
      if Before(cursor, KeyOf(sorted[i])) {
        start := i;
        break;
      }
      assert sorted[i..][1..] == sorted[i + 1..];
      i := i + 1;
    }
    if start == 0 && sorted != [] {
      if !Before(cursor, KeyOf(sorted[0])) {
        start := |sorted|;
      }
    }
  }

  class Contract {
    const admin: Address
    var paused: bool
    var receipts: map<int, seq<Receipt>>
    var counts: map<int, int>
    var used: set<(int, seq<int>)>

    function State(): Store
      reads this
    {
      Store(admin, paused, receipts, counts, used)
    }

    constructor (admin: Address)
      ensures State() == Initial(admin)
    {
      this.admin, paused, receipts, counts, used := admin, false, map[], map[], {};
    }

    /** get_tx_id: bumps the global counter and builds the id from it. */
    method NextTxId(timestamp: U64) returns (id: seq<int>)
      modifies this`counts
      ensures id == TxId(timestamp, NextCounter(old(counts)))
      ensures counts == old(counts)[U64_MAX := NextCounter(old(counts))]
    {
      var counter := NextCounter(counts);
      counts := counts[U64_MAX := counter];
      id := BuildTxId(timestamp, counter);
    }

    method CreateReceipt(deal: U64, amount: int, payer: Address, reference: seq<int>, now: U64)
      returns (r: Outcome<Receipt, Error>)
      modifies this
      ensures var spec := old(State()).Create(deal, amount, payer, reference, now);
        State() == After(old(State()), spec) && r == Answer(spec)
    {
      if paused {
        return Err(Paused);
      }
      if amount <= 0 {
        return Err(InvalidAmount);
      }
      if (deal, reference) in used {
        return Err(DuplicateReference);
      }
      var id := Get(counts, deal) + 1;
      if !FitsU64(id) {
        return Err(Overflow);
      }
      counts := counts[deal := id];
      var txId := NextTxId(now);
      var receipt := Receipt(id, deal, amount, now, txId, payer, reference);
      var stored := if deal in receipts then receipts[deal] else [];
      receipts := receipts[deal := stored + [receipt]];
      used := used + {(deal, reference)};
      return Ok(receipt);
    }

    method ListReceiptsByDeal(deal: U64, limit: nat, cursor: Option<Key>) returns (r: Outcome<Page, Error>)
      ensures r == PageOf(State().Receipts(deal), limit, cursor)
    {
      r := ListReceipts(if deal in receipts then receipts[deal] else [], limit, cursor);
    }
  }
}
