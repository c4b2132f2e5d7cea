/** rent_payments: transaction ids compare like (timestamp, counter), and the listing's sort is a sort. */
module RentPaymentsOrder {
  import opened Host
  import opened Members
  import opened RentPayments

  // ---- big-endian bytes ----

  function Pow256(k: nat): (p: int)
    ensures p > 0
  {
    if k == 0 then 1 else 256 * Pow256(k - 1)
  }

  function FromBigEndian(bytes: seq<int>): int {
    if bytes == [] then 0 else 256 * FromBigEndian(bytes[..|bytes| - 1]) + bytes[|bytes| - 1]
  }

  /** Reading back the bytes gives the number. */
  lemma {:induction false} BigEndianRoundTrip(n: int, k: nat)
    requires 0 <= n < Pow256(k)
    ensures FromBigEndian(BigEndian(n, k)) == n
    decreases k
  {
    if k > 0 {
      BigEndianRoundTrip(n / 256, k - 1);
      assert BigEndian(n, k)[..k - 1] == BigEndian(n / 256, k - 1);
    }
  }

  lemma U64IsEightBytes()
    ensures Pow256(8) == U64_MAX + 1
  {
    assert Pow256(4) == 256 * Pow256(3) && Pow256(3) == 256 * Pow256(2) && Pow256(2) == 256 * Pow256(1);
    assert Pow256(8) == 256 * Pow256(7) && Pow256(7) == 256 * Pow256(6) && Pow256(6) == 256 * Pow256(5) &&
        Pow256(5) == 256 * Pow256(4);
  }

  // ---- lexicographic order ----

  lemma {:induction false} LexOfConcat(a: seq<int>, b: seq<int>, c: seq<int>, d: seq<int>)
    requires |a| == |b|
    ensures LexLess(a + c, b + d) <==> LexLess(a, b) || (a == b && LexLess(c, d))
    decreases |a|
  {
    if a == [] {
      assert a + c == c && b + d == d;
    } else {
      LexOfConcat(a[1..], b[1..], c, d);
      assert (a + c)[1..] == a[1..] + c && (b + d)[1..] == b[1..] + d;
      assert a == b <==> a[0] == b[0] && a[1..] == b[1..] by {
        assert a == [a[0]] + a[1..] && b == [b[0]] + b[1..];
      }
    }
  }

  lemma {:induction false} LexIrreflexive(a: seq<int>)
    ensures !LexLess(a, a)
  {
    if a != [] {
      LexIrreflexive(a[1..]);
    }
  }

  lemma {:induction false} LexTransitive(a: seq<int>, b: seq<int>, c: seq<int>)
    requires LexLess(a, b) && LexLess(b, c)
    ensures LexLess(a, c)
  {
    if a != [] && a[0] == b[0] && b[0] == c[0] {
      LexTransitive(a[1..], b[1..], c[1..]);
    }
  }

  lemma {:induction false} LexTotal(a: seq<int>, b: seq<int>)
    ensures LexLess(a, b) || LexLess(b, a) || a == b
  {
    if a != [] && b != [] && a[0] == b[0] {
      LexTotal(a[1..], b[1..]);
      assert a == [a[0]] + a[1..] && b == [b[0]] + b[1..];
    }
  }

  lemma {:induction false} BigEndianOrder(x: int, y: int, k: nat)
    requires 0 <= x < Pow256(k) && 0 <= y < Pow256(k)
    ensures LexLess(BigEndian(x, k), BigEndian(y, k)) <==> x < y
    decreases k
  {
    if k > 0 {
      BigEndianOrder(x / 256, y / 256, k - 1);
      LexOfConcat(BigEndian(x / 256, k - 1), BigEndian(y / 256, k - 1), [x % 256], [y % 256]);
      BigEndianRoundTrip(x / 256, k - 1);
      BigEndianRoundTrip(y / 256, k - 1);
      OneByte(x % 256, y % 256);
    }
  }

  lemma OneByte(p: int, q: int)
    ensures LexLess([p], [q]) <==> p < q
  {
    assert [p][1..] == [] && [q][1..] == [];
  }

  lemma LexOfParts(a: seq<int>, b: seq<int>, p: seq<int>, a': seq<int>, b': seq<int>, p': seq<int>)
    requires |a| == |a'| && |b| == |b'| && (a == a' && b == b' ==> p == p')
    ensures LexLess(a + b + p, a' + b' + p') <==> LexLess(a, a') || (a == a' && LexLess(b, b'))
  {
    assert a + b + p == a + (b + p) && a' + b' + p' == a' + (b' + p');
    LexOfConcat(a, a', b + p, b' + p');
    LexOfConcat(b, b', p, p');
    LexIrreflexive(p);
  }

  /** Comparing two ids byte by byte is comparing (timestamp, counter). */
  lemma TxIdOrder(ts: U64, c: U64, ts': U64, c': U64)
    ensures LexLess(TxId(ts, c), TxId(ts', c')) <==> ts < ts' || (ts == ts' && c < c')
  {
    var id, id' := TxId(ts, c), TxId(ts', c');
    assert id == id[..8] + id[8..16] + id[16..] && id' == id'[..8] + id'[8..16] + id'[16..];
    TxIdParts(ts, c);
    TxIdParts(ts', c');
    U64BytesOrder(ts, ts');
    U64BytesOrder(c, c');
    LexOfParts(id[..8], id[8..16], id[16..], id'[..8], id'[8..16], id'[16..]);
  }

  lemma U64BytesOrder(x: U64, y: U64)
    ensures LexLess(BigEndian(x, 8), BigEndian(y, 8)) <==> x < y
    ensures BigEndian(x, 8) == BigEndian(y, 8) <==> x == y
  {
    U64IsEightBytes();
    BigEndianOrder(x, y, 8);
    U64BytesAreInjective(x, y);
  }

  lemma U64BytesAreInjective(x: U64, y: U64)
    ensures BigEndian(x, 8) == BigEndian(y, 8) <==> x == y
  {
    U64IsEightBytes();
    BigEndianRoundTrip(x, 8);
    BigEndianRoundTrip(y, 8);
  }

  lemma TxIdParts(ts: U64, c: U64)
    ensures TxId(ts, c)[..8] == BigEndian(ts, 8) && TxId(ts, c)[8..16] == BigEndian(c, 8)
  {
  }

  /** Equal ids come from the same timestamp and counter. */
  lemma TxIdIsInjective(ts: U64, c: U64, ts': U64, c': U64)
    ensures TxId(ts, c) == TxId(ts', c') <==> ts == ts' && c == c'
  {
    var id, id' := TxId(ts, c), TxId(ts', c');
    TxIdParts(ts, c);
    TxIdParts(ts', c');
    if id == id' {
      U64BytesAreInjective(ts, ts');
      U64BytesAreInjective(c, c');
    }
  }

  // ---- keys ----

  lemma BeforeIsStrictTotal(a: Key, b: Key, c: Key)
    ensures !Before(a, a)
    ensures Before(a, b) && Before(b, c) ==> Before(a, c)
    ensures Before(a, b) || Before(b, a) || a == b
    ensures !(Before(a, b) && Before(b, a))
  {
    LexIrreflexive(a.txId);
    LexTotal(a.txId, b.txId);
    if LexLess(a.txId, b.txId) && LexLess(b.txId, c.txId) {
      LexTransitive(a.txId, b.txId, c.txId);
    }
    if LexLess(a.txId, b.txId) && LexLess(b.txId, a.txId) {
      LexTransitive(a.txId, b.txId, a.txId);
    }
  }

  // ---- the sort ----

  ghost predicate Sorted(s: seq<Receipt>) {
    forall i, j :: 0 <= i < j < |s| ==> !Before(KeyOf(s[j]), KeyOf(s[i]))
  }

  ghost predicate StrictlySorted(s: seq<Receipt>) {
    forall i, j :: 0 <= i < j < |s| ==> Before(KeyOf(s[i]), KeyOf(s[j]))
  }

  ghost predicate DistinctKeys(s: seq<Receipt>) {
    forall i, j :: 0 <= i < j < |s| ==> KeyOf(s[i]) != KeyOf(s[j])
  }

  lemma {:induction false} InsertIsPermutation(s: seq<Receipt>, r: Receipt)
    ensures multiset(Insert(s, r)) == multiset(s) + multiset{r}
  {
    if s != [] && Before(KeyOf(r), KeyOf(s[|s| - 1])) {
      InsertIsPermutation(s[..|s| - 1], r);
      assert s == s[..|s| - 1] + [s[|s| - 1]];
    }
  }

  /** Insertion keeps every element in order with respect to a bound they all respect. */
  lemma {:induction false} InsertIsSorted(s: seq<Receipt>, r: Receipt)
    requires Sorted(s)
    ensures Sorted(Insert(s, r))
  {
    if s != [] && Before(KeyOf(r), KeyOf(s[|s| - 1])) {
      var front, last := s[..|s| - 1], s[|s| - 1];
      InsertIsSorted(front, r);
      InsertIsPermutation(front, r);
      var t := Insert(front, r);
      forall i | 0 <= i < |t| ensures !Before(KeyOf(last), KeyOf(t[i])) {
        assert t[i] in multiset(t);
        if t[i] == r {
          BeforeIsStrictTotal(KeyOf(last), KeyOf(r), KeyOf(last));
        } else {
          assert t[i] in multiset(front);
          var k := PositionOf(front, t[i]);
        }
      }
    } else if s != [] {
      var t, last := Insert(s, r), s[|s| - 1];
      forall i | 0 <= i < |s| ensures !Before(KeyOf(r), KeyOf(s[i])) {
        BeforeIsStrictTotal(KeyOf(s[i]), KeyOf(last), KeyOf(r));
        BeforeIsStrictTotal(KeyOf(last), KeyOf(r), KeyOf(s[i]));
        BeforeIsStrictTotal(KeyOf(r), KeyOf(s[i]), KeyOf(last));
      }
    }
  }

  /** The listing's sort gives a permutation of its input in (timestamp, tx_id) order. */
  lemma {:induction false} SortIsASort(s: seq<Receipt>)
    ensures multiset(Sort(s)) == multiset(s) && Sorted(Sort(s))
  {
    if s != [] {
      SortIsASort(s[..|s| - 1]);
      InsertIsPermutation(Sort(s[..|s| - 1]), s[|s| - 1]);
      InsertIsSorted(Sort(s[..|s| - 1]), s[|s| - 1]);
      assert s == s[..|s| - 1] + [s[|s| - 1]];
    }
  }

  /** With distinct keys the order is strict. */
  lemma SortIsStrict(s: seq<Receipt>)
    requires DistinctKeys(s)
    ensures StrictlySorted(Sort(s))
  {
    SortIsASort(s);
    var t := Sort(s);
    forall i, j | 0 <= i < j < |t| ensures Before(KeyOf(t[i]), KeyOf(t[j])) {
      DistinctAfterPermutation(s, t, i, j);
      BeforeIsStrictTotal(KeyOf(t[i]), KeyOf(t[j]), KeyOf(t[i]));
    }
  }

  lemma {:induction false} DistinctHoldsOnce(s: seq<Receipt>, x: Receipt)
    requires DistinctKeys(s)
    ensures multiset(s)[x] <= 1
  {
    if s != [] {
      var front, last := s[..|s| - 1], s[|s| - 1];
      DistinctHoldsOnce(front, x);
      assert s == front + [last];
      forall k | 0 <= k < |front| ensures front[k] != last {
        assert front[k] == s[k];
      }
      assert last !in front;
    }
  }

  lemma DistinctAfterPermutation(s: seq<Receipt>, t: seq<Receipt>, i: nat, j: nat)
    requires DistinctKeys(s) && multiset(s) == multiset(t) && i < j < |t|
    ensures KeyOf(t[i]) != KeyOf(t[j])
  {
    DistinctHoldsOnce(s, t[i]);
    Twice(t, i, j);
    assert t[i] in multiset(t) && t[j] in multiset(t);
    var a := PositionOf(s, t[i]);
    var b := PositionOf(s, t[j]);
    assert a != b;
  }

  lemma Twice(t: seq<Receipt>, i: nat, j: nat)
    requires i < j < |t|
    ensures t[i] == t[j] ==> multiset(t)[t[i]] >= 2
  {
    assert t == t[..i] + [t[i]] + t[i + 1..j] + [t[j]] + t[j + 1..];
  }

  /** A list already in strict order is its own sort. */
  lemma {:induction false} SortOfSorted(s: seq<Receipt>)
    requires StrictlySorted(s)
    ensures Sort(s) == s
  {
    if s != [] {
      var front, last := s[..|s| - 1], s[|s| - 1];
      forall i, j | 0 <= i < j < |front| ensures Before(KeyOf(front[i]), KeyOf(front[j])) {
        assert front[i] == s[i] && front[j] == s[j];
      }
      SortOfSorted(front);
      if |s| > 1 {
        assert Before(KeyOf(s[|s| - 2]), KeyOf(last));
        BeforeIsStrictTotal(KeyOf(s[|s| - 2]), KeyOf(last), KeyOf(last));
        assert front[|front| - 1] == s[|s| - 2];
      }
      assert Insert(front, last) == front + [last] == s;
    }
  }

  // ---- the cursor ----

  /** In a strictly sorted list the cursor of the receipt before position n leads back to n. */
  lemma {:induction false} CursorLeadsOn(s: seq<Receipt>, n: nat)
    requires StrictlySorted(s) && 0 < n <= |s|
    ensures StartAfter(s, KeyOf(s[n - 1])) == n
    decreases n
  {
    var cursor := KeyOf(s[n - 1]);
    BeforeIsStrictTotal(cursor, KeyOf(s[0]), cursor);
    assert s[1..] == s[1..|s|];
    if n > 1 {
      CursorLeadsOn(s[1..], n - 1);
    } else if |s| > 1 {
      assert Before(cursor, KeyOf(s[1..][0]));
    }
  }
}
