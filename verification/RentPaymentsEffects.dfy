/** rent_payments: the stored receipts are the accepted creations, in order. */
module RentPaymentsEffects {
  import opened Host
  import opened RentPayments
  import opened RentPaymentsOrder
  import opened RentPaymentsProofs

  /** The accepted creations for a deal. */
  ghost function Accepted(admin: Address, calls: seq<Call>, d: int): seq<Call> {
    if calls == [] then [] else
      var front, call := calls[..|calls| - 1], calls[|calls| - 1];
      Accepted(admin, front, d)
      + if Creates(Run(admin, front), call) && call.deal == d then [call] else []
  }

  /** A receipt says what its creation said, and how many receipts its deal then had. */
  ghost predicate Records(r: Receipt, call: Call, number: int) {
    && call.Create? && r.deal == call.deal && r.amount == call.amount && r.payer == call.payer
    && r.reference == call.reference && r.timestamp == call.now
    && (call.deal != U64_MAX ==> r.id == number)
  }

  lemma StepRecords(s: Store, call: Call, d: int, created: nat)
    requires CountInv(s, d, created)
    ensures var t := Apply(s, call);
      if Creates(s, call) && call.deal == d
      then
        && |t.Receipts(d)| == |s.Receipts(d)| + 1 && t.Receipts(d)[..|s.Receipts(d)|] == s.Receipts(d)
        && Records(t.Receipts(d)[|s.Receipts(d)|], call, |t.Receipts(d)|)
      else t.Receipts(d) == s.Receipts(d)
  {
    if Creates(s, call) {
      WhatCreateAppends(s, call);
    }
  }

  /** Over any run a deal's receipts are its accepted creations, in order, numbered from one. Only the reserved id,
      whose count every receipt shares, numbers otherwise. */
  lemma {:induction false} ReceiptsAreCreations(admin: Address, calls: seq<Call>, d: int, i: int)
    ensures |Run(admin, calls).Receipts(d)| == |Accepted(admin, calls, d)|
    ensures 0 <= i < |Run(admin, calls).Receipts(d)| ==>
      Records(Run(admin, calls).Receipts(d)[i], Accepted(admin, calls, d)[i], i + 1)
  {
    if calls != [] {
      var front, call := calls[..|calls| - 1], calls[|calls| - 1];
      ReceiptsAreCreations(admin, front, d, i);
      ReachableCount(admin, front, d);
      StepRecords(Run(admin, front), call, d, Created(admin, front));
    }
  }

  /** A creation is accepted exactly when unpaused, of a positive amount, under a reference new to the deal, while the
      deal's count fits 64 bits; it answers the receipt it appends. */
  lemma CreateSucceedsIff(s: Store, call: Call)
    requires call.Create?
    ensures Creates(s, call) <==>
      && !s.paused && call.amount > 0 && (call.deal, call.reference) !in s.used
      && 0 <= Get(s.counts, call.deal) + 1 <= U64_MAX
    ensures Creates(s, call) ==>
      var t := Apply(s, call);
      && t.Receipts(call.deal) != []
      && s.Create(call.deal, call.amount, call.payer, call.reference, call.now).value.value
         == t.Receipts(call.deal)[|t.Receipts(call.deal)| - 1]
  {
  }

  ghost predicate Uses(calls: seq<Call>, reference: seq<int>) {
    exists i :: UsesAt(calls, i, reference)
  }

  ghost predicate UsesAt(calls: seq<Call>, i: int, reference: seq<int>) {
    0 <= i < |calls| && calls[i].Create? && calls[i].reference == reference
  }

  lemma UsesAppend(calls: seq<Call>, call: Call, reference: seq<int>)
    ensures Uses(calls + [call], reference) <==> Uses(calls, reference) || (call.Create? && call.reference == reference)
  {
    if Uses(calls, reference) {
      var i :| UsesAt(calls, i, reference);
      assert UsesAt(calls + [call], i, reference);
    }
    if call.Create? && call.reference == reference {
      assert UsesAt(calls + [call], |calls|, reference);
    }
    if Uses(calls + [call], reference) {
      var i :| UsesAt(calls + [call], i, reference);
      assert i < |calls| ==> UsesAt(calls, i, reference);
    }
  }

  /** A reference is taken exactly when an accepted creation for the deal used it. */
  lemma {:induction false} UsedIsAccepted(admin: Address, calls: seq<Call>, d: U64, reference: seq<int>)
    ensures (d, reference) in Run(admin, calls).used <==> Uses(Accepted(admin, calls, d), reference)
  {
    if calls != [] {
      var front, call := calls[..|calls| - 1], calls[|calls| - 1];
      UsedIsAccepted(admin, front, d, reference);
      UsesAppend(Accepted(admin, front, d), call, reference);
      StepUses(Run(admin, front), call, d, reference);
      assert Accepted(admin, front, d) + [] == Accepted(admin, front, d);
    }
  }

  lemma StepUses(s: Store, call: Call, d: U64, reference: seq<int>)
    ensures (d, reference) in Apply(s, call).used <==>
      (d, reference) in s.used || (Creates(s, call) && call.deal == d && call.reference == reference)
  {
    if Creates(s, call) {
      WhatCreateAppends(s, call);
    }
  }

  // ---- ids and pages ----

  /** What the bytes of an id say: the timestamp, the counter, and a pattern that counts up from the low byte of the
      timestamp plus sixteen, modulo 256. */
  lemma TxIdReadsBack(ts: U64, c: U64)
    ensures var id := TxId(ts, c);
      && |id| == 32 && FromBigEndian(id[..8]) == ts && FromBigEndian(id[8..16]) == c
      && forall i :: 16 <= i < 32 ==> id[i] == (ts + i) % 256
  {
    U64IsEightBytes();
    BigEndianRoundTrip(ts, 8);
    BigEndianRoundTrip(c, 8);
    TxIdParts(ts, c);
    forall i | 16 <= i < 32 ensures TxId(ts, c)[i] == (ts + i) % 256 {
      LowByte(ts, i);
    }
  }

  lemma LowByte(ts: int, i: int)
    ensures (ts % 256 + i) % 256 == (ts + i) % 256
  {
  }

  /** A page is given exactly for a limit of one to a hundred whose sum with the start fits 32 bits. A page without a
      next one has the empty cursor: time zero and 32 zero bytes. */
  lemma PageSucceedsIff(receipts: seq<Receipt>, limit: nat, cursor: Option<Key>)
    ensures var start := if cursor.Some? then StartAfter(Sort(receipts), cursor.value) else 0;
      PageOf(receipts, limit, cursor).Ok? <==> 1 <= limit <= 100 && start + limit <= U32_MAX
    ensures PageOf(receipts, limit, cursor).Ok? && !PageOf(receipts, limit, cursor).value.hasNext ==>
      var empty := PageOf(receipts, limit, cursor).value.nextCursor;
      empty.timestamp == 0 && |empty.txId| == 32 && forall i :: 0 <= i < 32 ==> empty.txId[i] == 0
  {
  }
}
