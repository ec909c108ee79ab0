/** The ledger of payment hashes a recipient has registered, one active order for each peer. */
module OrderLedger {
  import opened Wrappers
  import opened Text
  import opened BatchCommitment

  const MAX_HASHES: nat := 200
  const PROTOCOL_VERSION: u64 := 1

  datatype LedgerError =
    | UnsupportedVersion
    | InvalidBatch
    | DuplicateIndexConflict
    | DuplicateHashConflict
    | OrderIdOverflow

  type Hashes = map<u64, string>
  type Item = (u64, string)

  datatype Params = Params(protocolVersion: u64, hashes: seq<HashWire>)

  datatype Snapshot = Snapshot(orderId: u64, acceptedThrough: u64, nextExpected: u64, unused: nat)

  // ----- parsing a batch

  ghost predicate Consecutive(batch: seq<Item>) {
    forall i :: 0 < i < |batch| ==> batch[i].0 == SaturatingAdd(batch[i - 1].0, 1)
  }

  /** The parsed batch: canonical lower-case hashes, each index the saturated successor of the one
      before it. */
  function ParseBatch(hashes: seq<HashWire>): (r: Option<seq<Item>>)
    ensures r.Some? ==> |r.value| == |hashes|
    ensures r.Some? ==> forall i :: 0 <= i < |hashes| ==> r.value[i].0 == hashes[i].hashIndex
    ensures r.Some? ==> Consecutive(r.value)
  {
    if hashes == [] then Some([])
    else
      var n := |hashes| - 1;
      match (ParseBatch(hashes[..n]), ParsePaymentHash(hashes[n].paymentHash))
      case (Some(batch), Some(h)) =>
        if n > 0 && hashes[n].hashIndex != SaturatingAdd(hashes[n - 1].hashIndex, 1) then None
        else Some(batch + [(hashes[n].hashIndex, HexStr(h))])
      case _ => None
  }

  ghost predicate AllParse(hashes: seq<HashWire>) {
    forall i :: 0 <= i < |hashes| ==> ParsePaymentHash(hashes[i].paymentHash).Some?
  }

  /** Each index is one more than the one before it; the greatest may repeat. */
  ghost predicate InSequence(hashes: seq<HashWire>) {
    forall i :: 0 < i < |hashes| ==>
      || hashes[i].hashIndex == hashes[i - 1].hashIndex + 1
      || hashes[i].hashIndex == hashes[i - 1].hashIndex == TWO_64 - 1
  }

  lemma OneMoreWire(hashes: seq<HashWire>, n: nat)
    requires |hashes| == n + 1
    ensures AllParse(hashes) <==> AllParse(hashes[..n]) && ParsePaymentHash(hashes[n].paymentHash).Some?
    ensures InSequence(hashes) <==>
            InSequence(hashes[..n]) && (n == 0 || hashes[n].hashIndex == SaturatingAdd(hashes[n - 1].hashIndex, 1))
  {
    assert forall i :: 0 <= i < n ==> hashes[..n][i] == hashes[i];
  }

  lemma ParsedWithLast(hashes: seq<HashWire>, n: nat)
    requires |hashes| == n + 1
    ensures ParseBatch(hashes).Some? <==>
            && ParseBatch(hashes[..n]).Some? && ParsePaymentHash(hashes[n].paymentHash).Some?
            && (n == 0 || hashes[n].hashIndex == SaturatingAdd(hashes[n - 1].hashIndex, 1))
  {
  }

  /** A batch parses exactly if every hash does and every index follows the one before it. */
  lemma {:induction false} BatchParsed(hashes: seq<HashWire>)
    ensures ParseBatch(hashes).Some? <==> AllParse(hashes) && InSequence(hashes)
  {
    if hashes == [] {
      assert ParseBatch(hashes) == Some([]);
    } else {
      var n := |hashes| - 1;
      BatchParsed(hashes[..n]);
      OneMoreWire(hashes, n);
      ParsedWithLast(hashes, n);
    }
  }

  /** The items have the indices as they are and the hashes in their one lower-case spelling. */
  lemma {:induction false} ParsedItem(hashes: seq<HashWire>, i: nat)
    requires i < |hashes| && ParseBatch(hashes).Some?
    ensures ParsePaymentHash(hashes[i].paymentHash).Some?
    ensures ParseBatch(hashes).value[i] ==
      (hashes[i].hashIndex, HexStr(ParsePaymentHash(hashes[i].paymentHash).value))
  {
    if i < |hashes| - 1 { ParsedItem(hashes[..|hashes| - 1], i); }
  }

  lemma {:induction false} ParseBatchPrefix(hashes: seq<HashWire>, n: nat)
    requires n <= |hashes| && ParseBatch(hashes).Some?
    ensures ParseBatch(hashes[..n]).Some?
  {
    if n == |hashes| {
      assert hashes[..n] == hashes;
    } else {
      ParseBatchPrefix(hashes[..|hashes| - 1], n);
      assert hashes[..|hashes| - 1][..n] == hashes[..n];
    }
  }

  /** An entry that does not parse, or does not follow the one before it, makes the whole batch fail; any other
      is added to what is parsed already. */
  lemma ParseBatchStep(hashes: seq<HashWire>, i: nat)
    requires i < |hashes| && ParseBatch(hashes[..i]).Some?
    ensures var hash := ParsePaymentHash(hashes[i].paymentHash);
            var done := ParseBatch(hashes[..i]).value;
            if hash.None? || (i > 0 && hashes[i].hashIndex != SaturatingAdd(hashes[i - 1].hashIndex, 1))
            then ParseBatch(hashes).None?
            else ParseBatch(hashes[..i + 1]) == Some(done + [(hashes[i].hashIndex, HexStr(hash.value))])
  {
    assert hashes[..i + 1][..i] == hashes[..i];
    if ParseBatch(hashes).Some? { ParseBatchPrefix(hashes, i + 1); }
  }

  method ParseHashBatch(hashes: seq<HashWire>) returns (r: Option<seq<Item>>)
    ensures r == ParseBatch(hashes)
  {
    var parsed: seq<Item> := [];
    var previous: Option<u64> := None;
    for i := 0 to |hashes|
      invariant ParseBatch(hashes[..i]) == Some(parsed)
      invariant previous == if i == 0 then None else Some(hashes[i - 1].hashIndex)
    {
      var entry := hashes[i];
      ParseBatchStep(hashes, i);
      var hash := ParseHash(entry.paymentHash);
      if hash.None? || (previous.Some? && entry.hashIndex != SaturatingAdd(previous.value, 1)) { return None; }
      previous := Some(entry.hashIndex);
      parsed := parsed + [(entry.hashIndex, HexStr(hash.value))];
    }
    assert hashes[..|hashes|] == hashes;
    return Some(parsed);
  }

  // ----- merging a batch into an order

  lemma {:induction false} GreatestExists(s: set<u64>)
    requires s != {}
    ensures exists k :: k in s && forall j <- s :: j <= k
  {
    var k :| k in s;
    if j :| j in s && j > k {
      assert j in s - {k};
      GreatestExists(s - {k});
      var g :| g in s - {k} && forall i <- s - {k} :: i <= g;
      assert forall i <- s :: i == k || i in s - {k};
      assert g in s && forall i <- s :: i <= g;
    }
  }

  function HighestHashIndex(hashes: Hashes): u64 {
    if hashes.Keys == {} then 0
    else
      GreatestExists(hashes.Keys);
      var k :| k in hashes.Keys && forall j <- hashes.Keys :: j <= k;
      k
  }

  function NextHashIndex(hashes: Hashes): u64 { SaturatingAdd(HighestHashIndex(hashes), 1) }

  predicate HeldElsewhere(hashes: Hashes, item: Item) {
    exists k <- hashes.Keys :: k != item.0 && hashes[k] == item.1
  }

  /** The conflict found at item `i`, in the order the checks are made. */
  function Conflict(hashes: Hashes, batch: seq<Item>, i: nat): Option<LedgerError>
    requires i < |batch|
  {
    if exists j :: 0 <= j < i && batch[j].1 == batch[i].1 then Some(DuplicateHashConflict)
    else if batch[i].0 in hashes && hashes[batch[i].0] != batch[i].1 then Some(DuplicateIndexConflict)
    else if HeldElsewhere(hashes, batch[i]) then Some(DuplicateHashConflict)
    else None
  }

  function FirstConflict(hashes: Hashes, batch: seq<Item>, n: nat): Option<LedgerError>
    requires n <= |batch|
  {
    if n == 0 then None
    else
      var before := FirstConflict(hashes, batch, n - 1);
      if before.Some? then before else Conflict(hashes, batch, n - 1)
  }

  function CountMissing(hashes: Hashes, batch: seq<Item>): nat {
    if batch == [] then 0
    else
      var n := |batch| - 1;
      CountMissing(hashes, batch[..n]) + if batch[n].0 in hashes then 0 else 1
  }

  predicate SomeKnown(hashes: Hashes, batch: seq<Item>) {
    exists i :: 0 <= i < |batch| && batch[i].0 in hashes
  }

  predicate SomeMissing(hashes: Hashes, batch: seq<Item>) {
    exists i :: 0 <= i < |batch| && batch[i].0 !in hashes
  }

  function InsertAll(hashes: Hashes, batch: seq<Item>): Hashes {
    if batch == [] then hashes
    else
      var n := |batch| - 1;
      InsertAll(hashes, batch[..n])[batch[n].0 := batch[n].1]
  }

  function Merge(hashes: Hashes, batch: seq<Item>): Result<Hashes, LedgerError> {
    var conflict := FirstConflict(hashes, batch, |batch|);
    if batch == [] then Err(InvalidBatch)
    else if conflict.Some? then Err(conflict.value)
    else if |hashes| + CountMissing(hashes, batch) > MAX_HASHES then Err(InvalidBatch)
    else if SomeKnown(hashes, batch) && SomeMissing(hashes, batch) then Err(InvalidBatch)
    else if SomeKnown(hashes, batch) then Ok(hashes)
    else if batch[0].0 != NextHashIndex(hashes) then Err(InvalidBatch)
    else Ok(InsertAll(hashes, batch))
  }

  lemma {:induction false} FirstConflictMonotone(hashes: Hashes, batch: seq<Item>, n: nat, m: nat)
    requires n <= m <= |batch| && FirstConflict(hashes, batch, n).Some?
    ensures FirstConflict(hashes, batch, m) == FirstConflict(hashes, batch, n)
  {
    if n < m { FirstConflictMonotone(hashes, batch, n, m - 1); }
  }

  lemma {:induction false} NoConflict(hashes: Hashes, batch: seq<Item>, n: nat)
    requires n <= |batch|
    ensures FirstConflict(hashes, batch, n).None? <==> forall i :: 0 <= i < n ==> Conflict(hashes, batch, i).None?
  {
    if n > 0 { NoConflict(hashes, batch, n - 1); }
  }

  /** The item repeats the hash of an earlier one of the batch. */
  predicate Repeats(batch: seq<Item>, i: nat)
    requires i < |batch|
  {
    exists j :: 0 <= j < i && batch[j].1 == batch[i].1
  }

  /** The ledger has another hash under the item's index. */
  predicate IndexTaken(hashes: Hashes, item: Item) { item.0 in hashes && hashes[item.0] != item.1 }

  predicate Clean(hashes: Hashes, batch: seq<Item>, i: nat)
    requires i < |batch|
  {
    !Repeats(batch, i) && !IndexTaken(hashes, batch[i]) && !HeldElsewhere(hashes, batch[i])
  }

  lemma ConflictOfItem(hashes: Hashes, batch: seq<Item>, i: nat)
    requires i < |batch|
    ensures Conflict(hashes, batch, i) ==
      if Clean(hashes, batch, i) then None
      else if !Repeats(batch, i) && IndexTaken(hashes, batch[i]) then Some(DuplicateIndexConflict)
      else Some(DuplicateHashConflict)
  {
  }

  /** No conflict is reported exactly if every item is clean. Otherwise the first that is not decides which: a
      taken index, unless the item repeats a hash of the batch; and a hash that is used already in any other
      case. */
  lemma FirstConflictExactly(hashes: Hashes, batch: seq<Item>, i: nat)
    requires i <= |batch| && forall j :: 0 <= j < i ==> Clean(hashes, batch, j)
    ensures i == |batch| ==> FirstConflict(hashes, batch, |batch|) == None
    ensures i < |batch| && !Clean(hashes, batch, i) ==>
      FirstConflict(hashes, batch, |batch|) ==
        Some(if !Repeats(batch, i) && IndexTaken(hashes, batch[i]) then DuplicateIndexConflict
             else DuplicateHashConflict)
  {
    forall j | 0 <= j < i ensures Conflict(hashes, batch, j).None? {
      assert Clean(hashes, batch, j);
      ConflictOfItem(hashes, batch, j);
    }
    NoConflict(hashes, batch, i);
    if i < |batch| && !Clean(hashes, batch, i) {
      ConflictOfItem(hashes, batch, i);
      FirstConflictMonotone(hashes, batch, i + 1, |batch|);
    }
  }

  method ScanBatch(hashes: Hashes, batch: seq<Item>)
      returns (conflict: Option<LedgerError>, sawExisting: bool, sawMissing: bool)
    ensures conflict == FirstConflict(hashes, batch, |batch|)
    ensures conflict.None? ==> sawExisting == SomeKnown(hashes, batch) && sawMissing == SomeMissing(hashes, batch)
  {
    conflict, sawExisting, sawMissing := None, false, false;
    var seen: set<string> := {};
    for i := 0 to |batch|
      invariant FirstConflict(hashes, batch, i) == conflict == None
      invariant forall h :: h in seen <==> exists j :: 0 <= j < i && batch[j].1 == h
      invariant sawExisting == SomeKnown(hashes, batch[..i])
      invariant sawMissing == SomeMissing(hashes, batch[..i])
    {
      assert batch[..i + 1] == batch[..i] + [batch[i]];
      if batch[i].1 in seen {
        conflict := Some(DuplicateHashConflict);
      } else if batch[i].0 in hashes && hashes[batch[i].0] != batch[i].1 {
        conflict := Some(DuplicateIndexConflict);
      } else if HeldElsewhere(hashes, batch[i]) {
        conflict := Some(DuplicateHashConflict);
      }
      if conflict.Some? {
        FirstConflictMonotone(hashes, batch, i + 1, |batch|);
        return;
      }
      KnownOrMissingLast(hashes, batch, i);
      seen := seen + {batch[i].1};
      if batch[i].0 in hashes { sawExisting := true; } else { sawMissing := true; }
    }
    assert batch[..|batch|] == batch;
  }

  lemma KnownOrMissingLast(hashes: Hashes, batch: seq<Item>, i: nat)
    requires i < |batch|
    ensures SomeKnown(hashes, batch[..i + 1]) <==> SomeKnown(hashes, batch[..i]) || batch[i].0 in hashes
    ensures SomeMissing(hashes, batch[..i + 1]) <==> SomeMissing(hashes, batch[..i]) || batch[i].0 !in hashes
  {
    var short, long := batch[..i], batch[..i + 1];
    assert forall j :: 0 <= j < i ==> long[j] == short[j];
    assert long[i] == batch[i];
  }

  method CountMissingItems(hashes: Hashes, batch: seq<Item>) returns (count: nat)
    ensures count == CountMissing(hashes, batch)
  {
    count := 0;
    for i := 0 to |batch|
      invariant count == CountMissing(hashes, batch[..i])
    {
      assert batch[..i + 1][..i] == batch[..i];
      if batch[i].0 !in hashes { count := count + 1; }
    }
    assert batch[..|batch|] == batch;
  }

  /** One peer's order. */
  class AsyncOrderRecord {
    const orderId: u64
    var hashes: Hashes

    constructor (orderId: u64)
      ensures this.orderId == orderId && hashes == map[]
    {
      this.orderId := orderId;
      hashes := map[];
    }

    method MergeHashes(batch: seq<Item>) returns (r: Result<(), LedgerError>)
      modifies this
      ensures r.Ok? <==> Merge(old(hashes), batch).Ok?
      ensures r.Ok? ==> hashes == Merge(old(hashes), batch).value
      ensures r.Err? ==> r.error == Merge(old(hashes), batch).error && hashes == old(hashes)
    {
      if batch == [] { return Err(InvalidBatch); }
      var expectedStart := NextHashIndex(hashes);
      var conflict, sawExisting, sawMissing := ScanBatch(hashes, batch);
      if conflict.Some? { return Err(conflict.value); }
      var missingCount := CountMissingItems(hashes, batch);
      if |hashes| + missingCount > MAX_HASHES { return Err(InvalidBatch); }
      if sawExisting && sawMissing { return Err(InvalidBatch); }
      if sawExisting { return Ok(()); }
      if batch[0].0 != expectedStart { return Err(InvalidBatch); }
      for i := 0 to |batch|
        invariant hashes == InsertAll(old(hashes), batch[..i])
      {
        assert batch[..i + 1][..i] == batch[..i];
        hashes := hashes[batch[i].0 := batch[i].1];
      }
      assert batch[..|batch|] == batch;
      return Ok(());
    }
  }

  // ----- what an order looks like, and what merging does to it

  /** Exactly the indices 1 to `n`, at most 200 of them, and no hash twice. */
  ghost predicate IsLedger(h: Hashes, n: nat) {
    && n <= MAX_HASHES
    && (forall k: u64 :: k in h <==> 1 <= k <= n)
    && (forall j, k :: j in h && k in h && h[j] == h[k] ==> j == k)
  }

  ghost predicate Recorded(h: Hashes, batch: seq<Item>) {
    forall i :: 0 <= i < |batch| ==> batch[i].0 in h && h[batch[i].0] == batch[i].1
  }

  /** The batch carries on where the ledger ends, with new hashes only, and there is room for it. */
  ghost predicate CarriesOn(h: Hashes, n: nat, batch: seq<Item>) {
    && batch != [] && batch[0].0 == n + 1
    && n + |batch| <= MAX_HASHES
    && (forall i, j :: 0 <= i < j < |batch| ==> batch[i].1 != batch[j].1)
    && (forall i, k :: 0 <= i < |batch| && k in h ==> h[k] != batch[i].1)
  }

  lemma {:induction false} LedgerSize(h: Hashes, n: nat)
    requires n < TWO_64 && forall k: u64 :: k in h <==> 1 <= k <= n
    ensures |h| == n
  {
    if n == 0 {
      assert h.Keys == {};
    } else {
      LedgerSize(h - {n}, n - 1);
      assert h.Keys == (h - {n}).Keys + {n};
    }
  }

  lemma LedgerHighest(h: Hashes, n: nat)
    requires IsLedger(h, n)
    ensures HighestHashIndex(h) == n && NextHashIndex(h) == n + 1
  {
    if n > 0 {
      assert n as u64 in h.Keys;
      assert HighestHashIndex(h) in h.Keys;
    } else {
      assert h.Keys == {};
    }
  }

  lemma {:induction false} ConsecutiveFrom(batch: seq<Item>, i: nat)
    requires Consecutive(batch) && i < |batch| && batch[0].0 + |batch| < TWO_64
    ensures batch[i].0 == batch[0].0 + i
  {
    if i > 0 { ConsecutiveFrom(batch, i - 1); }
  }

  lemma {:induction false} CountMissingAll(h: Hashes, batch: seq<Item>)
    ensures !SomeKnown(h, batch) ==> CountMissing(h, batch) == |batch|
    ensures !SomeMissing(h, batch) ==> CountMissing(h, batch) == 0
  {
    if batch != [] {
      var n := |batch| - 1;
      CountMissingAll(h, batch[..n]);
      assert batch[..n + 1] == batch;
      KnownOrMissingLast(h, batch, n);
    }
  }

  lemma {:induction false} InsertAllContents(h: Hashes, batch: seq<Item>, start: nat)
    requires forall i :: 0 <= i < |batch| ==> batch[i].0 == start + i
    ensures forall k :: k in InsertAll(h, batch) <==> k in h || start <= k < start + |batch|
    ensures forall k :: k in h && !(start <= k < start + |batch|) ==> InsertAll(h, batch)[k] == h[k]
    ensures Recorded(InsertAll(h, batch), batch)
  {
    if batch != [] {
      var n := |batch| - 1;
      InsertAllContents(h, batch[..n], start);
      var before := InsertAll(h, batch[..n]);
      forall i | 0 <= i < |batch|
        ensures batch[i].0 in InsertAll(h, batch) && InsertAll(h, batch)[batch[i].0] == batch[i].1
      {
        if i < n { assert batch[..n][i] == batch[i] && batch[i].0 in before; }
      }
    }
  }

  lemma ReplayIsAccepted(h: Hashes, n: nat, batch: seq<Item>)
    requires IsLedger(h, n) && Consecutive(batch) && batch != [] && Recorded(h, batch)
    ensures Merge(h, batch) == Ok(h)
  {
    var last := |batch| - 1;
    RecordedIndex(h, n, batch, last);
    forall i | 0 <= i < |batch| ensures Conflict(h, batch, i).None? {
      forall j | 0 <= j < i ensures batch[j].1 != batch[i].1 {
        RecordedIndex(h, n, batch, i);
        RecordedIndex(h, n, batch, j);
      }
    }
    NoConflict(h, batch, |batch|);
    CountMissingAll(h, batch);
    LedgerSize(h, n);
    assert batch[0].0 in h;
  }

  lemma {:induction false} RecordedIndex(h: Hashes, n: nat, batch: seq<Item>, i: nat)
    requires IsLedger(h, n) && Consecutive(batch) && i < |batch| && Recorded(h, batch)
    ensures batch[i].0 == batch[0].0 + i
  {
    if i > 0 {
      RecordedIndex(h, n, batch, i - 1);
      assert batch[i - 1].0 in h;
    }
  }

  lemma CarryingOnKeepsLedger(h: Hashes, n: nat, batch: seq<Item>)
    requires IsLedger(h, n) && CarriesOn(h, n, batch)
    requires forall i :: 0 <= i < |batch| ==> batch[i].0 == n + 1 + i
    ensures IsLedger(InsertAll(h, batch), n + |batch|) && Recorded(InsertAll(h, batch), batch)
    ensures forall k :: k in h ==> InsertAll(h, batch)[k] == h[k]
  {
    InsertAllContents(h, batch, n + 1);
    var after := InsertAll(h, batch);
    forall j, k | j in after && k in after && after[j] == after[k] ensures j == k {
      if j > n { assert batch[j - n - 1].0 == j; }
      if k > n { assert batch[k - n - 1].0 == k; }
    }
  }

  lemma CarryingOnIsAccepted(h: Hashes, n: nat, batch: seq<Item>)
    requires IsLedger(h, n) && CarriesOn(h, n, batch)
    requires forall i :: 0 <= i < |batch| ==> batch[i].0 == n + 1 + i
    ensures Merge(h, batch) == Ok(InsertAll(h, batch))
  {
    forall i | 0 <= i < |batch| ensures Conflict(h, batch, i).None? {}
    NoConflict(h, batch, |batch|);
    CountMissingAll(h, batch);
    LedgerSize(h, n);
    LedgerHighest(h, n);
  }

  lemma NewHashesOnly(h: Hashes, batch: seq<Item>)
    requires FirstConflict(h, batch, |batch|).None? && !SomeKnown(h, batch)
    ensures forall i, j :: 0 <= i < j < |batch| ==> batch[i].1 != batch[j].1
    ensures forall i, k :: 0 <= i < |batch| && k in h ==> h[k] != batch[i].1
  {
    NoConflict(h, batch, |batch|);
    forall i, j | 0 <= i < j < |batch| ensures batch[i].1 != batch[j].1 {
      assert Conflict(h, batch, j).None?;
    }
    forall i, k | 0 <= i < |batch| && k in h ensures h[k] != batch[i].1 {
      assert Conflict(h, batch, i).None?;
    }
  }

  lemma KnownHashesOnly(h: Hashes, batch: seq<Item>)
    requires FirstConflict(h, batch, |batch|).None? && !SomeMissing(h, batch)
    ensures Recorded(h, batch)
  {
    NoConflict(h, batch, |batch|);
    forall i | 0 <= i < |batch| ensures batch[i].0 in h && h[batch[i].0] == batch[i].1 {
      assert Conflict(h, batch, i).None?;
    }
  }

  lemma AcceptedBatch(h: Hashes, n: nat, batch: seq<Item>)
    requires IsLedger(h, n) && Consecutive(batch) && batch != []
    requires Merge(h, batch).Ok?
    ensures Recorded(h, batch) || CarriesOn(h, n, batch)
  {
    if SomeKnown(h, batch) {
      KnownHashesOnly(h, batch);
    } else {
      NewHashesOnly(h, batch);
      CountMissingAll(h, batch);
      LedgerSize(h, n);
      LedgerHighest(h, n);
    }
  }

  /** A batch is accepted exactly when it repeats recorded entries or carries on where the ledger
      ends. The first changes nothing; the second adds just its own entries. */
  lemma MergeMeaning(h: Hashes, n: nat, batch: seq<Item>)
    requires IsLedger(h, n) && Consecutive(batch) && batch != []
    ensures Merge(h, batch).Ok? <==> Recorded(h, batch) || CarriesOn(h, n, batch)
    ensures Recorded(h, batch) ==> Merge(h, batch) == Ok(h)
    ensures CarriesOn(h, n, batch) ==>
      && Merge(h, batch).Ok?
      && IsLedger(Merge(h, batch).value, n + |batch|)
      && Recorded(Merge(h, batch).value, batch)
      && forall k :: k in h ==> Merge(h, batch).value[k] == h[k]
  {
    if Recorded(h, batch) { ReplayIsAccepted(h, n, batch); }
    if CarriesOn(h, n, batch) {
      forall i | 0 <= i < |batch| ensures batch[i].0 == n + 1 + i { ConsecutiveFrom(batch, i); }
      CarryingOnIsAccepted(h, n, batch);
      CarryingOnKeepsLedger(h, n, batch);
    }
    if Merge(h, batch).Ok? { AcceptedBatch(h, n, batch); }
  }
}
