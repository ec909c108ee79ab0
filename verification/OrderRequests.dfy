/** Registration requests as they are sent: what is accepted, over every run, stated on the indices and the
    payment hashes that the texts stand for, however they are spelled. */
module OrderRequests {
  import opened Wrappers
  import opened Text
  import opened BatchCommitment
  import opened OrderLedger
  import opened AsyncOrders

  /** The payment hash a text stands for. */
  function HashOf(text: string): Option<Hash32> { ParsePaymentHash(text) }

  // ----- the texts of a ledger

  ghost predicate Lower(text: string) { HashOf(text).Some? && text == HexStr(HashOf(text).value) }

  ghost predicate AllLower(h: Hashes) { forall k :: k in h ==> Lower(h[k]) }

  ghost predicate OrdersLower(s: Orders) { forall p :: p in s.ledgers ==> AllLower(s.ledgers[p].hashes) }

  lemma HexIsLower(hash: Hash32)
    ensures HashOf(HexStr(hash)) == Some(hash) && Lower(HexStr(hash))
  {
    HexRoundTrip(hash);
  }

  lemma ItemIsLower(hashes: seq<HashWire>, i: nat)
    requires i < |hashes| && ParseBatch(hashes).Some?
    ensures ParseBatch(hashes).value[i].0 == hashes[i].hashIndex
    ensures Lower(ParseBatch(hashes).value[i].1)
    ensures HashOf(ParseBatch(hashes).value[i].1) == HashOf(hashes[i].paymentHash)
  {
    ParsedItem(hashes, i);
    HexIsLower(HashOf(hashes[i].paymentHash).value);
  }

  lemma {:induction false} InsertedLower(h: Hashes, batch: seq<Item>)
    requires AllLower(h) && forall i :: 0 <= i < |batch| ==> Lower(batch[i].1)
    ensures AllLower(InsertAll(h, batch))
  {
    if batch != [] { InsertedLower(h, batch[..|batch| - 1]); }
  }

  lemma RecordLower(s: Orders, peer: PublicKey, params: Params)
    requires OrdersLower(s)
    ensures OrdersLower(Record(s, peer, params).0)
  {
    if Refusal(params).None? && Open(s, peer).Some? {
      var batch, h := ParseBatch(params.hashes).value, Open(s, peer).value.ledgers[peer].hashes;
      assert AllLower(h);
      forall i | 0 <= i < |batch| ensures Lower(batch[i].1) { ItemIsLower(params.hashes, i); }
      InsertedLower(h, batch);
      assert Merge(h, batch).Ok? ==> AllLower(Merge(h, batch).value);
    }
  }

  /** In every reachable state the ledgers hold hashes in their one lower-case spelling. */
  lemma {:induction false} ReachableLower(requests: seq<Request>)
    ensures OrdersLower(Run(START, requests))
  {
    if requests != [] {
      var n := |requests| - 1;
      ReachableLower(requests[..n]);
      RecordLower(Run(START, requests[..n]), requests[n].peer, requests[n].params);
    }
  }

  // ----- what is accepted

  /** Version 1, between one and two hundred hashes that parse, and indices that count up. */
  ghost predicate WellFormed(params: Params) {
    && params.protocolVersion == 1 && 1 <= |params.hashes| <= 200
    && AllParse(params.hashes) && InSequence(params.hashes)
  }

  /** Every index of the batch is in the ledger, with the hash it has in the batch. */
  ghost predicate RepeatsLedger(h: Hashes, hashes: seq<HashWire>) {
    forall i :: 0 <= i < |hashes| ==>
      hashes[i].hashIndex in h && HashOf(h[hashes[i].hashIndex]) == HashOf(hashes[i].paymentHash)
  }

  /** The batch starts one past the end of the ledger, fits into it, and has hashes that are neither in the ledger
      nor twice in the batch. */
  ghost predicate ExtendsLedger(h: Hashes, hashes: seq<HashWire>) {
    && hashes != [] && hashes[0].hashIndex == |h| + 1 && |h| + |hashes| <= 200
    && (forall i, j :: 0 <= i < j < |hashes| ==> HashOf(hashes[i].paymentHash) != HashOf(hashes[j].paymentHash))
    && (forall i, k :: 0 <= i < |hashes| && k in h ==> HashOf(h[k]) != HashOf(hashes[i].paymentHash))
  }

  lemma RefusedExactly(params: Params)
    ensures Refusal(params) == None <==> WellFormed(params)
    ensures Refusal(params) == Some(UnsupportedVersion) <==> params.protocolVersion != 1
    ensures Refusal(params) == Some(InvalidBatch) <==> params.protocolVersion == 1 && !WellFormed(params)
  {
    BatchParsed(params.hashes);
  }

  lemma SameTextSameHash(a: string, b: string)
    requires Lower(a) && Lower(b)
    ensures a == b <==> HashOf(a) == HashOf(b)
  {
  }

  lemma SameAsRecorded(h: Hashes, hashes: seq<HashWire>)
    requires AllLower(h) && ParseBatch(hashes).Some?
    ensures Recorded(h, ParseBatch(hashes).value) <==> RepeatsLedger(h, hashes)
  {
    var batch := ParseBatch(hashes).value;
    forall i | 0 <= i < |hashes|
      ensures batch[i].0 == hashes[i].hashIndex
      ensures batch[i].0 in h ==>
        (h[batch[i].0] == batch[i].1 <==> HashOf(h[batch[i].0]) == HashOf(hashes[i].paymentHash))
    {
      ItemIsLower(hashes, i);
      if batch[i].0 in h { SameTextSameHash(h[batch[i].0], batch[i].1); }
    }
    if RepeatsLedger(h, hashes) {
      forall i | 0 <= i < |batch| ensures batch[i].0 in h && h[batch[i].0] == batch[i].1 {
        assert hashes[i].hashIndex in h;
      }
    } else {
      var i :| && 0 <= i < |hashes|
               && !(hashes[i].hashIndex in h && HashOf(h[hashes[i].hashIndex]) == HashOf(hashes[i].paymentHash));
      assert !(batch[i].0 in h && h[batch[i].0] == batch[i].1);
    }
  }

  lemma NewInLedger(h: Hashes, hashes: seq<HashWire>, i: nat, k: u64)
    requires AllLower(h) && ParseBatch(hashes).Some? && i < |hashes| && k in h
    ensures h[k] == ParseBatch(hashes).value[i].1 <==> HashOf(h[k]) == HashOf(hashes[i].paymentHash)
  {
    ItemIsLower(hashes, i);
    SameTextSameHash(h[k], ParseBatch(hashes).value[i].1);
  }

  lemma NewInBatch(hashes: seq<HashWire>, i: nat, j: nat)
    requires ParseBatch(hashes).Some? && i < j < |hashes|
    ensures ParseBatch(hashes).value[i].1 == ParseBatch(hashes).value[j].1 <==>
            HashOf(hashes[i].paymentHash) == HashOf(hashes[j].paymentHash)
  {
    ItemIsLower(hashes, i);
    ItemIsLower(hashes, j);
    SameTextSameHash(ParseBatch(hashes).value[i].1, ParseBatch(hashes).value[j].1);
  }

  lemma SameAsCarryingOn(h: Hashes, hashes: seq<HashWire>)
    requires AllLower(h) && ParseBatch(hashes).Some?
    ensures CarriesOn(h, |h|, ParseBatch(hashes).value) <==> ExtendsLedger(h, hashes)
  {
    var batch := ParseBatch(hashes).value;
    forall i, k | 0 <= i < |hashes| && k in h
      ensures h[k] == batch[i].1 <==> HashOf(h[k]) == HashOf(hashes[i].paymentHash)
    {
      NewInLedger(h, hashes, i, k);
    }
    forall i, j | 0 <= i < j < |hashes|
      ensures batch[i].1 == batch[j].1 <==> HashOf(hashes[i].paymentHash) == HashOf(hashes[j].paymentHash)
    {
      NewInBatch(hashes, i, j);
    }
    if hashes != [] { ItemIsLower(hashes, 0); }
  }

  /** In every state reached since a start, a request is accepted exactly when it is well formed, the peer has an
      order or one can be opened, and its batch repeats what is in the ledger or extends it: whatever the
      spelling of its hashes. */
  lemma RequestAcceptedExactly(requests: seq<Request>, peer: PublicKey, params: Params)
    ensures var s := Run(START, requests);
            Record(s, peer, params).1.Ok? <==>
            && WellFormed(params) && (peer in s.ledgers || s.next < TWO_64 - 1)
            && (RepeatsLedger(HashesOf(s, peer), params.hashes) || ExtendsLedger(HashesOf(s, peer), params.hashes))
  {
    var s := Run(START, requests);
    AcceptedExactly(requests, peer, params);
    RefusedExactly(params);
    ReachableLower(requests);
    if WellFormed(params) {
      SameAsRecorded(HashesOf(s, peer), params.hashes);
      SameAsCarryingOn(HashesOf(s, peer), params.hashes);
    }
  }

  /** The two requests are for the same indices and the same payment hashes. */
  ghost predicate SameOrder(a: Params, b: Params) {
    && a.protocolVersion == b.protocolVersion && |a.hashes| == |b.hashes|
    && (forall i :: 0 <= i < |a.hashes| ==>
          && a.hashes[i].hashIndex == b.hashes[i].hashIndex
          && HashOf(a.hashes[i].paymentHash) == HashOf(b.hashes[i].paymentHash))
  }

  lemma SameOrderParses(a: Params, b: Params)
    requires SameOrder(a, b) && AllParse(a.hashes) && InSequence(a.hashes)
    ensures AllParse(b.hashes) && InSequence(b.hashes)
  {
  }

  lemma SameItem(a: Params, b: Params, i: nat)
    requires SameOrder(a, b) && ParseBatch(a.hashes).Some? && ParseBatch(b.hashes).Some? && i < |a.hashes|
    ensures ParseBatch(a.hashes).value[i] == ParseBatch(b.hashes).value[i]
  {
    ParsedItem(a.hashes, i);
    ParsedItem(b.hashes, i);
    assert a.hashes[i].hashIndex == b.hashes[i].hashIndex;
  }

  lemma SameOrderSameBatch(a: Params, b: Params, x: seq<Item>, y: seq<Item>)
    requires SameOrder(a, b) && ParseBatch(a.hashes) == Some(x) && ParseBatch(b.hashes) == Some(y)
    ensures x == y
  {
    assert |x| == |a.hashes| == |b.hashes| == |y|;
    forall i | 0 <= i < |x| ensures x[i] == y[i] { SameItem(a, b, i); }
  }

  /** A request that has been accepted is accepted again, in any spelling of its hashes and at any later time
      until the node restarts, and then changes nothing at all. */
  lemma AcceptedInAnySpelling(before: seq<Request>, request: Request, after: seq<Request>, params: Params)
    requires Record(Run(START, before), request.peer, request.params).1.Ok? && SameOrder(request.params, params)
    ensures var later := Run(START, before + [request] + after);
            && request.peer in later.ledgers
            && Record(later, request.peer, params) == (later, Ok(SnapshotOf(later.ledgers[request.peer])))
  {
    AcceptedReplaysForever(before, request, after);
    RefusedExactly(request.params);
    RefusedExactly(params);
    SameOrderParses(request.params, params);
    var batch, batch' := ParseBatch(request.params.hashes).value, ParseBatch(params.hashes).value;
    SameOrderSameBatch(request.params, params, batch, batch');
  }

  // ----- order ids

  /** A well-formed request opens an order for a peer that has none, also if its batch is then refused; nothing
      else opens or closes one. */
  lemma OpenedExactly(s: Orders, peer: PublicKey, params: Params, p: PublicKey)
    ensures var t := Record(s, peer, params).0;
            && (p in t.ledgers <==> p in s.ledgers || (p == peer && WellFormed(params) && s.next < TWO_64 - 1))
            && (p in t.ledgers && p !in s.ledgers ==> t.ledgers[p].orderId == s.next && t.next == s.next + 1)
  {
    RefusedExactly(params);
  }

  ghost predicate Counted(s: Orders) {
    s.next == |s.ledgers| + 1 && forall p :: p in s.ledgers ==> 1 <= s.ledgers[p].orderId <= |s.ledgers|
  }

  lemma OpenCounts(s: Orders, peer: PublicKey)
    requires Counted(s) && Open(s, peer).Some?
    ensures Counted(Open(s, peer).value)
  {
  }

  lemma MergeIntoCounts(s: Orders, peer: PublicKey, batch: seq<Item>)
    requires Counted(s) && peer in s.ledgers
    ensures Counted(MergeInto(s, peer, batch).0)
  {
    var t := MergeInto(s, peer, batch).0;
    assert t.ledgers.Keys == s.ledgers.Keys && |t.ledgers| == |s.ledgers|;
  }

  /** The order ids are 1 to the number of orders; with them distinct across peers, each is used once. */
  lemma {:induction false} OrderIdsCountUp(requests: seq<Request>)
    ensures var s := Run(START, requests);
            && s.next == |s.ledgers| + 1
            && (forall p :: p in s.ledgers ==> 1 <= s.ledgers[p].orderId <= |s.ledgers|)
  {
    if requests != [] {
      var n := |requests| - 1;
      var s, peer, params := Run(START, requests[..n]), requests[n].peer, requests[n].params;
      OrderIdsCountUp(requests[..n]);
      if Refusal(params).None? && Open(s, peer).Some? {
        OpenCounts(s, peer);
        MergeIntoCounts(Open(s, peer).value, peer, ParseBatch(params.hashes).value);
      }
    }
  }
}
