/** The host's side of order registration: one ledger for each peer, over every run of requests. */
module AsyncOrders {
  import opened Wrappers
  import opened Text
  import opened OrderLedger

  datatype Order = Order(orderId: u64, hashes: Hashes)

  datatype Orders = Orders(next: u64, ledgers: map<PublicKey, Order>)

  const START := Orders(1, map[])

  function SnapshotOf(o: Order): Snapshot {
    Snapshot(o.orderId, HighestHashIndex(o.hashes), NextHashIndex(o.hashes), |o.hashes|)
  }

  /** What is wrong with a request before any state is looked at. */
  function Refusal(params: Params): Option<LedgerError> {
    if params.protocolVersion != PROTOCOL_VERSION then Some(UnsupportedVersion)
    else if params.hashes == [] || |params.hashes| > MAX_HASHES then Some(InvalidBatch)
    else if ParseBatch(params.hashes).None? then Some(InvalidBatch)
    else None
  }

  /** The state in which the peer has an order; none if the order ids have run out. */
  function Open(s: Orders, peer: PublicKey): (r: Option<Orders>)
    ensures r.Some? ==> peer in r.value.ledgers
  {
    if peer in s.ledgers then Some(s)
    else if s.next == TWO_64 - 1 then None
    else Some(Orders(s.next + 1, s.ledgers[peer := Order(s.next, map[])]))
  }

  function MergeInto(s: Orders, peer: PublicKey, batch: seq<Item>): (Orders, Result<Snapshot, LedgerError>)
    requires peer in s.ledgers
  {
    match Merge(s.ledgers[peer].hashes, batch)
    case Err(e) => (s, Err(e))
    case Ok(h) =>
      var merged := Order(s.ledgers[peer].orderId, h);
      (s.(ledgers := s.ledgers[peer := merged]), Ok(SnapshotOf(merged)))
  }

  /** The new state and the reply. A refused merge keeps the order that was opened for it. */
  function Record(s: Orders, peer: PublicKey, params: Params): (Orders, Result<Snapshot, LedgerError>) {
    if Refusal(params).Some? then (s, Err(Refusal(params).value))
    else if Open(s, peer).None? then (s, Err(OrderIdOverflow))
    else MergeInto(Open(s, peer).value, peer, ParseBatch(params.hashes).value)
  }

  // ----- the object that holds the orders

  class AsyncOrderState {
    var nextOrderId: u64
    var peers: map<PublicKey, AsyncOrderRecord>

    ghost predicate Valid()
      reads this
    {
      forall p, q :: p in peers && q in peers && p != q ==> peers[p] != peers[q]
    }

    ghost function Value(): Orders
      reads this, peers.Values
    {
      Orders(nextOrderId, map p | p in peers :: Order(peers[p].orderId, peers[p].hashes))
    }

    constructor ()
      ensures Valid() && Value() == START
    {
      nextOrderId := 1;
      peers := map[];
    }

    method RecordAsyncOrderNew(peer: PublicKey, params: Params) returns (r: Result<Snapshot, LedgerError>)
      requires Valid()
      modifies this, peers.Values
      ensures Valid()
      ensures (Value(), r) == Record(old(Value()), peer, params)
    {
      if params.protocolVersion != PROTOCOL_VERSION { return Err(UnsupportedVersion); }
      if params.hashes == [] || |params.hashes| > MAX_HASHES { return Err(InvalidBatch); }
      var parsed := ParseHashBatch(params.hashes);
      if parsed.None? { return Err(InvalidBatch); }
      var ok := OpenOrder(peer);
      if !ok { return Err(OrderIdOverflow); }
      r := MergeIntoOrder(peer, parsed.value);
    }

    method OpenOrder(peer: PublicKey) returns (ok: bool)
      requires Valid()
      modifies this
      ensures Valid() && fresh(peers.Values - old(peers.Values))
      ensures ok == Open(old(Value()), peer).Some?
      ensures Value() == if ok then Open(old(Value()), peer).value else old(Value())
    {
      if peer in peers { return true; }
      if nextOrderId == TWO_64 - 1 { return false; }
      var record := new AsyncOrderRecord(nextOrderId);
      nextOrderId := nextOrderId + 1;
      peers := peers[peer := record];
      return true;
    }

    method MergeIntoOrder(peer: PublicKey, batch: seq<Item>) returns (r: Result<Snapshot, LedgerError>)
      requires Valid() && peer in peers
      modifies peers[peer]
      ensures Valid()
      ensures (Value(), r) == MergeInto(old(Value()), peer, batch)
    {
      var order := peers[peer];
      var merged := order.MergeHashes(batch);
      if merged.Err? {
        assert Value() == old(Value());
        return Err(merged.error);
      }
      assert Value().ledgers == old(Value()).ledgers[peer := Order(order.orderId, order.hashes)];
      return Ok(SnapshotOf(Order(order.orderId, order.hashes)));
    }
  }

  // ----- invariant

  ghost predicate LedgerOk(h: Hashes) { IsLedger(h, |h|) }

  /** Every ledger is contiguous, bounded and free of repeated hashes, and no two peers share an
      order id. */
  ghost predicate Inv(s: Orders) {
    && (forall p :: p in s.ledgers ==> LedgerOk(s.ledgers[p].hashes) && s.ledgers[p].orderId < s.next)
    && (forall p, q :: p in s.ledgers && q in s.ledgers && s.ledgers[p].orderId == s.ledgers[q].orderId ==> p == q)
  }

  /** Orders stay, keep their ids, and keep every entry they have. */
  ghost predicate Grows(s: Orders, t: Orders) {
    forall p :: p in s.ledgers ==>
      && p in t.ledgers
      && t.ledgers[p].orderId == s.ledgers[p].orderId
      && forall k :: k in s.ledgers[p].hashes ==>
           k in t.ledgers[p].hashes && t.ledgers[p].hashes[k] == s.ledgers[p].hashes[k]
  }

  function HashesOf(s: Orders, p: PublicKey): Hashes {
    if p in s.ledgers then s.ledgers[p].hashes else map[]
  }

  lemma MergeKeepsLedger(h: Hashes, batch: seq<Item>)
    requires LedgerOk(h) && Consecutive(batch)
    requires Merge(h, batch).Ok?
    ensures LedgerOk(Merge(h, batch).value)
    ensures forall k :: k in h ==> k in Merge(h, batch).value && Merge(h, batch).value[k] == h[k]
    ensures Recorded(Merge(h, batch).value, batch)
  {
    MergeMeaning(h, |h|, batch);
    if CarriesOn(h, |h|, batch) { LedgerIsOk(Merge(h, batch).value, |h| + |batch|); }
  }

  lemma LedgerIsOk(h: Hashes, n: nat)
    requires IsLedger(h, n)
    ensures LedgerOk(h)
  {
    LedgerSize(h, n);
  }

  lemma OpenKeepsInv(s: Orders, peer: PublicKey)
    requires Inv(s) && Open(s, peer).Some?
    ensures Inv(Open(s, peer).value) && Grows(s, Open(s, peer).value)
  {
    if peer !in s.ledgers { NewPeerKeepsInv(s, peer); }
  }

  lemma EmptyLedger()
    ensures LedgerOk(map[])
  {
    var none: Hashes := map[];
    assert forall k: u64 :: k !in none;
  }

  lemma NewPeerKeepsInv(s: Orders, peer: PublicKey)
    requires Inv(s) && peer !in s.ledgers && s.next < TWO_64 - 1
    ensures var t := Orders(s.next + 1, s.ledgers[peer := Order(s.next, map[])]); Inv(t) && Grows(s, t)
  {
    EmptyLedger();
  }

  lemma MergeIntoKeepsInv(s: Orders, peer: PublicKey, batch: seq<Item>)
    requires Inv(s) && peer in s.ledgers && Consecutive(batch)
    ensures Inv(MergeInto(s, peer, batch).0) && Grows(s, MergeInto(s, peer, batch).0)
    ensures MergeInto(s, peer, batch).1.Ok? ==> Recorded(MergeInto(s, peer, batch).0.ledgers[peer].hashes, batch)
  {
    var h := s.ledgers[peer].hashes;
    if Merge(h, batch).Ok? { MergeKeepsLedger(h, batch); }
  }

  lemma RecordKeepsInv(s: Orders, peer: PublicKey, params: Params)
    requires Inv(s)
    ensures Inv(Record(s, peer, params).0)
    ensures Grows(s, Record(s, peer, params).0)
    ensures Record(s, peer, params).1.Ok? ==>
      && peer in Record(s, peer, params).0.ledgers
      && Recorded(Record(s, peer, params).0.ledgers[peer].hashes, ParseBatch(params.hashes).value)
  {
    if Refusal(params).None? && Open(s, peer).Some? {
      OpenKeepsInv(s, peer);
      MergeIntoKeepsInv(Open(s, peer).value, peer, ParseBatch(params.hashes).value);
    }
  }

  // ----- runs

  datatype Request = Request(peer: PublicKey, params: Params)

  function Run(s: Orders, requests: seq<Request>): Orders {
    if requests == [] then s
    else
      var n := |requests| - 1;
      Record(Run(s, requests[..n]), requests[n].peer, requests[n].params).0
  }

  lemma {:induction false} RunAppend(s: Orders, before: seq<Request>, after: seq<Request>)
    ensures Run(s, before + after) == Run(Run(s, before), after)
  {
    if after == [] {
      assert before + after == before;
    } else {
      var n := |after| - 1;
      RunAppend(s, before, after[..n]);
      assert (before + after)[..|before + after| - 1] == before + after[..n];
    }
  }

  lemma {:induction false} RunFrom(s: Orders, requests: seq<Request>)
    requires Inv(s)
    ensures Inv(Run(s, requests)) && Grows(s, Run(s, requests))
  {
    if requests != [] {
      var n := |requests| - 1;
      RunFrom(s, requests[..n]);
      RecordKeepsInv(Run(s, requests[..n]), requests[n].peer, requests[n].params);
    }
  }

  /** In every state any run of requests can reach, every ledger is well formed and order ids are
      distinct across peers. */
  lemma EveryReachableLedger(requests: seq<Request>)
    ensures Inv(Run(START, requests))
  {
    RunFrom(START, requests);
  }

  /** No later request changes or removes an entry, or an order. */
  lemma EntriesNeverChange(before: seq<Request>, after: seq<Request>)
    ensures Grows(Run(START, before), Run(START, before + after))
  {
    RunFrom(START, before);
    RunFrom(Run(START, before), after);
    RunAppend(START, before, after);
  }

  /** A rejected request leaves the hashes of every peer as they were. */
  lemma RejectedChangesNoHash(s: Orders, peer: PublicKey, params: Params, p: PublicKey)
    requires Record(s, peer, params).1.Err?
    ensures HashesOf(Record(s, peer, params).0, p) == HashesOf(s, p)
  {
  }

  /** The reply to an accepted request: the ledger ends where it says, and every index up to there is
      counted. */
  lemma SnapshotMeaning(s: Orders, peer: PublicKey, params: Params)
    requires Inv(s) && Record(s, peer, params).1.Ok?
    ensures var (t, reply) := Record(s, peer, params);
            var n := |HashesOf(t, peer)|;
            && reply.value.acceptedThrough == reply.value.unused == n
            && reply.value.nextExpected == n + 1
            && peer in t.ledgers && reply.value.orderId == t.ledgers[peer].orderId
  {
    RecordKeepsInv(s, peer, params);
    var t := Record(s, peer, params).0;
    LedgerHighest(HashesOf(t, peer), |HashesOf(t, peer)|);
  }

  lemma RecordedReplays(t: Orders, later: Orders, peer: PublicKey, params: Params)
    requires Inv(later) && Grows(t, later) && peer in t.ledgers
    requires Refusal(params).None?
    requires Recorded(t.ledgers[peer].hashes, ParseBatch(params.hashes).value)
    ensures peer in later.ledgers
    ensures Record(later, peer, params) == (later, Ok(SnapshotOf(later.ledgers[peer])))
  {
    var batch, h := ParseBatch(params.hashes).value, later.ledgers[peer].hashes;
    forall i | 0 <= i < |batch| ensures batch[i].0 in h && h[batch[i].0] == batch[i].1 {
      assert batch[i].0 in t.ledgers[peer].hashes;
    }
    ReplayIsAccepted(h, |h|, batch);
    assert later.ledgers[peer := later.ledgers[peer]] == later.ledgers;
  }

  /** Once a request has been accepted it is accepted again at any later time until the node restarts, and
      then changes nothing at all. */
  lemma AcceptedReplaysForever(before: seq<Request>, request: Request, after: seq<Request>)
    requires Record(Run(START, before), request.peer, request.params).1.Ok?
    ensures var later := Run(START, before + [request] + after);
            && request.peer in later.ledgers
            && Record(later, request.peer, request.params) == (later, Ok(SnapshotOf(later.ledgers[request.peer])))
  {
    var s := Run(START, before);
    var t := Run(START, before + [request]);
    var later := Run(START, before + [request] + after);
    EveryReachableLedger(before);
    assert (before + [request])[..|before|] == before;
    assert t == Record(s, request.peer, request.params).0;
    RecordKeepsInv(s, request.peer, request.params);
    EntriesNeverChange(before + [request], after);
    EveryReachableLedger(before + [request] + after);
    RecordedReplays(t, later, request.peer, request.params);
  }

  // ----- across restarts

  /** The orders are kept in memory only, so a restart begins again with none. In every state that can be
      reached since, a request is accepted exactly when it is well formed, an order is open or can be opened,
      and its batch repeats recorded entries or carries on where the ledger ends. */
  lemma AcceptedExactly(requests: seq<Request>, peer: PublicKey, params: Params)
    ensures var s := Run(START, requests);
            Record(s, peer, params).1.Ok? <==>
            && Refusal(params).None? && Open(s, peer).Some?
            && var batch, h := ParseBatch(params.hashes).value, HashesOf(s, peer);
               Recorded(h, batch) || CarriesOn(h, |h|, batch)
  {
    var s := Run(START, requests);
    EveryReachableLedger(requests);
    if Refusal(params).None? && Open(s, peer).Some? {
      var h := HashesOf(s, peer);
      assert h == Open(s, peer).value.ledgers[peer].hashes;
      OpenKeepsInv(s, peer);
      MergeMeaning(h, |h|, ParseBatch(params.hashes).value);
    }
  }

  lemma RecordedHashesDiffer(h: Hashes, batch: seq<Item>)
    requires LedgerOk(h) && Consecutive(batch) && Recorded(h, batch)
    ensures forall i, j :: 0 <= i < j < |batch| ==> batch[i].1 != batch[j].1
  {
    forall i, j | 0 <= i < j < |batch| ensures batch[i].1 != batch[j].1 {
      RecordedIndex(h, |h|, batch, i);
      RecordedIndex(h, |h|, batch, j);
    }
  }

  /** A request that was accepted before a restart is accepted right after it exactly when its batch starts at
      index 1. */
  lemma ReplayAfterRestart(before: seq<Request>, request: Request)
    requires Record(Run(START, before), request.peer, request.params).1.Ok?
    ensures Refusal(request.params).None?
    ensures Record(START, request.peer, request.params).1.Ok? <==> ParseBatch(request.params.hashes).value[0].0 == 1
  {
    var batch := ParseBatch(request.params.hashes).value;
    EveryReachableLedger(before);
    RecordKeepsInv(Run(START, before), request.peer, request.params);
    var t := Record(Run(START, before), request.peer, request.params).0;
    RecordedHashesDiffer(t.ledgers[request.peer].hashes, batch);
    AcceptedExactly([], request.peer, request.params);
    assert Run(START, []) == START && HashesOf(START, request.peer) == map[];
  }
}
