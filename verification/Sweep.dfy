/** Sweeping the outputs of closed channels: the cache of signed transactions, the stored receipts of
    prepared sweeps, and the reconciliation that removes them.

    A receipt is stored under the hash of the descriptors it was prepared for, printed in decimal; the number
    stands for that key here. A transaction id is fixed by the unsigned transaction. */
module Sweep {
  import opened Wrappers
  import opened SweepColoring

  /** A coloured transaction commits to an RGB transition; `body` is everything else but the inputs. */
  datatype UnsignedTx = UnsignedTx(inputs: set<OutPoint>, coloured: bool, body: int)

  datatype Tx = Tx(unsigned: UnsignedTx, signature: int)

  datatype Receipt = Receipt(unsigned: UnsignedTx, batch: int)

  type Cache = map<nat, Tx>
  type Receipts = map<nat, Receipt>

  /** The cache in memory and in the store, and the stored receipts. */
  datatype Spender = Spender(txes: Cache, disk: Cache, receipts: Receipts)

  datatype Request = Request(hash: nat, inputs: set<OutPoint>)

  // ----- looking for a transaction that spends the inputs already

  datatype Lookup = Nothing | Found(tx: Tx) | Overlap

  /** The first cached transaction, in this order, that spends any of the inputs. */
  function Cached(txes: Cache, order: seq<nat>, inputs: set<OutPoint>): Lookup
    requires forall h <- order :: h in txes
  {
    if order == [] then Nothing
    else
      var spent := txes[order[0]].unsigned.inputs;
      if spent == inputs then Found(txes[order[0]])
      else if spent !! inputs then Cached(txes, order[1..], inputs)
      else Overlap
  }

  /** What reading one stored receipt gives. */
  datatype Read = Absent | Unreadable | Readable(receipt: Receipt)

  function ReadReceipt(receipts: Receipts, broken: set<nat>, key: nat): Read {
    if key !in receipts then Absent
    else if key in broken then Unreadable
    else Readable(receipts[key])
  }

  datatype Scan = Scan(matching: Option<Receipt>, unreadable: bool) | Conflict

  function ScanOne(scan: Scan, read: Read, inputs: set<OutPoint>): Scan {
    if scan.Conflict? then Conflict
    else
      match read
      case Absent => scan
      case Unreadable => scan.(unreadable := true)
      case Readable(r) =>
        if r.unsigned.inputs !! inputs then scan
        else if r.unsigned.inputs != inputs || scan.matching.Some? then Conflict
        else scan.(matching := Some(r))
  }

  function ScanAll(receipts: Receipts, broken: set<nat>, keys: seq<nat>, inputs: set<OutPoint>): Scan {
    if keys == [] then Scan(None, false)
    else
      var n := |keys| - 1;
      ScanOne(ScanAll(receipts, broken, keys[..n], inputs), ReadReceipt(receipts, broken, keys[n]), inputs)
  }

  /** No receipt matches, one does, or the search has to be refused. */
  datatype Prepared = NoReceipt | Matching(receipt: Receipt) | Refused

  function Outcome(scan: Scan): Prepared {
    if scan.Conflict? then Refused
    else if scan.matching.Some? then Matching(scan.matching.value)
    else if scan.unreadable then Refused
    else NoReceipt
  }

  method FindPreparedSweep(receipts: Receipts, broken: set<nat>, keys: seq<nat>, inputs: set<OutPoint>)
      returns (r: Prepared)
    ensures r == Outcome(ScanAll(receipts, broken, keys, inputs))
  {
    var matching: Option<Receipt> := None;
    var unreadable := false;
    for i := 0 to |keys|
      invariant ScanAll(receipts, broken, keys[..i], inputs) == Scan(matching, unreadable)
    {
      assert keys[..i + 1][..i] == keys[..i];
      match ReadReceipt(receipts, broken, keys[i]) {
        case Absent =>
        case Unreadable => unreadable := true;
        case Readable(sweep) =>
          var saved := sweep.unsigned.inputs;
          if !(saved !! inputs) {
            if saved != inputs || matching.Some? {
              ConflictStays(receipts, broken, keys, i + 1, inputs);
              return Refused;
            }
            matching := Some(sweep);
          }
      }
    }
    assert keys[..|keys|] == keys;
    if matching.None? && unreadable { return Refused; }
    if matching.Some? { return Matching(matching.value); }
    return NoReceipt;
  }

  lemma {:induction false} ConflictStays(receipts: Receipts, broken: set<nat>, keys: seq<nat>, n: nat,
                                         inputs: set<OutPoint>)
    requires n <= |keys| && ScanAll(receipts, broken, keys[..n], inputs).Conflict?
    ensures ScanAll(receipts, broken, keys, inputs).Conflict?
  {
    if n == |keys| {
      assert keys[..n] == keys;
    } else {
      assert keys[..|keys| - 1][..n] == keys[..n];
      ConflictStays(receipts, broken, keys[..|keys| - 1], n, inputs);
    }
  }

  // ----- a spend attempt

  /** How the inputs are to be spent, if no earlier sweep spends them: not at all, without RGB, or with a
      coloured transaction that has been prepared as a batch. */
  datatype Plan = NoPlan | Vanilla(tx: Tx) | Rgb(unsigned: UnsignedTx, batch: int)

  /** Everything the attempt depends on besides the state: the orders in which the cache and the receipts are
      walked, unreadable receipts, the plan, how the writes end, and the signature, which is missing when the
      batch is not active, signing fails or a consignment cannot be handed over. */
  datatype SpendEnv = SpendEnv(
    order: seq<nat>, listing: Option<seq<nat>>, broken: set<nat>, plan: Plan,
    persist: StoreWrite, signature: Option<int>, cacheWrite: StoreWrite)

  predicate PlanSpends(p: Plan, inputs: set<OutPoint>) {
    match p
    case NoPlan => true
    case Vanilla(tx) => tx.unsigned.inputs == inputs && !tx.unsigned.coloured
    case Rgb(unsigned, _) => unsigned.inputs == inputs && unsigned.coloured
  }

  /** The cache is walked completely, the listing has every stored receipt (and perhaps some that have been
      removed since), and what is planned spends exactly the requested inputs. */
  ghost predicate Legal(s: Spender, q: Request, env: SpendEnv) {
    && (forall h :: h in env.order <==> h in s.txes)
    && (env.listing.Some? ==> forall k :: k in s.receipts ==> k in env.listing.value)
    && PlanSpends(env.plan, q.inputs)
  }

  datatype Reply = Error | Returns(tx: Tx, rgb: bool)

  /** Sign, put in the cache, write the cache, and only then hand the transaction out. */
  function Finish(s: Spender, q: Request, receipt: Receipt, env: SpendEnv): (Spender, Reply) {
    if env.signature.None? then (s, Error)
    else
      var tx := Tx(receipt.unsigned, env.signature.value);
      var txes := s.txes[q.hash := tx];
      var disk := AfterWrite(s.disk, txes, env.cacheWrite);
      if env.cacheWrite.Stored? then (s.(txes := txes, disk := disk), Returns(tx, true))
      else (s.(disk := disk), Error)
  }

  /** A coloured transaction is only signed after its receipt has been stored. */
  function Carry(s: Spender, q: Request, env: SpendEnv): (Spender, Reply) {
    match env.plan
    case NoPlan => (s, Error)
    case Vanilla(tx) => (s, Returns(tx, false))
    case Rgb(unsigned, batch) =>
      var receipt := Receipt(unsigned, batch);
      var s1 := s.(receipts := AfterWrite(s.receipts, s.receipts[q.hash := receipt], env.persist));
      if env.persist.Errored? then (s1, Error) else Finish(s1, q, receipt, env)
  }

  function Attempt(s: Spender, q: Request, env: SpendEnv): (Spender, Reply)
    requires forall h <- env.order :: h in s.txes
  {
    if q.hash in s.txes then (s, Returns(s.txes[q.hash], true))
    else
      match Cached(s.txes, env.order, q.inputs)
      case Found(tx) => (s, Returns(tx, true))
      case Overlap => (s, Error)
      case Nothing =>
        if env.listing.None? then (s, Error)
        else
          match Outcome(ScanAll(s.receipts, env.broken, env.listing.value, q.inputs))
          case Refused => (s, Error)
          case Matching(receipt) => Finish(s, q, receipt, env)
          case NoReceipt => Carry(s, q, env)
  }

  // ----- reconciling the receipts

  /** What a pass meets when it comes to a key: whether the receipt can be read, whether its transaction is
      confirmed (or that cannot be told), whether its batch is consumed, and how the removal ends. */
  datatype Check = Check(readable: bool, confirmed: Option<bool>, consumed: bool, removal: StoreWrite)

  /** The keys a pass lists, if it can, and what it meets at each of them. */
  datatype PassEnv = PassEnv(keys: Option<seq<nat>>, at: nat -> Check)

  /** The receipt the pass comes to at place `i` is consumed there. */
  predicate ConsumesAt(receipts: Receipts, env: PassEnv, i: nat) {
    && env.keys.Some? && i < |env.keys.value| && env.keys.value[i] in receipts
    && env.at(i).readable && env.at(i).confirmed == Some(true) && env.at(i).consumed
  }

  predicate DropsAt(receipts: Receipts, env: PassEnv, i: nat) {
    ConsumesAt(receipts, env, i) && (env.at(i).removal.Stored? || env.at(i).removal.applied)
  }

  /** The receipt under this key, judged on its own, is consumed at one of the first `n` places. */
  predicate Consumes(receipts: Receipts, env: PassEnv, n: nat, k: nat) {
    exists i :: 0 <= i < n && ConsumesAt(receipts, env, i) && env.keys.value[i] == k
  }

  predicate Drops(receipts: Receipts, env: PassEnv, n: nat, k: nat) {
    exists i :: 0 <= i < n && DropsAt(receipts, env, i) && env.keys.value[i] == k
  }

  /** The receipts left after the first `n` places of a pass. */
  ghost function KeptAfter(receipts: Receipts, env: PassEnv, n: nat): Receipts {
    map k | k in receipts && !Drops(receipts, env, n, k) :: receipts[k]
  }

  ghost function ConsumedAfter(receipts: Receipts, env: PassEnv, n: nat): set<Receipt> {
    set k | k in receipts && Consumes(receipts, env, n, k) :: receipts[k]
  }

  lemma DropsOneMore(receipts: Receipts, env: PassEnv, n: nat, k: nat)
    ensures Drops(receipts, env, n + 1, k) <==>
            Drops(receipts, env, n, k) || (DropsAt(receipts, env, n) && env.keys.value[n] == k)
    ensures Consumes(receipts, env, n + 1, k) <==>
            Consumes(receipts, env, n, k) || (ConsumesAt(receipts, env, n) && env.keys.value[n] == k)
    ensures Drops(receipts, env, n, k) ==> Consumes(receipts, env, n, k)
  {
  }

  /** One more place changes at most its own receipt. */
  lemma PassOne(receipts: Receipts, env: PassEnv, n: nat)
    ensures KeptAfter(receipts, env, n + 1) ==
      if DropsAt(receipts, env, n) then KeptAfter(receipts, env, n) - {env.keys.value[n]}
      else KeptAfter(receipts, env, n)
    ensures ConsumedAfter(receipts, env, n + 1) ==
      ConsumedAfter(receipts, env, n) + if ConsumesAt(receipts, env, n) then {receipts[env.keys.value[n]]} else {}
  {
    forall k { DropsOneMore(receipts, env, n, k); }
  }

  predicate Finished(check: Check) { check.readable && check.confirmed == Some(true) && check.consumed }

  /** A whole pass drops exactly the receipts that, at some place of the listing, can be read, are found confirmed
      and consumed, and are removed; it leaves the others as they are, and consumes no other batches. */
  lemma DroppedExactly(receipts: Receipts, env: PassEnv, k: nat)
    requires env.keys.Some? && k in receipts
    ensures var keys, kept := env.keys.value, KeptAfter(receipts, env, |env.keys.value|);
            && (k in kept ==> kept[k] == receipts[k])
            && (k !in kept <==>
                  exists i :: && 0 <= i < |keys| && keys[i] == k
                              && Finished(env.at(i)) && env.at(i).removal != Errored(false))
            && (receipts[k] in ConsumedAfter(receipts, env, |keys|) <==>
                  exists i :: && 0 <= i < |keys| && keys[i] in receipts && receipts[keys[i]] == receipts[k]
                              && Finished(env.at(i)))
  {
    var keys := env.keys.value;
    forall i | 0 <= i < |keys|
      ensures DropsAt(receipts, env, i) <==>
              keys[i] in receipts && Finished(env.at(i)) && env.at(i).removal != Errored(false)
      ensures ConsumesAt(receipts, env, i) <==> keys[i] in receipts && Finished(env.at(i))
    {
    }
  }

  /** A receipt fares as it would if it were the only one. */
  lemma PassIsPointwise(receipts: Receipts, env: PassEnv, n: nat, k: nat)
    requires k in receipts
    ensures k in KeptAfter(receipts, env, n) <==> k in KeptAfter(map[k := receipts[k]], env, n)
    ensures receipts[k] in ConsumedAfter(map[k := receipts[k]], env, n) ==>
      receipts[k] in ConsumedAfter(receipts, env, n)
  {
    var alone := map[k := receipts[k]];
    assert forall i :: 0 <= i < n && env.keys.Some? && i < |env.keys.value| && env.keys.value[i] == k ==>
      (ConsumesAt(receipts, env, i) <==> ConsumesAt(alone, env, i));
    assert Drops(receipts, env, n, k) <==> Drops(alone, env, n, k);
    assert Consumes(receipts, env, n, k) <==> Consumes(alone, env, n, k);
  }

  /** What is no longer there has been consumed before. */
  lemma DroppedIsConsumed(receipts: Receipts, env: PassEnv, n: nat)
    requires ConsumesAt(receipts, env, n) && env.keys.value[n] !in KeptAfter(receipts, env, n)
    ensures KeptAfter(receipts, env, n + 1) == KeptAfter(receipts, env, n)
    ensures ConsumedAfter(receipts, env, n + 1) == ConsumedAfter(receipts, env, n)
  {
    PassOne(receipts, env, n);
    DropsOneMore(receipts, env, n, env.keys.value[n]);
  }

  // ----- the object

  class RgbOutputSpender {
    var txes: Cache
    var disk: Cache
    var receipts: Receipts
    /** The receipts whose batches have been consumed so far. */
    var consumed: set<Receipt>

    ghost function Value(): Spender
      reads this
    {
      Spender(txes, disk, receipts)
    }

    method TrySpendSpendableOutputs(q: Request, env: SpendEnv) returns (reply: Reply)
      requires forall h <- env.order :: h in txes
      modifies this`txes, this`disk, this`receipts
      ensures (Value(), reply) == Attempt(old(Value()), q, env)
    {
      if q.hash in txes { return Returns(txes[q.hash], true); }
      var hit := FindCached(env.order, q.inputs);
      if hit.Found? { return Returns(hit.tx, true); }
      if hit.Overlap? || env.listing.None? { return Error; }
      var prepared := FindPreparedSweep(receipts, env.broken, env.listing.value, q.inputs);
      match prepared {
        case Refused => return Error;
        case Matching(receipt) => reply := FinishPreparedRgbSweep(q, receipt, env);
        case NoReceipt =>
          match env.plan {
            case NoPlan => return Error;
            case Vanilla(tx) => return Returns(tx, false);
            case Rgb(unsigned, batch) =>
              var receipt := Receipt(unsigned, batch);
              receipts := AfterWrite(receipts, receipts[q.hash := receipt], env.persist);
              if env.persist.Errored? { return Error; }
              reply := FinishPreparedRgbSweep(q, receipt, env);
          }
      }
    }

    method FindCached(order: seq<nat>, inputs: set<OutPoint>) returns (hit: Lookup)
      requires forall h <- order :: h in txes
      ensures hit == Cached(txes, order, inputs)
    {
      assert order[0..] == order;
      for i := 0 to |order|
        invariant Cached(txes, order, inputs) == Cached(txes, order[i..], inputs)
      {
        assert order[i..][1..] == order[i + 1..];
        var saved := txes[order[i]].unsigned.inputs;
        if saved == inputs { return Found(txes[order[i]]); }
        if !(saved !! inputs) { return Overlap; }
      }
      return Nothing;
    }

    method FinishPreparedRgbSweep(q: Request, receipt: Receipt, env: SpendEnv) returns (reply: Reply)
      requires q.hash !in txes
      modifies this`txes, this`disk
      ensures (Value(), reply) == Finish(old(Value()), q, receipt, env)
    {
      if env.signature.None? { return Error; }
      var tx := Tx(receipt.unsigned, env.signature.value);
      txes := txes[q.hash := tx];
      disk := AfterWrite(disk, txes, env.cacheWrite);
      if env.cacheWrite.Errored? {
        txes := txes - {q.hash};
        assert txes == old(txes);
        return Error;
      }
      return Returns(tx, true);
    }

    /** Each receipt fares as it would on its own, whatever the others do: it is dropped exactly when, where
        the pass comes to it, it is readable, confirmed, consumed and removed; otherwise it stays as it is. */
    method ReconcilePreparedSweeps(env: PassEnv)
      modifies this`receipts, this`consumed
      ensures var n := if env.keys.Some? then |env.keys.value| else 0;
              && receipts == KeptAfter(old(receipts), env, n)
              && consumed == old(consumed) + ConsumedAfter(old(receipts), env, n)
    {
      assert KeptAfter(receipts, env, 0) == receipts;
      assert ConsumedAfter(receipts, env, 0) == {};
      if env.keys.None? { return; }
      var keys := env.keys.value;
      for i := 0 to |keys|
        invariant receipts == KeptAfter(old(receipts), env, i)
        invariant consumed == old(consumed) + ConsumedAfter(old(receipts), env, i)
      {
        var key, check := keys[i], env.at(i);
        PassOne(old(receipts), env, i);
        if ConsumesAt(old(receipts), env, i) && key !in receipts { DroppedIsConsumed(old(receipts), env, i); }
        match ReadReceipt(receipts, if check.readable then {} else {key}, key) {
          case Absent =>
          case Unreadable =>
          case Readable(sweep) =>
            if check.confirmed == Some(true) && check.consumed {
              consumed := consumed + {sweep};
              receipts := AfterWrite(receipts, receipts - {key}, check.removal);
            }
        }
      }
    }
  }
}
