/** Exactly when a spend attempt hands out a transaction, which one, and what it leaves behind: stated on the
    cache, the stored receipts and what the attempt meets. */
module SweepReplies {
  import opened Wrappers
  import opened SweepColoring
  import opened Sweep
  import opened SweepRuns

  // ----- the cache

  /** Spends some of the inputs, or exactly them. */
  predicate Touches(tx: Tx, inputs: set<OutPoint>) {
    tx.unsigned.inputs == inputs || !(tx.unsigned.inputs !! inputs)
  }

  /** The transaction at place `i` of the walk is the first that touches the inputs. */
  predicate FirstAt(txes: Cache, order: seq<nat>, inputs: set<OutPoint>, i: nat)
    requires forall h <- order :: h in txes
  {
    && i < |order| && Touches(txes[order[i]], inputs)
    && (forall j :: 0 <= j < i ==> !Touches(txes[order[j]], inputs))
  }

  predicate Untouched(txes: Cache, inputs: set<OutPoint>) { forall h <- txes.Keys :: !Touches(txes[h], inputs) }

  lemma {:induction false} CachedFirst(txes: Cache, order: seq<nat>, inputs: set<OutPoint>)
    requires forall h <- order :: h in txes
    ensures Cached(txes, order, inputs) == Nothing <==> forall h <- order :: !Touches(txes[h], inputs)
    ensures forall i: nat | FirstAt(txes, order, inputs, i) ::
      Cached(txes, order, inputs) ==
        if txes[order[i]].unsigned.inputs == inputs then Found(txes[order[i]]) else Overlap
  {
    if order != [] {
      CachedFirst(txes, order[1..], inputs);
      assert order == [order[0]] + order[1..];
      if Touches(txes[order[0]], inputs) {
        assert forall i: nat | FirstAt(txes, order, inputs, i) :: i == 0;
      } else {
        forall i: nat | FirstAt(txes, order, inputs, i) ensures i > 0 && FirstAt(txes, order[1..], inputs, i - 1) {
          assert order[1..][i - 1] == order[i];
          assert forall j :: 0 <= j < i - 1 ==> order[1..][j] == order[j + 1];
        }
      }
    }
  }

  lemma {:induction false} SomeIsFirst(txes: Cache, order: seq<nat>, inputs: set<OutPoint>, h: nat)
      returns (i: nat)
    requires (forall g <- order :: g in txes) && h in order && Touches(txes[h], inputs)
    ensures FirstAt(txes, order, inputs, i)
  {
    i := 0;
    while !Touches(txes[order[i]], inputs)
      invariant i < |order| && forall j :: 0 <= j < i ==> !Touches(txes[order[j]], inputs)
      decreases |order| - i
    {
      if i + 1 == |order| { assert false; }
      i := i + 1;
    }
  }

  // ----- the receipts

  /** At place `j` of the listing there is a receipt that can be read and spends some of the inputs. */
  predicate SpendsAt(receipts: Receipts, broken: set<nat>, keys: seq<nat>, inputs: set<OutPoint>, j: nat) {
    && j < |keys| && keys[j] in receipts && keys[j] !in broken
    && !(receipts[keys[j]].unsigned.inputs !! inputs)
  }

  predicate HiddenAt(receipts: Receipts, broken: set<nat>, keys: seq<nat>, j: nat) {
    j < |keys| && keys[j] in receipts && keys[j] in broken
  }

  ghost predicate SpendsIn(receipts: Receipts, broken: set<nat>, keys: seq<nat>, inputs: set<OutPoint>, n: nat) {
    exists j: nat :: j < n && SpendsAt(receipts, broken, keys, inputs, j)
  }

  ghost predicate HiddenIn(receipts: Receipts, broken: set<nat>, keys: seq<nat>, n: nat) {
    exists j: nat :: j < n && HiddenAt(receipts, broken, keys, j)
  }

  /** Some of the first `n` spends not just the inputs or not all of them, or two of them spend some. */
  ghost predicate ClashIn(receipts: Receipts, broken: set<nat>, keys: seq<nat>, inputs: set<OutPoint>, n: nat) {
    || (exists j: nat :: j < n && SpendsAt(receipts, broken, keys, inputs, j)
                         && receipts[keys[j]].unsigned.inputs != inputs)
    || (exists j: nat, k: nat :: j < k < n && SpendsAt(receipts, broken, keys, inputs, j)
                                 && SpendsAt(receipts, broken, keys, inputs, k))
  }

  lemma OneMorePlace(receipts: Receipts, broken: set<nat>, keys: seq<nat>, inputs: set<OutPoint>, n: nat)
    ensures SpendsIn(receipts, broken, keys, inputs, n + 1) <==>
            SpendsIn(receipts, broken, keys, inputs, n) || SpendsAt(receipts, broken, keys, inputs, n)
    ensures HiddenIn(receipts, broken, keys, n + 1) <==>
            HiddenIn(receipts, broken, keys, n) || HiddenAt(receipts, broken, keys, n)
    ensures ClashIn(receipts, broken, keys, inputs, n + 1) <==>
            || ClashIn(receipts, broken, keys, inputs, n)
            || (&& SpendsAt(receipts, broken, keys, inputs, n)
                && (receipts[keys[n]].unsigned.inputs != inputs || SpendsIn(receipts, broken, keys, inputs, n)))
  {
  }

  ghost predicate ScanIs(receipts: Receipts, broken: set<nat>, keys: seq<nat>, inputs: set<OutPoint>, n: nat,
                         scan: Scan) {
    && (scan.Conflict? <==> ClashIn(receipts, broken, keys, inputs, n))
    && (scan.Scan? ==>
          && (scan.unreadable <==> HiddenIn(receipts, broken, keys, n))
          && (scan.matching == None <==> !SpendsIn(receipts, broken, keys, inputs, n))
          && (forall j: nat :: j < n && SpendsAt(receipts, broken, keys, inputs, j) ==>
                scan.matching == Some(receipts[keys[j]])))
  }

  lemma ScanOneIs(receipts: Receipts, broken: set<nat>, keys: seq<nat>, inputs: set<OutPoint>, n: nat, scan: Scan)
    requires n < |keys| && ScanIs(receipts, broken, keys, inputs, n, scan)
    ensures ScanIs(receipts, broken, keys, inputs, n + 1, ScanOne(scan, ReadReceipt(receipts, broken, keys[n]), inputs))
  {
    OneMorePlace(receipts, broken, keys, inputs, n);
  }

  lemma {:induction false} ScanUpTo(receipts: Receipts, broken: set<nat>, keys: seq<nat>, inputs: set<OutPoint>, n: nat)
    requires n <= |keys|
    ensures ScanIs(receipts, broken, keys, inputs, n, ScanAll(receipts, broken, keys[..n], inputs))
  {
    if n > 0 {
      ScanUpTo(receipts, broken, keys, inputs, n - 1);
      assert keys[..n][..n - 1] == keys[..n - 1];
      ScanOneIs(receipts, broken, keys, inputs, n - 1, ScanAll(receipts, broken, keys[..n - 1], inputs));
    }
  }

  // ----- the attempt

  /** Exactly one place of the listing has a readable receipt that spends some of the inputs, and it spends
      exactly them. */
  predicate OneReceipt(s: Spender, q: Request, env: SpendEnv, i: nat) {
    && env.listing.Some? && SpendsAt(s.receipts, env.broken, env.listing.value, q.inputs, i)
    && s.receipts[env.listing.value[i]].unsigned.inputs == q.inputs
    && (forall j: nat :: j < |env.listing.value| && j != i ==>
          !SpendsAt(s.receipts, env.broken, env.listing.value, q.inputs, j))
  }

  /** Every listed receipt can be read, and none of them spends any of the inputs. */
  predicate NoReceiptAtAll(s: Spender, q: Request, env: SpendEnv) {
    && env.listing.Some?
    && (forall j: nat :: j < |env.listing.value| ==>
          && !SpendsAt(s.receipts, env.broken, env.listing.value, q.inputs, j)
          && !HiddenAt(s.receipts, env.broken, env.listing.value, j))
  }

  /** The transaction is signed and cached, in memory and in the store, and handed out; or the attempt fails,
      and at most the stored cache has changed, to what a handed out transaction would have left there. */
  predicate SignedInto(s: Spender, q: Request, env: SpendEnv, unsigned: UnsignedTx, s': Spender, reply: Reply) {
    && s'.receipts == s.receipts
    && match env.signature
       case None => s' == s && reply == Error
       case Some(signature) =>
         var tx := Tx(unsigned, signature);
         var cached := s.txes[q.hash := tx];
         match env.cacheWrite
         case Stored => s'.txes == cached && s'.disk == cached && reply == Returns(tx, true)
         case Errored(applied) => s'.txes == s.txes && s'.disk == (if applied then cached else s.disk) && reply == Error
  }

  lemma ReceiptFound(s: Spender, q: Request, env: SpendEnv, i: nat)
    requires env.listing.Some?
    ensures var prepared := Outcome(ScanAll(s.receipts, env.broken, env.listing.value, q.inputs));
            && (OneReceipt(s, q, env, i) ==> prepared == Matching(s.receipts[env.listing.value[i]]))
            && (prepared.Matching? ==> exists j: nat :: OneReceipt(s, q, env, j))
            && (prepared == NoReceipt <==> NoReceiptAtAll(s, q, env))
  {
    var keys := env.listing.value;
    assert keys[..|keys|] == keys;
    ScanUpTo(s.receipts, env.broken, keys, q.inputs, |keys|);
    if SpendsIn(s.receipts, env.broken, keys, q.inputs, |keys|)
      && !ClashIn(s.receipts, env.broken, keys, q.inputs, |keys|)
    {
      var j: nat :| j < |keys| && SpendsAt(s.receipts, env.broken, keys, q.inputs, j);
      assert OneReceipt(s, q, env, j);
    }
  }

  /** A cached hash gives its transaction. Otherwise the first cached transaction that touches the inputs
      decides: it is given if it spends exactly them. */
  lemma AnswersFromCache(s: Spender, q: Request, env: SpendEnv)
    requires Legal(s, q, env)
    ensures q.hash in s.txes ==> Attempt(s, q, env) == (s, Returns(s.txes[q.hash], true))
    ensures q.hash !in s.txes ==> forall i: nat | FirstAt(s.txes, env.order, q.inputs, i) ::
      Attempt(s, q, env) ==
        (s, if s.txes[env.order[i]].unsigned.inputs == q.inputs then Returns(s.txes[env.order[i]], true) else Error)
  {
    CachedFirst(s.txes, env.order, q.inputs);
  }

  /** Neither the hash nor any of the inputs is in the cache. */
  predicate Uncached(s: Spender, q: Request) { q.hash !in s.txes && Untouched(s.txes, q.inputs) }

  lemma AnswersPastCache(s: Spender, q: Request, env: SpendEnv)
    requires Legal(s, q, env) && Uncached(s, q)
    ensures Cached(s.txes, env.order, q.inputs) == Nothing
  {
    CachedFirst(s.txes, env.order, q.inputs);
  }

  /** With nothing cached, the one receipt on exactly the inputs is signed and given. */
  lemma AnswersFromReceipt(s: Spender, q: Request, env: SpendEnv, i: nat)
    requires Legal(s, q, env) && Uncached(s, q) && OneReceipt(s, q, env, i)
    ensures var (s', reply) := Attempt(s, q, env);
            SignedInto(s, q, env, s.receipts[env.listing.value[i]].unsigned, s', reply)
  {
    AnswersPastCache(s, q, env);
    ReceiptFound(s, q, env, i);
  }

  /** With nothing cached and no receipt, what is planned is done: a plain transaction is given as it is, and
      nothing changes; a coloured one is signed and given once its receipt is stored. */
  lemma AnswersFromPlan(s: Spender, q: Request, env: SpendEnv)
    requires Legal(s, q, env) && Uncached(s, q) && NoReceiptAtAll(s, q, env)
    ensures env.plan == NoPlan ==> Attempt(s, q, env) == (s, Error)
    ensures env.plan.Vanilla? ==> Attempt(s, q, env) == (s, Returns(env.plan.tx, false))
    ensures env.plan.Rgb? ==>
      var stored := s.(receipts := s.receipts[q.hash := Receipt(env.plan.unsigned, env.plan.batch)]);
      match env.persist
      case Stored =>
        var (s', reply) := Attempt(s, q, env);
        SignedInto(stored, q, env, env.plan.unsigned, s', reply)
      case Errored(applied) => Attempt(s, q, env) == (if applied then stored else s, Error)
  {
    AnswersPastCache(s, q, env);
    ReceiptFound(s, q, env, 0);
  }

  /** With nothing cached, a listing that fails, a receipt that cannot be read and none that matches, or receipts
      that clash: an error, and nothing changes. */
  lemma AnswersWithError(s: Spender, q: Request, env: SpendEnv)
    requires Legal(s, q, env) && Uncached(s, q)
    requires !NoReceiptAtAll(s, q, env) && forall i: nat :: !OneReceipt(s, q, env, i)
    ensures Attempt(s, q, env) == (s, Error)
  {
    AnswersPastCache(s, q, env);
    if env.listing.Some? { ReceiptFound(s, q, env, 0); }
  }

  /** So these are all the attempts that give a transaction. */
  lemma GivenExactly(s: Spender, q: Request, env: SpendEnv)
    requires Legal(s, q, env)
    ensures Attempt(s, q, env).1.Returns? <==>
            || q.hash in s.txes
            || (exists i: nat :: FirstAt(s.txes, env.order, q.inputs, i)
                                 && s.txes[env.order[i]].unsigned.inputs == q.inputs)
            || (&& Uncached(s, q) && (exists i: nat :: OneReceipt(s, q, env, i))
                && env.signature.Some? && env.cacheWrite == Stored)
            || (&& Uncached(s, q) && NoReceiptAtAll(s, q, env)
                && (|| env.plan.Vanilla?
                    || (env.plan.Rgb? && env.persist == Stored && env.signature.Some? && env.cacheWrite == Stored)))
  {
    AnswersFromCache(s, q, env);
    if q.hash !in s.txes {
      if h :| h in s.txes && Touches(s.txes[h], q.inputs) {
        var i := SomeIsFirst(s.txes, env.order, q.inputs, h);
        OneFirst(s.txes, env.order, q.inputs, i);
      } else {
        assert Uncached(s, q);
        UncachedGiven(s, q, env);
        NoneIsFirst(s, q, env);
      }
    }
  }

  lemma OneFirst(txes: Cache, order: seq<nat>, inputs: set<OutPoint>, i: nat)
    requires (forall h <- order :: h in txes) && FirstAt(txes, order, inputs, i)
    ensures forall j: nat :: FirstAt(txes, order, inputs, j) ==> j == i
    ensures exists h <- order :: Touches(txes[h], inputs)
  {
    assert order[i] in order;
  }

  lemma NoneIsFirst(s: Spender, q: Request, env: SpendEnv)
    requires Legal(s, q, env) && Uncached(s, q)
    ensures forall i: nat :: !FirstAt(s.txes, env.order, q.inputs, i)
  {
  }

  lemma UncachedGiven(s: Spender, q: Request, env: SpendEnv)
    requires Legal(s, q, env) && Uncached(s, q)
    ensures Attempt(s, q, env).1.Returns? <==>
            || ((exists i: nat :: OneReceipt(s, q, env, i)) && env.signature.Some? && env.cacheWrite == Stored)
            || (&& NoReceiptAtAll(s, q, env)
                && (|| env.plan.Vanilla?
                    || (env.plan.Rgb? && env.persist == Stored && env.signature.Some? && env.cacheWrite == Stored)))
  {
    if i: nat :| OneReceipt(s, q, env, i) {
      AnswersFromReceipt(s, q, env, i);
      assert !NoReceiptAtAll(s, q, env);
    } else if NoReceiptAtAll(s, q, env) {
      AnswersFromPlan(s, q, env);
    } else {
      AnswersWithError(s, q, env);
    }
  }

  /** Over every run that keeps the cache: whoever asks for the inputs of a cached transaction, under whatever
      hash, and whatever else is stored, gets that transaction. */
  lemma SameInputsSameSweep(worlds: seq<World>, steps: seq<Step>, n: nat, q: Request, env: SpendEnv, h: nat)
    requires IsRun(worlds, steps) && n < |worlds| && CacheKept(steps, n) && worlds[n].up
    requires Legal(worlds[n].spender, q, env) && q.hash !in worlds[n].spender.txes
    requires h in worlds[n].spender.txes && worlds[n].spender.txes[h].unsigned.inputs == q.inputs && q.inputs != {}
    ensures var (s', reply) := Attempt(worlds[n].spender, q, env);
            && s' == worlds[n].spender
            && reply.Returns? && reply.rgb && reply.tx.unsigned == worlds[n].spender.txes[h].unsigned
  {
    var s := worlds[n].spender;
    RunKeepsInv(worlds, steps, n);
    var i := SomeIsFirst(s.txes, env.order, q.inputs, h);
    AnswersFromCache(s, q, env);
    var first := s.txes[env.order[i]];
    assert env.order[i] in s.txes && Apart(first.unsigned, s.txes[h].unsigned);
    var p :| p in q.inputs;
    assert p in s.txes[h].unsigned.inputs;
  }
}
