/** Sweeps when a restart finds that the stored cache of signed transactions does not decode, and starts with
    an empty one. What is left to go by are the stored receipts and, once those are consumed, the chain. */
module LostCache {
  import opened Wrappers
  import opened SweepColoring
  import opened Sweep
  import opened SweepRuns

  /** A stored receipt is for this transaction. */
  ghost predicate Stored(receipts: Receipts, u: UnsignedTx) { exists k :: k in receipts && receipts[k].unsigned == u }

  // ----- where transactions come from

  /** A transaction was in a cache before, or a stored receipt is for it. */
  ghost predicate Known(s: Spender, receipts: Receipts, u: UnsignedTx) {
    Remembers(s.txes, u) || Remembers(s.disk, u) || Stored(receipts, u)
  }

  ghost predicate CachesKnown(s: Spender, s': Spender) {
    && (forall h :: h in s'.txes ==> Known(s, s'.receipts, s'.txes[h].unsigned))
    && (forall h :: h in s'.disk ==> Known(s, s'.receipts, s'.disk[h].unsigned))
  }

  /** A coloured transaction that is handed out is known; any other spends nothing a stored receipt does. */
  ghost predicate ReplyKnown(s: Spender, s': Spender, reply: Reply) {
    reply.Returns? ==>
      if reply.rgb then Known(s, s'.receipts, reply.tx.unsigned)
      else forall k :: k in s'.receipts ==> s'.receipts[k].unsigned.inputs !! reply.tx.unsigned.inputs
  }

  lemma FinishKnown(s: Spender, t: Spender, q: Request, receipt: Receipt, env: SpendEnv)
    requires t.txes == s.txes && t.disk == s.disk && Stored(t.receipts, receipt.unsigned)
    ensures var (s', reply) := Finish(t, q, receipt, env);
            CachesKnown(s, s') && ReplyKnown(s, s', reply) && (reply.Returns? ==> reply.rgb)
  {
    var (s', reply) := Finish(t, q, receipt, env);
    forall h | h in s'.txes ensures Known(s, s'.receipts, s'.txes[h].unsigned) {
      if h in s.txes && s'.txes[h] == s.txes[h] { assert Remembers(s.txes, s'.txes[h].unsigned); }
    }
    forall h | h in s'.disk ensures Known(s, s'.receipts, s'.disk[h].unsigned) {
      if h in s.txes && s'.disk[h] == s.txes[h] { assert Remembers(s.txes, s'.disk[h].unsigned); }
      if h in s.disk && s'.disk[h] == s.disk[h] { assert Remembers(s.disk, s'.disk[h].unsigned); }
    }
  }

  lemma SameCachesKnown(s: Spender, s': Spender)
    requires s'.txes == s.txes && s'.disk == s.disk
    ensures CachesKnown(s, s')
  {
    forall h | h in s.txes ensures Remembers(s.txes, s.txes[h].unsigned) {}
    forall h | h in s.disk ensures Remembers(s.disk, s.disk[h].unsigned) {}
  }

  lemma CarryKnown(s: Spender, q: Request, env: SpendEnv)
    requires PlanSpends(env.plan, q.inputs)
    requires forall k :: k in s.receipts ==> s.receipts[k].unsigned.inputs !! q.inputs
    ensures CachesKnown(s, Carry(s, q, env).0) && ReplyKnown(s, Carry(s, q, env).0, Carry(s, q, env).1)
  {
    SameCachesKnown(s, s);
    if env.plan.Rgb? {
      var receipt := Receipt(env.plan.unsigned, env.plan.batch);
      var t := s.(receipts := AfterWrite(s.receipts, s.receipts[q.hash := receipt], env.persist));
      SameCachesKnown(s, t);
      if env.persist.Stored? {
        assert q.hash in t.receipts && t.receipts[q.hash].unsigned == receipt.unsigned;
        FinishKnown(s, t, q, receipt, env);
      }
    }
  }

  lemma AttemptKnown(s: Spender, q: Request, env: SpendEnv)
    requires Legal(s, q, env)
    ensures CachesKnown(s, Attempt(s, q, env).0) && ReplyKnown(s, Attempt(s, q, env).0, Attempt(s, q, env).1)
  {
    SameCachesKnown(s, s);
    NothingCached(s.txes, env.order, q.inputs);
    if q.hash !in s.txes && Cached(s.txes, env.order, q.inputs).Nothing? && env.listing.Some? {
      var keys := env.listing.value;
      match Outcome(ScanAll(s.receipts, env.broken, keys, q.inputs))
      case Refused =>
      case Matching(receipt) =>
        ScanMatches(s.receipts, env.broken, keys, q.inputs);
        FinishKnown(s, s, q, receipt, env);
      case NoReceipt =>
        NoReceiptOverlaps(s.receipts, env.broken, keys, q.inputs);
        CarryKnown(s, q, env);
    } else if q.hash in s.txes {
      assert Remembers(s.txes, s.txes[q.hash].unsigned);
    }
  }

  // ----- the invariant

  /** A stored receipt is for the transaction, or a receipt on its inputs has been consumed. */
  ghost predicate Backed(w: World, u: UnsignedTx) { Stored(w.spender.receipts, u) || Spent(w, u.inputs) }

  ghost predicate CacheBacked(w: World, m: Cache) { forall h :: h in m ==> Backed(w, m[h].unsigned) }

  /** A consumed receipt spends one of these inputs. */
  ghost predicate Touched(w: World, inputs: set<OutPoint>) { exists r <- w.consumed :: !(r.unsigned.inputs !! inputs) }

  ghost predicate LogApart(w: World) {
    forall i, j :: 0 <= i < j < |w.log| && w.log[i].rgb ==>
      Apart(w.log[i].tx.unsigned, w.log[j].tx.unsigned) || Touched(w, w.log[i].tx.unsigned.inputs)
  }

  ghost predicate InvLoss(inputsOf: nat -> set<OutPoint>, w: World) {
    && InvOwn(inputsOf, w) && DoomedSpent(inputsOf, w) && ReceiptsApart(w.spender.receipts)
    && CacheBacked(w, w.spender.disk) && (w.up ==> CacheBacked(w, w.spender.txes))
    && (forall o <- w.log :: o.rgb ==> Backed(w, o.tx.unsigned))
    && LogApart(w)
  }

  /** Two backed transactions are apart, or the inputs of the first have been touched. */
  lemma BackedApart(w: World, u: UnsignedTx, v: UnsignedTx)
    requires ReceiptsApart(w.spender.receipts) && Backed(w, u) && Backed(w, v)
    ensures Apart(u, v) || Touched(w, u.inputs)
  {
    if Spent(w, u.inputs) {
      var r :| r in w.consumed && r.unsigned.inputs == u.inputs;
    } else if Spent(w, v.inputs) {
      var r :| r in w.consumed && r.unsigned.inputs == v.inputs;
    } else {
      var j :| j in w.spender.receipts && w.spender.receipts[j].unsigned == u;
      var k :| k in w.spender.receipts && w.spender.receipts[k].unsigned == v;
    }
  }

  lemma SpentIsTouched(w: World, inputs: set<OutPoint>)
    requires Spent(w, inputs)
    ensures Touched(w, inputs)
  {
    var r :| r in w.consumed && r.unsigned.inputs == inputs;
  }

  lemma BackedStays(inputsOf: nat -> set<OutPoint>, w: World, step: Step, u: UnsignedTx)
    requires InvOwn(inputsOf, w) && DoomedSpent(inputsOf, w) && Enabled(w, step) && Determined(inputsOf, step)
    requires Backed(w, u)
    ensures Backed(Next(w, step), u)
  {
    if Spent(w, u.inputs) {
      SpentStays(w, step, u.inputs);
    } else {
      var k :| k in w.spender.receipts && w.spender.receipts[k].unsigned == u;
      StepKeepsReceipt(inputsOf, w, step, k);
    }
  }

  lemma TouchedStays(w: World, step: Step, inputs: set<OutPoint>)
    requires Enabled(w, step) && Touched(w, inputs)
    ensures Touched(Next(w, step), inputs)
  {
    var r :| r in w.consumed && !(r.unsigned.inputs !! inputs);
    assert r in Next(w, step).consumed;
  }

  /** Everything known before an attempt is backed after it. */
  lemma KnownBacked(inputsOf: nat -> set<OutPoint>, w: World, q: Request, env: SpendEnv, u: UnsignedTx)
    requires InvLoss(inputsOf, w) && Enabled(w, Spend(q, env)) && Determined(inputsOf, Spend(q, env))
    requires Known(w.spender, Next(w, Spend(q, env)).spender.receipts, u)
    ensures Backed(Next(w, Spend(q, env)), u)
  {
    if Remembers(w.spender.txes, u) || Remembers(w.spender.disk, u) { BackedStays(inputsOf, w, Spend(q, env), u); }
  }

  lemma HandoutApart(inputsOf: nat -> set<OutPoint>, w: World, q: Request, env: SpendEnv, u: UnsignedTx)
    requires InvLoss(inputsOf, w) && Enabled(w, Spend(q, env)) && Determined(inputsOf, Spend(q, env))
    requires Backed(w, u) && Attempt(w.spender, q, env).1.Returns?
    ensures Apart(u, Attempt(w.spender, q, env).1.tx.unsigned) || Touched(Next(w, Spend(q, env)), u.inputs)
  {
    var w', reply := Next(w, Spend(q, env)), Attempt(w.spender, q, env).1;
    AttemptKnown(w.spender, q, env);
    AttemptKeepsReceiptsApart(w.spender, q, env);
    BackedStays(inputsOf, w, Spend(q, env), u);
    if reply.rgb {
      KnownBacked(inputsOf, w, q, env, reply.tx.unsigned);
      BackedApart(w', u, reply.tx.unsigned);
    } else if Spent(w', u.inputs) {
      SpentIsTouched(w', u.inputs);
    }
  }

  lemma LogApartLonger(w: World, w': World, o: Handout)
    requires LogApart(w) && w'.consumed == w.consumed && w'.log == w.log + [o]
    requires forall p <- w.log :: p.rgb ==> Apart(p.tx.unsigned, o.tx.unsigned) || Touched(w', p.tx.unsigned.inputs)
    ensures LogApart(w')
  {
    forall i, j | 0 <= i < j < |w'.log| && w'.log[i].rgb
      ensures Apart(w'.log[i].tx.unsigned, w'.log[j].tx.unsigned) || Touched(w', w'.log[i].tx.unsigned.inputs)
    {
      assert w'.log[i] == w.log[i] && w.log[i] in w.log;
      if j < |w.log| {
        assert w'.log[j] == w.log[j];
        if Touched(w, w.log[i].tx.unsigned.inputs) {
          var r :| r in w.consumed && !(r.unsigned.inputs !! w.log[i].tx.unsigned.inputs);
        }
      }
    }
  }

  lemma LogApartStays(w: World, step: Step)
    requires LogApart(w) && Enabled(w, step) && Next(w, step).log == w.log
    ensures LogApart(Next(w, step))
  {
    forall i, j | 0 <= i < j < |w.log| && w.log[i].rgb
      ensures Apart(w.log[i].tx.unsigned, w.log[j].tx.unsigned) || Touched(Next(w, step), w.log[i].tx.unsigned.inputs)
    {
      if Touched(w, w.log[i].tx.unsigned.inputs) { TouchedStays(w, step, w.log[i].tx.unsigned.inputs); }
    }
  }

  lemma SpendKeepsCachesBacked(inputsOf: nat -> set<OutPoint>, w: World, q: Request, env: SpendEnv)
    requires InvLoss(inputsOf, w) && Enabled(w, Spend(q, env)) && Determined(inputsOf, Spend(q, env))
    ensures var w' := Next(w, Spend(q, env)); CacheBacked(w', w'.spender.disk) && CacheBacked(w', w'.spender.txes)
  {
    var w' := Next(w, Spend(q, env));
    AttemptKnown(w.spender, q, env);
    forall h | h in w'.spender.txes ensures Backed(w', w'.spender.txes[h].unsigned) {
      KnownBacked(inputsOf, w, q, env, w'.spender.txes[h].unsigned);
    }
    forall h | h in w'.spender.disk ensures Backed(w', w'.spender.disk[h].unsigned) {
      KnownBacked(inputsOf, w, q, env, w'.spender.disk[h].unsigned);
    }
  }

  lemma SpendKeepsLog(inputsOf: nat -> set<OutPoint>, w: World, q: Request, env: SpendEnv)
    requires InvLoss(inputsOf, w) && Enabled(w, Spend(q, env)) && Determined(inputsOf, Spend(q, env))
    ensures var w' := Next(w, Spend(q, env)); LogApart(w') && forall o <- w'.log :: o.rgb ==> Backed(w', o.tx.unsigned)
  {
    var step := Spend(q, env);
    var w', reply := Next(w, step), Attempt(w.spender, q, env).1;
    forall o <- w.log | o.rgb ensures Backed(w', o.tx.unsigned) { BackedStays(inputsOf, w, step, o.tx.unsigned); }
    if reply.Returns? {
      forall p <- w.log | p.rgb ensures Apart(p.tx.unsigned, reply.tx.unsigned) || Touched(w', p.tx.unsigned.inputs) {
        HandoutApart(inputsOf, w, q, env, p.tx.unsigned);
      }
      LogApartLonger(w, w', Handout(q, reply.tx, reply.rgb));
      AttemptKnown(w.spender, q, env);
      if reply.rgb { KnownBacked(inputsOf, w, q, env, reply.tx.unsigned); }
    } else {
      LogApartStays(w, step);
    }
  }

  lemma OtherStepKeepsBacked(inputsOf: nat -> set<OutPoint>, w: World, step: Step)
    requires InvLoss(inputsOf, w) && Enabled(w, step) && !step.Spend?
    ensures var w' := Next(w, step);
            && CacheBacked(w', w'.spender.disk) && (w'.up ==> CacheBacked(w', w'.spender.txes))
            && (forall o <- w'.log :: o.rgb ==> Backed(w', o.tx.unsigned))
  {
    var w' := Next(w, step);
    forall u | Backed(w, u) ensures Backed(w', u) { BackedStays(inputsOf, w, step, u); }
  }

  lemma StepKeepsInvLoss(inputsOf: nat -> set<OutPoint>, w: World, step: Step)
    requires InvLoss(inputsOf, w) && Enabled(w, step) && Determined(inputsOf, step)
    ensures InvLoss(inputsOf, Next(w, step))
  {
    StepKeepsOwn(inputsOf, w, step);
    StepKeepsDoomedSpent(inputsOf, w, step);
    if step.Spend? {
      AttemptKeepsReceiptsApart(w.spender, step.q, step.env);
      SpendKeepsCachesBacked(inputsOf, w, step.q, step.env);
      SpendKeepsLog(inputsOf, w, step.q, step.env);
    } else {
      OtherStepKeepsBacked(inputsOf, w, step);
      LogApartStays(w, step);
    }
  }

  lemma {:induction false} RunKeepsInvLoss(inputsOf: nat -> set<OutPoint>, worlds: seq<World>, steps: seq<Step>, i: nat)
    requires IsRun(worlds, steps) && i < |worlds| && forall step <- steps :: Determined(inputsOf, step)
    ensures InvLoss(inputsOf, worlds[i])
  {
    if i > 0 {
      RunKeepsInvLoss(inputsOf, worlds, steps, i - 1);
      StepKeepsInvLoss(inputsOf, worlds[i - 1], steps[i - 1]);
    }
  }

  /** Over every run, with any number of lost caches, in which hashes fix inputs: once a coloured sweep has been
      handed out, every later transaction is the same one, or spends none of its inputs, or comes when a
      receipt that spends one of those inputs has already been consumed, which is only after a transaction
      that spends it was confirmed. */
  lemma NoConflictBeforeConsumed(inputsOf: nat -> set<OutPoint>, worlds: seq<World>, steps: seq<Step>, n: nat, i: nat,
                                 j: nat)
    requires IsRun(worlds, steps) && n < |worlds| && forall step <- steps :: Determined(inputsOf, step)
    requires i < j < |worlds[n].log| && worlds[n].log[i].rgb
    ensures var u, v := worlds[n].log[i].tx.unsigned, worlds[n].log[j].tx.unsigned;
            || v == u || v.inputs !! u.inputs
            || exists r <- worlds[n].consumed :: r.unsigned in worlds[n].confirmed && !(r.unsigned.inputs !! u.inputs)
  {
    RunKeepsInvLoss(inputsOf, worlds, steps, n);
    ConsumedWasConfirmed(worlds, steps, n);
  }

  lemma {:induction false} ConsumedWasConfirmed(worlds: seq<World>, steps: seq<Step>, n: nat)
    requires IsRun(worlds, steps) && n < |worlds|
    ensures forall r <- worlds[n].consumed :: r.unsigned in worlds[n].confirmed
  {
    if n > 0 { ConsumedWasConfirmed(worlds, steps, n - 1); }
  }

  // ----- the exception happens

  lemma {:induction false} ListKeys(keys: set<nat>) returns (s: seq<nat>)
    ensures forall k :: k in s <==> k in keys
    ensures forall i, j :: 0 <= i < j < |s| ==> s[i] != s[j]
  {
    if keys == {} {
      s := [];
    } else {
      var k :| k in keys;
      s := ListKeys(keys - {k});
      s := s + [k];
    }
  }

  /** A listing without repetitions finds the one receipt that spends the inputs, if the others spend none. */
  lemma {:induction false} ScanFinds(receipts: Receipts, keys: seq<nat>, inputs: set<OutPoint>, found: Option<nat>)
    requires forall i, j :: 0 <= i < j < |keys| ==> keys[i] != keys[j]
    requires forall k <- keys :: k in receipts && (Some(k) != found ==> receipts[k].unsigned.inputs !! inputs)
    requires found.Some? ==> found.value in receipts && receipts[found.value].unsigned.inputs == inputs != {}
    ensures ScanAll(receipts, {}, keys, inputs) ==
      Scan(if found.Some? && found.value in keys then Some(receipts[found.value]) else None, false)
  {
    if keys != [] {
      var n := |keys| - 1;
      ScanFinds(receipts, keys[..n], inputs, found);
      assert keys[n] in keys;
      assert forall k <- keys :: k in keys[..n] || k == keys[n];
      if found == Some(keys[n]) { assert found.value !in keys[..n]; }
    }
  }

  /** An attempt that lists these receipts, can read all of them, has planned a coloured transaction, and meets
      no failure. */
  function AttemptEnv(keys: seq<nat>, u: UnsignedTx): SpendEnv {
    SpendEnv([], Some(keys), {}, Rgb(u, 0), StoreWrite.Stored, Some(0), StoreWrite.Stored)
  }

  /** With an empty cache and receipts on other inputs, what is planned is stored and handed out. */
  lemma FirstSweep(s: Spender, q: Request, u: UnsignedTx, keys: seq<nat>)
    requires s.txes == map[] && u.inputs == q.inputs && u.coloured
    requires (forall k :: k in keys <==> k in s.receipts) && forall i, j :: 0 <= i < j < |keys| ==> keys[i] != keys[j]
    requires forall k :: k in s.receipts ==> s.receipts[k].unsigned.inputs !! q.inputs
    ensures Legal(s, q, AttemptEnv(keys, u))
    ensures var cache := map[q.hash := Tx(u, 0)];
            Attempt(s, q, AttemptEnv(keys, u)) ==
              (Spender(cache, cache, s.receipts[q.hash := Receipt(u, 0)]), Returns(Tx(u, 0), true))
  {
    ScanFinds(s.receipts, keys, q.inputs, None);
  }

  lemma OneMoreStep(worlds: seq<World>, steps: seq<Step>, step: Step, w: World)
      returns (worlds': seq<World>, steps': seq<Step>)
    requires IsRun(worlds, steps) && Enabled(worlds[|steps|], step) && w == Next(worlds[|steps|], step)
    ensures IsRun(worlds', steps') && worlds' == worlds + [w] && steps' == steps + [step] && worlds'[|steps'|] == w
  {
    worlds', steps' := worlds + [w], steps + [step];
    forall i | 0 <= i < |steps'|
      ensures Enabled(worlds'[i], steps'[i]) && worlds'[i + 1] == Next(worlds'[i], steps'[i])
    {
      if i < |steps| { assert worlds'[i] == worlds[i] && worlds'[i + 1] == worlds[i + 1] && steps'[i] == steps[i]; }
    }
  }

  lemma Swept(q: Request, u: UnsignedTx) returns (worlds: seq<World>, steps: seq<Step>)
    requires u.inputs == q.inputs != {} && u.coloured
    ensures IsRun(worlds, steps) && forall step <- steps :: Determined(_ => q.inputs, step)
    ensures var cache := map[q.hash := Tx(u, 0)];
            worlds[|steps|] ==
              World(Spender(cache, cache, map[q.hash := Receipt(u, 0)]), true, [Handout(q, Tx(u, 0), true)], {}, {}, {})
  {
    var none := Spender(map[], map[], map[]);
    worlds, steps := [World(none, false, [], {}, {}, {})], [];
    var w := World(none, true, [], {}, {}, {});
    worlds, steps := OneMoreStep(worlds, steps, Restart(true), w);
    FirstSweep(none, q, u, []);
    worlds, steps := OneMoreStep(worlds, steps, Spend(q, AttemptEnv([], u)), Next(w, Spend(q, AttemptEnv([], u))));
  }

  /** A sweep is handed out, confirmed, consumed and its receipt removed, and the node stops. */
  lemma SweptAndStopped(q: Request, u: UnsignedTx) returns (worlds: seq<World>, steps: seq<Step>)
    requires u.inputs == q.inputs != {} && u.coloured
    ensures IsRun(worlds, steps) && forall step <- steps :: Determined(_ => q.inputs, step)
    ensures var cache := map[q.hash := Tx(u, 0)];
            worlds[|steps|] ==
              World(Spender(cache, cache, map[]), false, [Handout(q, Tx(u, 0), true)], {u}, {Receipt(u, 0)}, {})
  {
    worlds, steps := Swept(q, u);
    var w := worlds[|steps|];
    assert w.log[0] in w.log;
    var r := Receipt(u, 0);
    worlds, steps := OneMoreStep(worlds, steps, Confirm(u), w.(confirmed := {u}));
    worlds, steps :=
      OneMoreStep(worlds, steps, Consume(q.hash), w.(confirmed := {u}, consumed := {r}, doomed := {q.hash}));
    assert w.spender.receipts - {q.hash} == map[];
    var cleared := w.(spender := w.spender.(receipts := map[]), confirmed := {u}, consumed := {r}, doomed := {q.hash});
    worlds, steps := OneMoreStep(worlds, steps, RemoveReceipt(q.hash, StoreWrite.Stored), cleared);
    worlds, steps := OneMoreStep(worlds, steps, Crash, cleared.(up := false, doomed := {}));
  }

  /** The cache is then lost at the next restart, and the next attempt on the same inputs hands out another
      coloured transaction. */
  lemma LostCacheConflicts(q: Request, u: UnsignedTx, v: UnsignedTx) returns (worlds: seq<World>, steps: seq<Step>)
    requires u.inputs == v.inputs == q.inputs != {} && u.coloured && v.coloured && u != v
    ensures IsRun(worlds, steps) && forall step <- steps :: Determined(_ => q.inputs, step)
    ensures var log := worlds[|steps|].log;
            |log| == 2 && log[0] == Handout(q, Tx(u, 0), true) && log[1] == Handout(q, Tx(v, 0), true)
    ensures !Apart(u, v)
  {
    worlds, steps := SweptAndStopped(q, u);
    var w := worlds[|steps|];
    var lost := Next(w, Restart(false));
    worlds, steps := OneMoreStep(worlds, steps, Restart(false), lost);
    FirstSweep(lost.spender, q, v, []);
    worlds, steps := OneMoreStep(worlds, steps, Spend(q, AttemptEnv([], v)), Next(lost, Spend(q, AttemptEnv([], v))));
  }

  /** The cache is lost while the node is down, and the next attempt is made on an empty one. */
  lemma LostAndSwept(worlds: seq<World>, steps: seq<Step>, q: Request, u: UnsignedTx, keys: seq<nat>)
      returns (worlds': seq<World>, steps': seq<Step>)
    requires IsRun(worlds, steps) && u.inputs == q.inputs && u.coloured
    requires var s := worlds[|steps|].spender;
             && (forall k :: k in keys <==> k in s.receipts)
             && (forall i, j :: 0 <= i < j < |keys| ==> keys[i] != keys[j])
             && forall k :: k in s.receipts ==> s.receipts[k].unsigned.inputs !! q.inputs
    ensures IsRun(worlds', steps')
    ensures var w, w', cache := worlds[|steps|], worlds'[|steps'|], map[q.hash := Tx(u, 0)];
            w' == World(Spender(cache, cache, w.spender.receipts[q.hash := Receipt(u, 0)]), true,
                        w.log + [Handout(q, Tx(u, 0), true)], w.confirmed, w.consumed, {})
  {
    var w := worlds[|steps|];
    var down := Next(w, Crash);
    var lost := Next(down, Restart(false));
    FirstSweep(lost.spender, q, u, keys);
    worlds', steps' := OneMoreStep(worlds, steps, Crash, down);
    worlds', steps' := OneMoreStep(worlds', steps', Restart(false), lost);
    var spend := Spend(q, AttemptEnv(keys, u));
    worlds', steps' := OneMoreStep(worlds', steps', spend, Next(lost, spend));
  }

  /** Without hashes that fix inputs, nothing need be consumed: after a lost cache, an attempt on other inputs
      with the same hash overwrites the receipt, and after another the first inputs are spent anew. */
  lemma EqualHashesConflict(a: set<OutPoint>, b: set<OutPoint>) returns (worlds: seq<World>, steps: seq<Step>)
    requires a != {} && b != {} && a !! b
    ensures IsRun(worlds, steps) && worlds[|steps|].consumed == {}
    ensures var log := worlds[|steps|].log;
            |log| == 3 && log[0].rgb && !Apart(log[0].tx.unsigned, log[2].tx.unsigned)
  {
    worlds, steps := Swept(Request(5, a), UnsignedTx(a, true, 1));
    worlds, steps := LostAndSwept(worlds, steps, Request(5, b), UnsignedTx(b, true, 1), [5]);
    assert worlds[|steps|].spender.receipts == map[5 := Receipt(UnsignedTx(b, true, 1), 0)];
    worlds, steps := LostAndSwept(worlds, steps, Request(6, a), UnsignedTx(a, true, 2), [5]);
  }

  // ----- exactly when it can happen

  /** A legal attempt that hands out a transaction in conflict with this one. */
  ghost predicate Conflicts(s: Spender, u: UnsignedTx, q: Request, env: SpendEnv) {
    && Legal(s, q, env) && Attempt(s, q, env).1.Returns?
    && !Apart(u, Attempt(s, q, env).1.tx.unsigned)
  }

  /** While the receipt of a transaction is stored, no attempt on an empty cache conflicts with it. */
  lemma StoredDoesNotConflict(s: Spender, u: UnsignedTx, q: Request, env: SpendEnv)
    requires s.txes == map[] && ReceiptsApart(s.receipts) && Stored(s.receipts, u) && Legal(s, q, env)
    ensures !Conflicts(s, u, q, env)
  {
    var k :| k in s.receipts && s.receipts[k].unsigned == u;
    if env.listing.Some? {
      var keys := env.listing.value;
      match Outcome(ScanAll(s.receipts, env.broken, keys, q.inputs))
      case Refused =>
      case Matching(receipt) => ScanMatches(s.receipts, env.broken, keys, q.inputs);
      case NoReceipt => NoReceiptOverlaps(s.receipts, env.broken, keys, q.inputs);
    }
  }

  /** When it is not, some attempt does: on the inputs of a receipt that overlaps it, or with a transaction
      prepared anew. */
  lemma UnstoredConflicts(s: Spender, u: UnsignedTx) returns (q: Request, env: SpendEnv)
    requires s.txes == map[] && ReceiptsApart(s.receipts) && !Stored(s.receipts, u) && u.inputs != {}
    ensures Conflicts(s, u, q, env)
  {
    var keys := ListKeys(s.receipts.Keys);
    if k :| k in s.receipts && !(s.receipts[k].unsigned.inputs !! u.inputs) {
      var v := s.receipts[k].unsigned;
      q, env := Request(0, v.inputs), AttemptEnv(keys, UnsignedTx(v.inputs, true, 0));
      ScanFinds(s.receipts, keys, q.inputs, Some(k));
    } else {
      q, env := Request(0, u.inputs), AttemptEnv(keys, UnsignedTx(u.inputs, true, u.body + 1));
      ScanFinds(s.receipts, keys, q.inputs, None);
    }
  }

  /** After a restart that lost the cache, some attempt can hand out a transaction in conflict with one handed
      out before, exactly when the receipt of that one is no longer stored. */
  lemma LostCacheExact(s: Spender, u: UnsignedTx)
    requires s.txes == map[] && ReceiptsApart(s.receipts) && u.inputs != {}
    ensures (exists q, env :: Conflicts(s, u, q, env)) <==> !Stored(s.receipts, u)
  {
    if Stored(s.receipts, u) {
      forall q, env ensures !Conflicts(s, u, q, env) {
        if Legal(s, q, env) { StoredDoesNotConflict(s, u, q, env); }
      }
    } else {
      var q, env := UnstoredConflicts(s, u);
    }
  }
}
