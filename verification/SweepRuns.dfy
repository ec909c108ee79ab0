/** Sweeps over every run of spend attempts, reconciliations, failed writes, crashes and restarts.

    Spend attempts hold the lock of the cache, so one attempt is one step; every point at which it can crash
    leaves what some failed write followed by a crash leaves. A reconciliation first judges a receipt and
    removes it later, with anything in between. */
module SweepRuns {
  import opened Wrappers
  import opened SweepColoring
  import opened Sweep

  datatype Handout = Handout(request: Request, tx: Tx, rgb: bool)

  /** `log` is every transaction handed out so far; `confirmed` the transactions the chain has confirmed;
      `consumed` the receipts a reconciliation has consumed; `doomed` the keys it is about to remove. */
  datatype World = World(
    spender: Spender, up: bool, log: seq<Handout>, confirmed: set<UnsignedTx>, consumed: set<Receipt>, doomed: set<nat>)

  datatype Step =
    | Spend(q: Request, env: SpendEnv)
    | Confirm(unsigned: UnsignedTx)
    | Consume(key: nat)
    | RemoveReceipt(key: nat, write: StoreWrite)
    | Crash
    | Restart(decodes: bool)

  /** A transaction is confirmed only after it has been handed out, and consumed only after it is confirmed.
      A stored cache that does not decode at a restart counts as empty. */
  ghost predicate Enabled(w: World, step: Step) {
    match step
    case Spend(q, env) => w.up && Legal(w.spender, q, env)
    case Confirm(unsigned) => exists o <- w.log :: o.tx.unsigned == unsigned
    case Consume(key) => w.up && key in w.spender.receipts && w.spender.receipts[key].unsigned in w.confirmed
    case RemoveReceipt(key, _) => w.up && key in w.doomed
    case Crash => true
    case Restart(_) => !w.up
  }

  ghost function Next(w: World, step: Step): World
    requires Enabled(w, step)
  {
    match step
    case Spend(q, env) =>
      var (spender, reply) := Attempt(w.spender, q, env);
      w.(spender := spender, log := if reply.Returns? then w.log + [Handout(q, reply.tx, reply.rgb)] else w.log)
    case Confirm(unsigned) => w.(confirmed := w.confirmed + {unsigned})
    case Consume(key) =>
      w.(consumed := w.consumed + {w.spender.receipts[key]}, doomed := w.doomed + {key})
    case RemoveReceipt(key, write) =>
      w.(spender := w.spender.(receipts := AfterWrite(w.spender.receipts, w.spender.receipts - {key}, write)))
    case Crash => w.(up := false, doomed := {})
    case Restart(decodes) => w.(up := true, spender := w.spender.(txes := if decodes then w.spender.disk else map[]))
  }

  // ----- no two conflicting transactions

  /** The same transaction, or nothing spent by both. */
  ghost predicate Apart(a: UnsignedTx, b: UnsignedTx) { a == b || a.inputs !! b.inputs }

  ghost predicate AllApart(m: Cache) {
    forall g, h :: g in m && h in m ==> Apart(m[g].unsigned, m[h].unsigned)
  }

  ghost predicate Remembers(m: Cache, u: UnsignedTx) { exists h :: h in m && m[h].unsigned == u }

  /** Once a coloured sweep has been handed out, every later transaction is the same one or spends other
      inputs. */
  ghost predicate SafeLog(log: seq<Handout>) {
    forall i, j :: 0 <= i < j < |log| && log[i].rgb ==> Apart(log[i].tx.unsigned, log[j].tx.unsigned)
  }

  /** Every coloured sweep handed out is in the stored cache, and in memory while the node is up. */
  ghost predicate Kept(log: seq<Handout>, m: Cache) {
    forall o <- log :: o.rgb ==> Remembers(m, o.tx.unsigned)
  }

  ghost predicate Within(m: Cache, n: Cache) { forall h :: h in m ==> h in n && n[h] == m[h] }

  ghost predicate Inv(w: World) {
    && AllApart(w.spender.disk) && Kept(w.log, w.spender.disk)
    && (w.up ==> AllApart(w.spender.txes) && Kept(w.log, w.spender.txes) && Within(w.spender.txes, w.spender.disk))
    && SafeLog(w.log)
  }

  lemma {:induction false} NothingCached(txes: Cache, order: seq<nat>, inputs: set<OutPoint>)
    requires forall h <- order :: h in txes
    ensures Cached(txes, order, inputs).Nothing? ==> forall h <- order :: txes[h].unsigned.inputs !! inputs
    ensures Cached(txes, order, inputs).Found? ==>
      exists h <- order :: txes[h] == Cached(txes, order, inputs).tx && txes[h].unsigned.inputs == inputs
  {
    if order != [] {
      NothingCached(txes, order[1..], inputs);
      assert forall h <- order :: h == order[0] || h in order[1..];
    }
  }

  lemma ScanMatches(receipts: Receipts, broken: set<nat>, keys: seq<nat>, inputs: set<OutPoint>)
    requires Outcome(ScanAll(receipts, broken, keys, inputs)).Matching?
    ensures Outcome(ScanAll(receipts, broken, keys, inputs)).receipt.unsigned.inputs == inputs
    ensures exists k <- keys :: k in receipts && receipts[k] == Outcome(ScanAll(receipts, broken, keys, inputs)).receipt
  {
    MatchingMatches(receipts, broken, keys, inputs);
  }

  lemma {:induction false} MatchingMatches(receipts: Receipts, broken: set<nat>, keys: seq<nat>, inputs: set<OutPoint>)
    ensures var scan := ScanAll(receipts, broken, keys, inputs);
            scan.Scan? && scan.matching.Some? ==>
              && scan.matching.value.unsigned.inputs == inputs
              && exists k <- keys :: k in receipts && receipts[k] == scan.matching.value
  {
    if keys != [] {
      var n := |keys| - 1;
      MatchingMatches(receipts, broken, keys[..n], inputs);
      assert forall k <- keys[..n] :: k in keys;
      assert keys[n] in keys;
    }
  }

  /** With no match and nothing unreadable, every stored receipt spends other inputs. */
  lemma {:induction false} NoReceiptOverlaps(receipts: Receipts, broken: set<nat>, keys: seq<nat>,
                                             inputs: set<OutPoint>)
    requires ScanAll(receipts, broken, keys, inputs) == Scan(None, false)
    ensures forall k <- keys :: k in receipts ==> receipts[k].unsigned.inputs !! inputs
  {
    if keys != [] {
      var n := |keys| - 1;
      NoReceiptOverlaps(receipts, broken, keys[..n], inputs);
      assert forall k <- keys :: k == keys[n] || k in keys[..n];
    }
  }

  /** The transaction spends the requested inputs, and no cached transaction spends any of them. */
  ghost predicate New(s: Spender, q: Request, tx: Tx) {
    && tx.unsigned.inputs == q.inputs && q.hash !in s.txes
    && forall h :: h in s.txes ==> s.txes[h].unsigned.inputs !! q.inputs
  }

  /** The two ways an attempt can end. */
  ghost predicate LeavesCaches(s: Spender, q: Request, s': Spender, reply: Reply) {
    && s'.txes == s.txes && s'.disk == s.disk
    && (reply.Returns? ==> if reply.rgb then Remembers(s.txes, reply.tx.unsigned) else New(s, q, reply.tx))
  }

  ghost predicate ExtendsCaches(s: Spender, q: Request, s': Spender, reply: Reply, tx: Tx) {
    && New(s, q, tx)
    && s'.disk == s.txes[q.hash := tx]
    && if reply.Error? then s'.txes == s.txes else s'.txes == s'.disk && reply == Returns(tx, true)
  }

  lemma FinishOutcome(s: Spender, q: Request, receipt: Receipt, env: SpendEnv)
    requires q.hash !in s.txes && receipt.unsigned.inputs == q.inputs
    requires forall h :: h in s.txes ==> s.txes[h].unsigned.inputs !! q.inputs
    ensures var (s', reply) := Finish(s, q, receipt, env);
            LeavesCaches(s, q, s', reply) ||
            (env.signature.Some? && ExtendsCaches(s, q, s', reply, Tx(receipt.unsigned, env.signature.value)))
  {
  }

  lemma AttemptOutcome(s: Spender, q: Request, env: SpendEnv)
    requires Legal(s, q, env)
    ensures var (s', reply) := Attempt(s, q, env);
            LeavesCaches(s, q, s', reply) || exists tx :: ExtendsCaches(s, q, s', reply, tx)
  {
    var (s', reply) := Attempt(s, q, env);
    NothingCached(s.txes, env.order, q.inputs);
    if q.hash !in s.txes && Cached(s.txes, env.order, q.inputs).Nothing? && env.listing.Some? {
      match Outcome(ScanAll(s.receipts, env.broken, env.listing.value, q.inputs))
      case Refused =>
      case Matching(receipt) =>
        ScanMatches(s.receipts, env.broken, env.listing.value, q.inputs);
        FinishOutcome(s, q, receipt, env);
      case NoReceipt =>
        if env.plan.Rgb? && env.persist.Stored? {
          var receipt := Receipt(env.plan.unsigned, env.plan.batch);
          var s1 := s.(receipts := s.receipts[q.hash := receipt]);
          FinishOutcome(s1, q, receipt, env);
          if !LeavesCaches(s1, q, s', reply) {
            assert ExtendsCaches(s, q, s', reply, Tx(receipt.unsigned, env.signature.value));
          }
        }
    }
  }

  lemma NewStaysApart(s: Spender, q: Request, tx: Tx)
    requires AllApart(s.txes) && New(s, q, tx)
    ensures AllApart(s.txes[q.hash := tx])
    ensures forall u :: Remembers(s.txes, u) ==> Remembers(s.txes[q.hash := tx], u) && Apart(u, tx.unsigned)
    ensures Remembers(s.txes[q.hash := tx], tx.unsigned)
  {
    var m := s.txes[q.hash := tx];
    assert q.hash in m;
    forall u | Remembers(s.txes, u) ensures Remembers(m, u) && Apart(u, tx.unsigned) {
      var h :| h in s.txes && s.txes[h].unsigned == u;
      assert h in m && m[h].unsigned == u;
    }
  }

  lemma LogOneMore(log: seq<Handout>, o: Handout)
    requires SafeLog(log) && forall p <- log :: p.rgb ==> Apart(p.tx.unsigned, o.tx.unsigned)
    ensures SafeLog(log + [o])
  {
    var longer := log + [o];
    forall i, j | 0 <= i < j < |longer| && longer[i].rgb ensures Apart(longer[i].tx.unsigned, longer[j].tx.unsigned) {
      assert longer[i] == log[i] && log[i] in log;
    }
  }

  /** Whatever is handed out without changing the caches is apart from every cached transaction. */
  lemma HandedOutApart(s: Spender, q: Request, s': Spender, reply: Reply, u: UnsignedTx)
    requires AllApart(s.txes) && LeavesCaches(s, q, s', reply) && reply.Returns? && Remembers(s.txes, u)
    ensures Apart(u, reply.tx.unsigned)
  {
    var h :| h in s.txes && s.txes[h].unsigned == u;
    if reply.rgb {
      var g :| g in s.txes && s.txes[g].unsigned == reply.tx.unsigned;
    }
  }

  lemma RememberedWithin(m: Cache, n: Cache, u: UnsignedTx)
    requires Within(m, n) && Remembers(m, u)
    ensures Remembers(n, u)
  {
    var h :| h in m && m[h].unsigned == u;
    assert h in n && n[h].unsigned == u;
  }

  lemma SpendKeepsInv(w: World, q: Request, env: SpendEnv)
    requires Inv(w) && Enabled(w, Spend(q, env))
    ensures Inv(Next(w, Spend(q, env)))
  {
    var s := w.spender;
    var (s', reply) := Attempt(s, q, env);
    AttemptOutcome(s, q, env);
    if LeavesCaches(s, q, s', reply) {
      if reply.Returns? {
        var o := Handout(q, reply.tx, reply.rgb);
        forall p <- w.log | p.rgb ensures Apart(p.tx.unsigned, o.tx.unsigned) {
          HandedOutApart(s, q, s', reply, p.tx.unsigned);
        }
        LogOneMore(w.log, o);
        if reply.rgb { RememberedWithin(s.txes, s.disk, reply.tx.unsigned); }
      }
    } else {
      var tx :| ExtendsCaches(s, q, s', reply, tx);
      NewStaysApart(s, q, tx);
      if reply.Returns? { LogOneMore(w.log, Handout(q, reply.tx, reply.rgb)); }
    }
  }

  /** The step does not lose the cache. */
  predicate KeepsCache(step: Step) { step.Restart? ==> step.decodes }

  lemma StepKeepsInv(w: World, step: Step)
    requires Inv(w) && Enabled(w, step) && KeepsCache(step)
    ensures Inv(Next(w, step))
  {
    if step.Spend? { SpendKeepsInv(w, step.q, step.env); }
  }

  // ----- runs

  ghost predicate Connected(worlds: seq<World>, steps: seq<Step>) {
    && |worlds| == |steps| + 1
    && (forall i :: 0 <= i < |steps| ==> Enabled(worlds[i], steps[i]) && worlds[i + 1] == Next(worlds[i], steps[i]))
  }

  ghost predicate IsRun(worlds: seq<World>, steps: seq<Step>) {
    Connected(worlds, steps) && worlds[0] == World(Spender(map[], map[], map[]), false, [], {}, {}, {})
  }

  ghost predicate CacheKept(steps: seq<Step>, n: nat) {
    forall i :: 0 <= i < n && i < |steps| ==> KeepsCache(steps[i])
  }

  lemma {:induction false} RunKeepsInv(worlds: seq<World>, steps: seq<Step>, i: nat)
    requires IsRun(worlds, steps) && i < |worlds| && CacheKept(steps, i)
    ensures Inv(worlds[i])
  {
    if i > 0 {
      RunKeepsInv(worlds, steps, i - 1);
      StepKeepsInv(worlds[i - 1], steps[i - 1]);
    }
  }

  /** Over every run in which no restart loses the cache: once a coloured sweep has been handed out, every
      transaction handed out later, coloured or not, is the same transaction or spends none of its inputs. */
  lemma NoConflictingSweep(worlds: seq<World>, steps: seq<Step>, n: nat, i: nat, j: nat)
    requires IsRun(worlds, steps) && n < |worlds| && i < j < |worlds[n].log| && CacheKept(steps, n)
    requires worlds[n].log[i].rgb
    ensures || worlds[n].log[j].tx.unsigned == worlds[n].log[i].tx.unsigned
            || worlds[n].log[j].tx.unsigned.inputs !! worlds[n].log[i].tx.unsigned.inputs
  {
    RunKeepsInv(worlds, steps, n);
    assert Apart(worlds[n].log[i].tx.unsigned, worlds[n].log[j].tx.unsigned);
  }

  // ----- the stored receipts

  /** No two receipts spend a common input. */
  ghost predicate ReceiptsApart(receipts: Receipts) {
    forall j, k :: j in receipts && k in receipts && j != k ==>
      receipts[j].unsigned.inputs !! receipts[k].unsigned.inputs
  }

  lemma AttemptKeepsReceiptsApart(s: Spender, q: Request, env: SpendEnv)
    requires Legal(s, q, env) && ReceiptsApart(s.receipts)
    ensures ReceiptsApart(Attempt(s, q, env).0.receipts)
  {
    if q.hash !in s.txes && Cached(s.txes, env.order, q.inputs).Nothing? && env.listing.Some? {
      if Outcome(ScanAll(s.receipts, env.broken, env.listing.value, q.inputs)).NoReceipt? {
        NoReceiptOverlaps(s.receipts, env.broken, env.listing.value, q.inputs);
      }
    }
  }

  /** In every reachable state the stored receipts have pairwise disjoint inputs. */
  lemma {:induction false} ReceiptsStayApart(worlds: seq<World>, steps: seq<Step>, i: nat)
    requires IsRun(worlds, steps) && i < |worlds|
    ensures ReceiptsApart(worlds[i].spender.receipts)
  {
    if i > 0 {
      ReceiptsStayApart(worlds, steps, i - 1);
      var w, step := worlds[i - 1], steps[i - 1];
      assert Enabled(w, step);
      if step.Spend? { AttemptKeepsReceiptsApart(w.spender, step.q, step.env); }
    }
  }

  // ----- when the hash of the descriptors fixes their inputs

  /** Requests are for at least one output, and equal hashes are for equal inputs. */
  ghost predicate Determined(inputsOf: nat -> set<OutPoint>, step: Step) {
    step.Spend? ==> step.q.inputs == inputsOf(step.q.hash) && step.q.inputs != {}
  }

  ghost predicate SpendsOwn(inputsOf: nat -> set<OutPoint>, m: Cache) {
    forall h :: h in m ==> m[h].unsigned.inputs == inputsOf(h) && m[h].unsigned.coloured
  }

  ghost predicate ReceiptsOwn(inputsOf: nat -> set<OutPoint>, r: Receipts) {
    forall k :: k in r ==> r[k].unsigned.inputs == inputsOf(k) && inputsOf(k) != {} && r[k].unsigned.coloured
  }

  ghost predicate Exact(o: Handout) {
    o.tx.unsigned.inputs == o.request.inputs && (o.rgb <==> o.tx.unsigned.coloured)
  }

  ghost predicate InvOwn(inputsOf: nat -> set<OutPoint>, w: World) {
    && SpendsOwn(inputsOf, w.spender.disk) && (w.up ==> SpendsOwn(inputsOf, w.spender.txes))
    && ReceiptsOwn(inputsOf, w.spender.receipts)
    && (forall o <- w.log :: Exact(o) && o.request.inputs == inputsOf(o.request.hash))
  }

  lemma FinishOwn(inputsOf: nat -> set<OutPoint>, s: Spender, q: Request, receipt: Receipt, env: SpendEnv)
    requires SpendsOwn(inputsOf, s.txes) && SpendsOwn(inputsOf, s.disk) && q.inputs == inputsOf(q.hash)
    requires receipt.unsigned.inputs == q.inputs && receipt.unsigned.coloured
    ensures var (s', reply) := Finish(s, q, receipt, env);
            && SpendsOwn(inputsOf, s'.txes) && SpendsOwn(inputsOf, s'.disk) && s'.receipts == s.receipts
            && (reply.Returns? ==> Exact(Handout(q, reply.tx, reply.rgb)))
            && (forall h :: h in s.txes && h != q.hash ==> h in s'.txes && s'.txes[h] == s.txes[h])
  {
  }

  /** What an attempt does when hashes fix inputs: the transaction spends exactly what was asked for, and a
      receipt is only ever added, under a key that held none and whose inputs nothing cached spends. */
  ghost predicate AttemptOwn(inputsOf: nat -> set<OutPoint>, s: Spender, q: Request, s': Spender, reply: Reply) {
    && SpendsOwn(inputsOf, s'.txes) && SpendsOwn(inputsOf, s'.disk) && ReceiptsOwn(inputsOf, s'.receipts)
    && (reply.Returns? ==> Exact(Handout(q, reply.tx, reply.rgb)))
    && (forall h :: h in s.txes ==> h in s'.txes && s'.txes[h] == s.txes[h])
    && (forall k :: k in s.receipts ==> k in s'.receipts && s'.receipts[k] == s.receipts[k])
    && (forall k :: k in s'.receipts && k !in s.receipts ==>
          k == q.hash && forall h :: h in s.txes ==> s.txes[h].unsigned.inputs !! q.inputs)
  }

  lemma CarryOwn(inputsOf: nat -> set<OutPoint>, s: Spender, q: Request, env: SpendEnv)
    requires Legal(s, q, env) && q.inputs == inputsOf(q.hash) && q.inputs != {} && q.hash !in s.txes
    requires SpendsOwn(inputsOf, s.txes) && SpendsOwn(inputsOf, s.disk) && ReceiptsOwn(inputsOf, s.receipts)
    requires q.hash !in s.receipts && forall h :: h in s.txes ==> s.txes[h].unsigned.inputs !! q.inputs
    ensures AttemptOwn(inputsOf, s, q, Carry(s, q, env).0, Carry(s, q, env).1)
  {
    if env.plan.Rgb? && env.persist.Stored? {
      var receipt := Receipt(env.plan.unsigned, env.plan.batch);
      FinishOwn(inputsOf, s.(receipts := s.receipts[q.hash := receipt]), q, receipt, env);
    }
  }

  lemma AttemptSpendsOwn(inputsOf: nat -> set<OutPoint>, s: Spender, q: Request, env: SpendEnv)
    requires Legal(s, q, env) && q.inputs == inputsOf(q.hash) && q.inputs != {}
    requires SpendsOwn(inputsOf, s.txes) && SpendsOwn(inputsOf, s.disk) && ReceiptsOwn(inputsOf, s.receipts)
    ensures AttemptOwn(inputsOf, s, q, Attempt(s, q, env).0, Attempt(s, q, env).1)
  {
    NothingCached(s.txes, env.order, q.inputs);
    if q.hash !in s.txes && Cached(s.txes, env.order, q.inputs).Nothing? && env.listing.Some? {
      var keys := env.listing.value;
      match Outcome(ScanAll(s.receipts, env.broken, keys, q.inputs))
      case Refused =>
      case Matching(receipt) =>
        ScanMatches(s.receipts, env.broken, keys, q.inputs);
        FinishOwn(inputsOf, s, q, receipt, env);
      case NoReceipt =>
        NoReceiptOverlaps(s.receipts, env.broken, keys, q.inputs);
        CarryOwn(inputsOf, s, q, env);
    }
  }

  lemma StepKeepsOwn(inputsOf: nat -> set<OutPoint>, w: World, step: Step)
    requires InvOwn(inputsOf, w) && Enabled(w, step) && Determined(inputsOf, step)
    ensures InvOwn(inputsOf, Next(w, step))
  {
    if step.Spend? { AttemptSpendsOwn(inputsOf, w.spender, step.q, step.env); }
  }

  lemma {:induction false} RunKeepsOwn(inputsOf: nat -> set<OutPoint>, worlds: seq<World>, steps: seq<Step>, i: nat)
    requires IsRun(worlds, steps) && i < |worlds| && forall step <- steps :: Determined(inputsOf, step)
    ensures InvOwn(inputsOf, worlds[i])
  {
    if i > 0 {
      RunKeepsOwn(inputsOf, worlds, steps, i - 1);
      StepKeepsOwn(inputsOf, worlds[i - 1], steps[i - 1]);
    }
  }

  /** Over every run in which hashes fix inputs, whatever the order of the descriptors, across restarts and
      lost caches: every transaction handed out spends exactly the requested outputs, and every stored receipt
      spends exactly the outputs of the descriptors it is stored for. */
  lemma HandsOutWhatWasAsked(inputsOf: nat -> set<OutPoint>, worlds: seq<World>, steps: seq<Step>, n: nat)
    requires IsRun(worlds, steps) && n < |worlds| && forall step <- steps :: Determined(inputsOf, step)
    ensures forall o <- worlds[n].log :: o.tx.unsigned.inputs == o.request.inputs == inputsOf(o.request.hash)
    ensures forall k :: k in worlds[n].spender.receipts ==> worlds[n].spender.receipts[k].unsigned.inputs == inputsOf(k)
  {
    RunKeepsOwn(inputsOf, worlds, steps, n);
  }

  // ----- receipts are not lost

  /** Some consumed receipt spends exactly these inputs. */
  ghost predicate Spent(w: World, inputs: set<OutPoint>) {
    inputs != {} && exists r <- w.consumed :: r.unsigned.inputs == inputs
  }

  ghost predicate DoomedSpent(inputsOf: nat -> set<OutPoint>, w: World) {
    forall k :: k in w.doomed ==> Spent(w, inputsOf(k))
  }

  lemma SpentStays(w: World, step: Step, inputs: set<OutPoint>)
    requires Enabled(w, step) && Spent(w, inputs)
    ensures Spent(Next(w, step), inputs)
  {
    var r :| r in w.consumed && r.unsigned.inputs == inputs;
    assert r in Next(w, step).consumed;
  }

  lemma StepKeepsDoomedSpent(inputsOf: nat -> set<OutPoint>, w: World, step: Step)
    requires InvOwn(inputsOf, w) && DoomedSpent(inputsOf, w) && Enabled(w, step)
    ensures DoomedSpent(inputsOf, Next(w, step))
  {
    var w' := Next(w, step);
    forall k | k in w'.doomed ensures Spent(w', inputsOf(k)) {
      if k in w.doomed {
        SpentStays(w, step, inputsOf(k));
      } else {
        assert step == Consume(k) && w.spender.receipts[k] in w'.consumed;
      }
    }
  }

  lemma {:induction false} RunKeepsDoomedSpent(inputsOf: nat -> set<OutPoint>, worlds: seq<World>, steps: seq<Step>,
                                               i: nat)
    requires IsRun(worlds, steps) && i < |worlds| && forall step <- steps :: Determined(inputsOf, step)
    ensures DoomedSpent(inputsOf, worlds[i])
  {
    if i > 0 {
      RunKeepsDoomedSpent(inputsOf, worlds, steps, i - 1);
      RunKeepsOwn(inputsOf, worlds, steps, i - 1);
      StepKeepsDoomedSpent(inputsOf, worlds[i - 1], steps[i - 1]);
    }
  }

  /** A step keeps a receipt as it is, or removes it after one on the same inputs has been consumed. */
  lemma StepKeepsReceipt(inputsOf: nat -> set<OutPoint>, w: World, step: Step, k: nat)
    requires InvOwn(inputsOf, w) && DoomedSpent(inputsOf, w) && Enabled(w, step) && Determined(inputsOf, step)
    requires k in w.spender.receipts
    ensures var later := Next(w, step).spender.receipts;
            || (k in later && later[k] == w.spender.receipts[k])
            || (k in w.doomed && Spent(w, w.spender.receipts[k].unsigned.inputs))
  {
    if step.Spend? { AttemptSpendsOwn(inputsOf, w.spender, step.q, step.env); }
  }

  /** Over every run in which hashes fix inputs, lost caches included: a receipt stays in the store, unchanged,
      until a receipt on the very same inputs has been consumed. */
  lemma {:induction false} NoReceiptLost(inputsOf: nat -> set<OutPoint>, worlds: seq<World>, steps: seq<Step>, n: nat,
                                         m: nat, k: nat)
    requires IsRun(worlds, steps) && n <= m < |worlds| && forall step <- steps :: Determined(inputsOf, step)
    requires k in worlds[n].spender.receipts
    ensures var now, later := worlds[n].spender.receipts, worlds[m].spender.receipts;
            (k in later && later[k] == now[k]) || Spent(worlds[m], now[k].unsigned.inputs)
  {
    if n < m {
      var w, step := worlds[m - 1], steps[m - 1];
      NoReceiptLost(inputsOf, worlds, steps, n, m - 1, k);
      RunKeepsOwn(inputsOf, worlds, steps, m - 1);
      RunKeepsDoomedSpent(inputsOf, worlds, steps, m - 1);
      var inputs := worlds[n].spender.receipts[k].unsigned.inputs;
      assert Enabled(w, step) && Determined(inputsOf, step);
      if k in w.spender.receipts && w.spender.receipts[k] == worlds[n].spender.receipts[k] {
        StepKeepsReceipt(inputsOf, w, step, k);
      }
      if Spent(w, inputs) { SpentStays(w, step, inputs); }
    }
  }

  /** While the cache is kept, what a doomed key stands for is in it, so that nothing else can be stored under
      the key before it is removed. */
  ghost predicate DoomedOk(inputsOf: nat -> set<OutPoint>, w: World) {
    && (!w.up ==> w.doomed == {})
    && (forall u <- w.confirmed :: exists o <- w.log :: o.tx.unsigned == u)
    && forall k :: k in w.doomed ==>
         && inputsOf(k) != {}
         && (exists h :: h in w.spender.txes && w.spender.txes[h].unsigned.inputs == inputsOf(k))
         && (k in w.spender.receipts ==> w.spender.receipts[k] in w.consumed)
  }

  lemma SpendKeepsDoomed(inputsOf: nat -> set<OutPoint>, w: World, q: Request, env: SpendEnv)
    requires InvOwn(inputsOf, w) && DoomedOk(inputsOf, w)
    requires Enabled(w, Spend(q, env)) && Determined(inputsOf, Spend(q, env))
    ensures DoomedOk(inputsOf, Next(w, Spend(q, env)))
  {
    var w' := Next(w, Spend(q, env));
    AttemptSpendsOwn(inputsOf, w.spender, q, env);
    forall k | k in w'.doomed
      ensures exists h :: h in w'.spender.txes && w'.spender.txes[h].unsigned.inputs == inputsOf(k)
      ensures k in w'.spender.receipts ==> w'.spender.receipts[k] in w'.consumed
    {
      var h :| h in w.spender.txes && w.spender.txes[h].unsigned.inputs == inputsOf(k);
      assert h in w'.spender.txes;
      assert !(w.spender.txes[h].unsigned.inputs !! inputsOf(k));
    }
    forall u <- w'.confirmed ensures exists o <- w'.log :: o.tx.unsigned == u {
      var o :| o in w.log && o.tx.unsigned == u;
      assert o in w'.log;
    }
  }

  lemma ConsumeKeepsDoomed(inputsOf: nat -> set<OutPoint>, w: World, key: nat)
    requires Inv(w) && InvOwn(inputsOf, w) && DoomedOk(inputsOf, w) && Enabled(w, Consume(key))
    ensures DoomedOk(inputsOf, Next(w, Consume(key)))
  {
    var u := w.spender.receipts[key].unsigned;
    var o :| o in w.log && o.tx.unsigned == u;
    assert Exact(o) && Remembers(w.spender.txes, u);
    var h :| h in w.spender.txes && w.spender.txes[h].unsigned == u;
  }

  lemma StepKeepsDoomed(inputsOf: nat -> set<OutPoint>, w: World, step: Step)
    requires Inv(w) && InvOwn(inputsOf, w) && DoomedOk(inputsOf, w)
    requires Enabled(w, step) && Determined(inputsOf, step)
    ensures DoomedOk(inputsOf, Next(w, step))
  {
    match step
    case Spend(q, env) => SpendKeepsDoomed(inputsOf, w, q, env);
    case Consume(key) => ConsumeKeepsDoomed(inputsOf, w, key);
    case _ =>
  }

  lemma {:induction false} RunKeepsDoomed(inputsOf: nat -> set<OutPoint>, worlds: seq<World>, steps: seq<Step>, i: nat)
    requires IsRun(worlds, steps) && i < |worlds| && CacheKept(steps, i)
    requires forall step <- steps :: Determined(inputsOf, step)
    ensures DoomedOk(inputsOf, worlds[i])
  {
    if i > 0 {
      RunKeepsDoomed(inputsOf, worlds, steps, i - 1);
      RunKeepsInv(worlds, steps, i - 1);
      RunKeepsOwn(inputsOf, worlds, steps, i - 1);
      StepKeepsDoomed(inputsOf, worlds[i - 1], steps[i - 1]);
    }
  }

  lemma StepKeepsUnconsumed(inputsOf: nat -> set<OutPoint>, w: World, step: Step, k: nat)
    requires InvOwn(inputsOf, w) && DoomedOk(inputsOf, w) && Enabled(w, step) && Determined(inputsOf, step)
    requires k in w.spender.receipts
    ensures var later := Next(w, step).spender.receipts;
            (k in later && later[k] == w.spender.receipts[k]) || w.spender.receipts[k] in w.consumed
  {
    if step.Spend? { AttemptSpendsOwn(inputsOf, w.spender, step.q, step.env); }
  }

  lemma ConsumedStays(w: World, step: Step)
    requires Enabled(w, step)
    ensures w.consumed <= Next(w, step).consumed
  {
  }

  /** The receipt is in the store under its key, or has been consumed. */
  ghost predicate KeptOrConsumed(w: World, k: nat, r: Receipt) {
    (k in w.spender.receipts && w.spender.receipts[k] == r) || r in w.consumed
  }

  lemma StepOfRunKeepsUnconsumed(inputsOf: nat -> set<OutPoint>, worlds: seq<World>, steps: seq<Step>, i: nat, k: nat,
                                 r: Receipt)
    requires IsRun(worlds, steps) && i < |steps| && CacheKept(steps, i)
    requires forall step <- steps :: Determined(inputsOf, step)
    requires KeptOrConsumed(worlds[i], k, r)
    ensures KeptOrConsumed(worlds[i + 1], k, r)
  {
    RunKeepsOwn(inputsOf, worlds, steps, i);
    RunKeepsDoomed(inputsOf, worlds, steps, i);
    ConsumedStays(worlds[i], steps[i]);
    if k in worlds[i].spender.receipts { StepKeepsUnconsumed(inputsOf, worlds[i], steps[i], k); }
  }

  /** While no restart loses the cache, a receipt stays in the store, unchanged, until it has itself been
      consumed, however attempts, passes, failed writes and restarts interleave. */
  lemma {:induction false} NoReceiptLostUnconsumed(
      inputsOf: nat -> set<OutPoint>, worlds: seq<World>, steps: seq<Step>, n: nat, m: nat, k: nat)
    requires IsRun(worlds, steps) && n <= m < |worlds| && CacheKept(steps, m)
    requires k in worlds[n].spender.receipts && forall step <- steps :: Determined(inputsOf, step)
    ensures KeptOrConsumed(worlds[m], k, worlds[n].spender.receipts[k])
  {
    if n < m {
      NoReceiptLostUnconsumed(inputsOf, worlds, steps, n, m - 1, k);
      StepOfRunKeepsUnconsumed(inputsOf, worlds, steps, m - 1, k, worlds[n].spender.receipts[k]);
    }
  }
}
