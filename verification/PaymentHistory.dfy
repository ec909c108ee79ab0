/** What becomes of one payment's record, stated on the two maps alone: what the backfill gives it, what each
    operation stores for it, and that it keeps its index over every later run. */
module PaymentHistory {
  import opened Wrappers
  import opened PaymentIndex
  import opened PaymentBook

  // ----- the backfill

  /** Nothing but missing indices changes. */
  ghost predicate OnlyIndexed(m: Records, m': Records) {
    && m'.Keys == m.Keys
    && (forall k :: k in m ==> m'[k].idx.Some? && m'[k].(idx := m[k].idx) == m[k])
    && (forall k :: k in m && m[k].idx.Some? ==> m'[k] == m[k])
  }

  lemma BackfillOnlyIndexes(i: Records, o: Records)
    ensures OnlyIndexed(i, FilledIn(i, o)) && OnlyIndexed(o, FilledOut(i, o))
  {
  }

  /** A record without an index, in one of the maps. */
  predicate Lacks(m: Records, k: nat) { k in m && m[k].idx == None }

  /** Records that had no index are numbered by creation time and then by key, in one sequence over both maps, an
      inbound one before an outbound one that agrees on both. */
  lemma BackfillByTimeAndKey(i: Records, o: Records, j: nat, k: nat)
    ensures var in', out' := FilledIn(i, o), FilledOut(i, o);
            && (Lacks(i, j) && Lacks(i, k) && i[j].createdAt < i[k].createdAt ==> in'[j].idx.value < in'[k].idx.value)
            && (Lacks(i, j) && Lacks(i, k) && i[j].createdAt == i[k].createdAt && j < k ==>
                  in'[j].idx.value < in'[k].idx.value)
            && (Lacks(o, j) && Lacks(o, k) && o[j].createdAt < o[k].createdAt ==> out'[j].idx.value < out'[k].idx.value)
            && (Lacks(o, j) && Lacks(o, k) && o[j].createdAt == o[k].createdAt && j < k ==>
                  out'[j].idx.value < out'[k].idx.value)
            && (Lacks(i, j) && Lacks(o, k) ==>
                  (in'[j].idx.value < out'[k].idx.value <==>
                     i[j].createdAt < o[k].createdAt || (i[j].createdAt == o[k].createdAt && j <= k)))
  {
    if Lacks(i, j) && Lacks(i, k) {
      FilledInAt(i, o, j);
      FilledInAt(i, o, k);
      BackfillFollowsOrder(i, o, ItemOf(i, j, true), ItemOf(i, k, true));
    }
    if Lacks(o, j) && Lacks(o, k) {
      FilledOutAt(i, o, j);
      FilledOutAt(i, o, k);
      BackfillFollowsOrder(i, o, ItemOf(o, j, false), ItemOf(o, k, false));
    }
    if Lacks(i, j) && Lacks(o, k) {
      FilledInAt(i, o, j);
      FilledOutAt(i, o, k);
      BackfillFollowsOrder(i, o, ItemOf(i, j, true), ItemOf(o, k, false));
    }
  }

  lemma {:induction false} ImageSize(items: set<Item>, all: set<Item>, ranks: set<nat>)
    requires items <= all && forall r: nat :: r in ranks <==> exists x <- items :: Rank(all, x) == r
    ensures |ranks| == |items|
  {
    if items == {} {
      assert ranks == {};
    } else {
      var x :| x in items;
      var rest, fewer := items - {x}, ranks - {Rank(all, x)};
      forall r: nat ensures r in fewer <==> exists y <- rest :: Rank(all, y) == r {
        forall y | y in rest ensures Rank(all, y) != Rank(all, x) { RanksDiffer(all, y, x); }
        if r in fewer {
          var y :| y in items && Rank(all, y) == r;
          assert y in rest;
        }
      }
      ImageSize(rest, all, fewer);
      assert Rank(all, x) in ranks;
    }
  }

  lemma {:induction false} FirstNumbers(n: nat) returns (s: set<nat>)
    ensures |s| == n && forall r: nat :: r in s <==> r < n
  {
    if n == 0 {
      s := {};
    } else {
      var t := FirstNumbers(n - 1);
      s := t + {n - 1};
      assert n - 1 !in t;
    }
  }

  lemma SubsetOfSameSize(a: set<nat>, b: set<nat>)
    requires a <= b && |a| == |b|
    ensures a == b
  {
    if r :| r in b && r !in a { SubsetSize(a, b - {r}); }
  }

  /** Every rank is some item's. */
  lemma RankTaken(items: set<Item>, r: nat) returns (x: Item)
    requires r < |items|
    ensures x in items && Rank(items, x) == r
  {
    var ranks: set<nat> := set y | y in items :: Rank(items, y);
    var numbers := FirstNumbers(|items|);
    ImageSize(items, items, ranks);
    forall y | y in items ensures Rank(items, y) in numbers { RankBounded(items, y); }
    SubsetOfSameSize(ranks, numbers);
    assert r in ranks;
    x :| x in items && Rank(items, x) == r;
  }

  /** The index is some record's. */
  ghost predicate Used(i: Records, o: Records, v: nat) {
    (exists k :: k in i && i[k].idx == Some(v)) || (exists k :: k in o && o[k].idx == Some(v))
  }

  lemma MissingIsUsed(i: Records, o: Records, x: Item)
    requires x in Missing(i, o)
    ensures Used(FilledIn(i, o), FilledOut(i, o), IndexAfter(i, o, x))
  {
    if x in MissingOf(i, true) {
      var k :| k in i && i[k].idx.None? && x == ItemOf(i, k, true);
      FilledInAt(i, o, k);
    } else {
      var k :| k in o && o[k].idx.None? && x == ItemOf(o, k, false);
      FilledOutAt(i, o, k);
    }
  }

  lemma BaseBelow(i: Records, o: Records, v: nat)
    requires 0 < v && forall u: nat :: Used(i, o, u) ==> u < v
    ensures Base(i, o) < v
  {
    BaseIsUsed(i, o);
  }

  /** The backfill numbers without gaps: every number past the old indices and below the counter is used. */
  lemma BackfillHasNoGaps(i: Records, o: Records, v: nat)
    requires 0 < v < NextAfter(i, o) && forall u: nat :: Used(i, o, u) ==> u < v
    ensures Used(FilledIn(i, o), FilledOut(i, o), v)
  {
    BaseBelow(i, o, v);
    var x := RankTaken(Missing(i, o), v - Base(i, o) - 1);
    MissingIsUsed(i, o, x);
  }

  lemma BaseIsUsed(i: Records, o: Records)
    ensures Base(i, o) > 0 ==> Used(i, o, Base(i, o))
    ensures forall u: nat :: Used(i, o, u) ==> u <= Base(i, o)
  {
    var indices := IndicesOf(i) + IndicesOf(o);
    assert indices == {} ==> Base(i, o) == 0;
    if indices != {} {
      assert Base(i, o) in indices;
      if Base(i, o) in IndicesOf(i) {
        var k :| k in i && i[k].idx == Some(Base(i, o));
      } else {
        var k :| k in o && o[k].idx == Some(Base(i, o));
      }
    }
    forall u: nat | Used(i, o, u) ensures u <= Base(i, o) { assert u in indices; }
  }

  /** The counter is one past the greatest index there is after the backfill, or 1 if there is none. */
  lemma CounterIsNext(i: Records, o: Records)
    ensures NextAfter(i, o) > 1 ==> Used(FilledIn(i, o), FilledOut(i, o), NextAfter(i, o) - 1)
    ensures forall u: nat :: Used(FilledIn(i, o), FilledOut(i, o), u) ==> u < NextAfter(i, o)
    ensures NextAfter(i, o) >= 1
  {
    CounterAboveAll(i, o);
    BaseIsUsed(i, o);
    var in', out', v := FilledIn(i, o), FilledOut(i, o), NextAfter(i, o) - 1;
    if v > 0 {
      if |Missing(i, o)| > 0 {
        BackfillHasNoGaps(i, o, v);
      } else {
        assert Used(i, o, v);
        if k :| k in i && i[k].idx == Some(v) {
          assert in'[k].idx == Some(v);
        } else {
          var k :| k in o && o[k].idx == Some(v);
          assert out'[k].idx == Some(v);
        }
      }
    }
  }

  // ----- what each operation stores

  /** A new inbound payment, staged or not, has its details and the next index; a staged one that cannot be
      written is not there, but its index is used up. Nothing else changes. */
  lemma InboundStored(b: Book, step: Step)
    requires b.running && (step.AddInbound? || step.StageInbound? || (step.UpsertInbound? && step.key !in b.inbound))
    ensures var b', info := Next(b, step), Info(step.createdAt, step.failed, step.detail, Some(b.next));
            && b'.next == b.next + 1 && b'.outbound == b.outbound && b'.diskOut == b.diskOut
            && b'.inbound ==
                 (if step.StageInbound? && step.write != Stored then b.inbound else b.inbound[step.key := info])
            && (step.write == Stored ==> b'.diskIn == b.inbound[step.key := info] && !b'.lostIn)
            && (step.write == Errored(false) ==> b'.diskIn == b.diskIn && b'.lostIn == b.lostIn)
  {
  }

  /** The same for an outbound one, which is refused while there is one under its key that has not failed. */
  lemma OutboundStored(b: Book, step: Step)
    requires b.running && step.AddOutbound?
    ensures var b', info := Next(b, step), Info(step.createdAt, step.failed, step.detail, Some(b.next));
            if step.key in b.outbound && !b.outbound[step.key].failed then b' == b
            else
              && b'.next == b.next + 1 && b'.inbound == b.inbound && b'.diskIn == b.diskIn
              && b'.outbound == b.outbound[step.key := info]
              && (step.write == Stored ==> b'.diskOut == b'.outbound && !b'.lostOut)
              && (step.write == Errored(false) ==> b'.diskOut == b.diskOut && b'.lostOut == b.lostOut)
  {
  }

  /** A change of a known payment leaves its creation time and its index. */
  lemma ChangeKeepsIndex(b: Book, step: Step)
    requires b.running
    ensures var b' := Next(b, step);
            && (step.UpsertInbound? && step.key in b.inbound ==>
                  && b'.inbound == b.inbound[step.key :=
                       Info(b.inbound[step.key].createdAt, step.failed, step.detail, b.inbound[step.key].idx)]
                  && b'.next == b.next && b'.outbound == b.outbound
                  && (step.write == Stored ==> b'.diskIn == b'.inbound))
            && (step.UpdateOutbound? && step.key in b.outbound ==>
                  && b'.outbound == b.outbound[step.key :=
                       Info(b.outbound[step.key].createdAt, step.failed, step.detail, b.outbound[step.key].idx)]
                  && b'.next == b.next && b'.inbound == b.inbound
                  && (step.write == Stored ==> b'.diskOut == b'.outbound))
            && (step.UpdateOutbound? && step.key !in b.outbound ==> b' == b)
  {
  }

  // ----- a record over later runs

  ghost predicate Holds(m: Records, k: nat, createdAt: nat, idx: nat) {
    k in m && m[k].createdAt == createdAt && m[k].idx == Some(idx)
  }

  /** In the store, and in memory while the node runs. */
  ghost predicate KeptIn(b: Book, k: nat, createdAt: nat, idx: nat) {
    !b.lostIn && Holds(b.diskIn, k, createdAt, idx) && (b.running ==> Holds(b.inbound, k, createdAt, idx))
  }

  ghost predicate KeptOut(b: Book, k: nat, createdAt: nat, idx: nat) {
    !b.lostOut && Holds(b.diskOut, k, createdAt, idx) && (b.running ==> Holds(b.outbound, k, createdAt, idx))
  }

  /** The step replaces the inbound record of this key, or finds that the stored map does not decode. */
  predicate DisturbsIn(step: Step, k: nat) {
    || ((step.AddInbound? || step.StageInbound?) && step.key == k)
    || (step.Start? && step.lostIn)
  }

  predicate DisturbsOut(step: Step, k: nat) {
    (step.AddOutbound? && step.key == k) || (step.Start? && step.lostOut)
  }

  lemma StartKeepsRecord(b: Book, step: Step, k: nat, createdAt: nat, idx: nat)
    requires step.Start?
    ensures KeptIn(b, k, createdAt, idx) && !step.lostIn ==> KeptIn(Next(b, step), k, createdAt, idx)
    ensures KeptOut(b, k, createdAt, idx) && !step.lostOut ==> KeptOut(Next(b, step), k, createdAt, idx)
  {
    var c := Losing(b, step.lostIn, step.lostOut);
    if b.running { return; }
    var i, o := ReadIn(c), ReadOut(c);
    FilledHolds(i, o, k, createdAt, idx);
    CommittedKeeps(c, step.outcome, FilledIn(i, o), FilledOut(i, o), NextAfter(i, o), |Missing(i, o)| > 0,
                   k, createdAt, idx);
  }

  lemma FilledHolds(i: Records, o: Records, k: nat, createdAt: nat, idx: nat)
    ensures Holds(i, k, createdAt, idx) ==> Holds(FilledIn(i, o), k, createdAt, idx)
    ensures Holds(o, k, createdAt, idx) ==> Holds(FilledOut(i, o), k, createdAt, idx)
  {
  }

  lemma CommittedKeeps(b: Book, outcome: Startup, in': Records, out': Records, n: nat, changed: bool,
                       k: nat, createdAt: nat, idx: nat)
    requires !b.running
    ensures KeptIn(b, k, createdAt, idx) && Holds(in', k, createdAt, idx) ==>
      KeptIn(Committed(b, outcome, in', out', n, changed), k, createdAt, idx)
    ensures KeptOut(b, k, createdAt, idx) && Holds(out', k, createdAt, idx) ==>
      KeptOut(Committed(b, outcome, in', out', n, changed), k, createdAt, idx)
  {
  }

  lemma StepKeepsRecord(b: Book, step: Step, k: nat, createdAt: nat, idx: nat)
    ensures KeptIn(b, k, createdAt, idx) && !DisturbsIn(step, k) ==> KeptIn(Next(b, step), k, createdAt, idx)
    ensures KeptOut(b, k, createdAt, idx) && !DisturbsOut(step, k) ==> KeptOut(Next(b, step), k, createdAt, idx)
  {
    if step.Start? { StartKeepsRecord(b, step, k, createdAt, idx); }
  }

  /** Over every later run, crashes, failed writes and interrupted backfills included: a record that is stored with
      an index stays, with its creation time and that index, while nothing replaces it and its map decodes. */
  lemma {:induction false} RecordStays(b: Book, steps: seq<Step>, k: nat, createdAt: nat, idx: nat)
    ensures KeptIn(b, k, createdAt, idx) && (forall step <- steps :: !DisturbsIn(step, k)) ==>
      KeptIn(Run(b, steps), k, createdAt, idx)
    ensures KeptOut(b, k, createdAt, idx) && (forall step <- steps :: !DisturbsOut(step, k)) ==>
      KeptOut(Run(b, steps), k, createdAt, idx)
  {
    if steps != [] {
      var n := |steps| - 1;
      RecordStays(b, steps[..n], k, createdAt, idx);
      StepKeepsRecord(Run(b, steps[..n]), steps[n], k, createdAt, idx);
      assert steps[n] in steps && forall step <- steps[..n] :: step in steps;
    }
  }

  /** So a payment that was recorded and written keeps the index it was given then. */
  lemma RecordedIndexStays(b: Book, step: Step, later: seq<Step>)
    requires b.running
    ensures var stored := (step.AddInbound? || step.StageInbound?) && step.write == Stored;
            stored && (forall s <- later :: !DisturbsIn(s, step.key)) ==>
              KeptIn(Run(Next(b, step), later), step.key, step.createdAt, b.next)
    ensures var stored := step.AddOutbound? && step.write == Stored;
            var refused := stored && step.key in b.outbound && !b.outbound[step.key].failed;
            stored && !refused && (forall s <- later :: !DisturbsOut(s, step.key)) ==>
              KeptOut(Run(Next(b, step), later), step.key, step.createdAt, b.next)
  {
    if step.AddInbound? || step.StageInbound? || step.AddOutbound? {
      RecordStays(Next(b, step), later, step.key, step.createdAt, b.next);
    }
  }
}
