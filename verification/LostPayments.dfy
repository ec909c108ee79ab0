/** Payment indices in the whole store, the maps in it that do not decode included. */
module LostPayments {
  import opened Wrappers
  import opened PaymentIndex
  import opened PaymentBook

  /** The same store, if everything in it decoded. */
  function Raw(b: Book): Book { b.(lostIn := false, lostOut := false) }

  lemma RawSave(b: Book, m: Records, n: nat, write: StoreWrite)
    ensures Raw(SaveIn(b, m, n, write)) == SaveIn(Raw(b), m, n, write)
    ensures Raw(SaveOut(b, m, n, write)) == SaveOut(Raw(b), m, n, write)
    ensures Raw(StageIn(b, m, n, write)) == StageIn(Raw(b), m, n, write)
  {
  }

  lemma RawInbound(b: Book, step: Step)
    requires step.AddInbound? || step.UpsertInbound? || step.StageInbound?
    ensures Raw(NextRunning(b, step)) == NextRunning(Raw(b), step)
  {
    var stamped := b.inbound[step.key := Info(step.createdAt, step.failed, step.detail, Some(b.next))];
    RawSave(b, stamped, b.next + 1, step.write);
    if step.UpsertInbound? && step.key in b.inbound {
      var changed := b.inbound[step.key].(failed := step.failed, detail := step.detail);
      RawSave(b, b.inbound[step.key := changed], b.next, step.write);
    }
  }

  lemma RawOutbound(b: Book, step: Step)
    requires step.AddOutbound? || step.UpdateOutbound?
    ensures Raw(NextRunning(b, step)) == NextRunning(Raw(b), step)
  {
    if step.AddOutbound? {
      var stamped := b.outbound[step.key := Info(step.createdAt, step.failed, step.detail, Some(b.next))];
      RawSave(b, stamped, b.next + 1, step.write);
    } else if step.key in b.outbound {
      var changed := b.outbound[step.key].(failed := step.failed, detail := step.detail);
      RawSave(b, b.outbound[step.key := changed], b.next, step.write);
    }
  }

  lemma RawRunning(b: Book, step: Step)
    requires !step.Start? && !step.Crash?
    ensures Raw(NextRunning(b, step)) == NextRunning(Raw(b), step)
  {
    if step.AddOutbound? || step.UpdateOutbound? { RawOutbound(b, step); } else { RawInbound(b, step); }
  }

  lemma RawStep(b: Book, step: Step)
    requires Inv(Raw(b)) && !step.Start?
    ensures Inv(Raw(Next(b, step)))
  {
    if b.running && !step.Crash? {
      RawRunning(b, step);
      StepWhileRunning(Raw(b), step);
    }
  }

  // ----- starting with a map that does not decode

  ghost predicate AtMost(m: Records, n: nat) { forall k :: k in m && m[k].idx.Some? ==> m[k].idx.value <= n }

  /** No map that does not decode holds an index above all that do. */
  ghost predicate NothingAbove(b: Book) {
    var base := Base(ReadIn(b), ReadOut(b));
    (b.lostIn ==> AtMost(b.diskIn, base)) && (b.lostOut ==> AtMost(b.diskOut, base))
  }

  lemma NothingToFill(m: Records, inbound: bool, items: set<Item>, base: nat)
    requires MissingOf(m, inbound) == {}
    ensures Filled(m, inbound, items, base) == m
  {
    forall k | k in m ensures m[k].idx.Some? {
      if m[k].idx.None? { assert ItemOf(m, k, inbound) in MissingOf(m, inbound); }
    }
  }

  lemma NothingMissing(i: Records, o: Records)
    requires |Missing(i, o)| == 0
    ensures FilledIn(i, o) == i && FilledOut(i, o) == o && NextAfter(i, o) == Base(i, o) + 1
  {
    assert MissingOf(i, true) <= Missing(i, o) && MissingOf(o, false) <= Missing(i, o);
    NothingToFill(i, true, Missing(i, o), Base(i, o));
    NothingToFill(o, false, Missing(i, o), Base(i, o));
  }

  lemma ReadBelow(b: Book)
    ensures var n := Base(ReadIn(b), ReadOut(b)) + 1; Below(ReadIn(b), n) && Below(ReadOut(b), n)
  {
    var i, o := ReadIn(b), ReadOut(b);
    forall k | k in i && i[k].idx.Some? ensures i[k].idx.value <= Base(i, o) { FilledInAt(i, o, k); }
    forall k | k in o && o[k].idx.Some? ensures o[k].idx.value <= Base(i, o) { FilledOutAt(i, o, k); }
  }

  /** Nothing was missing, so nothing is written. */
  lemma QuietStartIs(b: Book)
    requires |Missing(ReadIn(b), ReadOut(b))| == 0
    ensures Started(b, Completes) ==
      Book(true, ReadIn(b), ReadOut(b), Base(ReadIn(b), ReadOut(b)) + 1, b.diskIn, b.diskOut, b.lostIn, b.lostOut)
  {
    NothingMissing(ReadIn(b), ReadOut(b));
  }

  lemma QuietStart(b: Book)
    requires Unique(b.diskIn, b.diskOut) && |Missing(ReadIn(b), ReadOut(b))| == 0
    ensures var s := Started(b, Completes);
            && (Inv(Raw(s)) <==> Below(s.diskIn, s.next) && Below(s.diskOut, s.next))
            && (Inv(Raw(s)) <==> NothingAbove(b))
  {
    QuietStartIs(b);
    ReadBelow(b);
    QuietConsistent(b, Base(ReadIn(b), ReadOut(b)) + 1);
  }

  lemma QuietConsistent(b: Book, n: nat)
    requires Unique(b.diskIn, b.diskOut) && Below(ReadIn(b), n) && Below(ReadOut(b), n)
    ensures Consistent(ReadIn(b), ReadOut(b), b.diskIn, b.diskOut, n) <==> Below(b.diskIn, n) && Below(b.diskOut, n)
  {
  }

  /** Something was missing, so both maps are written. */
  lemma WritingStart(b: Book)
    requires !b.running && Unique(b.diskIn, b.diskOut) && |Missing(ReadIn(b), ReadOut(b))| > 0
    ensures Inv(Raw(Started(b, Completes)))
  {
    BackfillKeepsUnique(ReadIn(b), ReadOut(b));
    CounterAboveAll(ReadIn(b), ReadOut(b));
  }

  /** The inbound map is written and the outbound one is not. */
  lemma HalfWrittenStart(b: Book)
    requires Unique(b.diskIn, b.diskOut) && NothingAbove(b)
    ensures Unique(FilledIn(ReadIn(b), ReadOut(b)), b.diskOut)
  {
    var i, o := ReadIn(b), ReadOut(b);
    BackfillKeepsUnique(i, o);
    forall j, k | j in i && k in b.diskOut ensures FilledIn(i, o)[j].idx != b.diskOut[k].idx { FilledInAt(i, o, j); }
  }

  lemma SafeStart(b: Book, outcome: Startup)
    requires !b.running && Inv(Raw(b)) && NothingAbove(b)
    ensures Inv(Raw(Started(b, outcome)))
  {
    match outcome
    case StopsBeforeWriting =>
    case StopsBetweenWrites => HalfWrittenStart(b);
    case Completes =>
      if |Missing(ReadIn(b), ReadOut(b))| > 0 { WritingStart(b); } else { QuietStart(b); }
  }

  /** At every start of the run, no map that does not decode holds an index above all that do. */
  ghost predicate SafeRun(b: Book, steps: seq<Step>) {
    forall n :: 0 <= n < |steps| && steps[n].Start? ==>
      NothingAbove(Losing(Run(b, steps[..n]), steps[n].lostIn, steps[n].lostOut))
  }

  /** Over every such run no index is there twice anywhere in the store. */
  lemma {:induction false} StoreStaysUnique(diskIn: Records, diskOut: Records, steps: seq<Step>)
    requires Unique(diskIn, diskOut) && SafeRun(Down(diskIn, diskOut), steps)
    ensures Inv(Raw(Run(Down(diskIn, diskOut), steps)))
    ensures var b := Run(Down(diskIn, diskOut), steps); Unique(b.diskIn, b.diskOut)
  {
    if steps != [] {
      var n := |steps| - 1;
      assert forall m :: 0 <= m < n ==> steps[..n][m] == steps[m] && steps[..n][..m] == steps[..m];
      StoreStaysUnique(diskIn, diskOut, steps[..n]);
      var b, step := Run(Down(diskIn, diskOut), steps[..n]), steps[n];
      if !step.Start? {
        RawStep(b, step);
      } else if !b.running {
        var lost := Losing(b, step.lostIn, step.lostOut);
        assert Raw(lost) == Raw(b);
        SafeStart(lost, step.outcome);
      }
    }
  }

  // ----- exactly when the store stays unique until the next start

  ghost predicate NoStart(steps: seq<Step>) { forall step <- steps :: !step.Start? }

  ghost predicate StaysUnique(s: Book) {
    forall steps :: NoStart(steps) ==> Unique(Run(s, steps).diskIn, Run(s, steps).diskOut)
  }

  lemma {:induction false} RawRun(s: Book, steps: seq<Step>)
    requires Inv(Raw(s)) && NoStart(steps)
    ensures Inv(Raw(Run(s, steps)))
  {
    if steps != [] {
      RawRun(s, steps[..|steps| - 1]);
      RawStep(Run(s, steps[..|steps| - 1]), steps[|steps| - 1]);
    }
  }

  function Outbound(key: nat): Step { AddOutbound(key, 0, true, 0, Stored) }

  function Inbound(key: nat): Step { AddInbound(key, 0, true, 0, Stored) }

  /** The same failed payment made again and again takes one index after the other. */
  lemma {:induction false} RepeatOutbound(s: Book, key: nat, n: nat) returns (steps: seq<Step>)
    requires s.running && key !in s.outbound
    ensures NoStart(steps)
    ensures var e := Run(s, steps);
            && e.running && e.next == s.next + n + 1 && e.diskIn == s.diskIn
            && key in e.outbound && e.outbound[key] == Info(0, true, 0, Some(s.next + n)) && e.diskOut == e.outbound
  {
    if n == 0 {
      steps := [Outbound(key)];
      assert steps[..0] == [];
      assert Run(s, steps[..0]) == s;
    } else {
      var before := RepeatOutbound(s, key, n - 1);
      steps := before + [Outbound(key)];
      assert steps[..|steps| - 1] == before;
    }
  }

  lemma {:induction false} RepeatInbound(s: Book, key: nat, n: nat) returns (steps: seq<Step>)
    requires s.running
    ensures NoStart(steps)
    ensures var e := Run(s, steps);
            && e.running && e.next == s.next + n + 1 && e.diskOut == s.diskOut
            && key in e.inbound && e.inbound[key] == Info(0, true, 0, Some(s.next + n)) && e.diskIn == e.inbound
  {
    if n == 0 {
      steps := [Inbound(key)];
      assert steps[..0] == [];
      assert Run(s, steps[..0]) == s;
    } else {
      var before := RepeatInbound(s, key, n - 1);
      steps := before + [Inbound(key)];
      assert steps[..|steps| - 1] == before;
    }
  }

  /** An index at or above the counter is given out again. */
  lemma RepeatsAbove(s: Book)
    requires s.running && !(Below(s.diskIn, s.next) && Below(s.diskOut, s.next))
    ensures !StaysUnique(s)
  {
    if k :| k in s.diskIn && s.diskIn[k].idx.Some? && s.diskIn[k].idx.value >= s.next {
      var key := AboveAll(s.outbound.Keys);
      var steps := RepeatOutbound(s, key, s.diskIn[k].idx.value - s.next);
      assert !Unique(Run(s, steps).diskIn, Run(s, steps).diskOut);
    } else {
      var k :| k in s.diskOut && s.diskOut[k].idx.Some? && s.diskOut[k].idx.value >= s.next;
      var steps := RepeatInbound(s, 0, s.diskOut[k].idx.value - s.next);
      assert !Unique(Run(s, steps).diskIn, Run(s, steps).diskOut);
    }
  }

  /** After a completed start, whatever did not decode: no index comes to be twice in the store before the next
      start exactly when something was missing, so that both maps were written, or no stored map holds an index
      at or above the counter. */
  lemma StoreUniqueExactly(b: Book)
    requires !b.running && Unique(b.diskIn, b.diskOut)
    ensures var s := Started(b, Completes);
            StaysUnique(s) <==>
            |Missing(ReadIn(b), ReadOut(b))| > 0 || (Below(s.diskIn, s.next) && Below(s.diskOut, s.next))
  {
    var s := Started(b, Completes);
    if |Missing(ReadIn(b), ReadOut(b))| > 0 {
      WritingStart(b);
    } else {
      QuietStart(b);
      QuietStartIs(b);
    }
    if Inv(Raw(s)) {
      forall steps | NoStart(steps) ensures Unique(Run(s, steps).diskIn, Run(s, steps).diskOut) { RawRun(s, steps); }
    } else {
      RepeatsAbove(s);
    }
  }

  lemma NoRecordsNoIndex()
    ensures |Missing(map[], map[])| == 0 && Base(map[], map[]) == 0
  {
    assert Missing(map[], map[]) == {};
    assert IndicesOf(map[]) == {};
  }

  /** An inbound map with index 1 does not decode; nothing is missing; and the next payment is stored with
      index 1. */
  lemma LostMapRepeatsIndex()
    ensures var b := Losing(Down(map[4 := Info(0, false, 0, Some(1))], map[]), true, false);
            var e := Next(Started(b, Completes), AddOutbound(5, 0, false, 0, Stored));
            && 5 in e.diskOut && e.diskOut[5].idx == Some(1) && 4 in e.diskIn && e.diskIn[4].idx == Some(1)
            && !Unique(e.diskIn, e.diskOut)
  {
    var b := Losing(Down(map[4 := Info(0, false, 0, Some(1))], map[]), true, false);
    NoRecordsNoIndex();
    QuietStartIs(b);
  }
}
