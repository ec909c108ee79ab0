/** The payment records in memory and on disk, over every run of startups, new payments, failed writes
    and crashes. */
module PaymentBook {
  import opened Wrappers
  import opened PaymentIndex

  /** `next`, `inbound` and `outbound` are what the running node holds; `lostIn` and `lostOut` say that what is
      stored does not decode. */
  datatype Book = Book(
    running: bool, inbound: Records, outbound: Records, next: nat,
    diskIn: Records, diskOut: Records, lostIn: bool, lostOut: bool)

  /** A stored map that does not decode counts as empty. */
  function ReadIn(b: Book): Records { if b.lostIn then map[] else b.diskIn }

  function ReadOut(b: Book): Records { if b.lostOut then map[] else b.diskOut }

  datatype Startup = Completes | StopsBeforeWriting | StopsBetweenWrites

  datatype Step =
    | Start(outcome: Startup, lostIn: bool, lostOut: bool)
    | AddInbound(key: nat, createdAt: nat, failed: bool, detail: int, write: StoreWrite)
    | AddOutbound(key: nat, createdAt: nat, failed: bool, detail: int, write: StoreWrite)
    | UpsertInbound(key: nat, createdAt: nat, failed: bool, detail: int, write: StoreWrite)
    | UpdateOutbound(key: nat, failed: bool, detail: int, write: StoreWrite)
    | StageInbound(key: nat, createdAt: nat, failed: bool, detail: int, write: StoreWrite)
    | Crash

  /** The maps turn out not to decode; once they do not, they do not until they are written again. */
  function Losing(b: Book, lostIn: bool, lostOut: bool): Book {
    b.(lostIn := b.lostIn || lostIn, lostOut := b.lostOut || lostOut)
  }

  /** The backfill, and its two writes if anything was missing. */
  ghost function Started(b: Book, outcome: Startup): Book {
    var i, o := ReadIn(b), ReadOut(b);
    Committed(b, outcome, FilledIn(i, o), FilledOut(i, o), NextAfter(i, o), |Missing(i, o)| > 0)
  }

  ghost function Next(b: Book, step: Step): Book {
    match step
    case Start(outcome, lostIn, lostOut) => if b.running then b else Started(Losing(b, lostIn, lostOut), outcome)
    case Crash => b.(running := false)
    case _ => if b.running then NextRunning(b, step) else b
  }

  /** The map in memory is replaced, then written. */
  function SaveIn(b: Book, inbound: Records, next: nat, write: StoreWrite): Book {
    b.(inbound := inbound, next := next,
       diskIn := AfterWrite(b.diskIn, inbound, write), lostIn := AfterWrite(b.lostIn, false, write))
  }

  function SaveOut(b: Book, outbound: Records, next: nat, write: StoreWrite): Book {
    b.(outbound := outbound, next := next,
       diskOut := AfterWrite(b.diskOut, outbound, write), lostOut := AfterWrite(b.lostOut, false, write))
  }

  /** The map is written first, and replaced in memory only if that succeeds. */
  function StageIn(b: Book, staged: Records, next: nat, write: StoreWrite): Book {
    b.(inbound := if write.Stored? then staged else b.inbound, next := next,
       diskIn := AfterWrite(b.diskIn, staged, write), lostIn := AfterWrite(b.lostIn, false, write))
  }

  function NextRunning(b: Book, step: Step): Book
    requires !step.Start? && !step.Crash?
  {
    match step
    case AddInbound(key, createdAt, failed, detail, write) =>
      SaveIn(b, b.inbound[key := Info(createdAt, failed, detail, Some(b.next))], b.next + 1, write)
    case AddOutbound(key, createdAt, failed, detail, write) =>
      if key in b.outbound && !b.outbound[key].failed then b
      else SaveOut(b, b.outbound[key := Info(createdAt, failed, detail, Some(b.next))], b.next + 1, write)
    case UpsertInbound(key, createdAt, failed, detail, write) =>
      if key in b.inbound
      then SaveIn(b, b.inbound[key := b.inbound[key].(failed := failed, detail := detail)], b.next, write)
      else SaveIn(b, b.inbound[key := Info(createdAt, failed, detail, Some(b.next))], b.next + 1, write)
    case UpdateOutbound(key, failed, detail, write) =>
      if key !in b.outbound then b
      else SaveOut(b, b.outbound[key := b.outbound[key].(failed := failed, detail := detail)], b.next, write)
    case StageInbound(key, createdAt, failed, detail, write) =>
      StageIn(b, b.inbound[key := Info(createdAt, failed, detail, Some(b.next))], b.next + 1, write)
  }

  /** What is left on disk and in memory once the backfill has been computed. */
  function Committed(b: Book, outcome: Startup, in': Records, out': Records, n: nat, changed: bool): Book {
    match outcome
    case StopsBeforeWriting => b
    case StopsBetweenWrites => if changed then b.(diskIn := in', lostIn := false) else b
    case Completes =>
      Book(true, in', out', n, if changed then in' else b.diskIn, if changed then out' else b.diskOut,
           b.lostIn && !changed, b.lostOut && !changed)
  }

  // ----- the node's records as an object

  class PaymentRecords {
    var running: bool
    var inbound: Records
    var outbound: Records
    var next: nat
    var diskIn: Records
    var diskOut: Records
    var lostIn: bool
    var lostOut: bool

    ghost function Value(): Book
      reads this
    {
      Book(running, inbound, outbound, next, diskIn, diskOut, lostIn, lostOut)
    }

    method StartNode(outcome: Startup, cannotReadIn: bool, cannotReadOut: bool)
      requires !running
      modifies this
      ensures Value() == Started(Losing(old(Value()), cannotReadIn, cannotReadOut), outcome)
    {
      lostIn, lostOut := lostIn || cannotReadIn, lostOut || cannotReadOut;
      ghost var b := Value();
      assert b == Losing(old(Value()), cannotReadIn, cannotReadOut);
      if outcome == StopsBeforeWriting { return; }
      var in', out', n, changed := ReadAndBackfill(outcome);
      Commit(outcome, in', out', n, changed);
    }

    /** The start of a start: what decodes is read, and indices are filled in. */
    method ReadAndBackfill(outcome: Startup) returns (in': Records, out': Records, n: nat, changed: bool)
      ensures Committed(Value(), outcome, in', out', n, changed) == Started(Value(), outcome)
    {
      var i, o := if lostIn then map[] else diskIn, if lostOut then map[] else diskOut;
      in', out', n, changed := Backfill(i, o);
      assert i == ReadIn(Value()) && o == ReadOut(Value());
    }

    /** The end of a start: the two writes, and the records in memory. */
    method Commit(outcome: Startup, in': Records, out': Records, n: nat, changed: bool)
      requires outcome != StopsBeforeWriting
      modifies this
      ensures Value() == Committed(old(Value()), outcome, in', out', n, changed)
    {
      if changed { diskIn, lostIn := in', false; }
      if outcome == StopsBetweenWrites { return; }
      if changed { diskOut, lostOut := out', false; }
      inbound, outbound, next, running := in', out', n, true;
    }

    method StampPaymentIdx(info: Info) returns (r: Info)
      modifies this`next
      ensures r == if info.idx.None? then info.(idx := Some(old(next))) else info
      ensures next == if info.idx.None? then old(next) + 1 else old(next)
    {
      r := info;
      if info.idx.None? {
        r := info.(idx := Some(next));
        next := next + 1;
      }
    }

    method SaveInboundPayments(m: Records, write: StoreWrite)
      modifies this`diskIn, this`lostIn
      ensures diskIn == AfterWrite(old(diskIn), m, write) && lostIn == AfterWrite(old(lostIn), false, write)
    {
      diskIn, lostIn := AfterWrite(diskIn, m, write), AfterWrite(lostIn, false, write);
    }

    method AddInboundPayment(key: nat, createdAt: nat, failed: bool, detail: int, write: StoreWrite)
      requires running
      modifies this
      ensures Value() == Next(old(Value()), AddInbound(key, createdAt, failed, detail, write))
    {
      var info := StampPaymentIdx(Info(createdAt, failed, detail, None));
      inbound := inbound[key := info];
      SaveInboundPayments(inbound, write);
    }

    method AddOutboundPayment(key: nat, createdAt: nat, failed: bool, detail: int, write: StoreWrite)
        returns (accepted: bool)
      requires running
      modifies this
      ensures Value() == Next(old(Value()), AddOutbound(key, createdAt, failed, detail, write))
      ensures accepted <==> !(key in old(outbound) && !old(outbound)[key].failed)
    {
      if key in outbound && !outbound[key].failed { return false; }
      var info := StampPaymentIdx(Info(createdAt, failed, detail, None));
      outbound := outbound[key := info];
      diskOut, lostOut := AfterWrite(diskOut, outbound, write), AfterWrite(lostOut, false, write);
      return true;
    }

    method UpsertInboundPayment(key: nat, createdAt: nat, failed: bool, detail: int, write: StoreWrite)
      requires running
      modifies this
      ensures Value() == Next(old(Value()), UpsertInbound(key, createdAt, failed, detail, write))
    {
      if key in inbound {
        inbound := inbound[key := inbound[key].(failed := failed, detail := detail)];
      } else {
        var info := StampPaymentIdx(Info(createdAt, failed, detail, None));
        inbound := inbound[key := info];
      }
      SaveInboundPayments(inbound, write);
    }

    method PersistStagedInboundPayment(key: nat, createdAt: nat, failed: bool, detail: int, write: StoreWrite)
        returns (ok: bool)
      requires running
      modifies this
      ensures Value() == Next(old(Value()), StageInbound(key, createdAt, failed, detail, write))
      ensures ok == write.Stored?
    {
      var info := StampPaymentIdx(Info(createdAt, failed, detail, None));
      var staged := inbound[key := info];
      SaveInboundPayments(staged, write);
      if write.Errored? { return false; }
      inbound := staged;
      return true;
    }
  }

  // ----- uniqueness

  /** No index twice, within a direction or across the two. */
  ghost predicate Unique(i: Records, o: Records) {
    && (forall j, k :: j in i && k in i && i[j].idx.Some? && i[j].idx == i[k].idx ==> j == k)
    && (forall j, k :: j in o && k in o && o[j].idx.Some? && o[j].idx == o[k].idx ==> j == k)
    && (forall j, k :: j in i && k in o && i[j].idx.Some? ==> i[j].idx != o[k].idx)
  }

  ghost predicate Below(m: Records, n: nat) {
    forall k :: k in m && m[k].idx.Some? ==> m[k].idx.value < n
  }

  /** No index twice in memory, in the store, or in any mixture of the two that a later write could leave; and
      all of them below the counter. */
  ghost predicate Consistent(inbound: Records, outbound: Records, storedIn: Records, storedOut: Records, next: nat) {
    && Unique(inbound, outbound) && Unique(inbound, storedOut)
    && Unique(storedIn, outbound) && Unique(storedIn, storedOut)
    && Below(inbound, next) && Below(outbound, next) && Below(storedIn, next) && Below(storedOut, next)
  }

  /** Of the store, only what decodes. */
  ghost predicate Inv(b: Book) {
    if b.running then Consistent(b.inbound, b.outbound, ReadIn(b), ReadOut(b), b.next)
    else Unique(ReadIn(b), ReadOut(b))
  }

  lemma NewInboundIndex(i: Records, o: Records, k: nat, info: Info, n: nat)
    requires Unique(i, o) && Below(i, n) && Below(o, n) && info.idx == Some(n)
    ensures Unique(i[k := info], o) && Below(i[k := info], n + 1)
  {
  }

  lemma NewOutboundIndex(i: Records, o: Records, k: nat, info: Info, n: nat)
    requires Unique(i, o) && Below(i, n) && Below(o, n) && info.idx == Some(n)
    ensures Unique(i, o[k := info]) && Below(o[k := info], n + 1)
  {
  }

  lemma SameInboundIndex(i: Records, o: Records, k: nat, info: Info, n: nat)
    requires Unique(i, o) && Below(i, n) && k in i && info.idx == i[k].idx
    ensures Unique(i[k := info], o) && Below(i[k := info], n)
  {
  }

  lemma SameOutboundIndex(i: Records, o: Records, k: nat, info: Info, n: nat)
    requires Unique(i, o) && Below(o, n) && k in o && info.idx == o[k].idx
    ensures Unique(i, o[k := info]) && Below(o[k := info], n)
  {
  }

  lemma ConsistentIn(i: Records, o: Records, di: Records, do: Records, n: nat, m: Records, n': nat)
    requires Consistent(i, o, di, do, n) && n <= n' && Unique(m, o) && Unique(m, do) && Below(m, n')
    ensures Consistent(m, o, m, do, n') && Consistent(m, o, di, do, n')
    ensures Consistent(i, o, m, do, n') && Consistent(i, o, di, do, n')
  {
  }

  lemma ConsistentOut(i: Records, o: Records, di: Records, do: Records, n: nat, m: Records, n': nat)
    requires Consistent(i, o, di, do, n) && n <= n' && Unique(i, m) && Unique(di, m) && Below(m, n')
    ensures Consistent(i, m, di, m, n') && Consistent(i, m, di, do, n')
  {
  }

  lemma SaveInKeepsInv(b: Book, m: Records, n: nat, write: StoreWrite)
    requires Inv(b) && b.running && b.next <= n
    requires Unique(m, b.outbound) && Unique(m, ReadOut(b)) && Below(m, n)
    ensures Inv(SaveIn(b, m, n, write)) && Inv(StageIn(b, m, n, write))
  {
    ConsistentIn(b.inbound, b.outbound, ReadIn(b), ReadOut(b), b.next, m, n);
  }

  lemma SaveOutKeepsInv(b: Book, m: Records, n: nat, write: StoreWrite)
    requires Inv(b) && b.running && b.next <= n
    requires Unique(b.inbound, m) && Unique(ReadIn(b), m) && Below(m, n)
    ensures Inv(SaveOut(b, m, n, write))
  {
    ConsistentOut(b.inbound, b.outbound, ReadIn(b), ReadOut(b), b.next, m, n);
  }

  lemma NewInboundKeepsInv(b: Book, key: nat, info: Info, write: StoreWrite)
    requires Inv(b) && b.running && info.idx == Some(b.next)
    ensures Inv(SaveIn(b, b.inbound[key := info], b.next + 1, write))
    ensures Inv(StageIn(b, b.inbound[key := info], b.next + 1, write))
  {
    NewInboundIndex(b.inbound, b.outbound, key, info, b.next);
    NewInboundIndex(b.inbound, ReadOut(b), key, info, b.next);
    SaveInKeepsInv(b, b.inbound[key := info], b.next + 1, write);
  }

  lemma NewOutboundKeepsInv(b: Book, key: nat, info: Info, write: StoreWrite)
    requires Inv(b) && b.running && info.idx == Some(b.next)
    ensures Inv(SaveOut(b, b.outbound[key := info], b.next + 1, write))
  {
    NewOutboundIndex(b.inbound, b.outbound, key, info, b.next);
    NewOutboundIndex(ReadIn(b), b.outbound, key, info, b.next);
    SaveOutKeepsInv(b, b.outbound[key := info], b.next + 1, write);
  }

  lemma ChangedInboundKeepsInv(b: Book, key: nat, info: Info, write: StoreWrite)
    requires Inv(b) && b.running && key in b.inbound && info.idx == b.inbound[key].idx
    ensures Inv(SaveIn(b, b.inbound[key := info], b.next, write))
  {
    SameInboundIndex(b.inbound, b.outbound, key, info, b.next);
    SameInboundIndex(b.inbound, ReadOut(b), key, info, b.next);
    SaveInKeepsInv(b, b.inbound[key := info], b.next, write);
  }

  lemma ChangedOutboundKeepsInv(b: Book, key: nat, info: Info, write: StoreWrite)
    requires Inv(b) && b.running && key in b.outbound && info.idx == b.outbound[key].idx
    ensures Inv(SaveOut(b, b.outbound[key := info], b.next, write))
  {
    SameOutboundIndex(b.inbound, b.outbound, key, info, b.next);
    SameOutboundIndex(ReadIn(b), b.outbound, key, info, b.next);
    SaveOutKeepsInv(b, b.outbound[key := info], b.next, write);
  }

  lemma UpsertKeepsInv(b: Book, key: nat, createdAt: nat, failed: bool, detail: int, write: StoreWrite)
    requires Inv(b) && b.running
    ensures Inv(NextRunning(b, UpsertInbound(key, createdAt, failed, detail, write)))
  {
    var after := NextRunning(b, UpsertInbound(key, createdAt, failed, detail, write));
    if key in b.inbound {
      var info := b.inbound[key].(failed := failed, detail := detail);
      assert after == SaveIn(b, b.inbound[key := info], b.next, write);
      ChangedInboundKeepsInv(b, key, info, write);
    } else {
      var info := Info(createdAt, failed, detail, Some(b.next));
      assert after == SaveIn(b, b.inbound[key := info], b.next + 1, write);
      NewInboundKeepsInv(b, key, info, write);
    }
  }

  lemma OutboundStepKeepsInv(b: Book, step: Step)
    requires Inv(b) && b.running && (step.AddOutbound? || step.UpdateOutbound?)
    ensures Inv(NextRunning(b, step))
  {
    if step.AddOutbound? {
      NewOutboundKeepsInv(b, step.key, Info(step.createdAt, step.failed, step.detail, Some(b.next)), step.write);
    } else if step.key in b.outbound {
      ChangedOutboundKeepsInv(b, step.key, b.outbound[step.key].(failed := step.failed, detail := step.detail),
        step.write);
    }
  }

  lemma InboundStepKeepsInv(b: Book, step: Step)
    requires Inv(b) && b.running && (step.AddInbound? || step.StageInbound?)
    ensures Inv(NextRunning(b, step))
  {
    NewInboundKeepsInv(b, step.key, Info(step.createdAt, step.failed, step.detail, Some(b.next)), step.write);
  }

  lemma StepWhileRunning(b: Book, step: Step)
    requires Inv(b) && b.running && !step.Start? && !step.Crash?
    ensures Inv(NextRunning(b, step))
  {
    match step
    case UpsertInbound(key, createdAt, failed, detail, write) =>
      UpsertKeepsInv(b, key, createdAt, failed, detail, write);
    case AddOutbound(_, _, _, _, _) => OutboundStepKeepsInv(b, step);
    case UpdateOutbound(_, _, _, _) => OutboundStepKeepsInv(b, step);
    case AddInbound(_, _, _, _, _) => InboundStepKeepsInv(b, step);
    case StageInbound(_, _, _, _, _) => InboundStepKeepsInv(b, step);
  }

  // ----- the backfill

  lemma {:induction false} SubsetSize<T>(a: set<T>, b: set<T>)
    requires a <= b
    ensures |a| <= |b|
  {
    if a != {} {
      var x :| x in a;
      SubsetSize(a - {x}, b - {x});
    }
  }

  lemma RankFollowsOrder(items: set<Item>, a: Item, b: Item)
    requires a in items && Before(a, b)
    ensures Rank(items, a) < Rank(items, b)
  {
    var lower := set y | y in items && Before(y, a);
    var higher := set y | y in items && Before(y, b);
    SubsetSize(lower + {a}, higher);
  }

  lemma RankBounded(items: set<Item>, a: Item)
    requires a in items
    ensures Rank(items, a) < |items|
  {
    var lower := set y | y in items && Before(y, a);
    SubsetSize(lower + {a}, items);
  }

  lemma RanksDiffer(items: set<Item>, a: Item, b: Item)
    requires a in items && b in items && a != b
    ensures Rank(items, a) != Rank(items, b)
  {
    if Before(a, b) { RankFollowsOrder(items, a, b); } else { RankFollowsOrder(items, b, a); }
  }

  /** A record's index after the backfill. */
  ghost function IndexAfter(i: Records, o: Records, x: Item): nat {
    Base(i, o) + 1 + Rank(Missing(i, o), x)
  }

  lemma FilledInAt(i: Records, o: Records, k: nat)
    requires k in i
    ensures FilledIn(i, o)[k].idx == if i[k].idx.Some? then i[k].idx else Some(IndexAfter(i, o, ItemOf(i, k, true)))
    ensures i[k].idx.None? ==> ItemOf(i, k, true) in Missing(i, o)
    ensures i[k].idx.Some? ==> i[k].idx.value <= Base(i, o)
  {
    if i[k].idx.Some? { assert i[k].idx.value in IndicesOf(i) + IndicesOf(o); }
  }

  lemma FilledOutAt(i: Records, o: Records, k: nat)
    requires k in o
    ensures FilledOut(i, o)[k].idx == if o[k].idx.Some? then o[k].idx else Some(IndexAfter(i, o, ItemOf(o, k, false)))
    ensures o[k].idx.None? ==> ItemOf(o, k, false) in Missing(i, o)
    ensures o[k].idx.Some? ==> o[k].idx.value <= Base(i, o)
  {
    if o[k].idx.Some? { assert o[k].idx.value in IndicesOf(i) + IndicesOf(o); }
  }

  lemma FilledInDistinct(i: Records, o: Records)
    requires Unique(i, o)
    ensures forall j, k :: j in i && k in i && FilledIn(i, o)[j].idx == FilledIn(i, o)[k].idx ==> j == k
  {
    forall j, k | j in i && k in i && j != k ensures FilledIn(i, o)[j].idx != FilledIn(i, o)[k].idx {
      FilledInAt(i, o, j); FilledInAt(i, o, k);
      if i[j].idx.None? && i[k].idx.None? {
        RanksDiffer(Missing(i, o), ItemOf(i, j, true), ItemOf(i, k, true));
      }
    }
  }

  lemma FilledOutDistinct(i: Records, o: Records)
    requires Unique(i, o)
    ensures forall j, k :: j in o && k in o && FilledOut(i, o)[j].idx == FilledOut(i, o)[k].idx ==> j == k
  {
    forall j, k | j in o && k in o && j != k ensures FilledOut(i, o)[j].idx != FilledOut(i, o)[k].idx {
      FilledOutAt(i, o, j); FilledOutAt(i, o, k);
      if o[j].idx.None? && o[k].idx.None? {
        RanksDiffer(Missing(i, o), ItemOf(o, j, false), ItemOf(o, k, false));
      }
    }
  }

  lemma FilledAcrossDistinct(i: Records, o: Records)
    requires Unique(i, o)
    ensures forall j, k :: j in i && k in o ==> FilledIn(i, o)[j].idx != FilledOut(i, o)[k].idx
    ensures forall j, k :: j in i && k in o ==> FilledIn(i, o)[j].idx != o[k].idx
  {
    forall j, k | j in i && k in o
      ensures FilledIn(i, o)[j].idx != FilledOut(i, o)[k].idx && FilledIn(i, o)[j].idx != o[k].idx
    {
      FilledInAt(i, o, j); FilledOutAt(i, o, k);
      if i[j].idx.None? && o[k].idx.None? {
        RanksDiffer(Missing(i, o), ItemOf(i, j, true), ItemOf(o, k, false));
      }
    }
  }

  lemma BackfillKeepsUnique(i: Records, o: Records)
    requires Unique(i, o)
    ensures Unique(FilledIn(i, o), FilledOut(i, o))
    ensures Unique(FilledIn(i, o), o)
  {
    FilledInDistinct(i, o);
    FilledOutDistinct(i, o);
    FilledAcrossDistinct(i, o);
  }

  /** The counter a completed backfill leaves is above every index. */
  lemma CounterAboveAll(i: Records, o: Records)
    ensures Below(FilledIn(i, o), NextAfter(i, o)) && Below(FilledOut(i, o), NextAfter(i, o))
    ensures Below(i, NextAfter(i, o)) && Below(o, NextAfter(i, o))
  {
    forall k | k in i ensures FilledIn(i, o)[k].idx.value < NextAfter(i, o) {
      FilledInAt(i, o, k);
      if i[k].idx.None? { RankBounded(Missing(i, o), ItemOf(i, k, true)); }
    }
    forall k | k in o ensures FilledOut(i, o)[k].idx.value < NextAfter(i, o) {
      FilledOutAt(i, o, k);
      if o[k].idx.None? { RankBounded(Missing(i, o), ItemOf(o, k, false)); }
    }
    forall k | k in i && i[k].idx.Some? ensures i[k].idx.value < NextAfter(i, o) { FilledInAt(i, o, k); }
    forall k | k in o && o[k].idx.Some? ensures o[k].idx.value < NextAfter(i, o) { FilledOutAt(i, o, k); }
  }

  /** Records that had no index get one above every index there was, in the order of creation time and
      key, whichever map they are in. */
  lemma BackfillFollowsOrder(i: Records, o: Records, a: Item, b: Item)
    requires a in Missing(i, o) && b in Missing(i, o)
    ensures Before(a, b) <==> IndexAfter(i, o, a) < IndexAfter(i, o, b)
    ensures IndexAfter(i, o, a) > Base(i, o)
  {
    var items := Missing(i, o);
    if Before(a, b) { RankFollowsOrder(items, a, b); }
    if Before(b, a) { RankFollowsOrder(items, b, a); }
  }

  // ----- runs

  lemma LosingKeepsInv(b: Book, lostIn: bool, lostOut: bool)
    requires Inv(b) && !b.running
    ensures Inv(Losing(b, lostIn, lostOut))
  {
  }

  lemma StartKeepsInv(b: Book, outcome: Startup)
    requires Inv(b) && !b.running
    ensures Inv(Started(b, outcome))
  {
    BackfillKeepsUnique(ReadIn(b), ReadOut(b));
    CounterAboveAll(ReadIn(b), ReadOut(b));
  }

  lemma StepKeepsInv(b: Book, step: Step)
    requires Inv(b)
    ensures Inv(Next(b, step))
  {
    if step.Start? {
      if !b.running {
        LosingKeepsInv(b, step.lostIn, step.lostOut);
        StartKeepsInv(Losing(b, step.lostIn, step.lostOut), step.outcome);
      }
    } else if b.running && !step.Crash? {
      StepWhileRunning(b, step);
    }
  }

  ghost function Run(b: Book, steps: seq<Step>): Book {
    if steps == [] then b else Next(Run(b, steps[..|steps| - 1]), steps[|steps| - 1])
  }

  /** A node that is down, with these records in the store. */
  function Down(diskIn: Records, diskOut: Records): Book {
    Book(false, map[], map[], 0, diskIn, diskOut, false, false)
  }

  /** Whatever was in the store, as long as no index was there twice: over every run, stored maps that do not
      decode included, no index is ever there twice in memory, or in what decodes of the store, and the counter
      stays above all of them. */
  lemma {:induction false} IndicesStayUnique(diskIn: Records, diskOut: Records, steps: seq<Step>)
    requires Unique(diskIn, diskOut)
    ensures Inv(Run(Down(diskIn, diskOut), steps))
  {
    if steps != [] {
      var n := |steps| - 1;
      IndicesStayUnique(diskIn, diskOut, steps[..n]);
      StepKeepsInv(Run(Down(diskIn, diskOut), steps[..n]), steps[n]);
    }
  }
}
