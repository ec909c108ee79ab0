/** Payment indices: one counter shared by inbound and outbound payments, whose records are kept in two
    maps that are saved separately. Keys are 32-byte values, compared as big-endian numbers. */
module PaymentIndex {
  import opened Wrappers

  datatype Info = Info(createdAt: nat, failed: bool, detail: int, idx: Option<nat>)

  type Records = map<nat, Info>

  // ----- what the backfill at startup amounts to

  datatype Item = Item(createdAt: nat, key: nat, inbound: bool)

  /** By creation time, then by key; an inbound and an outbound record can agree on both, and then the
      inbound one comes first. */
  predicate Before(a: Item, b: Item) {
    || a.createdAt < b.createdAt
    || (a.createdAt == b.createdAt && (a.key < b.key || (a.key == b.key && a.inbound && !b.inbound)))
  }

  function ItemOf(m: Records, k: nat, inbound: bool): Item
    requires k in m
  {
    Item(m[k].createdAt, k, inbound)
  }

  function MissingOf(m: Records, inbound: bool): set<Item> {
    set k | k in m && m[k].idx.None? :: ItemOf(m, k, inbound)
  }

  function Missing(inbound: Records, outbound: Records): set<Item> {
    MissingOf(inbound, true) + MissingOf(outbound, false)
  }

  function Rank(items: set<Item>, x: Item): nat {
    |set y | y in items && Before(y, x)|
  }

  function IndicesOf(m: Records): set<nat> {
    set k | k in m && m[k].idx.Some? :: m[k].idx.value
  }

  ghost function Greatest(s: set<nat>): (g: nat)
    ensures forall i :: i in s ==> i <= g
    ensures s == {} ==> g == 0
    ensures s != {} ==> g in s
  {
    if s == {} then 0
    else
      var x :| x in s;
      var g := Greatest(s - {x});
      assert forall i :: i in s ==> i == x || i in s - {x};
      if x > g || s - {x} == {} then x else g
  }

  ghost function Base(inbound: Records, outbound: Records): nat {
    Greatest(IndicesOf(inbound) + IndicesOf(outbound))
  }

  /** Every missing index becomes the base plus the record's place among the missing ones. */
  ghost function Filled(m: Records, inbound: bool, items: set<Item>, base: nat): Records {
    map k | k in m ::
      if m[k].idx.None? then m[k].(idx := Some(base + 1 + Rank(items, ItemOf(m, k, inbound)))) else m[k]
  }

  ghost function FilledIn(inbound: Records, outbound: Records): Records {
    Filled(inbound, true, Missing(inbound, outbound), Base(inbound, outbound))
  }

  ghost function FilledOut(inbound: Records, outbound: Records): Records {
    Filled(outbound, false, Missing(inbound, outbound), Base(inbound, outbound))
  }

  ghost function NextAfter(inbound: Records, outbound: Records): nat {
    Base(inbound, outbound) + |Missing(inbound, outbound)| + 1
  }

  // ----- sorting the missing records

  /** The comparison the sort is given: it does not look at the direction. */
  predicate Earlier(a: Item, b: Item) {
    a.createdAt < b.createdAt || (a.createdAt == b.createdAt && a.key < b.key)
  }

  ghost predicate InOrder(s: seq<Item>) {
    forall i, j :: 0 <= i < j < |s| ==> Before(s[i], s[j])
  }

  ghost predicate Elements(s: seq<Item>, items: set<Item>) {
    forall x :: x in s <==> x in items
  }

  /** Distinct items, the inbound ones first: how the missing records are collected. */
  ghost predicate Collected(s: seq<Item>) {
    && (forall i, j :: 0 <= i < j < |s| ==> s[i] != s[j])
    && (forall i, j :: 0 <= i < j < |s| ==> s[j].inbound ==> s[i].inbound)
  }

  method InsertStable(sorted: seq<Item>, x: Item) returns (r: seq<Item>)
    requires InOrder(sorted)
    requires forall y <- sorted :: y != x && (x.inbound ==> y.inbound)
    ensures InOrder(r)
    ensures forall y :: y in r <==> y in sorted || y == x
  {
    var p := |sorted|;
    while p > 0 && Earlier(x, sorted[p - 1])
      invariant 0 <= p <= |sorted|
      invariant forall i :: p <= i < |sorted| ==> Earlier(x, sorted[i])
    {
      p := p - 1;
    }
    r := sorted[..p] + [x] + sorted[p..];
    forall i | 0 <= i < p ensures Before(sorted[i], x) {
      assert Before(sorted[p - 1], x);
      assert i < p - 1 ==> Before(sorted[i], sorted[p - 1]);
    }
    assert forall y :: y in sorted <==> y in sorted[..p] || y in sorted[p..];
  }

  /** A stable sort by creation time and key puts the collected records in strict order. */
  method SortStable(s: seq<Item>) returns (r: seq<Item>)
    requires Collected(s)
    ensures InOrder(r)
    ensures forall y :: y in r <==> y in s
  {
    r := [];
    for i := 0 to |s|
      invariant InOrder(r)
      invariant forall y :: y in r <==> y in s[..i]
    {
      assert s[..i + 1] == s[..i] + [s[i]];
      r := InsertStable(r, s[i]);
    }
    assert s[..|s|] == s;
  }

  lemma {:induction false} PrefixSize(s: seq<Item>, p: nat, prefix: set<Item>)
    requires p <= |s| && InOrder(s)
    requires forall y :: y in prefix <==> y in s[..p]
    ensures |prefix| == p
  {
    if p == 0 {
      assert prefix == {};
    } else {
      assert s[..p] == s[..p - 1] + [s[p - 1]];
      assert s[p - 1] !in s[..p - 1] by {
        forall i | 0 <= i < p - 1 ensures s[i] != s[p - 1] { assert Before(s[i], s[p - 1]); }
      }
      PrefixSize(s, p - 1, prefix - {s[p - 1]});
    }
  }

  /** In an ordered list of all the items, an item's place is its rank. */
  lemma RankIsPlace(s: seq<Item>, items: set<Item>, p: nat)
    requires InOrder(s) && Elements(s, items) && p < |s|
    ensures Rank(items, s[p]) == p
  {
    var lower := set y | y in items && Before(y, s[p]);
    forall y ensures y in lower <==> y in s[..p] {
      if y in lower {
        var i :| 0 <= i < |s| && s[i] == y;
        assert s[..p][i] == y;
      }
      if y in s[..p] {
        var i :| 0 <= i < p && s[i] == y;
        assert Before(s[i], s[p]);
      }
    }
    PrefixSize(s, p, lower);
  }

  // ----- the backfill itself

  method GreatestIndex(m: Records, start: nat) returns (g: nat)
    ensures g >= start && (g == start || g in IndicesOf(m))
    ensures forall i :: i in IndicesOf(m) ==> i <= g
  {
    g := start;
    var todo := m.Keys;
    while todo != {}
      invariant todo <= m.Keys
      invariant g >= start && (g == start || g in IndicesOf(m))
      invariant forall k :: k in m && k !in todo && m[k].idx.Some? ==> m[k].idx.value <= g
    {
      var k :| k in todo;
      if m[k].idx.Some? && m[k].idx.value > g {
        g := m[k].idx.value;
      }
      todo := todo - {k};
    }
  }

  method CollectMissing(m: Records, inbound: bool) returns (s: seq<Item>)
    ensures forall i, j :: 0 <= i < j < |s| ==> s[i] != s[j]
    ensures Elements(s, MissingOf(m, inbound)) && forall x <- s :: x.inbound == inbound
  {
    s := [];
    var todo := m.Keys;
    while todo != {}
      invariant todo <= m.Keys
      invariant forall i, j :: 0 <= i < j < |s| ==> s[i] != s[j]
      invariant forall x :: x in s <==> x in MissingOf(m, inbound) && x.key !in todo
    {
      var k :| k in todo;
      if m[k].idx.None? {
        assert ItemOf(m, k, inbound) in MissingOf(m, inbound);
        s := s + [ItemOf(m, k, inbound)];
      }
      todo := todo - {k};
    }
  }

  lemma CollectedTogether(s: seq<Item>, t: seq<Item>)
    requires forall i, j :: 0 <= i < j < |s| ==> s[i] != s[j]
    requires forall i, j :: 0 <= i < j < |t| ==> t[i] != t[j]
    requires (forall x <- s :: x.inbound) && (forall x <- t :: !x.inbound)
    ensures Collected(s + t)
  {
    var u := s + t;
    forall i, j | 0 <= i < j < |u| ensures u[i] != u[j] && (u[j].inbound ==> u[i].inbound) {
      if i < |s| { assert u[i] in s; }
      if j >= |s| { assert u[j] in t; }
    }
  }

  /** The records with the indices of the items in `done` filled in, and no others. */
  ghost function PartlyFilled(m: Records, inbound: bool, items: set<Item>, base: nat, done: seq<Item>): Records {
    map k | k in m ::
      if m[k].idx.None? && ItemOf(m, k, inbound) in done
      then m[k].(idx := Some(base + 1 + Rank(items, ItemOf(m, k, inbound))))
      else m[k]
  }

  /** Filling in one more item is a single update of the map it belongs to. */
  lemma FillOne(m: Records, inbound: bool, items: set<Item>, base: nat, done: seq<Item>, x: Item)
    requires x in MissingOf(m, inbound)
    ensures x.key in PartlyFilled(m, inbound, items, base, done)
    ensures var before := PartlyFilled(m, inbound, items, base, done);
            PartlyFilled(m, inbound, items, base, done + [x]) ==
              before[x.key := before[x.key].(idx := Some(base + 1 + Rank(items, x)))]
  {
    var before, after := PartlyFilled(m, inbound, items, base, done), PartlyFilled(m, inbound, items, base, done + [x]);
    assert before.Keys == after.Keys == m.Keys;
    forall k | k in m && k != x.key ensures before[k] == after[k] {
      assert ItemOf(m, k, inbound) in done + [x] <==> ItemOf(m, k, inbound) in done;
    }
  }

  lemma FillOther(m: Records, inbound: bool, items: set<Item>, base: nat, done: seq<Item>, x: Item)
    requires x.inbound != inbound
    ensures PartlyFilled(m, inbound, items, base, done + [x]) == PartlyFilled(m, inbound, items, base, done)
  {
    assert forall k :: k in m ==> (ItemOf(m, k, inbound) in done + [x] <==> ItemOf(m, k, inbound) in done);
  }

  function Put(m: Records, k: nat, idx: nat): Records
    requires k in m
  {
    m[k := m[k].(idx := Some(idx))]
  }

  lemma FillNext(inbound: Records, outbound: Records, missing: seq<Item>, base: nat, i: nat)
    requires InOrder(missing) && Elements(missing, Missing(inbound, outbound)) && i < |missing|
    ensures var items, x := Missing(inbound, outbound), missing[i];
            var in0, out0 :=
              PartlyFilled(inbound, true, items, base, missing[..i]),
              PartlyFilled(outbound, false, items, base, missing[..i]);
            var in1, out1 :=
              PartlyFilled(inbound, true, items, base, missing[..i + 1]),
              PartlyFilled(outbound, false, items, base, missing[..i + 1]);
            if x.inbound then x.key in in0 && in1 == Put(in0, x.key, base + 1 + i) && out1 == out0
            else x.key in out0 && out1 == Put(out0, x.key, base + 1 + i) && in1 == in0
  {
    var items, x := Missing(inbound, outbound), missing[i];
    assert x in items;
    RankIsPlace(missing, items, i);
    assert missing[..i + 1] == missing[..i] + [x];
    if x.inbound {
      FillOne(inbound, true, items, base, missing[..i], x);
      FillOther(outbound, false, items, base, missing[..i], x);
    } else {
      FillOne(outbound, false, items, base, missing[..i], x);
      FillOther(inbound, true, items, base, missing[..i], x);
    }
  }

  lemma FillEnds(m: Records, inbound: bool, items: set<Item>, base: nat, done: seq<Item>)
    ensures PartlyFilled(m, inbound, items, base, []) == m
    ensures (forall x :: x in MissingOf(m, inbound) ==> x in done) ==>
      PartlyFilled(m, inbound, items, base, done) == Filled(m, inbound, items, base)
  {
    assert forall k :: k in m && m[k].idx.None? ==> ItemOf(m, k, inbound) in MissingOf(m, inbound);
  }

  /** The indices of the first `i` missing records have been filled in, in the two maps given last. */
  ghost predicate FilledUpTo(inbound: Records, outbound: Records, missing: seq<Item>, base: nat, i: nat, in': Records,
                             out': Records)
    requires i <= |missing|
  {
    var items := Missing(inbound, outbound);
    && in' == PartlyFilled(inbound, true, items, base, missing[..i])
    && out' == PartlyFilled(outbound, false, items, base, missing[..i])
  }

  lemma FillStep(inbound: Records, outbound: Records, missing: seq<Item>, base: nat, i: nat, in': Records,
                 out': Records)
    requires InOrder(missing) && Elements(missing, Missing(inbound, outbound)) && i < |missing|
    requires FilledUpTo(inbound, outbound, missing, base, i, in', out')
    ensures var x := missing[i];
            if x.inbound then
              && x.key in in'
              && FilledUpTo(inbound, outbound, missing, base, i + 1, Put(in', x.key, base + 1 + i), out')
            else
              && x.key in out'
              && FilledUpTo(inbound, outbound, missing, base, i + 1, in', Put(out', x.key, base + 1 + i))
  {
    FillNext(inbound, outbound, missing, base, i);
  }

  lemma FillBegins(inbound: Records, outbound: Records, missing: seq<Item>, base: nat)
    ensures FilledUpTo(inbound, outbound, missing, base, 0, inbound, outbound)
  {
    FillEnds(inbound, true, Missing(inbound, outbound), base, []);
    FillEnds(outbound, false, Missing(inbound, outbound), base, []);
    assert missing[..0] == [];
  }

  lemma FillFinishes(inbound: Records, outbound: Records, missing: seq<Item>, base: nat, in': Records, out': Records)
    requires Elements(missing, Missing(inbound, outbound))
    requires FilledUpTo(inbound, outbound, missing, base, |missing|, in', out')
    ensures in' == Filled(inbound, true, Missing(inbound, outbound), base)
    ensures out' == Filled(outbound, false, Missing(inbound, outbound), base)
  {
    assert missing[..|missing|] == missing;
    FillEnds(inbound, true, Missing(inbound, outbound), base, missing);
    FillEnds(outbound, false, Missing(inbound, outbound), base, missing);
  }

  /** One round of the loop: the index goes to the record in whichever map it is. */
  method AssignOne(ghost inbound: Records, ghost outbound: Records, missing: seq<Item>, ghost base: nat, i: nat,
                   in0: Records, out0: Records, idx: nat)
      returns (in1: Records, out1: Records)
    requires InOrder(missing) && Elements(missing, Missing(inbound, outbound)) && i < |missing| && idx == base + i + 1
    requires FilledUpTo(inbound, outbound, missing, base, i, in0, out0)
    ensures FilledUpTo(inbound, outbound, missing, base, i + 1, in1, out1)
  {
    FillStep(inbound, outbound, missing, base, i, in0, out0);
    in1, out1 := in0, out0;
    if missing[i].inbound {
      in1 := Put(in0, missing[i].key, idx);
    } else {
      out1 := Put(out0, missing[i].key, idx);
    }
  }

  method AssignIndices(inbound: Records, outbound: Records, missing: seq<Item>, base: nat)
      returns (inbound': Records, outbound': Records, maxIdx: nat, changed: bool)
    requires InOrder(missing) && Elements(missing, Missing(inbound, outbound))
    ensures inbound' == Filled(inbound, true, Missing(inbound, outbound), base)
    ensures outbound' == Filled(outbound, false, Missing(inbound, outbound), base)
    ensures maxIdx == base + |missing| && (changed <==> missing != [])
  {
    inbound', outbound', maxIdx, changed := inbound, outbound, base, false;
    FillBegins(inbound, outbound, missing, base);
    for i := 0 to |missing|
      invariant FilledUpTo(inbound, outbound, missing, base, i, inbound', outbound')
      invariant maxIdx == base + i && (changed <==> i > 0)
    {
      maxIdx := maxIdx + 1;
      inbound', outbound' := AssignOne(inbound, outbound, missing, base, i, inbound', outbound', maxIdx);
      changed := true;
    }
    FillFinishes(inbound, outbound, missing, base, inbound', outbound');
  }

  method SortedMissing(inbound: Records, outbound: Records) returns (missing: seq<Item>)
    ensures InOrder(missing) && Elements(missing, Missing(inbound, outbound))
    ensures |missing| == |Missing(inbound, outbound)|
  {
    var missingIn := CollectMissing(inbound, true);
    var missingOut := CollectMissing(outbound, false);
    CollectedTogether(missingIn, missingOut);
    missing := SortStable(missingIn + missingOut);
    assert missing[..|missing|] == missing;
    PrefixSize(missing, |missing|, Missing(inbound, outbound));
  }

  method FindBase(inbound: Records, outbound: Records) returns (base: nat)
    ensures base == Base(inbound, outbound)
  {
    base := GreatestIndex(inbound, 0);
    base := GreatestIndex(outbound, base);
  }

  /** Whatever order the maps are walked in, the result depends on the records alone. */
  method Backfill(inbound: Records, outbound: Records)
      returns (inbound': Records, outbound': Records, next: nat, changed: bool)
    ensures inbound' == FilledIn(inbound, outbound)
    ensures outbound' == FilledOut(inbound, outbound)
    ensures next == NextAfter(inbound, outbound) && (changed <==> |Missing(inbound, outbound)| > 0)
  {
    var maxIdx := FindBase(inbound, outbound);
    var missing := SortedMissing(inbound, outbound);
    inbound', outbound', maxIdx, changed := AssignIndices(inbound, outbound, missing, maxIdx);
    next := maxIdx + 1;
  }
}
