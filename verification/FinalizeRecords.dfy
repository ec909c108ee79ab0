/** One pass over the pending records of a payment, channel by channel and record by record, stated on the
    store's keys and records alone. */
module FinalizeRecords {
  import opened FinalizePayment

  /** The record of a payment on a channel. */
  function RecordKey(c: string, hash: string): string { c + hash + "_pending" }

  function MarkerKey(hash: string): string { hash + "_pending" }

  /** It is there, can be read, and is not a swap's record for the other side; channel ids have 64 characters. */
  predicate IsDue(ns: Namespace, c: string, hash: string, receiver: bool) {
    && |c| == 64 && RecordKey(c, hash) in ns && ns[RecordKey(c, hash)].Pending?
    && (ns[RecordKey(c, hash)].swap ==> ns[RecordKey(c, hash)].inbound == receiver)
  }

  function AmountDue(ns: Namespace, c: string, hash: string, receiver: bool): nat {
    if IsDue(ns, c, hash, receiver) then ns[RecordKey(c, hash)].amount else 0
  }

  lemma SameKey(c: string, hash: string)
    ensures RecordKey(c, hash) == KeyFor(c, hash) && MarkerKey(hash) == Suffix(hash)
  {
    assert c + hash + "_pending" == c + (hash + "_pending");
  }

  lemma DueIsSettled(ns: Namespace, known: set<string>, hash: string, receiver: bool, c: string)
    requires c in known
    ensures RecordKey(c, hash) in Settled(ns, known, hash, receiver) <==> IsDue(ns, c, hash, receiver)
    ensures IsDue(ns, c, hash, receiver) ==> ns[RecordKey(c, hash)].Pending?
  {
    SameKey(c, hash);
    KeyShape(RecordKey(c, hash), hash, c);
  }

  lemma SettledIsDue(ns: Namespace, known: set<string>, hash: string, receiver: bool, key: string)
    ensures key in Settled(ns, known, hash, receiver) <==>
            exists c <- known :: key == RecordKey(c, hash) && IsDue(ns, c, hash, receiver)
  {
    if key in Settled(ns, known, hash, receiver) {
      var c := ChannelOf(key, hash);
      KeyShape(key, hash, c);
      SameKey(c, hash);
      DueIsSettled(ns, known, hash, receiver, c);
      assert c in known && key == RecordKey(c, hash) && IsDue(ns, c, hash, receiver);
    }
    forall c | c in known && key == RecordKey(c, hash) && IsDue(ns, c, hash, receiver)
      ensures key in Settled(ns, known, hash, receiver)
    {
      DueIsSettled(ns, known, hash, receiver, c);
    }
  }

  /** A channel receives or pays what is due on it in the two namespaces, from or to the other side. */
  lemma ChannelSettled(l: Ledger, hash: string, receiver: bool, c: string)
    requires c in l.channels
    ensures Finalize(l, hash, receiver).channels.Keys == l.channels.Keys
    ensures var due := AmountDue(l.inbound, c, hash, receiver) + AmountDue(l.outbound, c, hash, receiver);
            Finalize(l, hash, receiver).channels[c] ==
              if receiver then Channel(l.channels[c].local + due, l.channels[c].remote - due)
              else Channel(l.channels[c].local - due, l.channels[c].remote + due)
  {
    SameKey(c, hash);
    DueIsSettled(l.inbound, l.channels.Keys, hash, receiver, c);
    DueIsSettled(l.outbound, l.channels.Keys, hash, receiver, c);
  }

  /** Some other key than the marker ends like one of this payment. */
  ghost predicate RecordLeft(ns: Namespace, hash: string) {
    exists k <- ns.Keys :: k != MarkerKey(hash) && EndsWith(k, MarkerKey(hash))
  }

  lemma LeftoverIsRecord(ns: Namespace, hash: string)
    ensures Leftover(ns, hash) <==> RecordLeft(ns, hash)
  {
    SameKey("", hash);
    var marker := MarkerKey(hash);
    forall k | k in ns.Keys && EndsWith(k, marker) ensures k != marker <==> |k| > |marker| {
      if |k| == |marker| { assert k[|k| - |marker|..] == k; }
    }
  }

  /** Something was due on a known channel. */
  ghost predicate AnythingDue(l: Ledger, hash: string, receiver: bool) {
    exists c <- l.channels.Keys :: IsDue(l.inbound, c, hash, receiver) || IsDue(l.outbound, c, hash, receiver)
  }

  lemma AnythingDueIsSettled(l: Ledger, hash: string, receiver: bool)
    ensures var known := l.channels.Keys;
            AnythingDue(l, hash, receiver) <==>
              Settled(l.inbound, known, hash, receiver) + Settled(l.outbound, known, hash, receiver) != {}
  {
    var known := l.channels.Keys;
    var all := Settled(l.inbound, known, hash, receiver) + Settled(l.outbound, known, hash, receiver);
    if AnythingDue(l, hash, receiver) {
      var c :| c in known && (IsDue(l.inbound, c, hash, receiver) || IsDue(l.outbound, c, hash, receiver));
      DueIsSettled(l.inbound, known, hash, receiver, c);
      DueIsSettled(l.outbound, known, hash, receiver, c);
      assert RecordKey(c, hash) in all;
    }
    if all != {} {
      var key :| key in all;
      SettledIsDue(l.inbound, known, hash, receiver, key);
      SettledIsDue(l.outbound, known, hash, receiver, key);
    }
  }

  /** What is left of one namespace: the records that were not due, as they were; and the marker, unless something
      was due and no record of the payment is left. */
  ghost predicate LeftAfter(ns: Namespace, known: set<string>, hash: string, receiver: bool, any: bool,
                            ns': Namespace) {
    && (forall k :: k in ns' ==> k in ns && ns'[k] == ns[k])
    && (forall k :: k in ns && k != MarkerKey(hash) ==>
          (k !in ns' <==> exists c <- known :: k == RecordKey(c, hash) && IsDue(ns, c, hash, receiver)))
    && (MarkerKey(hash) in ns ==> (MarkerKey(hash) !in ns' <==> any && !RecordLeft(ns', hash)))
  }

  lemma NamespaceLeft(ns: Namespace, known: set<string>, hash: string, receiver: bool, any: bool)
    requires Settled(ns, known, hash, receiver) != {} ==> any
    ensures LeftAfter(ns, known, hash, receiver, any,
                      if any then DropMarker(ns - Settled(ns, known, hash, receiver), hash) else ns)
  {
    var gone := Settled(ns, known, hash, receiver);
    var marker := MarkerKey(hash);
    var rest := ns - gone;
    var ns' := if any then DropMarker(rest, hash) else ns;
    SameKey("", hash);
    MarkerIsNoRecord(hash);
    assert marker !in gone;
    LeftoverIsRecord(rest, hash);
    assert any ==> (RecordLeft(ns', hash) <==> RecordLeft(rest, hash));
    forall k | k in ns && k != marker
      ensures k !in ns' <==> exists c <- known :: k == RecordKey(c, hash) && IsDue(ns, c, hash, receiver)
    {
      SettledIsDue(ns, known, hash, receiver, k);
      assert k !in ns' <==> k in gone;
    }
  }

  /** A pass removes exactly the records it applied, and a marker exactly when something was applied and nothing
      else of the payment is left in its namespace. */
  lemma RecordsLeft(l: Ledger, hash: string, receiver: bool)
    ensures var after, any := Finalize(l, hash, receiver), AnythingDue(l, hash, receiver);
            && LeftAfter(l.inbound, l.channels.Keys, hash, receiver, any, after.inbound)
            && LeftAfter(l.outbound, l.channels.Keys, hash, receiver, any, after.outbound)
  {
    var any := AnythingDue(l, hash, receiver);
    AnythingDueIsSettled(l, hash, receiver);
    NamespaceLeft(l.inbound, l.channels.Keys, hash, receiver, any);
    NamespaceLeft(l.outbound, l.channels.Keys, hash, receiver, any);
  }
}
