/** Settling the pending RGB amounts of a payment into the balances of its channels.

    Pending records are stored under string keys, in one namespace for each direction: a 64-character
    channel id followed by the payment hash and a fixed suffix. The same suffix without a channel id is
    the payment's own marker. */
module FinalizePayment {
  import opened MapTotal

  datatype Stored =
    | Undecodable
    | Pending(amount: nat, inbound: bool, swap: bool)

  /** Balances of one channel. */
  datatype Channel = Channel(local: int, remote: int)

  type Namespace = map<string, Stored>
  type Channels = map<string, Channel>

  datatype Ledger = Ledger(inbound: Namespace, outbound: Namespace, channels: Channels)

  const CHANNEL_ID_LEN: nat := 64

  function Suffix(hash: string): string { hash + "_pending" }

  predicate EndsWith(key: string, suffix: string) {
    |suffix| <= |key| && key[|key| - |suffix|..] == suffix
  }

  predicate ForPayment(key: string, hash: string) {
    EndsWith(key, Suffix(hash)) && |key| == CHANNEL_ID_LEN + |Suffix(hash)|
  }

  function ChannelOf(key: string, hash: string): string
    requires ForPayment(key, hash)
  {
    key[..|key| - |Suffix(hash)|]
  }

  function KeyFor(c: string, hash: string): string { c + Suffix(hash) }

  lemma KeyShape(key: string, hash: string, c: string)
    ensures ForPayment(key, hash) ==> key == KeyFor(ChannelOf(key, hash), hash)
    ensures key == KeyFor(c, hash) ==> (ForPayment(key, hash) <==> |c| == CHANNEL_ID_LEN)
    ensures key == KeyFor(c, hash) && ForPayment(key, hash) ==> ChannelOf(key, hash) == c
  {
    if key == KeyFor(c, hash) {
      assert key[|key| - |Suffix(hash)|..] == Suffix(hash);
      assert key[..|key| - |Suffix(hash)|] == c;
    }
  }

  // ----- what one pass does

  /** A record of this payment, readable and of the right kind for this side. */
  predicate Eligible(ns: Namespace, hash: string, receiver: bool, key: string) {
    && key in ns && ForPayment(key, hash) && ns[key].Pending?
    && !(ns[key].swap && receiver != ns[key].inbound)
  }

  /** Which records a pass settles: those on a known channel. */
  predicate Settles(ns: Namespace, known: set<string>, hash: string, receiver: bool, key: string) {
    Eligible(ns, hash, receiver, key) && ChannelOf(key, hash) in known
  }

  function Settled(ns: Namespace, known: set<string>, hash: string, receiver: bool): set<string> {
    set key | key in ns && Settles(ns, known, hash, receiver, key)
  }

  function Signed(amount: nat, receiver: bool): int {
    var a: int := amount;
    if receiver then a else -a
  }

  /** What the keys in `done` change on channel `c`. */
  function Delta(ns: Namespace, done: set<string>, hash: string, receiver: bool, c: string): int
    requires forall k <- done :: k in ns && ns[k].Pending?
  {
    if KeyFor(c, hash) in done then Signed(ns[KeyFor(c, hash)].amount, receiver) else 0
  }

  function Shift(ch: Channel, amount: int): Channel { Channel(ch.local + amount, ch.remote - amount) }

  function Moved(channels: Channels, ns: Namespace, done: set<string>, hash: string, receiver: bool): Channels
    requires forall k <- done :: k in ns && ns[k].Pending?
    ensures Moved(channels, ns, done, hash, receiver).Keys == channels.Keys
  {
    map c | c in channels :: Shift(channels[c], Delta(ns, done, hash, receiver, c))
  }

  predicate Leftover(ns: Namespace, hash: string) {
    exists k <- ns.Keys :: EndsWith(k, Suffix(hash)) && |k| > |Suffix(hash)|
  }

  function DropMarker(ns: Namespace, hash: string): Namespace {
    if Leftover(ns, hash) then ns else ns - {Suffix(hash)}
  }

  /** The whole operation, when no store call fails. */
  function Finalize(l: Ledger, hash: string, receiver: bool): Ledger {
    var in', out' :=
      Settled(l.inbound, l.channels.Keys, hash, receiver), Settled(l.outbound, l.channels.Keys, hash, receiver);
    var channels := Moved(Moved(l.channels, l.inbound, in', hash, receiver), l.outbound, out', hash, receiver);
    if in' + out' == {} then Ledger(l.inbound, l.outbound, channels)
    else Ledger(DropMarker(l.inbound - in', hash), DropMarker(l.outbound - out', hash), channels)
  }

  // ----- the store

  /** What goes wrong in a namespace: it cannot be listed, or not a second time; some records cannot be read;
      some keys cannot be removed. */
  datatype Faults = Faults(unlisted: bool, unlistedAgain: bool, broken: set<string>, stuck: set<string>)

  /** No record of this payment is unreadable, or eligible for a channel whose data cannot be read. */
  ghost predicate Readable(ns: Namespace, hash: string, receiver: bool, broken: set<string>, dark: set<string>) {
    forall k :: k in ns && ForPayment(k, hash) ==>
      k !in broken && (Eligible(ns, hash, receiver, k) ==> ChannelOf(k, hash) !in dark)
  }

  /** Applies every matching record of one namespace. Reading a key in `broken`, or the data of a channel in
      `dark`, fails; everything applied before that stays applied, and nothing has been removed yet. */
  method ApplyNamespace(ns: Namespace, channels: Channels, hash: string, receiver: bool, broken: set<string>,
                        dark: set<string>)
      returns (ok: bool, channels': Channels, applied: set<string>)
    ensures applied <= Settled(ns, channels.Keys, hash, receiver)
    ensures channels' == Moved(channels, ns, applied, hash, receiver)
    ensures ok ==> applied == Settled(ns, channels.Keys, hash, receiver)
    ensures ok <==> Readable(ns, hash, receiver, broken, dark)
  {
    ok, channels', applied := true, channels, {};
    assert channels' == Moved(channels, ns, applied, hash, receiver);
    var todo := ns.Keys;
    while todo != {}
      invariant todo <= ns.Keys
      invariant applied <= Settled(ns, channels.Keys, hash, receiver)
      invariant forall k :: k in Settled(ns, channels.Keys, hash, receiver) && k !in todo ==> k in applied
      invariant applied !! todo
      invariant channels' == Moved(channels, ns, applied, hash, receiver)
      invariant Readable(map k | k in ns && k !in todo :: ns[k], hash, receiver, broken, dark)
    {
      var key :| key in todo;
      if ForPayment(key, hash) {
        if key in broken { return false, channels', applied; }
        if Eligible(ns, hash, receiver, key) {
          var c := ChannelOf(key, hash);
          if c in dark { return false, channels', applied; }
          if c in channels' {
            MoveOne(channels, ns, applied, hash, receiver, key);
            channels' := channels'[c := Shift(channels'[c], Signed(ns[key].amount, receiver))];
            applied := applied + {key};
          }
        }
      }
      todo := todo - {key};
    }
    assert ns == map k | k in ns && k !in todo :: ns[k];
  }

  lemma MoveOne(channels: Channels, ns: Namespace, done: set<string>, hash: string, receiver: bool, key: string)
    requires forall k <- done :: k in ns && ns[k].Pending?
    requires Settles(ns, channels.Keys, hash, receiver, key) && key !in done
    ensures var c := ChannelOf(key, hash);
            var before := Moved(channels, ns, done, hash, receiver);
            Moved(channels, ns, done + {key}, hash, receiver) ==
              before[c := Shift(before[c], Signed(ns[key].amount, receiver))]
  {
    var c := ChannelOf(key, hash);
    KeyShape(key, hash, c);
    forall d | d in channels && d != c ensures KeyFor(d, hash) != key {
      KeyShape(key, hash, d);
    }
  }

  /** One round of the loop over namespaces: list, apply, and then remove what was applied. */
  method SettleNamespace(ns: Namespace, channels: Channels, hash: string, receiver: bool, f: Faults, dark: set<string>)
      returns (ok: bool, ns': Namespace, channels': Channels, applied: set<string>, removed: set<string>)
    ensures removed <= applied <= Settled(ns, channels.Keys, hash, receiver)
    ensures channels' == Moved(channels, ns, applied, hash, receiver) && ns' == ns - removed
    ensures ok <==> !f.unlisted && Readable(ns, hash, receiver, f.broken, dark)
    ensures ok ==> applied == Settled(ns, channels.Keys, hash, receiver) && removed == applied - f.stuck
  {
    ok, ns', channels', applied, removed := false, ns, channels, {}, {};
    assert ns == ns - removed;
    if f.unlisted {
      MovedNothing(channels, ns, hash, receiver);
      return;
    }
    ok, channels', applied := ApplyNamespace(ns, channels, hash, receiver, f.broken, dark);
    if ok {
      removed := applied - f.stuck;
      ns' := ns - removed;
    }
  }

  /** The marker is removed when nothing is left, unless that fails. */
  function Remarked(ns: Namespace, hash: string, stuck: set<string>): Namespace {
    if Suffix(hash) in stuck then ns else DropMarker(ns, hash)
  }

  /** The namespace without these records, and perhaps without the payment's marker. */
  ghost predicate Without(ns: Namespace, gone: set<string>, hash: string, after: Namespace) {
    after == ns - gone || after == ns - gone - {Suffix(hash)}
  }

  ghost predicate Partly(l: Ledger, hash: string, receiver: bool, doneIn: set<string>, goneIn: set<string>,
                         doneOut: set<string>, goneOut: set<string>, after: Ledger) {
    && goneIn <= doneIn <= Settled(l.inbound, l.channels.Keys, hash, receiver)
    && goneOut <= doneOut <= Settled(l.outbound, l.channels.Keys, hash, receiver)
    && after.channels ==
      Moved(Moved(l.channels, l.inbound, doneIn, hash, receiver), l.outbound, doneOut, hash, receiver)
    && Without(l.inbound, goneIn, hash, after.inbound) && Without(l.outbound, goneOut, hash, after.outbound)
  }

  /** What is done when every listing and read works, but some keys cannot be removed. */
  function FinalizeLeaving(l: Ledger, hash: string, receiver: bool, stuckIn: set<string>,
                           stuckOut: set<string>): Ledger {
    var doneIn, doneOut :=
      Settled(l.inbound, l.channels.Keys, hash, receiver), Settled(l.outbound, l.channels.Keys, hash, receiver);
    var in', out' := l.inbound - (doneIn - stuckIn), l.outbound - (doneOut - stuckOut);
    var channels := Moved(Moved(l.channels, l.inbound, doneIn, hash, receiver), l.outbound, doneOut, hash, receiver);
    if doneIn + doneOut == {} then Ledger(in', out', channels)
    else Ledger(Remarked(in', hash, stuckIn), Remarked(out', hash, stuckOut), channels)
  }

  /** With nothing stuck this is `Finalize`. */
  lemma NothingStuck(l: Ledger, hash: string, receiver: bool)
    ensures FinalizeLeaving(l, hash, receiver, {}, {}) == Finalize(l, hash, receiver)
  {
    var doneIn, doneOut :=
      Settled(l.inbound, l.channels.Keys, hash, receiver), Settled(l.outbound, l.channels.Keys, hash, receiver);
    assert doneIn - {} == doneIn && doneOut - {} == doneOut;
    if doneIn + doneOut == {} {
      assert doneIn == {} && doneOut == {};
      assert l.inbound - doneIn == l.inbound && l.outbound - doneOut == l.outbound;
    }
  }

  class RgbStore {
    var inbound: Namespace
    var outbound: Namespace
    var channels: Channels

    ghost function Value(): Ledger
      reads this
    {
      Ledger(inbound, outbound, channels)
    }

    /** Whatever fails: `doneIn` and `doneOut` have been applied, `goneIn` and `goneOut` of them removed, and
        nothing else has changed but perhaps the payment's own markers. It ends well exactly when every
        listing and read it needed worked; then everything due has been applied, and what is left of it is
        what could not be removed. */
    method FinalizeRgbChannelPayment(hash: string, receiver: bool, fin: Faults, fout: Faults, dark: set<string>)
        returns (ok: bool, ghost doneIn: set<string>, ghost goneIn: set<string>, ghost doneOut: set<string>,
          ghost goneOut: set<string>)
      modifies this
      ensures Partly(old(Value()), hash, receiver, doneIn, goneIn, doneOut, goneOut, Value())
      ensures ok <==> && !fin.unlisted && Readable(old(inbound), hash, receiver, fin.broken, dark)
                      && !fout.unlisted && Readable(old(outbound), hash, receiver, fout.broken, dark)
                      && (doneIn + doneOut != {} ==> !fin.unlistedAgain && !fout.unlistedAgain)
      ensures ok ==> Value() == FinalizeLeaving(old(Value()), hash, receiver, fin.stuck, fout.stuck)
    {
      ghost var l := Value();
      doneOut, goneOut := {}, {};
      var okIn, in', moved, appliedIn, removedIn := SettleNamespace(inbound, channels, hash, receiver, fin, dark);
      doneIn, goneIn := appliedIn, removedIn;
      MovedNothing(moved, outbound, hash, receiver);
      inbound, channels := in', moved;
      if !okIn { ok := false; return; }
      var okOut, out', moved', appliedOut, removedOut :=
        SettleNamespace(outbound, channels, hash, receiver, fout, dark);
      doneOut, goneOut := appliedOut, removedOut;
      outbound, channels := out', moved';
      assert Partly(l, hash, receiver, doneIn, goneIn, doneOut, goneOut, Value());
      if !okOut { ok := false; return; }
      ok := true;
      if appliedIn + appliedOut != {} { ok := DropMarkers(hash, fin, fout); }
    }

    method DropMarkers(hash: string, fin: Faults, fout: Faults) returns (ok: bool)
      modifies this`inbound, this`outbound
      ensures ok <==> !fin.unlistedAgain && !fout.unlistedAgain
      ensures inbound == if fin.unlistedAgain then old(inbound) else Remarked(old(inbound), hash, fin.stuck)
      ensures outbound == if ok then Remarked(old(outbound), hash, fout.stuck) else old(outbound)
    {
      if fin.unlistedAgain { return false; }
      inbound := Remarked(inbound, hash, fin.stuck);
      if fout.unlistedAgain { return false; }
      outbound := Remarked(outbound, hash, fout.stuck);
      return true;
    }
  }

  // ----- what finalising does to the balances

  /** The records of one namespace that are pending for a channel, as this side of the payment settles it. */
  function PendingFor(ns: Namespace, hash: string, receiver: bool, c: string): set<string> {
    set k | k in ns && Eligible(ns, hash, receiver, k) && ChannelOf(k, hash) == c
  }

  /** What they are for in total. */
  ghost function PendingTotal(ns: Namespace, hash: string, receiver: bool, c: string): int {
    Total(map k | k in PendingFor(ns, hash, receiver, c) :: ns[k].amount as int)
  }

  /** The same by the only key such a record can have. */
  function DueFrom(ns: Namespace, known: set<string>, hash: string, receiver: bool, c: string): int {
    if KeyFor(c, hash) in Settled(ns, known, hash, receiver) then Signed(ns[KeyFor(c, hash)].amount, receiver) else 0
  }

  function Due(l: Ledger, hash: string, receiver: bool, c: string): int {
    DueFrom(l.inbound, l.channels.Keys, hash, receiver, c) + DueFrom(l.outbound, l.channels.Keys, hash, receiver, c)
  }

  lemma PendingIsDue(ns: Namespace, known: set<string>, hash: string, receiver: bool, c: string)
    requires c in known
    ensures DueFrom(ns, known, hash, receiver, c) ==
            if receiver then PendingTotal(ns, hash, receiver, c) else -PendingTotal(ns, hash, receiver, c)
  {
    var key, keys := KeyFor(c, hash), PendingFor(ns, hash, receiver, c);
    var amounts := map k | k in keys :: ns[k].amount as int;
    KeyShape(key, hash, c);
    forall k | k in keys ensures k == key { KeyShape(k, hash, c); }
    if key in keys {
      TotalWithout(amounts, key);
      assert amounts - {key} == map[];
    } else {
      assert amounts == map[];
    }
  }

  lemma FinalizeMovesByKey(l: Ledger, hash: string, receiver: bool, c: string)
    requires c in l.channels
    ensures Finalize(l, hash, receiver).channels.Keys == l.channels.Keys
    ensures Finalize(l, hash, receiver).channels[c] == Shift(l.channels[c], Due(l, hash, receiver, c))
  {
  }

  /** Every channel's local amount changes by exactly the total of its matching pending records, in both
      namespaces; what it gains the other side loses, so the channel's total stays. */
  lemma FinalizeMovesWhatIsDue(l: Ledger, hash: string, receiver: bool, c: string)
    requires c in l.channels
    ensures Finalize(l, hash, receiver).channels.Keys == l.channels.Keys
    ensures var before, after := l.channels[c], Finalize(l, hash, receiver).channels[c];
            var total := PendingTotal(l.inbound, hash, receiver, c) + PendingTotal(l.outbound, hash, receiver, c);
            && after.local == before.local + (if receiver then total else -total)
            && after.local + after.remote == before.local + before.remote
  {
    FinalizeMovesByKey(l, hash, receiver, c);
    PendingIsDue(l.inbound, l.channels.Keys, hash, receiver, c);
    PendingIsDue(l.outbound, l.channels.Keys, hash, receiver, c);
  }

  /** Keys that do not end in this payment's suffix are left alone, in both namespaces. */
  lemma OtherKeysUntouched(l: Ledger, hash: string, receiver: bool, key: string)
    requires !EndsWith(key, Suffix(hash))
    ensures key in Finalize(l, hash, receiver).inbound <==> key in l.inbound
    ensures key in Finalize(l, hash, receiver).outbound <==> key in l.outbound
    ensures key in l.inbound ==> Finalize(l, hash, receiver).inbound[key] == l.inbound[key]
    ensures key in l.outbound ==> Finalize(l, hash, receiver).outbound[key] == l.outbound[key]
  {
    assert Suffix(hash)[|Suffix(hash)| - |Suffix(hash)|..] == Suffix(hash);
  }

  /** In particular no key of another payment hash, with or without a channel, is touched. */
  lemma OtherHashHasOtherKeys(hash: string, other: string, key: string)
    requires |hash| == |other| && hash != other
    requires EndsWith(key, Suffix(other))
    ensures !EndsWith(key, Suffix(hash))
  {
    assert Suffix(hash)[..|hash|] == hash && Suffix(other)[..|other|] == other;
  }

  // ----- repeating it

  lemma NothingLeftToSettle(ns: Namespace, known: set<string>, hash: string, receiver: bool)
    ensures Settled(ns - Settled(ns, known, hash, receiver), known, hash, receiver) == {}
    ensures Settled(DropMarker(ns - Settled(ns, known, hash, receiver), hash), known, hash, receiver) == {}
  {
  }

  lemma MovedNothing(channels: Channels, ns: Namespace, hash: string, receiver: bool)
    ensures Moved(channels, ns, {}, hash, receiver) == channels
  {
  }

  /** Doing it twice is the same as doing it once. */
  lemma FinalizeTwice(l: Ledger, hash: string, receiver: bool)
    ensures Finalize(Finalize(l, hash, receiver), hash, receiver) == Finalize(l, hash, receiver)
  {
    var once := Finalize(l, hash, receiver);
    var known := l.channels.Keys;
    assert once.channels.Keys == known;
    NothingLeftToSettle(l.inbound, known, hash, receiver);
    NothingLeftToSettle(l.outbound, known, hash, receiver);
    MovedNothing(once.channels, once.inbound, hash, receiver);
    MovedNothing(once.channels, once.outbound, hash, receiver);
  }

  /** No record for the channel was applied and left in place, or only one that is for nothing. */
  predicate NothingLeft(ns: Namespace, left: set<string>, hash: string, c: string)
    requires forall k <- left :: k in ns && ns[k].Pending?
  {
    KeyFor(c, hash) !in left || ns[KeyFor(c, hash)].amount == 0
  }

  /** What a namespace still holds for a channel after some of its records have been removed. */
  lemma DueAfter(ns: Namespace, gone: set<string>, after: Namespace, known: set<string>, hash: string, receiver: bool,
                 c: string)
    requires gone <= Settled(ns, known, hash, receiver) && Without(ns, gone, hash, after) && c in known
    ensures DueFrom(after, known, hash, receiver, c) ==
            if KeyFor(c, hash) in gone then 0 else DueFrom(ns, known, hash, receiver, c)
  {
    MarkerIsNoRecord(hash);
    KeyShape(KeyFor(c, hash), hash, c);
  }

  lemma PartlyMoved(l: Ledger, hash: string, receiver: bool, doneIn: set<string>, goneIn: set<string>,
                    doneOut: set<string>, goneOut: set<string>, stopped: Ledger, c: string)
    requires Partly(l, hash, receiver, doneIn, goneIn, doneOut, goneOut, stopped) && c in l.channels
    ensures stopped.channels.Keys == l.channels.Keys
    ensures stopped.channels[c] ==
      Shift(l.channels[c], Delta(l.inbound, doneIn, hash, receiver, c) + Delta(l.outbound, doneOut, hash, receiver, c))
  {
  }

  /** Applied once, and then settled again unless it is gone: the amount too much. */
  lemma AppliedTwice(ns: Namespace, done: set<string>, gone: set<string>, after: Namespace, known: set<string>,
                     hash: string, receiver: bool, c: string)
    requires gone <= done <= Settled(ns, known, hash, receiver) && Without(ns, gone, hash, after) && c in known
    ensures Delta(ns, done, hash, receiver, c) + DueFrom(after, known, hash, receiver, c) ==
            DueFrom(ns, known, hash, receiver, c) + Delta(ns, done - gone, hash, receiver, c)
  {
    DueAfter(ns, gone, after, known, hash, receiver, c);
  }

  lemma StoppedDue(l: Ledger, hash: string, receiver: bool, doneIn: set<string>, goneIn: set<string>,
                   doneOut: set<string>, goneOut: set<string>, stopped: Ledger, c: string)
    requires Partly(l, hash, receiver, doneIn, goneIn, doneOut, goneOut, stopped) && c in l.channels
    ensures Delta(l.inbound, doneIn, hash, receiver, c) + Delta(l.outbound, doneOut, hash, receiver, c) +
            Due(stopped, hash, receiver, c) ==
            Due(l, hash, receiver, c) +
            Delta(l.inbound, doneIn - goneIn, hash, receiver, c) +
            Delta(l.outbound, doneOut - goneOut, hash, receiver, c)
  {
    PartlyMoved(l, hash, receiver, doneIn, goneIn, doneOut, goneOut, stopped, c);
    AppliedTwice(l.inbound, doneIn, goneIn, stopped.inbound, l.channels.Keys, hash, receiver, c);
    AppliedTwice(l.outbound, doneOut, goneOut, stopped.outbound, l.channels.Keys, hash, receiver, c);
  }

  lemma RetryShifts(l: Ledger, stopped: Ledger, hash: string, receiver: bool, c: string, applied: int, left: int)
    requires c in l.channels && c in stopped.channels && stopped.channels[c] == Shift(l.channels[c], applied)
    requires applied + Due(stopped, hash, receiver, c) == Due(l, hash, receiver, c) + left
    ensures c in Finalize(stopped, hash, receiver).channels && c in Finalize(l, hash, receiver).channels
    ensures Finalize(stopped, hash, receiver).channels[c] == Shift(Finalize(l, hash, receiver).channels[c], left)
  {
    FinalizeMovesByKey(l, hash, receiver, c);
    FinalizeMovesByKey(stopped, hash, receiver, c);
  }

  /** However far an attempt got, a retry that meets no fault settles each channel as one attempt would have,
      and once more for each record that had been applied and left in place. */
  lemma RetryMoves(l: Ledger, hash: string, receiver: bool, doneIn: set<string>, goneIn: set<string>,
                   doneOut: set<string>, goneOut: set<string>, stopped: Ledger, c: string)
    requires Partly(l, hash, receiver, doneIn, goneIn, doneOut, goneOut, stopped) && c in l.channels
    ensures c in Finalize(stopped, hash, receiver).channels && c in Finalize(l, hash, receiver).channels
    ensures Finalize(stopped, hash, receiver).channels[c] ==
      Shift(Finalize(l, hash, receiver).channels[c],
            Delta(l.inbound, doneIn - goneIn, hash, receiver, c) +
            Delta(l.outbound, doneOut - goneOut, hash, receiver, c))
  {
    PartlyMoved(l, hash, receiver, doneIn, goneIn, doneOut, goneOut, stopped, c);
    StoppedDue(l, hash, receiver, doneIn, goneIn, doneOut, goneOut, stopped, c);
    var applied := Delta(l.inbound, doneIn, hash, receiver, c) + Delta(l.outbound, doneOut, hash, receiver, c);
    var left := Delta(l.inbound, doneIn - goneIn, hash, receiver, c)
      + Delta(l.outbound, doneOut - goneOut, hash, receiver, c);
    RetryShifts(l, stopped, hash, receiver, c, applied, left);
  }

  lemma ShiftByNothing(ch: Channel, amount: int)
    ensures Shift(ch, amount) == ch <==> amount == 0
  {
  }

  lemma NothingLeftToShift(ns: Namespace, left: set<string>, ns': Namespace, left': set<string>,
                           hash: string, receiver: bool, c: string)
    requires (forall k <- left :: k in ns && ns[k].Pending?) && (forall k <- left' :: k in ns' && ns'[k].Pending?)
    ensures Delta(ns, left, hash, receiver, c) + Delta(ns', left', hash, receiver, c) == 0 <==>
            NothingLeft(ns, left, hash, c) && NothingLeft(ns', left', hash, c)
  {
  }

  /** Whatever failed and in whichever namespace, the retry settles a channel exactly once if and only if no
      record for it had been applied and left in place, or only for nothing. */
  lemma RetrySettlesOnce(l: Ledger, hash: string, receiver: bool, doneIn: set<string>, goneIn: set<string>,
                         doneOut: set<string>, goneOut: set<string>, stopped: Ledger, c: string)
    requires Partly(l, hash, receiver, doneIn, goneIn, doneOut, goneOut, stopped) && c in l.channels
    ensures c in Finalize(stopped, hash, receiver).channels && c in Finalize(l, hash, receiver).channels
    ensures Finalize(stopped, hash, receiver).channels[c] == Finalize(l, hash, receiver).channels[c] <==>
            NothingLeft(l.inbound, doneIn - goneIn, hash, c) && NothingLeft(l.outbound, doneOut - goneOut, hash, c)
  {
    RetryMoves(l, hash, receiver, doneIn, goneIn, doneOut, goneOut, stopped, c);
    NothingLeftToShift(l.inbound, doneIn - goneIn, l.outbound, doneOut - goneOut, hash, receiver, c);
    var left := Delta(l.inbound, doneIn - goneIn, hash, receiver, c) +
                Delta(l.outbound, doneOut - goneOut, hash, receiver, c);
    ShiftByNothing(Finalize(l, hash, receiver).channels[c], left);
  }

  lemma OneRecordMoved(l: Ledger, hash: string, receiver: bool, key: string, inboundSide: bool)
    requires var ns := if inboundSide then l.inbound else l.outbound;
             key in Settled(ns, l.channels.Keys, hash, receiver)
    ensures var ns := if inboundSide then l.inbound else l.outbound;
            var doneIn, doneOut := if inboundSide then {key} else {}, if inboundSide then {} else {key};
            var stopped := l.(channels := Moved(l.channels, ns, {key}, hash, receiver));
            Partly(l, hash, receiver, doneIn, {}, doneOut, {}, stopped)
  {
    MovedNothing(l.channels, l.inbound, hash, receiver);
    if inboundSide { MovedNothing(Moved(l.channels, l.inbound, {key}, hash, receiver), l.outbound, hash, receiver); }
    RemoveTwice(l.inbound, {}, {});
    RemoveTwice(l.outbound, {}, {});
  }

  /** So whenever something is due for a channel, in either namespace, an attempt that stops right after applying
      it makes the retry apply it again. */
  lemma RetrySettlesTwice(l: Ledger, hash: string, receiver: bool, c: string, inboundSide: bool)
    requires c in l.channels
    requires var ns := if inboundSide then l.inbound else l.outbound;
             KeyFor(c, hash) in Settled(ns, l.channels.Keys, hash, receiver) && ns[KeyFor(c, hash)].amount > 0
    ensures var ns := if inboundSide then l.inbound else l.outbound;
            var stopped := l.(channels := Moved(l.channels, ns, {KeyFor(c, hash)}, hash, receiver));
            && c in Finalize(stopped, hash, receiver).channels && c in Finalize(l, hash, receiver).channels
            && Finalize(stopped, hash, receiver).channels[c] != Finalize(l, hash, receiver).channels[c]
  {
    var key, ns := KeyFor(c, hash), if inboundSide then l.inbound else l.outbound;
    var stopped := l.(channels := Moved(l.channels, ns, {key}, hash, receiver));
    OneRecordMoved(l, hash, receiver, key, inboundSide);
    if inboundSide {
      RetrySettlesOnce(l, hash, receiver, {key}, {}, {}, {}, stopped, c);
    } else {
      RetrySettlesOnce(l, hash, receiver, {}, {}, {key}, {}, stopped, c);
    }
  }

  // ----- the receiver's and the sender's pass

  predicate SettlesEither(ns: Namespace, known: set<string>, hash: string, key: string) {
    key in ns && ForPayment(key, hash) && ns[key].Pending? && ChannelOf(key, hash) in known
  }

  function SettledEither(ns: Namespace, known: set<string>, hash: string): set<string> {
    set key | key in ns && SettlesEither(ns, known, hash, key)
  }

  /** A swap record counts for the side it belongs to; any other for whichever pass comes first. */
  function DueFromBoth(ns: Namespace, known: set<string>, hash: string, first: bool, c: string): int {
    var key := KeyFor(c, hash);
    if !SettlesEither(ns, known, hash, key) then 0
    else Signed(ns[key].amount, if ns[key].swap then ns[key].inbound else first)
  }

  function DueBoth(l: Ledger, hash: string, first: bool, c: string): int {
    DueFromBoth(l.inbound, l.channels.Keys, hash, first, c) + DueFromBoth(l.outbound, l.channels.Keys, hash, first, c)
  }

  function BothCleared(ns: Namespace, known: set<string>, hash: string, any: bool): Namespace {
    if any then DropMarker(ns - SettledEither(ns, known, hash), hash) else ns
  }

  function AnySettled(l: Ledger, hash: string): bool {
    SettledEither(l.inbound, l.channels.Keys, hash) + SettledEither(l.outbound, l.channels.Keys, hash) != {}
  }

  function Both(l: Ledger, hash: string, first: bool): Ledger {
    Finalize(Finalize(l, hash, first), hash, !first)
  }

  /** The namespace between the two passes. */
  function Between(ns: Namespace, known: set<string>, hash: string, first: bool, any: bool): Namespace {
    if any then DropMarker(ns - Settled(ns, known, hash, first), hash) else ns
  }

  lemma MarkerIsNoRecord(hash: string)
    ensures !ForPayment(Suffix(hash), hash)
  {
  }

  lemma SecondPassSettles(ns: Namespace, known: set<string>, hash: string, first: bool, any: bool)
    requires !any ==> Settled(ns, known, hash, first) == {}
    ensures var a := Settled(ns, known, hash, first);
            var b := Settled(Between(ns, known, hash, first, any), known, hash, !first);
            a + b == SettledEither(ns, known, hash) && a !! b
  {
    MarkerIsNoRecord(hash);
    var a := Settled(ns, known, hash, first);
    var b := Settled(Between(ns, known, hash, first, any), known, hash, !first);
    forall k ensures k in a + b <==> k in SettledEither(ns, known, hash) {
      if k in SettledEither(ns, known, hash) && k !in a { assert k in Between(ns, known, hash, first, any); }
    }
  }

  lemma DueOverBoth(ns: Namespace, known: set<string>, hash: string, first: bool, any: bool, c: string)
    requires c in known
    requires !any ==> Settled(ns, known, hash, first) == {}
    ensures DueFrom(ns, known, hash, first, c) +
            DueFrom(Between(ns, known, hash, first, any), known, hash, !first, c) ==
            DueFromBoth(ns, known, hash, first, c)
  {
    SecondPassSettles(ns, known, hash, first, any);
    var key := KeyFor(c, hash);
    KeyShape(key, hash, c);
    assert key in SettledEither(ns, known, hash) <==> SettlesEither(ns, known, hash, key);
  }

  lemma ClearedOverBoth(ns: Namespace, known: set<string>, hash: string, first: bool, any1: bool, any2: bool)
    requires !any1 ==> Settled(ns, known, hash, first) == {}
    requires !any2 ==> Settled(Between(ns, known, hash, first, any1), known, hash, !first) == {}
    ensures var middle := Between(ns, known, hash, first, any1);
            Between(middle, known, hash, !first, any2) == BothCleared(ns, known, hash, any1 || any2)
  {
    var middle := Between(ns, known, hash, first, any1);
    var a, b := Settled(ns, known, hash, first), Settled(middle, known, hash, !first);
    SecondPassSettles(ns, known, hash, first, any1);
    assert SettledEither(ns, known, hash) == a + b;
    RemoveTwice(ns, a, b);
    if any1 && any2 {
      DropMarkerTwice(ns - a, b, hash);
    } else if any2 {
      assert ns - a == ns;
    } else if any1 {
      assert ns - a - b == ns - a;
    }
  }

  lemma RemoveTwice(ns: Namespace, a: set<string>, b: set<string>)
    ensures ns - (a + b) == ns - a - b
    ensures a == {} ==> ns - a == ns
    ensures b == {} ==> ns - a - b == ns - a
  {
  }

  /** Dropping the marker before some records of the payment are removed, and again after, is dropping it after. */
  lemma DropMarkerTwice(x: Namespace, b: set<string>, hash: string)
    requires forall k <- b :: EndsWith(k, Suffix(hash)) && |k| > |Suffix(hash)|
    ensures DropMarker(DropMarker(x, hash) - b, hash) == DropMarker(x - b, hash)
  {
    if !Leftover(x, hash) {
      assert DropMarker(x, hash) - b == x - b - {Suffix(hash)};
    }
  }

  function AnyOf(ns: Namespace, ns': Namespace, known: set<string>, hash: string, receiver: bool): bool {
    Settled(ns, known, hash, receiver) + Settled(ns', known, hash, receiver) != {}
  }

  /** What is left in each namespace after the two passes does not depend on their order. */
  lemma BothPassesClear(l: Ledger, hash: string, first: bool)
    ensures Both(l, hash, first).inbound == BothCleared(l.inbound, l.channels.Keys, hash, AnySettled(l, hash))
    ensures Both(l, hash, first).outbound == BothCleared(l.outbound, l.channels.Keys, hash, AnySettled(l, hash))
  {
    var known := l.channels.Keys;
    var any1 := AnyOf(l.inbound, l.outbound, known, hash, first);
    var middle := Finalize(l, hash, first);
    FinalizeIsBetween(l, hash, first);
    var any2 := AnyOf(middle.inbound, middle.outbound, known, hash, !first);
    FinalizeIsBetween(middle, hash, !first);
    SecondPassSettles(l.inbound, known, hash, first, any1);
    SecondPassSettles(l.outbound, known, hash, first, any1);
    ClearedOverBoth(l.inbound, known, hash, first, any1, any2);
    ClearedOverBoth(l.outbound, known, hash, first, any1, any2);
  }

  /** What the two passes together change on a channel. */
  lemma BothPassesMove(l: Ledger, hash: string, first: bool, c: string)
    requires c in l.channels
    ensures Both(l, hash, first).channels.Keys == l.channels.Keys
    ensures Both(l, hash, first).channels[c] == Shift(l.channels[c], DueBoth(l, hash, first, c))
  {
    var known := l.channels.Keys;
    var any1 := AnyOf(l.inbound, l.outbound, known, hash, first);
    var middle := Finalize(l, hash, first);
    FinalizeIsBetween(l, hash, first);
    FinalizeMovesByKey(l, hash, first, c);
    FinalizeMovesByKey(middle, hash, !first, c);
    DueOverBoth(l.inbound, known, hash, first, any1, c);
    DueOverBoth(l.outbound, known, hash, first, any1, c);
  }

  lemma FinalizeIsBetween(l: Ledger, hash: string, receiver: bool)
    ensures var known := l.channels.Keys;
            var any := Settled(l.inbound, known, hash, receiver) + Settled(l.outbound, known, hash, receiver) != {};
            var after := Finalize(l, hash, receiver);
            && after.inbound == Between(l.inbound, known, hash, receiver, any)
            && after.outbound == Between(l.outbound, known, hash, receiver, any)
            && after.channels.Keys == known
            && (!any ==> Settled(l.inbound, known, hash, receiver) == {})
            && (!any ==> Settled(l.outbound, known, hash, receiver) == {})
  {
  }

  ghost predicate PlainAmountsAreZero(ns: Namespace, known: set<string>, hash: string) {
    forall key :: SettlesEither(ns, known, hash, key) && !ns[key].swap ==> ns[key].amount == 0
  }

  lemma PlainDueDiffers(ns: Namespace, known: set<string>, hash: string, c: string)
    ensures DueFromBoth(ns, known, hash, true, c) - DueFromBoth(ns, known, hash, false, c) ==
      var key := KeyFor(c, hash);
      if SettlesEither(ns, known, hash, key) && !ns[key].swap then 2 * ns[key].amount else 0
  {
  }

  /** The difference the order makes on a channel is twice what its plain records are for. */
  ghost predicate PlainDueAgrees(l: Ledger, hash: string, c: string) {
    var key, known := KeyFor(c, hash), l.channels.Keys;
    DueBoth(l, hash, true, c) - DueBoth(l, hash, false, c) ==
      (if SettlesEither(l.inbound, known, hash, key) && !l.inbound[key].swap then 2 * l.inbound[key].amount else 0) +
      (if SettlesEither(l.outbound, known, hash, key) && !l.outbound[key].swap then 2 * l.outbound[key].amount else 0)
  }

  lemma OrderMatters(l: Ledger, hash: string, c: string)
    ensures PlainDueAgrees(l, hash, c)
  {
    PlainDueDiffers(l.inbound, l.channels.Keys, hash, c);
    PlainDueDiffers(l.outbound, l.channels.Keys, hash, c);
  }

  lemma CommutingMeansSameDue(l: Ledger, hash: string, c: string)
    requires Both(l, hash, true).channels == Both(l, hash, false).channels && c in l.channels
    ensures DueBoth(l, hash, true, c) == DueBoth(l, hash, false, c)
  {
    BothPassesMove(l, hash, true, c);
    BothPassesMove(l, hash, false, c);
  }

  lemma NothingPlainDue(ns: Namespace, ns': Namespace, known: set<string>, hash: string, key: string)
    requires (if SettlesEither(ns, known, hash, key) && !ns[key].swap then 2 * ns[key].amount else 0) +
             (if SettlesEither(ns', known, hash, key) && !ns'[key].swap then 2 * ns'[key].amount else 0) == 0
    ensures SettlesEither(ns, known, hash, key) && !ns[key].swap ==> ns[key].amount == 0
    ensures SettlesEither(ns', known, hash, key) && !ns'[key].swap ==> ns'[key].amount == 0
  {
  }

  lemma CommutingMeansZero(l: Ledger, hash: string, key: string)
    requires Both(l, hash, true).channels == Both(l, hash, false).channels
    ensures SettlesEither(l.inbound, l.channels.Keys, hash, key) && !l.inbound[key].swap ==> l.inbound[key].amount == 0
    ensures SettlesEither(l.outbound, l.channels.Keys, hash, key) && !l.outbound[key].swap ==>
      l.outbound[key].amount == 0
  {
    var known := l.channels.Keys;
    if SettlesEither(l.inbound, known, hash, key) || SettlesEither(l.outbound, known, hash, key) {
      var c := ChannelOf(key, hash);
      KeyShape(key, hash, c);
      CommutingMeansSameDue(l, hash, c);
      OrderMatters(l, hash, c);
      NothingPlainDue(l.inbound, l.outbound, known, hash, key);
    }
  }

  lemma ZeroMeansSame(l: Ledger, hash: string, c: string)
    requires PlainAmountsAreZero(l.inbound, l.channels.Keys, hash)
    requires PlainAmountsAreZero(l.outbound, l.channels.Keys, hash)
    requires c in l.channels
    ensures c in Both(l, hash, true).channels && c in Both(l, hash, false).channels
    ensures Both(l, hash, true).channels[c] == Both(l, hash, false).channels[c]
  {
    BothPassesMove(l, hash, true, c);
    BothPassesMove(l, hash, false, c);
    OrderMatters(l, hash, c);
  }

  lemma BothPassesKeys(l: Ledger, hash: string, first: bool)
    ensures Both(l, hash, first).channels.Keys == l.channels.Keys
  {
    FinalizeIsBetween(l, hash, first);
    FinalizeIsBetween(Finalize(l, hash, first), hash, !first);
  }

  lemma ZeroMeansCommuting(l: Ledger, hash: string)
    requires PlainAmountsAreZero(l.inbound, l.channels.Keys, hash)
    requires PlainAmountsAreZero(l.outbound, l.channels.Keys, hash)
    ensures Both(l, hash, true).channels == Both(l, hash, false).channels
  {
    BothPassesKeys(l, hash, true);
    BothPassesKeys(l, hash, false);
    forall c | c in l.channels { ZeroMeansSame(l, hash, c); }
  }

  /** The two passes commute exactly when every record either pass could settle belongs to a swap, or
      is for nothing. */
  lemma PassesCommute(l: Ledger, hash: string)
    ensures Both(l, hash, true) == Both(l, hash, false) <==>
            && PlainAmountsAreZero(l.inbound, l.channels.Keys, hash)
            && PlainAmountsAreZero(l.outbound, l.channels.Keys, hash)
  {
    BothPassesClear(l, hash, true);
    BothPassesClear(l, hash, false);
    if Both(l, hash, true).channels == Both(l, hash, false).channels {
      forall key { CommutingMeansZero(l, hash, key); }
    }
    if PlainAmountsAreZero(l.inbound, l.channels.Keys, hash) && PlainAmountsAreZero(l.outbound, l.channels.Keys, hash) {
      ZeroMeansCommuting(l, hash);
    }
  }

  /** One plain record is enough: whichever pass comes first takes it. */
  lemma PlainRecordDoesNotCommute(hash: string, c: string)
    requires |c| == CHANNEL_ID_LEN
    ensures var l := Ledger(map[KeyFor(c, hash) := Pending(1, true, false)], map[], map[c := Channel(5, 5)]);
            && c in Both(l, hash, true).channels && Both(l, hash, true).channels[c] == Channel(6, 4)
            && c in Both(l, hash, false).channels && Both(l, hash, false).channels[c] == Channel(4, 6)
  {
    var l := Ledger(map[KeyFor(c, hash) := Pending(1, true, false)], map[], map[c := Channel(5, 5)]);
    KeyShape(KeyFor(c, hash), hash, c);
    BothPassesMove(l, hash, true, c);
    BothPassesMove(l, hash, false, c);
  }

  /** After both passes nothing that could be settled is left. */
  lemma BothPassesLeaveNothing(l: Ledger, hash: string, first: bool)
    ensures SettledEither(Both(l, hash, first).inbound, l.channels.Keys, hash) == {}
    ensures SettledEither(Both(l, hash, first).outbound, l.channels.Keys, hash) == {}
  {
    BothPassesClear(l, hash, first);
  }
}
