/** Linked-asset swaps over every run of authorisations, intercepted payments, listings, settlements, failed
    writes and restarts, under a clock that never goes back.

    A stored map of swaps that does not decode at a restart counts as empty. */
module SwapRuns {
  import opened Wrappers
  import opened Text
  import opened MapTotal
  import opened SwapHost

  /** A payment that was handed on: the peer it came from, the contracts of the two channels, and the entry it
      was handed on for. */
  datatype Forward = Forward(
    htlc: Htlc, peer: Peer, inContract: Option<Contract>, outContract: Option<Contract>, entry: SwapData)

  /** `seen` is the largest balance seen by any authorisation that was not refused, by contract; `log` the
      payments handed on so far, `lost` how many of them before the last restart that lost the map;
      `channels` the local RGB amount of each channel. */
  datatype World = World(
    host: Host, clock: u64, seen: map<Contract, nat>, log: seq<Forward>, lost: nat, channels: map<nat, int>)

  datatype Step =
    | Authorizes(a: Authorization)
    | Intercepts(e: Interception)
    | Lists(h: PaymentHash, now: u64, write: StoreWrite)
    | Settles(i: nat, prev: nat, next: nat, errNext: bool, errPrev: bool, now: u64, write: StoreWrite)
    | Restarts(now: u64, decodes: bool)

  function TimeOf(step: Step): u64 {
    match step
    case Authorizes(a) => a.now
    case Intercepts(e) => e.now
    case _ => step.now
  }

  predicate Enabled(w: World, step: Step) {
    w.clock <= TimeOf(step) && (step.Settles? ==> step.i < |w.log|)
  }

  function SeenOf(w: World, c: Contract): nat { if c in w.seen then w.seen[c] else 0 }

  ghost function AfterAuthorize(w: World, a: Authorization): World {
    var host := Authorize(w.host, a).0;
    if Refusal(w.host, a).Some? then w.(host := host)
    else
      var most := if a.maxBalance > SeenOf(w, a.asset) then a.maxBalance else SeenOf(w, a.asset);
      w.(host := host, seen := w.seen[a.asset := most])
  }

  function ForwardOf(s: Host, e: Interception): Forward
    requires Judge(s, e).Forwarding?
  {
    Forward(e.htlc, e.inbound.value.0, e.inbound.value.1, e.outbound.value, s.swaps[e.htlc.hash])
  }

  function AfterIntercept(w: World, e: Interception): World {
    var (host, forwarded) := Intercept(w.host, e);
    if forwarded then w.(host := host, log := w.log + [ForwardOf(w.host, e)]) else w.(host := host)
  }

  // ----- settling a forwarded payment

  function Add(channels: map<nat, int>, c: nat, amount: int): map<nat, int> {
    if c in channels then channels[c := channels[c] + amount] else channels
  }

  function OutAmount(p: Htlc): int { if p.outRgb.Some? then p.outRgb.value.1 else 0 }

  function InAmount(p: Htlc): int { if p.inRgb.Some? then p.inRgb.value else 0 }

  /** The balance updates of a forwarded payment: first out of the next channel, then into the previous
      one. A channel without RGB data is skipped; a store error stops the handler. */
  function AfterUpdates(channels: map<nat, int>, p: Htlc, prev: nat, next: nat, errNext: bool,
                        errPrev: bool): map<nat, int> {
    if errNext then channels
    else
      var sent := Add(channels, next, -OutAmount(p));
      if errPrev then sent else Add(sent, prev, InAmount(p))
  }

  /** The stored local RGB amount of each channel that has one. */
  class ChannelAmounts {
    var channels: map<nat, int>

    method SafeUpdateRgbChannelAmount(c: nat, sent: u64, received: u64)
      modifies this
      ensures channels == Add(old(channels), c, received - sent)
    {
      if c !in channels { return; }
      channels := channels[c := channels[c] - sent + received];
    }

    /** `errNext` and `errPrev` say that the store fails at that update, if it is made at all. `ok` is false
        when the event is to be replayed. */
    method PaymentForwarded(p: Htlc, prev: nat, next: nat, errNext: bool, errPrev: bool) returns (ok: bool)
      requires (errNext ==> p.outRgb.Some?) && (errPrev ==> p.inRgb.Some?)
      modifies this
      ensures channels == AfterUpdates(old(channels), p, prev, next, errNext, errPrev)
      ensures channels.Keys == old(channels).Keys
      ensures forall c <- channels.Keys ::
        channels[c] == old(channels)[c]
          - (if c == next && !errNext && p.outRgb.Some? then p.outRgb.value.1 else 0)
          + (if c == prev && !errNext && !errPrev && p.inRgb.Some? then p.inRgb.value else 0)
      ensures ok <==> !errNext && !errPrev
    {
      if errNext { return false; }
      if p.outRgb.Some? { SafeUpdateRgbChannelAmount(next, p.outRgb.value.1, 0); }
      if errPrev { return false; }
      if p.inRgb.Some? { SafeUpdateRgbChannelAmount(prev, 0, p.inRgb.value); }
      return true;
    }
  }

  function AfterSettle(w: World, i: nat, prev: nat, next: nat, errNext: bool, errPrev: bool, now: u64,
                       write: StoreWrite): World
    requires i < |w.log|
  {
    var p := w.log[i].htlc;
    var channels := AfterUpdates(w.channels, p, prev, next, errNext, errPrev);
    if errNext || errPrev then w.(channels := channels)
    else w.(channels := channels, host := Completed(w.host, p.hash, now, write))
  }

  /** The clock moves first, then the step is taken. */
  ghost function Next(w: World, step: Step): World
    requires Enabled(w, step)
  {
    var v := w.(clock := TimeOf(step));
    match step
    case Authorizes(a) => AfterAuthorize(v, a)
    case Intercepts(e) => AfterIntercept(v, e)
    case Lists(h, now, write) => v.(host := Listed(v.host, h, now, write))
    case Settles(i, prev, next, errNext, errPrev, now, write) =>
      AfterSettle(v, i, prev, next, errNext, errPrev, now, write)
    case Restarts(_, decodes) =>
      if decodes then v.(host := v.host.(swaps := v.host.disk))
      else v.(host := v.host.(swaps := map[]), lost := |v.log|)
  }

  // ----- invariant

  /** A redemption one to one between two assets, made for one peer. While it waits it expires within a day
      of now; once pending it expires no later than the pending timeout runs out. */
  ghost predicate EntryOk(d: SwapData, clock: u64) {
    && d.info.fromAsset.Some? && d.info.toAsset.Some? && d.info.qtyFrom == d.info.qtyTo
    && d.authorizedPeer.Some?
    && (d.status.Waiting? ==> d.info.expiry <= SaturatingAdd(clock, MAX_AUTHORIZATION_SECS))
    && (d.status.Pending? ==>
          && d.initiatedAt.Some? && d.initiatedAt.value <= clock
          && d.info.expiry <= SaturatingAdd(d.initiatedAt.value, PENDING_TIMEOUT_SECS))
  }

  predicate Done(d: SwapData) { !d.status.Waiting? && !d.status.Pending? }

  /** The entry of a payment that was handed on is there, with its terms, pending on it or closed. */
  ghost predicate Accounts(m: Swaps, f: Forward) {
    && f.htlc.hash in m
    && var d := m[f.htlc.hash];
       && (Done(d) || (d.status.Pending? && d.interceptId == Some(f.htlc.interceptId)))
       && d.info == f.entry.info && d.authorizedPeer == f.entry.authorizedPeer
  }

  /** It came from the peer of the entry it was handed on for: in the asset and amount the entry takes, and out
      in the asset and amount the entry gives. */
  ghost predicate Authorised(f: Forward) {
    var info := f.entry.info;
    && f.entry.authorizedPeer == Some(f.peer)
    && info.fromAsset.Some? && info.toAsset.Some?
    && f.inContract == info.toAsset && f.htlc.inRgb == Some(info.qtyTo)
    && f.outContract == info.fromAsset && f.htlc.outRgb == Some((info.fromAsset.value, info.qtyFrom))
  }

  ghost predicate SwapsOk(w: World, m: Swaps) {
    && (forall h :: h in m ==> EntryOk(m[h], w.clock))
    && (forall c :: Reserved(m, c, w.clock) <= SeenOf(w, c))
    && (forall i :: w.lost <= i < |w.log| ==> Accounts(m, w.log[i]))
  }

  /** Of the payments from this one on, those with the same hash have the same intercept id. */
  ghost predicate OneInterceptSince(log: seq<Forward>, from: nat) {
    forall i, j :: from <= i < |log| && from <= j < |log| && log[i].htlc.hash == log[j].htlc.hash ==>
      log[i].htlc.interceptId == log[j].htlc.interceptId
  }

  /** A redemption: msat in equals msat out, and as much of one asset in as of the other out. */
  ghost predicate OneToOne(f: Forward) {
    && f.htlc.inMsat == f.htlc.outMsat
    && f.htlc.inRgb.Some? && f.htlc.outRgb.Some?
    && f.htlc.outRgb.value.1 == f.htlc.inRgb.value
    && f.inContract.Some? && f.outContract == Some(f.htlc.outRgb.value.0)
  }

  ghost predicate Inv(w: World) {
    && SwapsOk(w, w.host.swaps) && SwapsOk(w, w.host.disk)
    && w.lost <= |w.log| && OneInterceptSince(w.log, w.lost)
    && (forall i :: 0 <= i < |w.log| ==> OneToOne(w.log[i]) && Authorised(w.log[i]))
  }

  // ----- time

  lemma ReservesFades(d: SwapData, c: Contract, t: u64, t': u64)
    requires t <= t'
    ensures Reservation(d, c, t') <= Reservation(d, c, t)
  {
  }

  lemma ReservedFades(m: Swaps, c: Contract, t: u64, t': u64)
    requires t <= t'
    ensures Reserved(m, c, t') <= Reserved(m, c, t)
  {
    forall h | h in m { ReservesFades(m[h], c, t, t'); }
    TotalMonotone(Reservations(m, c, t'), Reservations(m, c, t));
  }

  lemma TimePasses(w: World, m: Swaps, t: u64)
    requires SwapsOk(w, m) && w.clock <= t
    ensures SwapsOk(w.(clock := t), m)
  {
    forall c ensures Reserved(m, c, t) <= SeenOf(w.(clock := t), c) {
      ReservedFades(m, c, w.clock, t);
    }
  }

  // ----- changing an entry

  /** The terms stay, nothing is reserved that was not, and a payment that was handed on stays accounted for. */
  ghost predicate Tightens(d: SwapData, d': SwapData, now: u64) {
    && d'.info == d.info && d'.authorizedPeer == d.authorizedPeer
    && EntryOk(d', now)
    && (forall c :: Reservation(d', c, now) <= Reservation(d, c, now))
    && (Done(d) ==> Done(d'))
    && (d.status.Pending? ==> Done(d') || (d'.status.Pending? && d'.interceptId == d.interceptId))
  }

  lemma TightenedEntry(w: World, m: Swaps, h: PaymentHash, d': SwapData)
    requires SwapsOk(w, m) && h in m && Tightens(m[h], d', w.clock)
    ensures SwapsOk(w, m[h := d'])
  {
    forall c ensures Reserved(m[h := d'], c, w.clock) <= SeenOf(w, c) {
      ReservedPut(m, h, d', c, w.clock);
    }
    forall i | w.lost <= i < |w.log| ensures Accounts(m[h := d'], w.log[i]) {
      assert Accounts(m, w.log[i]);
    }
  }

  lemma SaveKeepsInv(w: World, h: PaymentHash, d': SwapData, write: StoreWrite)
    requires Inv(w) && h in w.host.swaps && Tightens(w.host.swaps[h], d', w.clock)
    ensures Inv(w.(host := Save(w.host, h, d', write)))
  {
    TightenedEntry(w, w.host.swaps, h, d');
    var v := w.(host := Save(w.host, h, d', write));
    assert SwapsOk(v, v.host.swaps);
    assert SwapsOk(v, w.host.disk);
  }

  lemma ClosingTightens(d: SwapData, status: Status, now: u64)
    requires EntryOk(d, now) && !status.Waiting? && !status.Pending?
    ensures Tightens(d, Closed(d, status, now), now)
  {
  }

  /** Because an authorisation lasts no longer than the pending timeout, a payment that still meets the
      expiry finds its reservation alive: handling it again revives nothing. */
  lemma PendingTightens(d: SwapData, id: InterceptId, now: u64)
    requires EntryOk(d, now) && Forwardable(d, id) && now <= d.info.expiry
    ensures Tightens(d, PendingOn(d, id, now), now)
  {
  }

  // ----- steps

  lemma FreshEntry(w: World, a: Authorization)
    requires Inv(w) && Refusal(w.host, a).None? && a.now == w.clock
    ensures SwapsOk(AfterAuthorize(w, a), w.host.swaps[a.hash := AuthorizedSwap(a)])
  {
    var v, m, d := AfterAuthorize(w, a), w.host.swaps, AuthorizedSwap(a);
    forall c ensures Reserved(m[a.hash := d], c, w.clock) <= SeenOf(v, c) {
      ReservedPut(m, a.hash, d, c, w.clock);
      assert Reserved(m, c, w.clock) <= SeenOf(w, c);
    }
    forall i | w.lost <= i < |w.log| ensures Accounts(m[a.hash := d], w.log[i]) {
      assert Accounts(m, w.log[i]);
    }
  }

  lemma SeenGrows(w: World, v: World, m: Swaps)
    requires SwapsOk(w, m) && v.clock == w.clock && v.log == w.log && v.lost == w.lost
    requires forall c :: SeenOf(w, c) <= SeenOf(v, c)
    ensures SwapsOk(v, m)
  {
    forall c ensures Reserved(m, c, v.clock) <= SeenOf(v, c) {
      assert Reserved(m, c, w.clock) <= SeenOf(w, c);
    }
  }

  lemma AuthorizeKeepsInv(w: World, a: Authorization)
    requires Inv(w) && a.now == w.clock
    ensures Inv(AfterAuthorize(w, a))
  {
    if Refusal(w.host, a).None? {
      var v := AfterAuthorize(w, a);
      FreshEntry(w, a);
      SeenGrows(w, v, w.host.swaps);
      SeenGrows(w, v, w.host.disk);
    }
  }

  lemma CloseKeepsInv(w: World, h: PaymentHash, status: Status, write: StoreWrite)
    requires Inv(w) && h in w.host.swaps && !status.Waiting? && !status.Pending?
    ensures Inv(w.(host := Save(w.host, h, Closed(w.host.swaps[h], status, w.clock), write)))
  {
    ClosingTightens(w.host.swaps[h], status, w.clock);
    SaveKeepsInv(w, h, Closed(w.host.swaps[h], status, w.clock), write);
  }

  /** Handing a payment on adds it to the log: its entry is pending on it, in memory and in the store. */
  lemma ForwardKeepsInv(w: World, e: Interception)
    requires Inv(w) && Judge(w.host, e).Forwarding? && e.now == w.clock && e.write.Stored?
    ensures var d := PendingOn(w.host.swaps[e.htlc.hash], e.htlc.interceptId, e.now);
            Inv(w.(host := Save(w.host, e.htlc.hash, d, e.write), log := w.log + [ForwardOf(w.host, e)]))
  {
    var h, d0 := e.htlc.hash, w.host.swaps[e.htlc.hash];
    var d := PendingOn(d0, e.htlc.interceptId, e.now);
    var f := ForwardOf(w.host, e);
    PendingTightens(d0, e.htlc.interceptId, e.now);
    SaveKeepsInv(w, h, d, e.write);
    var u := w.(host := Save(w.host, h, d, e.write));
    var v := u.(log := w.log + [f]);
    assert u.host.disk == u.host.swaps;
    assert Accounts(u.host.swaps, f);
    assert OneToOne(f) && Authorised(f);
    forall i | w.lost <= i < |v.log| ensures Accounts(u.host.swaps, v.log[i]) {
      if i < |w.log| { assert Accounts(u.host.swaps, w.log[i]); }
    }
    assert SwapsOk(v, u.host.swaps);
    SameHashSameIntercept(w, f);
  }

  lemma SameHashSameIntercept(w: World, f: Forward)
    requires Inv(w) && f.htlc.hash in w.host.swaps
    requires Forwardable(w.host.swaps[f.htlc.hash], f.htlc.interceptId)
    ensures OneInterceptSince(w.log + [f], w.lost)
  {
    forall i | w.lost <= i < |w.log| && w.log[i].htlc.hash == f.htlc.hash
      ensures w.log[i].htlc.interceptId == f.htlc.interceptId
    {
      assert Accounts(w.host.swaps, w.log[i]);
    }
  }

  lemma InterceptKeepsInv(w: World, e: Interception)
    requires Inv(w) && e.now == w.clock
    ensures Inv(AfterIntercept(w, e))
  {
    var h := e.htlc.hash;
    match Judge(w.host, e)
    case Ignored =>
    case Closing(status) => CloseKeepsInv(w, h, status, e.write);
    case Forwarding =>
      var d := PendingOn(w.host.swaps[h], e.htlc.interceptId, e.now);
      if e.write.Errored? {
        PendingTightens(w.host.swaps[h], e.htlc.interceptId, e.now);
        SaveKeepsInv(w, h, d, e.write);
      } else {
        ForwardKeepsInv(w, e);
        var u := w.(host := Save(w.host, h, d, e.write), log := w.log + [ForwardOf(w.host, e)]);
        if !e.forwards { CloseKeepsInv(u, h, Failed, e.rewrite); }
      }
  }

  lemma ListKeepsInv(w: World, h: PaymentHash, write: StoreWrite)
    requires Inv(w)
    ensures Inv(w.(host := Listed(w.host, h, w.clock, write)))
  {
    if h in w.host.swaps {
      CloseKeepsInv(w, h, Expired, write);
      CloseKeepsInv(w, h, Failed, write);
    }
  }

  lemma SettleKeepsInv(w: World, i: nat, prev: nat, next: nat, errNext: bool, errPrev: bool, write: StoreWrite)
    requires Inv(w) && i < |w.log|
    ensures Inv(AfterSettle(w, i, prev, next, errNext, errPrev, w.clock, write))
  {
    var h := w.log[i].htlc.hash;
    if h in w.host.swaps { CloseKeepsInv(w, h, Succeeded, write); }
  }

  lemma StepKeepsInv(w: World, step: Step)
    requires Inv(w) && Enabled(w, step)
    ensures Inv(Next(w, step))
  {
    var v := w.(clock := TimeOf(step));
    TimePasses(w, w.host.swaps, v.clock);
    TimePasses(w, w.host.disk, v.clock);
    assert Inv(v);
    match step
    case Authorizes(a) => AuthorizeKeepsInv(v, a);
    case Intercepts(e) => InterceptKeepsInv(v, e);
    case Lists(h, _, write) => ListKeepsInv(v, h, write);
    case Settles(i, prev, next, errNext, errPrev, _, write) =>
      SettleKeepsInv(v, i, prev, next, errNext, errPrev, write);
    case Restarts(_, _) => forall c { NothingReserved(c, v.clock); }
  }

  lemma NothingReserved(c: Contract, now: u64)
    ensures Reserved(map[], c, now) == 0
  {
    assert Reservations(map[], c, now) == map[];
  }

  // ----- runs

  function Start(clock: u64, channels: map<nat, int>): World {
    World(Host(map[], map[]), clock, map[], [], 0, channels)
  }

  ghost predicate IsRun(worlds: seq<World>, steps: seq<Step>) {
    && |worlds| == |steps| + 1
    && worlds[0] == Start(worlds[0].clock, worlds[0].channels)
    && (forall i :: 0 <= i < |steps| ==> Enabled(worlds[i], steps[i]) && worlds[i + 1] == Next(worlds[i], steps[i]))
  }

  lemma {:induction false} RunKeepsInv(worlds: seq<World>, steps: seq<Step>, i: nat)
    requires IsRun(worlds, steps) && i < |worlds|
    ensures Inv(worlds[i])
  {
    if i > 0 {
      RunKeepsInv(worlds, steps, i - 1);
      StepKeepsInv(worlds[i - 1], steps[i - 1]);
    } else {
      forall c { NothingReserved(c, worlds[0].clock); }
    }
  }

  /** In every reachable state, and for every contract, what is reserved in memory, summed exactly, is at
      most the largest balance seen by an authorisation that was not refused; and so is what a restart would
      bring back. */
  lemma ReservedWithinBalance(worlds: seq<World>, steps: seq<Step>, i: nat, c: Contract)
    requires IsRun(worlds, steps) && i < |worlds|
    ensures Reserved(worlds[i].host.swaps, c, worlds[i].clock) <= SeenOf(worlds[i], c)
    ensures Reserved(worlds[i].host.disk, c, worlds[i].clock) <= SeenOf(worlds[i], c)
  {
    RunKeepsInv(worlds, steps, i);
  }

  /** The step is a restart that loses the map of swaps. */
  predicate Loses(step: Step) { step.Restarts? && !step.decodes }

  lemma {:induction false} LostAtALoss(worlds: seq<World>, steps: seq<Step>, n: nat)
    requires IsRun(worlds, steps) && n < |worlds|
    ensures worlds[n].lost == 0 || exists m :: 0 <= m < n && Loses(steps[m]) && |worlds[m].log| == worlds[n].lost
  {
    if n > 0 {
      LostAtALoss(worlds, steps, n - 1);
      assert Enabled(worlds[n - 1], steps[n - 1]) && worlds[n] == Next(worlds[n - 1], steps[n - 1]);
      if Loses(steps[n - 1]) { assert |worlds[n - 1].log| == worlds[n].lost; }
    }
  }

  /** Some restart lost the map after payment `i` was handed on and before payment `j` was. */
  ghost predicate LostBetween(worlds: seq<World>, steps: seq<Step>, n: nat, i: nat, j: nat)
    requires n <= |steps| && n <= |worlds|
  {
    exists m :: 0 <= m < n && Loses(steps[m]) && i < |worlds[m].log| <= j
  }

  lemma LogGrows(w: World, step: Step)
    requires Enabled(w, step)
    ensures w.log <= Next(w, step).log && |Next(w, step).log| <= |w.log| + 1
    ensures Next(w, step).log != w.log ==> Next(w, step).lost == w.lost
  {
  }

  /** Over every run: every payment handed on came from the authorised peer, keeps its msat amount, and brings
      in as much of one asset as it takes out of the other; and since the map was last lost, its entry is still
      there, pending on it or closed. */
  lemma HandedOnAsAuthorised(worlds: seq<World>, steps: seq<Step>, n: nat)
    requires IsRun(worlds, steps) && n < |worlds|
    ensures forall f <- worlds[n].log :: OneToOne(f) && Authorised(f)
    ensures forall i :: worlds[n].lost <= i < |worlds[n].log| ==> Accounts(worlds[n].host.swaps, worlds[n].log[i])
  {
    RunKeepsInv(worlds, steps, n);
  }

  /** Over every run: two payments that were handed on for one payment hash have the same intercept id, or a
      restart lost the map of swaps between them. */
  lemma {:induction false} OneRedemptionForEachHash(worlds: seq<World>, steps: seq<Step>, n: nat, i: nat, j: nat)
    requires IsRun(worlds, steps) && n < |worlds| && i < j < |worlds[n].log|
    requires worlds[n].log[i].htlc.hash == worlds[n].log[j].htlc.hash
    ensures || worlds[n].log[i].htlc.interceptId == worlds[n].log[j].htlc.interceptId
            || LostBetween(worlds, steps, n, i, j)
  {
    RunKeepsInv(worlds, steps, n);
    assert n > 0 && Enabled(worlds[n - 1], steps[n - 1]) && worlds[n] == Next(worlds[n - 1], steps[n - 1]);
    LogGrows(worlds[n - 1], steps[n - 1]);
    if j < |worlds[n - 1].log| {
      OneRedemptionForEachHash(worlds, steps, n - 1, i, j);
    } else if i < worlds[n].lost {
      RunKeepsInv(worlds, steps, n - 1);
      LostAtALoss(worlds, steps, n);
      var m :| 0 <= m < n && Loses(steps[m]) && |worlds[m].log| == worlds[n].lost;
      assert i < |worlds[m].log| <= j;
    }
  }

  // ----- reservations that have run out

  /** The entry is there and reserves nothing of the contract. */
  ghost predicate Out(m: Swaps, h: PaymentHash, c: Contract, now: u64) { h in m && !Reserves(m[h], c, now) }

  ghost predicate Live(m: Swaps, h: PaymentHash, c: Contract, now: u64) { h in m && Reserves(m[h], c, now) }

  /** Neither in memory nor, after this step, newly in the store. */
  ghost predicate StaysDead(s: Host, s': Host, h: PaymentHash, c: Contract, now: u64) {
    && !Live(s'.swaps, h, c, now) && (s'.disk == s.disk || !Live(s'.disk, h, c, now))
    && s.swaps.Keys <= s'.swaps.Keys
  }

  /** An authorisation that is not refused makes a new entry, in memory if it is written. */
  ghost predicate Anew(w: World, step: Step, h: PaymentHash) {
    step.Authorizes? && step.a.hash == h && Refusal(w.host, step.a).None?
  }

  lemma DeadAfterAuthorize(s: Host, a: Authorization, h: PaymentHash, c: Contract)
    requires !Live(s.swaps, h, c, a.now) && (a.hash != h || Refusal(s, a).Some?)
    ensures StaysDead(s, Authorize(s, a).0, h, c, a.now)
  {
  }

  lemma DeadAfterIntercept(w: World, e: Interception, h: PaymentHash, c: Contract)
    requires Inv(w) && e.now == w.clock && !Live(w.host.swaps, h, c, e.now)
    ensures StaysDead(w.host, Intercept(w.host, e).0, h, c, e.now)
  {
    if e.htlc.hash == h && Judge(w.host, e).Forwarding? {
      PendingTightens(w.host.swaps[h], e.htlc.interceptId, e.now);
    }
  }

  lemma DeadStays(w: World, step: Step, h: PaymentHash, c: Contract)
    requires Inv(w) && Enabled(w, step) && !step.Restarts? && !Live(w.host.swaps, h, c, w.clock)
    requires !Anew(w.(clock := TimeOf(step)), step, h)
    ensures StaysDead(w.host, Next(w, step).host, h, c, TimeOf(step))
  {
    var v := w.(clock := TimeOf(step));
    TimePasses(w, w.host.swaps, v.clock);
    TimePasses(w, w.host.disk, v.clock);
    assert Inv(v) && !Live(v.host.swaps, h, c, v.clock);
    match step
    case Authorizes(a) => DeadAfterAuthorize(v.host, a, h, c);
    case Intercepts(e) => DeadAfterIntercept(v, e, h, c);
    case _ =>
  }

  lemma ClockOfNext(w: World, step: Step)
    requires Enabled(w, step)
    ensures Next(w, step).clock == TimeOf(step)
  {
  }

  // ----- the stored copy of an entry

  /** Whatever the one reserves, at any time, the other does too. */
  ghost predicate Covers(d: SwapData, stored: SwapData) {
    forall c: Contract, t: u64 :: Reserves(stored, c, t) ==> Reserves(d, c, t)
  }

  /** Every entry in memory has a stored copy, which reserves no more than it while it is not closed. */
  ghost predicate Behind(s: Host) {
    forall h :: h in s.swaps ==> h in s.disk && (!Done(s.swaps[h]) ==> Covers(s.swaps[h], s.disk[h]))
  }

  lemma SaveBehind(s: Host, h: PaymentHash, d: SwapData, write: StoreWrite)
    requires Behind(s) && h in s.swaps
    requires !Done(d) ==> !Done(s.swaps[h]) && Covers(d, s.swaps[h])
    ensures Behind(Save(s, h, d, write))
  {
  }

  /** The arithmetic of `PendingTightens`, for every later time. */
  lemma PendingCovers(d: SwapData, id: InterceptId, now: u64)
    requires EntryOk(d, now) && Forwardable(d, id)
    ensures Covers(PendingOn(d, id, now), d)
  {
  }

  lemma InterceptBehind(w: World, e: Interception)
    requires Inv(w) && Behind(w.host) && e.now == w.clock
    ensures Behind(Intercept(w.host, e).0)
  {
    var h := e.htlc.hash;
    match Judge(w.host, e)
    case Ignored =>
    case Closing(status) => SaveBehind(w.host, h, Closed(w.host.swaps[h], status, e.now), e.write);
    case Forwarding =>
      var d := PendingOn(w.host.swaps[h], e.htlc.interceptId, e.now);
      PendingCovers(w.host.swaps[h], e.htlc.interceptId, e.now);
      SaveBehind(w.host, h, d, e.write);
      SaveBehind(Save(w.host, h, d, e.write), h, Closed(d, Failed, e.now), e.rewrite);
  }

  lemma AuthorizeBehind(s: Host, a: Authorization)
    requires Behind(s)
    ensures Behind(Authorize(s, a).0)
  {
  }

  lemma StepBehind(w: World, step: Step)
    requires Inv(w) && Behind(w.host) && Enabled(w, step)
    ensures Behind(Next(w, step).host)
  {
    var v := w.(clock := TimeOf(step));
    TimePasses(w, w.host.swaps, v.clock);
    TimePasses(w, w.host.disk, v.clock);
    match step
    case Authorizes(a) => AuthorizeBehind(v.host, a);
    case Intercepts(e) => InterceptBehind(v, e);
    case Lists(h, now, write) =>
      if h in v.host.swaps {
        SaveBehind(v.host, h, Closed(v.host.swaps[h], Expired, now), write);
        SaveBehind(v.host, h, Closed(v.host.swaps[h], Failed, now), write);
      }
    case Settles(i, _, _, _, _, now, write) =>
      var h := v.log[i].htlc.hash;
      if h in v.host.swaps { SaveBehind(v.host, h, Closed(v.host.swaps[h], Succeeded, now), write); }
    case Restarts(_, _) =>
  }

  lemma {:induction false} RunBehind(worlds: seq<World>, steps: seq<Step>, i: nat)
    requires IsRun(worlds, steps) && i < |worlds|
    ensures Behind(worlds[i].host)
  {
    if i > 0 {
      RunBehind(worlds, steps, i - 1);
      RunKeepsInv(worlds, steps, i - 1);
      StepBehind(worlds[i - 1], steps[i - 1]);
    }
  }

  /** Not live in memory or in the store. */
  ghost predicate Dead(w: World, h: PaymentHash, c: Contract) {
    !Live(w.host.swaps, h, c, w.clock) && !Live(w.host.disk, h, c, w.clock)
  }

  lemma DeadInBothStays(w: World, step: Step, h: PaymentHash, c: Contract)
    requires Inv(w) && Enabled(w, step) && Dead(w, h, c) && !Anew(w, step, h)
    ensures Dead(Next(w, step), h, c)
  {
    ClockOfNext(w, step);
    if !step.Restarts? { DeadStays(w, step, h, c); }
  }

  lemma {:induction false} DeadOverRun(
    worlds: seq<World>, steps: seq<Step>, i: nat, j: nat, h: PaymentHash, c: Contract)
    requires IsRun(worlds, steps) && i <= j < |worlds| && Dead(worlds[i], h, c)
    requires forall m :: i <= m < j ==> !Anew(worlds[m], steps[m], h)
    ensures Dead(worlds[j], h, c)
  {
    if i < j {
      DeadOverRun(worlds, steps, i, j - 1, h, c);
      RunKeepsInv(worlds, steps, j - 1);
      DeadInBothStays(worlds[j - 1], steps[j - 1], h, c);
    }
  }

  lemma EntryStaysInMemory(w: World, step: Step, h: PaymentHash)
    requires Behind(w.host) && Enabled(w, step) && !Loses(step) && h in w.host.swaps
    ensures h in Next(w, step).host.swaps
  {
  }

  /** While no restart loses the map, an entry stays in memory, and its hash is not authorised anew. */
  lemma {:induction false} NotAnewUnlessLost(worlds: seq<World>, steps: seq<Step>, i: nat, j: nat, h: PaymentHash)
    requires IsRun(worlds, steps) && i <= j < |worlds| && h in worlds[i].host.swaps
    requires forall m :: i <= m < j ==> !Loses(steps[m])
    ensures h in worlds[j].host.swaps && (j < |steps| ==> !Anew(worlds[j], steps[j], h))
  {
    if i < j {
      NotAnewUnlessLost(worlds, steps, i, j - 1, h);
      RunBehind(worlds, steps, j - 1);
      EntryStaysInMemory(worlds[j - 1], steps[j - 1], h);
    }
  }

  /** Over every run: a reservation that has timed out in memory is never live again, whatever is replayed,
      whichever writes fail and however often the node restarts, unless its hash is authorised anew; and that
      takes a restart that loses the map. */
  lemma TimedOutStaysOut(worlds: seq<World>, steps: seq<Step>, i: nat, j: nat, h: PaymentHash, c: Contract)
    requires IsRun(worlds, steps) && i <= j < |worlds|
    requires Out(worlds[i].host.swaps, h, c, worlds[i].clock) && !Done(worlds[i].host.swaps[h])
    ensures (forall m :: i <= m < j ==> !Anew(worlds[m], steps[m], h)) ==>
      !Live(worlds[j].host.swaps, h, c, worlds[j].clock)
    ensures (forall m :: i <= m < j ==> !Loses(steps[m])) ==> Out(worlds[j].host.swaps, h, c, worlds[j].clock)
  {
    RunBehind(worlds, steps, i);
    if forall m :: i <= m < j ==> !Loses(steps[m]) {
      forall m | i <= m < j ensures !Anew(worlds[m], steps[m], h) { NotAnewUnlessLost(worlds, steps, i, m, h); }
      NotAnewUnlessLost(worlds, steps, i, j, h);
    }
    if forall m :: i <= m < j ==> !Anew(worlds[m], steps[m], h) { DeadOverRun(worlds, steps, i, j, h, c); }
  }

  /** A restart brings back a live stored copy: of an entry that was closed in memory and closing it was not
      written, or of one that had been lost or never been granted. */
  ghost predicate Revives(w: World, step: Step, h: PaymentHash, c: Contract) {
    step.Restarts? && step.decodes && Live(w.host.disk, h, c, TimeOf(step))
  }

  /** The hash is granted anew, for this contract. */
  ghost predicate Grants(w: World, step: Step, h: PaymentHash, c: Contract) {
    Anew(w, step, h) && step.a.write.Stored? && step.a.asset == c
  }

  lemma NothingRevivedWhileOpen(w: World, step: Step, h: PaymentHash, c: Contract)
    requires Behind(w.host) && Enabled(w, step) && Out(w.host.swaps, h, c, w.clock) && !Done(w.host.swaps[h])
    ensures !Revives(w, step, h, c)
  {
  }

  lemma GrantIsLive(w: World, step: Step, h: PaymentHash, c: Contract)
    requires Enabled(w, step) && Anew(w, step, h) && !Live(w.host.swaps, h, c, w.clock)
    ensures Live(Next(w, step).host.swaps, h, c, TimeOf(step)) <==> Grants(w, step, h, c)
  {
  }

  /** What reserves nothing does so after a step as well, exactly unless the step revives it or grants it
      anew. */
  lemma DeadUnlessRevived(w: World, step: Step, h: PaymentHash, c: Contract)
    requires Inv(w) && Enabled(w, step) && !Live(w.host.swaps, h, c, w.clock)
    ensures Live(Next(w, step).host.swaps, h, c, TimeOf(step)) <==> Revives(w, step, h, c) || Grants(w, step, h, c)
  {
    if Anew(w, step, h) {
      GrantIsLive(w, step, h, c);
    } else if !step.Restarts? {
      DeadStays(w, step, h, c);
    }
  }

  /** Over every run: what reserves nothing, timed out, closed or lost, is live again only after a restart that
      revived it or an authorisation that granted it anew. */
  lemma {:induction false} DeadUntilRevived(
    worlds: seq<World>, steps: seq<Step>, i: nat, j: nat, h: PaymentHash, c: Contract)
    requires IsRun(worlds, steps) && i <= j < |worlds|
    requires !Live(worlds[i].host.swaps, h, c, worlds[i].clock)
    requires forall m :: i <= m < j ==> !Revives(worlds[m], steps[m], h, c) && !Grants(worlds[m], steps[m], h, c)
    ensures !Live(worlds[j].host.swaps, h, c, worlds[j].clock)
  {
    if i < j {
      DeadUntilRevived(worlds, steps, i, j - 1, h, c);
      RunKeepsInv(worlds, steps, j - 1);
      DeadUnlessRevived(worlds[j - 1], steps[j - 1], h, c);
      ClockOfNext(worlds[j - 1], steps[j - 1]);
    }
  }

  /** A restart that revives a swap exists: it is closed because the payment does not match it, the write fails,
      and the node restarts. */
  lemma ClosedSwapRevived()
    ensures var a := Authorization(1, 2, 3, 4, 5, 60, true, 5, 0, Stored);
            var p := Htlc(true, 2, 7, 0, 0, None, None);
            var e := Interception(p, Some((1, None)), Some(None), 0, Errored(false), true, Stored);
            var w := Next(Start(0, map[]), Authorizes(a));
            && Enabled(w, Intercepts(e))
            && var closed := Next(w, Intercepts(e));
               Out(closed.host.swaps, 2, 3, 0) && Revives(closed, Restarts(0, true), 2, 3)
  {
    NothingReserved(3, 0);
  }

  // ----- holdings

  predicate NextUpdated(channels: map<nat, int>, next: nat, errNext: bool) { !errNext && next in channels }

  predicate PrevUpdated(channels: map<nat, int>, prev: nat, errNext: bool, errPrev: bool) {
    !errNext && !errPrev && prev in channels
  }

  lemma UpdatesMove(channels: map<nat, int>, p: Htlc, prev: nat, next: nat, errNext: bool, errPrev: bool)
    ensures AfterUpdates(channels, p, prev, next, errNext, errPrev).Keys == channels.Keys
    ensures Total(AfterUpdates(channels, p, prev, next, errNext, errPrev)) ==
      Total(channels)
      + (if PrevUpdated(channels, prev, errNext, errPrev) then InAmount(p) else 0)
      - (if NextUpdated(channels, next, errNext) then OutAmount(p) else 0)
  {
    AddMoves(channels, next, -OutAmount(p));
    AddMoves(Add(channels, next, -OutAmount(p)), prev, InAmount(p));
  }

  lemma AddMoves(channels: map<nat, int>, c: nat, amount: int)
    ensures Add(channels, c, amount).Keys == channels.Keys
    ensures Total(Add(channels, c, amount)) == Total(channels) + if c in channels then amount else 0
  {
    if c in channels {
      var v := channels[c] + amount;
      TotalPut(channels, c, v);
      assert Add(channels, c, amount) == channels[c := v];
    } else {
      assert Add(channels, c, amount) == channels;
    }
  }

  /** Each channel on its own: the next one loses the outgoing amount, if that update is made, the previous
      one gains the incoming amount, if that update is made, and no other changes. Where they are one channel
      both apply. */
  lemma UpdatesAt(channels: map<nat, int>, p: Htlc, prev: nat, next: nat, errNext: bool, errPrev: bool, c: nat)
    requires c in channels
    ensures c in AfterUpdates(channels, p, prev, next, errNext, errPrev)
    ensures AfterUpdates(channels, p, prev, next, errNext, errPrev)[c] ==
      channels[c]
      - (if c == next && !errNext && p.outRgb.Some? then p.outRgb.value.1 else 0)
      + (if c == prev && !errNext && !errPrev && p.inRgb.Some? then p.inRgb.value else 0)
  {
  }

  /** What a step puts into a channel, less what it takes out of it. */
  function Change(w: World, step: Step, c: nat): int {
    if !step.Settles? || step.i >= |w.log| || step.errNext then 0
    else
      var p := w.log[step.i].htlc;
      (if c == step.prev && !step.errPrev && p.inRgb.Some? then p.inRgb.value else 0)
      - (if c == step.next && p.outRgb.Some? then p.outRgb.value.1 else 0)
  }

  function Changes(worlds: seq<World>, steps: seq<Step>, n: nat, c: nat): int
    requires n <= |steps| && n <= |worlds|
  {
    if n == 0 then 0 else Changes(worlds, steps, n - 1, c) + Change(worlds[n - 1], steps[n - 1], c)
  }

  lemma StepChanges(w: World, step: Step, c: nat)
    requires Enabled(w, step)
    ensures c in Next(w, step).channels <==> c in w.channels
    ensures c in w.channels ==> Next(w, step).channels[c] == w.channels[c] + Change(w, step, c)
  {
    if step.Settles? && c in w.channels {
      UpdatesAt(w.channels, w.log[step.i].htlc, step.prev, step.next, step.errNext, step.errPrev, c);
    }
  }

  /** Over every run: each channel holds what it held at the start and what the settlements put into it, less
      what they took out of it. */
  lemma {:induction false} ChannelAccounted(worlds: seq<World>, steps: seq<Step>, n: nat, c: nat)
    requires IsRun(worlds, steps) && n < |worlds|
    ensures c in worlds[n].channels <==> c in worlds[0].channels
    ensures c in worlds[0].channels ==> worlds[n].channels[c] == worlds[0].channels[c] + Changes(worlds, steps, n, c)
  {
    if n > 0 {
      ChannelAccounted(worlds, steps, n - 1, c);
      StepChanges(worlds[n - 1], steps[n - 1], c);
    }
  }

  /** The node's holdings, over all channels, stay the same exactly when both of the two updates are made
      or neither is, or the payment is for nothing. */
  lemma SettlingConserves(channels: map<nat, int>, f: Forward, prev: nat, next: nat, errNext: bool, errPrev: bool)
    requires OneToOne(f)
    ensures Total(AfterUpdates(channels, f.htlc, prev, next, errNext, errPrev)) == Total(channels) <==>
            || (NextUpdated(channels, next, errNext) <==> PrevUpdated(channels, prev, errNext, errPrev))
            || InAmount(f.htlc) == 0
  {
    UpdatesMove(channels, f.htlc, prev, next, errNext, errPrev);
  }

  /** If the store fails between the two updates, the replayed event takes the amount out a second time. */
  lemma ReplayAfterErrorLoses(channels: map<nat, int>, f: Forward, prev: nat, next: nat)
    requires OneToOne(f) && prev in channels && next in channels
    ensures var stopped := AfterUpdates(channels, f.htlc, prev, next, false, true);
            Total(AfterUpdates(stopped, f.htlc, prev, next, false, false)) == Total(channels) - InAmount(f.htlc)
  {
    UpdatesMove(channels, f.htlc, prev, next, false, true);
    UpdatesMove(AfterUpdates(channels, f.htlc, prev, next, false, true), f.htlc, prev, next, false, false);
  }

  /** What a step brings into the channels, less what it takes out of them. */
  function Gain(w: World, step: Step): int {
    if !step.Settles? || step.i >= |w.log| then 0
    else
      var p := w.log[step.i].htlc;
      (if PrevUpdated(w.channels, step.prev, step.errNext, step.errPrev) then InAmount(p) else 0)
      - (if NextUpdated(w.channels, step.next, step.errNext) then OutAmount(p) else 0)
  }

  function Gains(worlds: seq<World>, steps: seq<Step>, i: nat): int
    requires i <= |steps| && i <= |worlds|
  {
    if i == 0 then 0 else Gains(worlds, steps, i - 1) + Gain(worlds[i - 1], steps[i - 1])
  }

  lemma StepGains(w: World, step: Step)
    requires Enabled(w, step)
    ensures Total(Next(w, step).channels) == Total(w.channels) + Gain(w, step)
  {
    if step.Settles? {
      UpdatesMove(w.channels, w.log[step.i].htlc, step.prev, step.next, step.errNext, step.errPrev);
    }
  }

  /** Over every run, replays and failed updates included, the holdings over all channels change by exactly
      what the settlements brought in less what they took out. */
  lemma {:induction false} HoldingsAccounted(worlds: seq<World>, steps: seq<Step>, i: nat)
    requires IsRun(worlds, steps) && i < |worlds|
    ensures Total(worlds[i].channels) == Total(worlds[0].channels) + Gains(worlds, steps, i)
  {
    if i > 0 {
      HoldingsAccounted(worlds, steps, i - 1);
      StepGains(worlds[i - 1], steps[i - 1]);
    }
  }

  /** A settlement makes both updates or neither. */
  predicate Even(w: World, step: Step) {
    step.Settles? ==>
      (NextUpdated(w.channels, step.next, step.errNext) <==>
        PrevUpdated(w.channels, step.prev, step.errNext, step.errPrev))
  }

  /** A settlement of a reachable state gains nothing exactly when it makes both updates or neither, or is
      for nothing. */
  lemma GainsNothing(worlds: seq<World>, steps: seq<Step>, i: nat)
    requires IsRun(worlds, steps) && i < |steps|
    ensures Gain(worlds[i], steps[i]) == 0 <==>
            Even(worlds[i], steps[i]) || InAmount(worlds[i].log[steps[i].i].htlc) == 0
  {
    RunKeepsInv(worlds, steps, i);
    assert Enabled(worlds[i], steps[i]);
    if steps[i].Settles? { assert OneToOne(worlds[i].log[steps[i].i]); }
  }

  /** So over every run in which each settlement makes both updates or neither the holdings stay what they
      were. */
  lemma {:induction false} HoldingsConserved(worlds: seq<World>, steps: seq<Step>, i: nat)
    requires IsRun(worlds, steps) && i < |worlds|
    requires forall j :: 0 <= j < i ==> Even(worlds[j], steps[j])
    ensures Total(worlds[i].channels) == Total(worlds[0].channels)
  {
    if i > 0 {
      HoldingsConserved(worlds, steps, i - 1);
      GainsNothing(worlds, steps, i - 1);
      StepGains(worlds[i - 1], steps[i - 1]);
    }
  }
}
