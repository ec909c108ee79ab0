/** What a swap is handed on for, stated on the request, the payment and its two channels alone. */
module SwapTerms {
  import opened Wrappers
  import opened Text
  import opened SwapString
  import opened SwapHost
  import opened SwapRuns

  // ----- one intercepted payment

  /** The payment brings in what is swapped to and takes out what is swapped from, each in its own channel.
      Where one side is bitcoin it is the difference between the amounts; two assets leave no difference. */
  predicate Meets(info: SwapInfo<Contract>, p: Htlc, inContract: Option<Contract>, outContract: Option<Contract>) {
    && (info.fromAsset.Some? ==>
          outContract == info.fromAsset && p.outRgb == Some((info.fromAsset.value, info.qtyFrom)))
    && ((info.fromAsset.None? || info.toAsset.Some?) ==> inContract == info.toAsset && p.inRgb == Some(info.qtyTo))
    && (info.fromAsset.None? ==> p.outMsat == p.inMsat + info.qtyFrom)
    && (info.fromAsset.Some? && info.toAsset.None? ==>
          p.inMsat == p.outMsat + info.qtyTo || (p.inMsat < p.outMsat && info.qtyTo == 0))
    && (info.fromAsset.Some? && info.toAsset.Some? ==> p.inMsat == p.outMsat)
  }

  /** The payment is for an entry that is waiting, or pending on this very payment, and comes from its peer. */
  predicate TakenUp(s: Host, e: Interception) {
    && e.htlc.isSwap && e.inbound.Some? && e.outbound.Some? && e.htlc.hash in s.swaps
    && var d := s.swaps[e.htlc.hash];
       && (d.status == Waiting || (d.status == Pending && d.interceptId == Some(e.htlc.interceptId)))
       && (d.authorizedPeer == None || d.authorizedPeer == Some(e.inbound.value.0))
  }

  predicate InTimeOnTerms(s: Host, e: Interception)
    requires TakenUp(s, e)
  {
    var d := s.swaps[e.htlc.hash];
    e.now <= d.info.expiry && Meets(d.info, e.htlc, e.inbound.value.1, e.outbound.value)
  }

  /** Exactly the payments that are taken up, in time and on the terms of their entry are handed on, once the
      entry has been written; every other leaves no trace or closes the entry. */
  lemma HandedOnExactly(s: Host, e: Interception)
    ensures Intercept(s, e).1 <==> TakenUp(s, e) && InTimeOnTerms(s, e) && e.write == Stored
    ensures !TakenUp(s, e) ==> Intercept(s, e).0 == s
    ensures TakenUp(s, e) && !InTimeOnTerms(s, e) ==>
      var s', d := Intercept(s, e).0, s.swaps[e.htlc.hash];
      var status := if e.now > d.info.expiry then Expired else Failed;
      && s'.swaps == s.swaps[e.htlc.hash := d.(status := status, completedAt := Some(e.now), interceptId := None)]
      && (e.write == Stored ==> s'.disk == s'.swaps)
  {
  }

  /** While it is handed on the entry is pending on it, since now, in memory and in the store; if it turns out
      that it cannot be forwarded the entry is closed. */
  lemma PendingWhileHandedOn(s: Host, e: Interception)
    requires TakenUp(s, e) && InTimeOnTerms(s, e)
    ensures var s', d := Intercept(s, e).0, s.swaps[e.htlc.hash];
            var pending := d.(status := Pending, initiatedAt := Some(e.now), interceptId := Some(e.htlc.interceptId));
            var closed := pending.(status := Failed, completedAt := Some(e.now), interceptId := None);
            && s'.swaps == s.swaps[e.htlc.hash := if e.write == Stored && !e.forwards then closed else pending]
            && (e.write == Stored && (e.forwards || e.rewrite == Stored) ==> s'.disk == s'.swaps)
            && (e.write == Stored && e.rewrite == Errored(false) && !e.forwards ==>
                  s'.disk == s.swaps[e.htlc.hash := pending])
            && (e.write == Errored(false) ==> s'.disk == s.disk)
  {
  }

  // ----- an entry in time

  const DAY: nat := 86_400

  /** A waiting entry reserves what it gives up to and including its last second, a pending one for a day after
      it was taken up, and a closed one nothing. */
  lemma ReservedFor(d: SwapData, c: Contract, now: u64)
    ensures Reservation(d, c, now) ==
      if d.info.fromAsset != Some(c) then 0
      else if d.status == Waiting && now <= d.info.expiry then d.info.qtyFrom
      else if d.status == Pending && (d.initiatedAt == None || now - d.initiatedAt.value <= DAY) then d.info.qtyFrom
      else 0
  {
  }

  /** A listing closes exactly the entries that are past their time: as expired if they were waiting, as failed
      if they were pending. It leaves everything else. */
  lemma ListedExactly(s: Host, h: PaymentHash, now: u64, write: StoreWrite)
    ensures var expired := h in s.swaps && s.swaps[h].status == Waiting && s.swaps[h].info.expiry < now;
            var stuck := && h in s.swaps && s.swaps[h].status == Pending && s.swaps[h].initiatedAt.Some?
                         && now - s.swaps[h].initiatedAt.value > DAY;
            var s' := Listed(s, h, now, write);
            && (!expired && !stuck ==> s' == s)
            && (expired || stuck ==>
                  && s'.swaps == s.swaps[h := s.swaps[h].(
                       status := if expired then Expired else Failed, completedAt := Some(now), interceptId := None)]
                  && (write == Stored ==> s'.disk == s'.swaps)
                  && (write == Errored(false) ==> s'.disk == s.disk))
  {
  }

  /** A settlement whose updates are made leaves the entry of its payment closed as succeeded, if it is there;
      one that the store stops leaves every entry. */
  lemma SettledSucceeds(w: World, step: Step)
    requires Enabled(w, step) && step.Settles?
    ensures var s, s', h := w.host, Next(w, step).host, w.log[step.i].htlc.hash;
            && (step.errNext || step.errPrev || h !in s.swaps ==> s' == s)
            && (!step.errNext && !step.errPrev && h in s.swaps ==>
                  && s'.swaps == s.swaps[h := s.swaps[h].(
                       status := Succeeded, completedAt := Some(step.now), interceptId := None)]
                  && (step.write == Stored ==> s'.disk == s'.swaps))
  {
  }

  // ----- one request

  /** The last second at which the swap can be redeemed: as long as was asked for, but a day at most. */
  function LastSecond(a: Authorization): u64 {
    var asked := if a.expirySec < DAY then a.now + a.expirySec else a.now + DAY;
    if asked < TWO_64 then asked else TWO_64 - 1
  }

  /** Exactly the requests for a positive amount and time, between linked assets, for a hash that is not in use
      and an amount that is not reserved, are granted. */
  lemma GrantedExactly(s: Host, a: Authorization)
    ensures Authorize(s, a).1 == None <==>
            && a.amount > 0 && a.expirySec > 0 && a.linked && a.hash !in s.swaps
            && Reserved(s.swaps, a.asset, a.now) + a.amount <= a.maxBalance
            && a.write == Stored
    ensures Authorize(s, a).1 == None ==>
            var s' := Authorize(s, a).0;
            && s'.swaps.Keys == s.swaps.Keys + {a.hash} && s'.disk == s'.swaps
            && (forall h :: h in s.swaps ==> s'.swaps[h] == s.swaps[h])
            && s'.swaps[a.hash].status == Waiting && GrantOf(a, a.hash, s'.swaps[a.hash])
    ensures Authorize(s, a).1 != None ==> Authorize(s, a).0.swaps == s.swaps
  {
  }

  /** The error names the first thing that is wrong, in this order. */
  lemma RefusedFor(s: Host, a: Authorization)
    requires Authorize(s, a).1.Some?
    ensures var error := Authorize(s, a).1.value;
            && (error == InvalidAmount <==> a.amount == 0)
            && (error == InvalidExpiry <==> a.amount != 0 && a.expirySec == 0)
            && (error == UnknownLink <==> a.amount != 0 && a.expirySec != 0 && !a.linked)
            && (error == DuplicatePaymentHash <==> a.amount != 0 && a.expirySec != 0 && a.linked && a.hash in s.swaps)
            && (error == WriteFailed ==> a.write.Errored?)
            && (error == InsufficientLiquidity ==> Reserved(s.swaps, a.asset, a.now) + a.amount > a.maxBalance)
            && (error !in {InsufficientLiquidity, WriteFailed} ==> Authorize(s, a).0 == s)
  {
  }

  // ----- over runs

  /** The entry has the terms of this request. */
  predicate GrantOf(a: Authorization, h: PaymentHash, d: SwapData) {
    && a.hash == h && d.authorizedPeer == Some(a.peer)
    && d.info.fromAsset == Some(a.asset) && d.info.qtyFrom == a.amount
    && d.info.toAsset == Some(a.linkedAsset) && d.info.qtyTo == a.amount
    && d.info.expiry == LastSecond(a)
  }

  /** Step `m` is a request for these terms that the balance it found covered. */
  ghost predicate GrantedAt(worlds: seq<World>, steps: seq<Step>, m: nat, h: PaymentHash, d: SwapData)
    requires m < |worlds| && m < |steps|
  {
    && steps[m].Authorizes? && GrantOf(steps[m].a, h, d)
    && var a := steps[m].a;
       && a.amount > 0 && a.expirySec > 0 && a.linked && h !in worlds[m].host.swaps
       && Reserved(worlds[m].host.swaps, a.asset, a.now) + a.amount <= a.maxBalance
  }

  ghost predicate GrantedBefore(worlds: seq<World>, steps: seq<Step>, n: nat, h: PaymentHash, d: SwapData)
    requires n <= |worlds| && n <= |steps|
  {
    exists m :: 0 <= m < n && GrantedAt(worlds, steps, m, h, d)
  }

  predicate SameTerms(m: Swaps, h: PaymentHash, d: SwapData) {
    h in m && m[h].info == d.info && m[h].authorizedPeer == d.authorizedPeer
  }

  /** The entry was there before the step, in memory or in the store, or the step is the request for it. */
  ghost predicate Stems(w: World, step: Step, h: PaymentHash, d: SwapData) {
    || SameTerms(w.host.swaps, h, d) || SameTerms(w.host.disk, h, d)
    || (step.Authorizes? && GrantOf(step.a, h, d) && Refusal(w.host, step.a).None?)
  }

  lemma SavedStems(w: World, step: Step, s: Host, h: PaymentHash, d: SwapData, write: StoreWrite)
    requires SameTerms(w.host.swaps, h, d)
    requires forall k :: k in s.swaps ==> Stems(w, step, k, s.swaps[k])
    requires forall k :: k in s.disk ==> Stems(w, step, k, s.disk[k])
    ensures forall k :: k in Save(s, h, d, write).swaps ==> Stems(w, step, k, Save(s, h, d, write).swaps[k])
    ensures forall k :: k in Save(s, h, d, write).disk ==> Stems(w, step, k, Save(s, h, d, write).disk[k])
  {
  }

  lemma InterceptedStems(w: World, step: Step, e: Interception)
    ensures forall k :: k in Intercept(w.host, e).0.swaps ==> Stems(w, step, k, Intercept(w.host, e).0.swaps[k])
    ensures forall k :: k in Intercept(w.host, e).0.disk ==> Stems(w, step, k, Intercept(w.host, e).0.disk[k])
  {
    var h := e.htlc.hash;
    match Judge(w.host, e)
    case Ignored =>
    case Closing(status) => SavedStems(w, step, w.host, h, Closed(w.host.swaps[h], status, e.now), e.write);
    case Forwarding =>
      var d := PendingOn(w.host.swaps[h], e.htlc.interceptId, e.now);
      SavedStems(w, step, w.host, h, d, e.write);
      SavedStems(w, step, Save(w.host, h, d, e.write), h, Closed(d, Failed, e.now), e.rewrite);
  }

  lemma StepStems(w: World, step: Step)
    requires Enabled(w, step)
    ensures var s := Next(w, step).host;
            && (forall h :: h in s.swaps ==> Stems(w, step, h, s.swaps[h]))
            && (forall h :: h in s.disk ==> Stems(w, step, h, s.disk[h]))
  {
    match step
    case Authorizes(a) =>
    case Intercepts(e) => InterceptedStems(w, step, e);
    case Lists(h, now, write) =>
      if h in w.host.swaps {
        SavedStems(w, step, w.host, h, Closed(w.host.swaps[h], Expired, now), write);
        SavedStems(w, step, w.host, h, Closed(w.host.swaps[h], Failed, now), write);
      }
    case Settles(i, _, _, _, _, now, write) =>
      var h := w.log[i].htlc.hash;
      if h in w.host.swaps { SavedStems(w, step, w.host, h, Closed(w.host.swaps[h], Succeeded, now), write); }
    case Restarts(_, _) =>
  }

  ghost predicate AllGranted(worlds: seq<World>, steps: seq<Step>, n: nat, m: Swaps)
    requires n <= |worlds| && n <= |steps|
  {
    forall h :: h in m ==> GrantedBefore(worlds, steps, n, h, m[h])
  }

  lemma StemsGranted(worlds: seq<World>, steps: seq<Step>, n: nat, h: PaymentHash, d: SwapData)
    requires n < |worlds| && n < |steps| && Stems(worlds[n], steps[n], h, d)
    requires AllGranted(worlds, steps, n, worlds[n].host.swaps) && AllGranted(worlds, steps, n, worlds[n].host.disk)
    ensures GrantedBefore(worlds, steps, n + 1, h, d)
  {
    if SameTerms(worlds[n].host.swaps, h, d) {
      var m :| 0 <= m < n && GrantedAt(worlds, steps, m, h, worlds[n].host.swaps[h]);
      assert GrantedAt(worlds, steps, m, h, d);
    } else if SameTerms(worlds[n].host.disk, h, d) {
      var m :| 0 <= m < n && GrantedAt(worlds, steps, m, h, worlds[n].host.disk[h]);
      assert GrantedAt(worlds, steps, m, h, d);
    } else {
      assert GrantedAt(worlds, steps, n, h, d);
    }
  }

  /** Over every run: every entry, in memory or in the store, has the terms of an earlier request. */
  lemma {:induction false} EntriesWereGranted(worlds: seq<World>, steps: seq<Step>, n: nat)
    requires IsRun(worlds, steps) && n < |worlds|
    ensures AllGranted(worlds, steps, n, worlds[n].host.swaps)
    ensures AllGranted(worlds, steps, n, worlds[n].host.disk)
  {
    if n > 0 {
      EntriesWereGranted(worlds, steps, n - 1);
      assert Enabled(worlds[n - 1], steps[n - 1]) && worlds[n] == Next(worlds[n - 1], steps[n - 1]);
      StepStems(worlds[n - 1], steps[n - 1]);
      var s := worlds[n].host;
      forall h | h in s.swaps ensures GrantedBefore(worlds, steps, n, h, s.swaps[h]) {
        StemsGranted(worlds, steps, n - 1, h, s.swaps[h]);
      }
      forall h | h in s.disk ensures GrantedBefore(worlds, steps, n, h, s.disk[h]) {
        StemsGranted(worlds, steps, n - 1, h, s.disk[h]);
      }
    }
  }

  /** The payment redeems the request at step `m`, and was intercepted at step `k`, in time: from the peer that
      made the request, with the amount in the linked asset coming in and the same amount of the asset going
      out, and no difference in msat. */
  ghost predicate Redeems(worlds: seq<World>, steps: seq<Step>, m: nat, k: nat, f: Forward)
    requires m < k < |worlds| && k < |steps|
  {
    && GrantedAt(worlds, steps, m, f.htlc.hash, f.entry)
    && var a := steps[m].a;
       && f.peer == a.peer && f.htlc.hash == a.hash
       && f.inContract == Some(a.linkedAsset) && f.htlc.inRgb == Some(a.amount)
       && f.outContract == Some(a.asset) && f.htlc.outRgb == Some((a.asset, a.amount))
       && f.htlc.inMsat == f.htlc.outMsat
       && steps[k].Intercepts? && steps[k].e.htlc == f.htlc && steps[k].e.now <= LastSecond(a)
  }

  /** A step that adds to the log intercepts the payment it adds, in time, for the entry it finds. */
  lemma LoggedOnTime(w: World, step: Step)
    requires Enabled(w, step) && Next(w, step).log != w.log
    ensures step.Intercepts? && step.e.htlc.hash in w.host.swaps
    ensures var f := Next(w, step).log[|w.log|];
            && Next(w, step).log == w.log + [f] && f.htlc == step.e.htlc
            && f.entry == w.host.swaps[f.htlc.hash] && step.e.now <= f.entry.info.expiry
  {
  }

  /** Over every run: every payment handed on redeems an earlier request of the run. */
  lemma {:induction false} HandedOnForARequest(worlds: seq<World>, steps: seq<Step>, n: nat, i: nat)
    requires IsRun(worlds, steps) && n < |worlds| && i < |worlds[n].log|
    ensures exists m, k :: 0 <= m < k < n && Redeems(worlds, steps, m, k, worlds[n].log[i])
  {
    assert n > 0 && Enabled(worlds[n - 1], steps[n - 1]) && worlds[n] == Next(worlds[n - 1], steps[n - 1]);
    LogGrows(worlds[n - 1], steps[n - 1]);
    if i < |worlds[n - 1].log| {
      HandedOnForARequest(worlds, steps, n - 1, i);
    } else {
      var f := worlds[n].log[i];
      LoggedOnTime(worlds[n - 1], steps[n - 1]);
      EntriesWereGranted(worlds, steps, n - 1);
      RunKeepsInv(worlds, steps, n);
      assert OneToOne(f) && Authorised(f);
      var m :| 0 <= m < n - 1 && GrantedAt(worlds, steps, m, f.htlc.hash, f.entry);
      assert Redeems(worlds, steps, m, n - 1, f);
    }
  }
}
