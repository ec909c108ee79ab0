/** Redeeming a swap twice: it takes a lost map of swaps, and exactly when it can happen. */
module LostSwaps {
  import opened Wrappers
  import opened Text
  import opened MapTotal
  import opened SwapHost
  import opened SwapRuns

  // ----- it happens

  function Granted(): Authorization { Authorization(1, 2, 3, 4, 5, 60, true, 5, 0, Stored) }

  function Redeeming(id: InterceptId): Interception {
    Interception(
      Htlc(true, 2, id, 0, 0, Some(5), Some((3, 5))), Some((1, Some(4))), Some(Some(3)), 0, Stored, true, Stored)
  }

  /** With no entry for it, the hash is authorised and the payment handed on. */
  lemma AuthoriseAndRedeem(w: World, id: InterceptId)
    requires w.host.swaps == map[] && w.clock == 0
    ensures var v := Next(w, Authorizes(Granted()));
            && v.clock == 0
            && Next(v, Intercepts(Redeeming(id))).log ==
               w.log + [Forward(Redeeming(id).htlc, 1, Some(4), Some(3), AuthorizedSwap(Granted()))]
            && Next(v, Intercepts(Redeeming(id))).clock == 0
  {
    NothingReserved(3, 0);
    var v := Next(w, Authorizes(Granted()));
    assert v.host.swaps == map[2 := AuthorizedSwap(Granted())];
    assert Judge(v.host, Redeeming(id)).Forwarding?;
  }

  /** A hash is authorised and a payment handed on for it; the map is lost at a restart; the hash is authorised
      again, and a payment with another intercept id is handed on. */
  lemma LostMapRedeemsTwice() returns (worlds: seq<World>, steps: seq<Step>)
    ensures IsRun(worlds, steps)
    ensures var log := worlds[|steps|].log;
            |log| == 2 && log[0].htlc.hash == log[1].htlc.hash && log[0].htlc.interceptId != log[1].htlc.interceptId
  {
    steps := [Authorizes(Granted()), Intercepts(Redeeming(7)), Restarts(0, false),
              Authorizes(Granted()), Intercepts(Redeeming(8))];
    var w0 := Start(0, map[]);
    var w1 := Next(w0, steps[0]);
    AuthoriseAndRedeem(w0, 7);
    var w2 := Next(w1, steps[1]);
    var w3 := Next(w2, steps[2]);
    var w4 := Next(w3, steps[3]);
    AuthoriseAndRedeem(w3, 8);
    var w5 := Next(w4, steps[4]);
    worlds := [w0, w1, w2, w3, w4, w5];
  }

  // ----- exactly when it can

  /** The interception hands on a payment for this hash with another intercept id. */
  ghost predicate HandsOn(v: World, h: PaymentHash, id: InterceptId, e: Interception) {
    && Enabled(v, Intercepts(e)) && e.htlc.hash == h && e.htlc.interceptId != id
    && |Next(v, Intercepts(e)).log| == |v.log| + 1
  }

  /** So it does after an authorisation, granted or not. */
  ghost predicate RedeemsAgain(w: World, h: PaymentHash, id: InterceptId, a: Authorization, e: Interception) {
    Enabled(w, Authorizes(a)) && HandsOn(Next(w, Authorizes(a)), h, id, e)
  }

  /** The entry waits, or is pending on another intercept id, and has not expired. */
  predicate OpenTo(d: SwapData, id: InterceptId, now: u64) {
    && (d.status.Waiting? || (d.status.Pending? && d.interceptId.Some? && d.interceptId.value != id))
    && now <= d.info.expiry
  }

  lemma OpenIsHandedOn(v: World, h: PaymentHash, id: InterceptId) returns (e: Interception)
    requires h in v.host.swaps && EntryOk(v.host.swaps[h], v.clock) && OpenTo(v.host.swaps[h], id, v.clock)
    ensures HandsOn(v, h, id, e)
  {
    var d := v.host.swaps[h];
    var other := if d.status.Waiting? then id + 1 else d.interceptId.value;
    var p := Htlc(true, h, other, 0, 0, Some(d.info.qtyTo), Some((d.info.fromAsset.value, d.info.qtyFrom)));
    var inbound := Some((d.authorizedPeer.value, d.info.toAsset));
    e := Interception(p, inbound, Some(d.info.fromAsset), v.clock, Stored, true, Stored);
    assert Judge(v.host, e).Forwarding?;
  }

  lemma NothingReservedOf(m: Swaps, c: Contract, now: u64)
    requires forall h <- m.Keys :: m[h].info.fromAsset != Some(c)
    ensures Reserved(m, c, now) == 0
  {
    TotalZero(Reservations(m, c, now));
  }

  /** A hash with no entry can be authorised, for some contract. */
  lemma AbsentIsAuthorised(w: World, h: PaymentHash) returns (a: Authorization)
    requires h !in w.host.swaps
    ensures Enabled(w, Authorizes(a))
    ensures var v := Next(w, Authorizes(a));
            && v.clock == w.clock && h in v.host.swaps && EntryOk(v.host.swaps[h], v.clock)
            && v.host.swaps[h].status.Waiting? && v.clock <= v.host.swaps[h].info.expiry
  {
    var contracts :=
      set g | g in w.host.swaps && w.host.swaps[g].info.fromAsset.Some? :: w.host.swaps[g].info.fromAsset.value;
    var c := AboveAll(contracts);
    forall g <- w.host.swaps.Keys ensures w.host.swaps[g].info.fromAsset != Some(c) {
      if w.host.swaps[g].info.fromAsset.Some? { assert w.host.swaps[g].info.fromAsset.value in contracts; }
    }
    NothingReservedOf(w.host.swaps, c, w.clock);
    a := Authorization(0, h, c, c + 1, 1, 1, true, 1, w.clock, Stored);
    assert Refusal(w.host, a).None?;
  }

  lemma ClosedIsNotHandedOn(w: World, h: PaymentHash, id: InterceptId, a: Authorization, e: Interception)
    requires h in w.host.swaps && !OpenTo(w.host.swaps[h], id, w.clock)
    ensures !RedeemsAgain(w, h, id, a, e)
  {
    if Enabled(w, Authorizes(a)) {
      var v := Next(w, Authorizes(a));
      assert h in v.host.swaps && v.host.swaps[h] == w.host.swaps[h] && v.clock >= w.clock;
    }
  }

  /** In every reachable state a payment for a hash, with another intercept id than a given one, can be handed on
      after at most an authorisation exactly when the hash has no entry in memory, or one that is open to it. */
  lemma RedeemableExactly(worlds: seq<World>, steps: seq<Step>, n: nat, h: PaymentHash, id: InterceptId)
    requires IsRun(worlds, steps) && n < |worlds|
    ensures var w := worlds[n];
            (exists a, e :: RedeemsAgain(w, h, id, a, e)) <==>
            h !in w.host.swaps || OpenTo(w.host.swaps[h], id, w.clock)
  {
    RunKeepsInv(worlds, steps, n);
    var w := worlds[n];
    if h !in w.host.swaps {
      var a := AbsentIsAuthorised(w, h);
      var e := OpenIsHandedOn(Next(w, Authorizes(a)), h, id);
      assert RedeemsAgain(w, h, id, a, e);
    } else if OpenTo(w.host.swaps[h], id, w.clock) {
      var a := Authorization(0, h, 0, 0, 0, 0, false, 0, w.clock, Stored);
      assert Next(w, Authorizes(a)) == w;
      var e := OpenIsHandedOn(w, h, id);
      assert RedeemsAgain(w, h, id, a, e);
    } else {
      forall a, e ensures !RedeemsAgain(w, h, id, a, e) { ClosedIsNotHandedOn(w, h, id, a, e); }
    }
  }

  /** So once a payment has been handed on, and as long as the entry in memory, if there is one, is the one it
      was handed on for, another can be handed on for its hash exactly when the entry is no longer there. */
  lemma RedeemedExactly(worlds: seq<World>, steps: seq<Step>, n: nat, f: Forward)
    requires IsRun(worlds, steps) && n < |worlds| && f in worlds[n].log
    requires f.htlc.hash in worlds[n].host.swaps ==> Accounts(worlds[n].host.swaps, f)
    ensures (exists a, e :: RedeemsAgain(worlds[n], f.htlc.hash, f.htlc.interceptId, a, e)) <==>
            f.htlc.hash !in worlds[n].host.swaps
  {
    RedeemableExactly(worlds, steps, n, f.htlc.hash, f.htlc.interceptId);
  }
}
