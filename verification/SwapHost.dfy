/** The host side of linked-asset swaps: authorising them against the channel balance, and forwarding
    the intercepted payments that redeem them.

    Payment hashes, intercept ids, peers, contracts and channels are numbers here. Every handler reads the
    clock once and is one step. */
module SwapHost {
  import opened Wrappers
  import opened Text
  import opened MapTotal
  import opened SwapString

  type PaymentHash = nat
  type InterceptId = nat
  type Peer = nat

  const PENDING_TIMEOUT_SECS: u64 := 24 * 60 * 60
  const MAX_AUTHORIZATION_SECS: u64 := 24 * 60 * 60

  datatype Status = Waiting | Pending | Succeeded | Expired | Failed

  datatype SwapData = SwapData(
    info: SwapInfo<Contract>, status: Status, requestedAt: u64, initiatedAt: Option<u64>,
    completedAt: Option<u64>, interceptId: Option<InterceptId>, authorizedPeer: Option<Peer>)

  type Swaps = map<PaymentHash, SwapData>

  /** The taker swaps in memory and in the store. */
  datatype Host = Host(swaps: Swaps, disk: Swaps)

  // ----- reservations

  /** Whether an entry still reserves some of the contract at this time. */
  predicate Reserves(d: SwapData, contract: Contract, now: u64) {
    && d.info.fromAsset == Some(contract)
    && match d.status
       case Waiting => now <= d.info.expiry
       case Pending => d.initiatedAt.None? || now <= SaturatingAdd(d.initiatedAt.value, PENDING_TIMEOUT_SECS)
       case _ => false
  }

  function Reservation(d: SwapData, contract: Contract, now: u64): nat {
    if Reserves(d, contract, now) then d.info.qtyFrom else 0
  }

  ghost function Reservations(swaps: Swaps, contract: Contract, now: u64): map<nat, int> {
    map h | h in swaps :: Reservation(swaps[h], contract, now)
  }

  /** The exact amount reserved, with no upper limit. */
  ghost function Reserved(swaps: Swaps, contract: Contract, now: u64): int {
    Total(Reservations(swaps, contract, now))
  }

  lemma ReservedPut(swaps: Swaps, h: PaymentHash, d: SwapData, contract: Contract, now: u64)
    ensures Reserved(swaps[h := d], contract, now) ==
      Reserved(swaps, contract, now) + Reservation(d, contract, now)
      - if h in swaps then Reservation(swaps[h], contract, now) else 0
  {
    TotalPut(Reservations(swaps, contract, now), h, Reservation(d, contract, now));
    assert Reservations(swaps[h := d], contract, now) ==
      Reservations(swaps, contract, now)[h := Reservation(d, contract, now)];
  }

  /** The saturating fold over the entries, in whatever order they come: the exact sum, capped. */
  method ReservedOutboundRgbAmount(swaps: Swaps, contract: Contract, now: u64) returns (amount: u64)
    ensures amount == if Reserved(swaps, contract, now) < TWO_64 then Reserved(swaps, contract, now) else TWO_64 - 1
  {
    amount := 0;
    ghost var exact: int := 0;
    var todo := swaps;
    while todo.Keys != {}
      invariant forall h <- todo.Keys :: h in swaps && todo[h] == swaps[h]
      invariant exact >= 0 && exact + Reserved(todo, contract, now) == Reserved(swaps, contract, now)
      invariant amount == if exact < TWO_64 then exact else TWO_64 - 1
      decreases todo.Keys
    {
      var h :| h in todo.Keys;
      TotalWithout(Reservations(todo, contract, now), h);
      assert Reservations(todo - {h}, contract, now) == Reservations(todo, contract, now) - {h};
      if Reserves(todo[h], contract, now) {
        amount := SaturatingAdd(amount, todo[h].info.qtyFrom);
      }
      exact := exact + Reservation(todo[h], contract, now);
      todo := todo - {h};
    }
  }

  // ----- authorising a swap

  datatype AuthorizeError =
    | InvalidAmount
    | InvalidExpiry
    | UnknownLink
    | DuplicatePaymentHash
    | InsufficientLiquidity
    | WriteFailed

  /** A request, with what the node finds when it handles it: whether the two assets are settled links of
      each other, the largest local balance of a channel in the asset, and the time. */
  datatype Authorization = Authorization(
    peer: Peer, hash: PaymentHash, asset: Contract, linkedAsset: Contract, amount: u64, expirySec: u64,
    linked: bool, maxBalance: u64, now: u64, write: StoreWrite)

  function SaturatingSub(a: u64, b: u64): u64 { if a >= b then a - b else 0 }

  /** One asset for the other, one to one. */
  function AuthorizedSwap(a: Authorization): SwapData {
    var expiry := SaturatingAdd(a.now, Min(a.expirySec, MAX_AUTHORIZATION_SECS));
    SwapData(SwapInfo(a.amount, a.amount, Some(a.asset), Some(a.linkedAsset), expiry),
             Waiting, a.now, None, None, None, Some(a.peer))
  }

  ghost function Refusal(s: Host, a: Authorization): Option<AuthorizeError> {
    if a.amount == 0 then Some(InvalidAmount)
    else if a.expirySec == 0 then Some(InvalidExpiry)
    else if !a.linked then Some(UnknownLink)
    else if a.hash in s.swaps then Some(DuplicatePaymentHash)
    else if Reserved(s.swaps, a.asset, a.now) + a.amount > a.maxBalance then Some(InsufficientLiquidity)
    else None
  }

  /** A refused request changes nothing; one whose write reports an error is taken back in memory. */
  ghost function Authorize(s: Host, a: Authorization): (Host, Option<AuthorizeError>) {
    if Refusal(s, a).Some? then (s, Refusal(s, a))
    else
      var swaps := s.swaps[a.hash := AuthorizedSwap(a)];
      var disk := AfterWrite(s.disk, swaps, a.write);
      if a.write.Stored? then (Host(swaps, disk), None) else (Host(s.swaps, disk), Some(WriteFailed))
  }

  // ----- an intercepted payment

  datatype Htlc = Htlc(
    isSwap: bool, hash: PaymentHash, interceptId: InterceptId, inMsat: u64, outMsat: u64,
    inRgb: Option<u64>, outRgb: Option<(Contract, u64)>)

  /** The channels the payment comes in on and is to go out on, if they are found: the peer of the first,
      and the contract of each if it has one. */
  datatype Interception = Interception(
    htlc: Htlc, inbound: Option<(Peer, Option<Contract>)>, outbound: Option<Option<Contract>>,
    now: u64, write: StoreWrite, forwards: bool, rewrite: StoreWrite)

  function CheckedSub(a: u64, b: u64): Option<u64> { if a >= b then Some(a - b) else None }

  function Leg(asset: Option<Contract>, qty: u64): Option<(Contract, u64)> {
    if asset.None? then None else Some((asset.value, qty))
  }

  /** The payment is not the one the entry was made for. */
  predicate Mismatch(info: SwapInfo<Contract>, p: Htlc, inContract: Option<Contract>, outContract: Option<Contract>) {
    if info.fromAsset.None? then
      || p.inRgb != Some(info.qtyTo) || inContract != info.toAsset
      || CheckedSub(p.outMsat, p.inMsat) != Some(info.qtyFrom)
    else if info.toAsset.None? then
      || p.outRgb != Leg(info.fromAsset, info.qtyFrom) || outContract != info.fromAsset
      || SaturatingSub(p.inMsat, p.outMsat) != info.qtyTo
    else
      || CheckedSub(p.inMsat, p.outMsat) != Some(0)
      || p.outRgb != Leg(info.fromAsset, info.qtyFrom) || outContract != info.fromAsset
      || p.inRgb != Some(info.qtyTo) || inContract != info.toAsset
  }

  predicate Forwardable(d: SwapData, id: InterceptId) {
    d.status.Waiting? || (d.status.Pending? && d.interceptId == Some(id))
  }

  function Closed(d: SwapData, status: Status, now: u64): SwapData {
    d.(status := status, completedAt := Some(now), interceptId := None)
  }

  function PendingOn(d: SwapData, id: InterceptId, now: u64): SwapData {
    d.(status := Pending, initiatedAt := Some(now), interceptId := Some(id))
  }

  /** A status set from outside. Nothing sets an entry back to waiting. */
  function WithStatus(d: SwapData, status: Status, now: u64): SwapData
    requires !status.Waiting?
  {
    if status.Pending? then d.(status := status, initiatedAt := Some(now)) else Closed(d, status, now)
  }

  datatype Verdict = Ignored | Closing(status: Status) | Forwarding

  /** What the handler decides, before it changes anything. */
  function Judge(s: Host, e: Interception): Verdict {
    var p := e.htlc;
    if !p.isSwap || e.inbound.None? || e.outbound.None? || p.hash !in s.swaps then Ignored
    else
      var d := s.swaps[p.hash];
      if !Forwardable(d, p.interceptId) then Ignored
      else if d.authorizedPeer.Some? && e.inbound.value.0 != d.authorizedPeer.value then Ignored
      else if e.now > d.info.expiry then Closing(Expired)
      else if Mismatch(d.info, p, e.inbound.value.1, e.outbound.value) then Closing(Failed)
      else Forwarding
  }

  function Save(s: Host, h: PaymentHash, d: SwapData, write: StoreWrite): Host {
    var swaps := s.swaps[h := d];
    Host(swaps, AfterWrite(s.disk, swaps, write))
  }

  /** The new state, and whether the payment was handed on to be forwarded. An error of the write before
      it stops the handler; if forwarding is refused the swap is closed. */
  function Intercept(s: Host, e: Interception): (r: (Host, bool))
    ensures r.1 ==> Judge(s, e).Forwarding? && e.write.Stored?
  {
    match Judge(s, e)
    case Ignored => (s, false)
    case Closing(status) =>
      (Save(s, e.htlc.hash, Closed(s.swaps[e.htlc.hash], status, e.now), e.write), false)
    case Forwarding =>
      var pending := PendingOn(s.swaps[e.htlc.hash], e.htlc.interceptId, e.now);
      var s1 := Save(s, e.htlc.hash, pending, e.write);
      if e.write.Errored? then (s1, false)
      else if e.forwards then (s1, true)
      else (Save(s1, e.htlc.hash, Closed(pending, Failed, e.now), e.rewrite), true)
  }

  // ----- status changes from outside

  /** A listing of swaps closes the entries it finds out of time. */
  function Listed(s: Host, h: PaymentHash, now: u64, write: StoreWrite): Host {
    if h !in s.swaps then s
    else
      var d := s.swaps[h];
      if d.status.Waiting? && now > d.info.expiry then Save(s, h, Closed(d, Expired, now), write)
      else if d.status.Pending? && d.initiatedAt.Some? && now > d.initiatedAt.value + PENDING_TIMEOUT_SECS then
        Save(s, h, Closed(d, Failed, now), write)
      else s
  }

  /** A payment that has been claimed downstream closes its swap. */
  function Completed(s: Host, h: PaymentHash, now: u64, write: StoreWrite): Host {
    if h !in s.swaps then s else Save(s, h, Closed(s.swaps[h], Succeeded, now), write)
  }

  // ----- the object that holds the swaps

  class TakerSwaps {
    var swaps: Swaps
    var disk: Swaps

    ghost function Value(): Host
      reads this
    {
      Host(swaps, disk)
    }

    method SaveTakerSwaps(write: StoreWrite)
      modifies this`disk
      ensures disk == AfterWrite(old(disk), swaps, write)
    {
      disk := AfterWrite(disk, swaps, write);
    }

    method AuthorizeSwap(a: Authorization) returns (error: Option<AuthorizeError>)
      modifies this
      ensures (Value(), error) == Authorize(old(Value()), a)
    {
      if a.amount == 0 { return Some(InvalidAmount); }
      if a.expirySec == 0 { return Some(InvalidExpiry); }
      if !a.linked { return Some(UnknownLink); }
      if a.hash in swaps { return Some(DuplicatePaymentHash); }
      var reserved := ReservedOutboundRgbAmount(swaps, a.asset, a.now);
      var available := SaturatingSub(a.maxBalance, reserved);
      if a.amount > available { return Some(InsufficientLiquidity); }
      swaps := swaps[a.hash := AuthorizedSwap(a)];
      SaveTakerSwaps(a.write);
      if a.write.Errored? {
        swaps := swaps - {a.hash};
        assert swaps == old(swaps);
        return Some(WriteFailed);
      }
      return None;
    }

    method UpdateTakerSwapStatus(h: PaymentHash, status: Status, now: u64, write: StoreWrite)
      requires h in swaps && !status.Waiting?
      modifies this
      ensures Value() == Save(old(Value()), h, WithStatus(old(swaps)[h], status, now), write)
    {
      var swap := swaps[h];
      match status {
        case Pending => swap := swap.(initiatedAt := Some(now));
        case _ => swap := swap.(completedAt := Some(now), interceptId := None);
      }
      swaps := swaps[h := swap.(status := status)];
      SaveTakerSwaps(write);
    }

    method HtlcIntercepted(e: Interception) returns (forwarded: bool)
      modifies this
      ensures (Value(), forwarded) == Intercept(old(Value()), e)
    {
      var p := e.htlc;
      if !p.isSwap || e.inbound.None? || e.outbound.None? { return false; }
      if p.hash !in swaps { return false; }
      var d := swaps[p.hash];
      match d.status {
        case Waiting =>
        case Pending => if d.interceptId != Some(p.interceptId) { return false; }
        case _ => return false;
      }
      if d.authorizedPeer.Some? && e.inbound.value.0 != d.authorizedPeer.value { return false; }
      if e.now > d.info.expiry {
        UpdateTakerSwapStatus(p.hash, Expired, e.now, e.write);
        return false;
      }
      if Mismatch(d.info, p, e.inbound.value.1, e.outbound.value) {
        UpdateTakerSwapStatus(p.hash, Failed, e.now, e.write);
        return false;
      }
      swaps := swaps[p.hash := d.(status := Pending, initiatedAt := Some(e.now), interceptId := Some(p.interceptId))];
      SaveTakerSwaps(e.write);
      if e.write.Errored? { return false; }
      if !e.forwards { UpdateTakerSwapStatus(p.hash, Failed, e.now, e.rewrite); }
      return true;
    }
  }
}
