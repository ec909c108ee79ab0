/** Requests for an outbound invoice, answered once for each peer and payment hash until the invoice
    expires. */
module InvoiceCache {
  import opened Wrappers
  import opened Text

  const NANOS: nat := 1_000_000_000

  datatype Params = Params(
    hashIndex: string, paymentHash: string, amountMsat: u64, assetId: Option<string>,
    assetAmount: Option<u64>, descriptionHash: string, expirySec: nat, cltvDelta: nat)

  datatype Invoice = Invoice(paymentHash: string, bolt11: string)

  datatype Error =
    | InvalidHashIndex
    | InvalidPaymentHash
    | InvalidDescriptionHash
    | ProviderUnavailable
    | ProviderFailed(reason: string)
    | StaleFlow
    | ExpiryOverflow

  // ----- canonical parameters

  /** A SHA-256 value in exactly 64 hexadecimal digits. */
  function ParseDescriptionHash(s: string): Option<seq<byte>> {
    if |s| == 64 then HexDecode(s) else None
  }

  /** Index without leading zeros or sign, hashes in lower case; everything else as it was. */
  function Canonicalize(p: Params): Result<Params, Error> {
    match ParseU64(p.hashIndex)
    case None => Err(InvalidHashIndex)
    case Some(index) =>
      match ParsePaymentHash(p.paymentHash)
      case None => Err(InvalidPaymentHash)
      case Some(hash) =>
        match ParseDescriptionHash(Trim(p.descriptionHash))
        case None => Err(InvalidDescriptionHash)
        case Some(description) =>
          Ok(p.(hashIndex := DecStr(index), paymentHash := HexStr(hash), descriptionHash := HexStr(description)))
  }

  /** Exactly the texts of 64 hexadecimal digits are description hashes, whatever the white space around them. */
  lemma DescriptionHashAccepted(left: string, s: string, right: string)
    requires AllSpace(left) && AllSpace(right) && s != "" && !IsSpace(s[0]) && !IsSpace(s[|s| - 1])
    ensures ParseDescriptionHash(Trim(left + s + right)).Some? <==> |s| == 64 && forall c <- s :: Nibble(c).Some?
    ensures ParseDescriptionHash(Trim(left + s + right)).Some? ==>
      ParseDescriptionHash(Trim(left + s + right)) == HexDecode(s)
  {
    Trimmed(left, s, right);
    HexDecodeAccepts(s);
  }

  lemma DescriptionHashRoundTrip(description: seq<byte>)
    requires |description| == 32
    ensures ParseDescriptionHash(Trim(HexStr(description))) == Some(description)
  {
    HexRoundTrip(description);
    TrimmedHex(description);
  }

  lemma PaymentHashRoundTrip(hash: Hash32)
    ensures ParsePaymentHash(HexStr(hash)) == Some(hash)
  {
    HexRoundTrip(hash);
  }

  /** Canonical parameters are their own canonical form. */
  lemma CanonicalizeIdempotent(p: Params)
    requires Canonicalize(p).Ok?
    ensures Canonicalize(Canonicalize(p).value) == Canonicalize(p)
  {
    var hash := ParsePaymentHash(p.paymentHash).value;
    var description := ParseDescriptionHash(Trim(p.descriptionHash)).value;
    DecRoundTrip(ParseU64(p.hashIndex).value);
    PaymentHashRoundTrip(hash);
    HexDecodeAccepts(Trim(p.descriptionHash));
    DescriptionHashRoundTrip(description);
  }

  /** The parameters say the same: the same values, however they are spelled. */
  predicate SameRequest(p: Params, q: Params) {
    && ParseU64(p.hashIndex) == ParseU64(q.hashIndex)
    && ParsePaymentHash(p.paymentHash) == ParsePaymentHash(q.paymentHash)
    && ParseDescriptionHash(Trim(p.descriptionHash)) == ParseDescriptionHash(Trim(q.descriptionHash))
    && p.amountMsat == q.amountMsat && p.assetId == q.assetId && p.assetAmount == q.assetAmount
    && p.expirySec == q.expirySec && p.cltvDelta == q.cltvDelta
  }

  /** Parameters are accepted exactly if all three texts parse; otherwise the error names the first that
      does not. */
  lemma AcceptedExactly(p: Params)
    ensures var index, hash := ParseU64(p.hashIndex), ParsePaymentHash(p.paymentHash);
            var description := ParseDescriptionHash(Trim(p.descriptionHash));
            && (Canonicalize(p).Ok? <==> index.Some? && hash.Some? && description.Some?)
            && (Canonicalize(p) == Err(InvalidHashIndex) <==> index == None)
            && (Canonicalize(p) == Err(InvalidPaymentHash) <==> index.Some? && hash == None)
            && (Canonicalize(p) == Err(InvalidDescriptionHash) <==> index.Some? && hash.Some? && description == None)
  {
  }

  lemma HexInjective(a: seq<byte>, b: seq<byte>)
    ensures HexStr(a) == HexStr(b) <==> a == b
  {
    HexRoundTrip(a);
    HexRoundTrip(b);
  }

  lemma DecInjective(a: u64, b: u64)
    ensures DecStr(a) == DecStr(b) <==> a == b
  {
    DecRoundTrip(a);
    DecRoundTrip(b);
  }

  /** Accepted parameters have the same canonical form exactly when they say the same. */
  lemma SameFormSameRequest(p: Params, q: Params)
    requires Canonicalize(p).Ok? && Canonicalize(q).Ok?
    ensures Canonicalize(p) == Canonicalize(q) <==> SameRequest(p, q)
    ensures Canonicalize(p).value.paymentHash == Canonicalize(q).value.paymentHash <==>
            ParsePaymentHash(p.paymentHash) == ParsePaymentHash(q.paymentHash)
  {
    DecInjective(ParseU64(p.hashIndex).value, ParseU64(q.hashIndex).value);
    HexInjective(ParsePaymentHash(p.paymentHash).value, ParsePaymentHash(q.paymentHash).value);
    HexInjective(ParseDescriptionHash(Trim(p.descriptionHash)).value,
                 ParseDescriptionHash(Trim(q.descriptionHash)).value);
  }

  // ----- the cache

  datatype Entry = Entry(params: Params, result: Invoice, expiresAt: nat)

  type Key = (PublicKey, string)
  type Cache = map<Key, Entry>

  /** One request: its canonical parameters, or why it has none. The provider is absent, or answers, or
      fails; the clock is read before the cache is looked at and again after the provider has answered. */
  datatype Call = Call(
    peer: PublicKey, request: Result<Params, Error>, provider: Option<Result<Invoice, string>>,
    now: nat, later: nat)

  function KeyOf(c: Call): Key
    requires c.request.Ok?
  {
    (c.peer, c.request.value.paymentHash)
  }

  /** The cache after the call, and the reply. Times beyond `limit` cannot be represented. */
  function Receive(cache: Cache, c: Call, limit: nat): (Cache, Result<Invoice, Error>) {
    if c.request.Err? then (cache, Err(c.request.error))
    else if c.provider.None? then (cache, Err(ProviderUnavailable))
    else if KeyOf(c) in cache && c.now < cache[KeyOf(c)].expiresAt then
      (cache, if cache[KeyOf(c)].params == c.request.value then Ok(cache[KeyOf(c)].result) else Err(StaleFlow))
    else Ask(cache - {KeyOf(c)}, c, limit)
  }

  function Ask(cache: Cache, c: Call, limit: nat): (Cache, Result<Invoice, Error>)
    requires c.request.Ok? && c.provider.Some?
  {
    var expiresAt := c.later + c.request.value.expirySec * NANOS;
    match c.provider.value
    case Err(reason) => (cache, Err(ProviderFailed(reason)))
    case Ok(result) =>
      if expiresAt > limit then (cache, Err(ExpiryOverflow))
      else (cache[KeyOf(c) := Entry(c.request.value, result, expiresAt)], Ok(result))
  }

  class RequestInvoiceCache {
    const limit: nat
    var cache: Cache

    constructor (limit: nat)
      ensures this.limit == limit && cache == map[]
    {
      this.limit := limit;
      cache := map[];
    }

    method ReceiveRequestInvoice(peer: PublicKey, params: Params, provider: Option<Result<Invoice, string>>,
                                 now: nat, later: nat)
        returns (r: Result<Invoice, Error>)
      modifies this
      ensures (cache, r) == Receive(old(cache), Call(peer, Canonicalize(params), provider, now, later), limit)
    {
      var canonical := Canonicalize(params);
      if canonical.Err? { return Err(canonical.error); }
      if provider.None? { return Err(ProviderUnavailable); }
      r := AnswerOnce(Call(peer, canonical, provider, now, later));
    }

    /** The part that holds the lock. */
    method AnswerOnce(c: Call) returns (r: Result<Invoice, Error>)
      requires c.request.Ok? && c.provider.Some?
      modifies this
      ensures (cache, r) == Receive(old(cache), c, limit)
    {
      var key := KeyOf(c);
      if key in cache {
        var cached := cache[key];
        if c.now < cached.expiresAt {
          if cached.params == c.request.value { return Ok(cached.result); }
          return Err(StaleFlow);
        }
      }
      cache := cache - {key};
      var result := c.provider.value;
      if result.Err? { return Err(ProviderFailed(result.error)); }
      var expiresAt := c.later + c.request.value.expirySec * NANOS;
      if expiresAt > limit { return Err(ExpiryOverflow); }
      cache := cache[key := Entry(c.request.value, result.value, expiresAt)];
      return Ok(result.value);
    }
  }

  // ----- runs

  function After(calls: seq<Call>, n: nat, limit: nat): Cache
    requires n <= |calls|
  {
    if n == 0 then map[] else Receive(After(calls, n - 1, limit), calls[n - 1], limit).0
  }

  function Reply(calls: seq<Call>, n: nat, limit: nat): Result<Invoice, Error>
    requires n < |calls|
  {
    Receive(After(calls, n, limit), calls[n], limit).1
  }

  lemma LiveEntryDecides(cache: Cache, c: Call, limit: nat)
    requires c.request.Ok? && KeyOf(c) in cache && c.now < cache[KeyOf(c)].expiresAt
    ensures Receive(cache, c, limit).1 ==
      if c.provider.None? then Err(ProviderUnavailable)
      else if cache[KeyOf(c)].params == c.request.value then Ok(cache[KeyOf(c)].result)
      else Err(StaleFlow)
  {
  }

  /** Exactly when a request with accepted parameters is answered: it is the one that a live entry was made for,
      or there is none and the provider answers with an expiry that can be represented. Only the entry of its key
      changes: it is there afterwards if the request was answered, and an expired one never is. */
  lemma AnsweredExactly(cache: Cache, c: Call, limit: nat)
    requires c.request.Ok?
    ensures var (cache', r) := Receive(cache, c, limit);
            var key, live := KeyOf(c), KeyOf(c) in cache && c.now < cache[KeyOf(c)].expiresAt;
            && (r.Ok? <==>
                  && c.provider.Some?
                  && if live then cache[key].params == c.request.value
                     else c.provider.value.Ok? && c.later + c.request.value.expirySec * 1_000_000_000 <= limit)
            && (r.Ok? && !live ==> r == Ok(c.provider.value.value))
            && (live || c.provider == None ==> cache' == cache)
            && (!live && c.provider.Some? ==> (key in cache' <==> r.Ok?))
            && (forall k :: k != key ==> (k in cache' <==> k in cache) && (k in cache ==> cache'[k] == cache[k]))
  {
  }

  /** A call that drops or replaces the entry of a key: it was answered by the provider, or meant to be, and
      the time it had read was at or after the expiry. */
  predicate Overruns(c: Call, key: Key, expiresAt: nat) {
    c.request.Ok? && c.provider.Some? && KeyOf(c) == key && c.now >= expiresAt
  }

  lemma EntryStays(cache: Cache, key: Key, c: Call, limit: nat)
    requires key in cache && !Overruns(c, key, cache[key].expiresAt)
    ensures key in Receive(cache, c, limit).0 && Receive(cache, c, limit).0[key] == cache[key]
  {
  }

  /** In the order in which calls hold the lock, whatever times they had read before they got it: an entry
      stays as it is until a call on its key comes that had read a time at or after its expiry. */
  lemma {:induction false} EntryStaysOverRun(calls: seq<Call>, key: Key, i: nat, j: nat, limit: nat)
    requires i <= j <= |calls| && key in After(calls, i, limit)
    requires forall m :: i <= m < j ==> !Overruns(calls[m], key, After(calls, i, limit)[key].expiresAt)
    ensures key in After(calls, j, limit) && After(calls, j, limit)[key] == After(calls, i, limit)[key]
  {
    if i < j {
      EntryStaysOverRun(calls, key, i, j - 1, limit);
      EntryStays(After(calls, j - 1, limit), key, calls[j - 1], limit);
    }
  }

  /** After an answered request the entry is stored with the answer and the canonical parameters. It
      is either the one that was still alive, or a new one that lives for the requested time. */
  lemma AnswerIsStored(calls: seq<Call>, i: nat, limit: nat)
    requires i < |calls| && Reply(calls, i, limit).Ok?
    ensures calls[i].request.Ok? && KeyOf(calls[i]) in After(calls, i + 1, limit)
    ensures var e := After(calls, i + 1, limit)[KeyOf(calls[i])];
            && e.params == calls[i].request.value
            && e.result == Reply(calls, i, limit).value
            && (|| (&& KeyOf(calls[i]) in After(calls, i, limit) && e == After(calls, i, limit)[KeyOf(calls[i])]
                    && calls[i].now < e.expiresAt)
                || e.expiresAt == calls[i].later + calls[i].request.value.expirySec * NANOS)
  {
  }

  ghost function ExpiryAfter(calls: seq<Call>, i: nat, limit: nat): nat
    requires i < |calls| && Reply(calls, i, limit).Ok?
  {
    AnswerIsStored(calls, i, limit);
    After(calls, i + 1, limit)[KeyOf(calls[i])].expiresAt
  }

  /** Some call after `i` and up to `j`, on the key of `i`, had read a time at or after the expiry. */
  ghost predicate OverrunSince(calls: seq<Call>, i: nat, j: nat, limit: nat)
    requires i < j < |calls| && Reply(calls, i, limit).Ok? && calls[i].request.Ok?
  {
    exists m :: i < m <= j && Overruns(calls[m], KeyOf(calls[i]), ExpiryAfter(calls, i, limit))
  }

  lemma EqualRequestEqualAnswer(calls: seq<Call>, i: nat, j: nat, limit: nat)
    requires i < j < |calls|
    requires Reply(calls, i, limit).Ok? && calls[i].request.Ok? && calls[j].request.Ok?
    requires KeyOf(calls[i]) == KeyOf(calls[j])
    ensures !OverrunSince(calls, i, j, limit) && calls[j].provider.Some? ==>
      Reply(calls, j, limit) ==
        if calls[j].request == calls[i].request then Reply(calls, i, limit) else Err(StaleFlow)
    ensures Reply(calls, j, limit).Ok? && !OverrunSince(calls, i, j, limit) ==> calls[j].provider.Some?
  {
    AnswerIsStored(calls, i, limit);
    if !OverrunSince(calls, i, j, limit) {
      EntryStaysOverRun(calls, KeyOf(calls[i]), i + 1, j, limit);
      assert !Overruns(calls[j], KeyOf(calls[i]), ExpiryAfter(calls, i, limit));
      if calls[j].provider.Some? { LiveEntryDecides(After(calls, j, limit), calls[j], limit); }
    }
  }

  lemma NewAnswerOnKey(calls: seq<Call>, i: nat, j: nat, limit: nat)
    requires i < j < |calls| && forall m :: i < m < j ==> calls[m].now <= calls[j].now
    requires Reply(calls, i, limit).Ok? && calls[i].request.Ok? && calls[j].request.Ok?
    requires KeyOf(calls[i]) == KeyOf(calls[j])
    ensures Reply(calls, j, limit).Ok? && Reply(calls, j, limit) != Reply(calls, i, limit) ==>
      calls[j].now >= ExpiryAfter(calls, i, limit)
  {
    EqualRequestEqualAnswer(calls, i, j, limit);
  }

  // ----- runs of requests as they are sent

  /** A request with its parameters as they were sent. */
  datatype Sent = Sent(
    peer: PublicKey, params: Params, provider: Option<Result<Invoice, string>>, now: nat, later: nat)

  function CallOf(r: Sent): Call { Call(r.peer, Canonicalize(r.params), r.provider, r.now, r.later) }

  function Calls(sent: seq<Sent>): (calls: seq<Call>)
    ensures |calls| == |sent| && forall i :: 0 <= i < |sent| ==> calls[i].now == sent[i].now
  {
    seq(|sent|, i requires 0 <= i < |sent| => CallOf(sent[i]))
  }

  /** The same peer and the same payment hash, however it is spelled. */
  predicate SamePayment(r: Sent, t: Sent) {
    r.peer == t.peer && ParsePaymentHash(r.params.paymentHash) == ParsePaymentHash(t.params.paymentHash)
  }

  /** Accepted requests share a key exactly when they are from one peer and for one payment hash. */
  lemma SameKeySamePayment(r: Sent, t: Sent)
    requires Canonicalize(r.params).Ok? && Canonicalize(t.params).Ok?
    ensures KeyOf(CallOf(r)) == KeyOf(CallOf(t)) <==> SamePayment(r, t)
  {
    SameFormSameRequest(r.params, t.params);
  }

  function ReplyTo(sent: seq<Sent>, n: nat, limit: nat): Result<Invoice, Error>
    requires n < |sent|
  {
    Reply(Calls(sent), n, limit)
  }

  lemma AnsweredIsAccepted(sent: seq<Sent>, i: nat, limit: nat)
    requires i < |sent| && ReplyTo(sent, i, limit).Ok?
    ensures Canonicalize(sent[i].params).Ok? && Calls(sent)[i].request.Ok?
  {
    AnswerIsStored(Calls(sent), i, limit);
  }

  /** When the answer to a request expires. */
  ghost function AnswerExpiry(sent: seq<Sent>, i: nat, limit: nat): nat
    requires i < |sent| && ReplyTo(sent, i, limit).Ok?
  {
    ExpiryAfter(Calls(sent), i, limit)
  }

  /** Some request after `i` and up to `j`, for the payment of `i`, had read this time or a later one. */
  ghost predicate PaymentOverrun(sent: seq<Sent>, i: nat, j: nat, expiresAt: nat)
    requires i < j < |sent|
  {
    exists m :: && i < m <= j && SamePayment(sent[m], sent[i])
                && Canonicalize(sent[m].params).Ok? && sent[m].provider.Some? && sent[m].now >= expiresAt
  }

  lemma OverrunOfPayment(sent: seq<Sent>, i: nat, j: nat, limit: nat)
    requires i < j < |sent| && ReplyTo(sent, i, limit).Ok? && Calls(sent)[i].request.Ok?
    requires OverrunSince(Calls(sent), i, j, limit)
    ensures PaymentOverrun(sent, i, j, AnswerExpiry(sent, i, limit))
  {
    var calls := Calls(sent);
    var m :| i < m <= j && Overruns(calls[m], KeyOf(calls[i]), ExpiryAfter(calls, i, limit));
    assert calls[m] == CallOf(sent[m]) && calls[i] == CallOf(sent[i]);
    SameKeySamePayment(sent[m], sent[i]);
  }

  /** Over every run, with no assumption about the times the requests had read, and however their parameters
      are spelled: until some request for the same payment has read a time at or after the expiry of an
      answer, one that says the same gets the very same answer and one that does not is refused; so a
      different answer means that there was such a request. */
  lemma AnswerHoldsUntilExpiry(sent: seq<Sent>, i: nat, j: nat, limit: nat)
    requires i < j < |sent| && ReplyTo(sent, i, limit).Ok?
    requires Canonicalize(sent[j].params).Ok? && SamePayment(sent[i], sent[j])
    ensures !PaymentOverrun(sent, i, j, AnswerExpiry(sent, i, limit)) && sent[j].provider.Some? ==>
      ReplyTo(sent, j, limit) ==
        if SameRequest(sent[i].params, sent[j].params) then ReplyTo(sent, i, limit) else Err(StaleFlow)
    ensures ReplyTo(sent, j, limit).Ok? && ReplyTo(sent, j, limit) != ReplyTo(sent, i, limit) ==>
      PaymentOverrun(sent, i, j, AnswerExpiry(sent, i, limit))
  {
    if !PaymentOverrun(sent, i, j, AnswerExpiry(sent, i, limit)) {
      AnsweredIsAccepted(sent, i, limit);
      SameKeySamePayment(sent[i], sent[j]);
      SameFormSameRequest(sent[i].params, sent[j].params);
      if OverrunSince(Calls(sent), i, j, limit) { OverrunOfPayment(sent, i, j, limit); }
      EqualRequestEqualAnswer(Calls(sent), i, j, limit);
    }
  }

  /** When no request in between had read a later time, as when none waits for the lock, the request that gets a
      new answer is itself at or after the expiry. */
  lemma NewAnswerAfterExpiry(sent: seq<Sent>, i: nat, j: nat, limit: nat)
    requires i < j < |sent| && forall m :: i < m < j ==> sent[m].now <= sent[j].now
    requires ReplyTo(sent, i, limit).Ok? && Canonicalize(sent[j].params).Ok? && SamePayment(sent[i], sent[j])
    ensures ReplyTo(sent, j, limit).Ok? && ReplyTo(sent, j, limit) != ReplyTo(sent, i, limit) ==>
      sent[j].now >= AnswerExpiry(sent, i, limit)
  {
    AnsweredIsAccepted(sent, i, limit);
    SameKeySamePayment(sent[i], sent[j]);
    NewAnswerOnKey(Calls(sent), i, j, limit);
  }

  /** Otherwise it need not be: a call that had read its time and then waited for the lock is given the
      answer that replaced an expired one, although its own time is before that expiry. */
  lemma StaleTimeGetsNewAnswer(peer: PublicKey, p: Params, r1: Invoice, r2: Invoice)
    requires p.expirySec == 10 && r1 != r2
    ensures var call := (r: Invoice, now: nat) => Call(peer, Ok(p), Some(Ok(r)), now, now);
            var calls := [call(r1, 0), call(r2, 12 * NANOS), call(r1, 5 * NANOS)];
            var limit := 100 * NANOS;
            && Reply(calls, 0, limit) == Ok(r1) && Reply(calls, 2, limit) == Ok(r2)
            && calls[2].now < ExpiryAfter(calls, 0, limit)
  {
    var call := (r: Invoice, now: nat) => Call(peer, Ok(p), Some(Ok(r)), now, now);
    var calls := [call(r1, 0), call(r2, 12 * NANOS), call(r1, 5 * NANOS)];
    var limit := 100 * NANOS;
    assert After(calls, 0, limit) == map[];
    assert After(calls, 1, limit)[(peer, p.paymentHash)] == Entry(p, r1, 10 * NANOS);
    assert After(calls, 2, limit)[(peer, p.paymentHash)] == Entry(p, r2, 22 * NANOS);
  }
}
