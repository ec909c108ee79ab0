/** The signed commitment to a batch of asynchronous-payment hashes. */
module BatchCommitment {
  import opened Wrappers
  import opened Text
  import opened Merkle

  const BATCH_TAG: string := "UTEXO_APAY_HASH_BATCH_V1"
  const BATCH_ID_TAG: string := "UTEXO_APAY_BATCH_ID_V1"

  datatype HashWire = HashWire(hashIndex: u64, paymentHash: string)

  datatype Entry = Entry(hashIndex: u64, paymentHash: Hash32)

  /** What a commitment is meant to fix. */
  datatype Batch = Batch(
    recipient: PublicKey, host: PublicKey, batchId: BatchId,
    entries: seq<Entry>, createdAt: u64, expiresAt: u64)

  /** The commitment as it is sent: keys, ids and roots in hexadecimal. */
  datatype Commitment = Commitment(
    host: string, batchId: string, root: string, size: u64, sig: string, createdAt: u64, expiresAt: u64)

  datatype BatchError = InvalidRecipient | InvalidHost | InvalidHashBatch | InvalidPaymentHash | SignFailed

  predicate InRange(b: Batch) { 0 < |b.entries| < TWO_64 }

  function LeafFor(recipient: PublicKey, batchId: BatchId, e: Entry): Leaf {
    Leaf(recipient, batchId, e.hashIndex, e.paymentHash)
  }

  function LeavesFor(recipient: PublicKey, batchId: BatchId, entries: seq<Entry>): (leaves: seq<Leaf>)
    ensures |leaves| == |entries|
    ensures forall i :: 0 <= i < |entries| ==>
      leaves[i] == Leaf(recipient, batchId, entries[i].hashIndex, entries[i].paymentHash)
  {
    seq(|entries|, i requires 0 <= i < |entries| => LeafFor(recipient, batchId, entries[i]))
  }

  function BatchRootOf(d: Digest, recipient: PublicKey, batchId: BatchId, entries: seq<Entry>): Hash32
    requires entries != []
  {
    RootOf(d, LeafHashes(d, LeavesFor(recipient, batchId, entries)))
  }

  /** The entries a list of wire hashes stands for; none if some payment hash does not parse. */
  function ParseEntries(hashes: seq<HashWire>): (r: Option<seq<Entry>>)
    ensures r.Some? ==> |r.value| == |hashes|
  {
    if hashes == [] then Some([])
    else
      var n := |hashes| - 1;
      match (ParseEntries(hashes[..n]), ParsePaymentHash(hashes[n].paymentHash))
      case (Some(entries), Some(h)) => Some(entries + [Entry(hashes[n].hashIndex, h)])
      case _ => None
  }

  /** A list is accepted exactly if every payment hash in it parses; each entry then has the index and the
      hash of its place. */
  lemma {:induction false} EntriesParsed(hashes: seq<HashWire>)
    ensures ParseEntries(hashes).Some? <==> forall w <- hashes :: ParsePaymentHash(w.paymentHash).Some?
    ensures ParseEntries(hashes).Some? ==> forall i :: 0 <= i < |hashes| ==>
      && ParseEntries(hashes).value[i].hashIndex == hashes[i].hashIndex
      && Some(ParseEntries(hashes).value[i].paymentHash) == ParsePaymentHash(hashes[i].paymentHash)
  {
    if hashes != [] {
      var n := |hashes| - 1;
      EntriesParsed(hashes[..n]);
      assert hashes == hashes[..n] + [hashes[n]];
    }
  }

  lemma {:induction false} ParsePrefix(hashes: seq<HashWire>, n: nat)
    requires n <= |hashes| && ParseEntries(hashes).Some?
    ensures ParseEntries(hashes[..n]).Some?
  {
    if n == |hashes| {
      assert hashes[..n] == hashes;
    } else {
      var m := |hashes| - 1;
      ParsePrefix(hashes[..m], n);
      assert hashes[..m][..n] == hashes[..n];
    }
  }

  lemma ParseStep(hashes: seq<HashWire>, i: nat)
    requires i < |hashes| && ParseEntries(hashes[..i]).Some?
    ensures var hash := ParsePaymentHash(hashes[i].paymentHash);
            var done := ParseEntries(hashes[..i]).value;
            if hash.None? then ParseEntries(hashes).None?
            else ParseEntries(hashes[..i + 1]) == Some(done + [Entry(hashes[i].hashIndex, hash.value)])
  {
    assert hashes[..i + 1][..i] == hashes[..i];
    if ParseEntries(hashes).Some? { ParsePrefix(hashes, i + 1); }
  }

  method BatchRoot(d: Digest, recipient: PublicKey, batchId: BatchId, hashes: seq<HashWire>)
      returns (r: Result<Hash32, BatchError>)
    ensures r == if hashes == [] then Err(InvalidHashBatch)
                 else match ParseEntries(hashes)
                      case None => Err(InvalidPaymentHash)
                      case Some(entries) => Ok(BatchRootOf(d, recipient, batchId, entries))
  {
    if hashes == [] { return Err(InvalidHashBatch); }
    var leaves: seq<Hash32> := [];
    ghost var entries: seq<Entry> := [];
    for i := 0 to |hashes|
      invariant ParseEntries(hashes[..i]) == Some(entries)
      invariant leaves == LeafHashes(d, LeavesFor(recipient, batchId, entries))
    {
      var entry := hashes[i];
      ParseStep(hashes, i);
      var parsed := ParseHash(entry.paymentHash);
      if parsed.None? { return Err(InvalidPaymentHash); }
      leaves := leaves + [LeafHash(d, Leaf(recipient, batchId, entry.hashIndex, parsed.value))];
      entries := entries + [Entry(entry.hashIndex, parsed.value)];
    }
    assert hashes[..|hashes|] == hashes;
    var root := Root(d, leaves);
    return Ok(root);
  }

  // ----- the signed bytes

  function CommitBytes(recipient: PublicKey, host: PublicKey, batchId: BatchId, root: Hash32,
                       size: u64, createdAt: u64, expiresAt: u64): seq<byte> {
    Ascii(BATCH_TAG) + recipient + host + batchId + root + Be64(size) + Be64(createdAt) + Be64(expiresAt)
  }

  function CommitOf(d: Digest, b: Batch): seq<byte>
    requires InRange(b)
  {
    CommitBytes(b.recipient, b.host, b.batchId, BatchRootOf(d, b.recipient, b.batchId, b.entries),
                |b.entries|, b.createdAt, b.expiresAt)
  }

  function BatchIdPreimage(recipient: PublicKey, startIndex: u64): seq<byte> {
    Ascii(BATCH_ID_TAG) + recipient + Be64(startIndex)
  }

  function DeriveBatchId(d: Digest, recipient: PublicKey, startIndex: u64): BatchId {
    d(BatchIdPreimage(recipient, startIndex))[..16]
  }

  lemma BatchIdLayout(recipient: PublicKey, startIndex: u64)
    ensures var x := BatchIdPreimage(recipient, startIndex);
            && |x| == 63 && x[..22] == Ascii("UTEXO_APAY_BATCH_ID_V1")
            && x[22..55] == recipient && BigEndianValue(x[55..]) == startIndex
  {
    var x := BatchIdPreimage(recipient, startIndex);
    assert |BATCH_ID_TAG| == 22;
    assert x[..22] == Ascii(BATCH_ID_TAG);
    assert x[22..55] == recipient;
    assert x[55..] == Be64(startIndex);
    Be64RoundTrip(startIndex);
  }

  /** Equal batch ids mean the same recipient and first index, or here are two preimages whose digests agree in
      the 16 bytes that are kept. */
  lemma BatchIdBinding(d: Digest, r: PublicKey, n: u64, r': PublicKey, n': u64) returns (x: seq<byte>, y: seq<byte>)
    requires DeriveBatchId(d, r, n) == DeriveBatchId(d, r', n')
    ensures (r == r' && n == n') || (x != y && d(x)[..16] == d(y)[..16])
  {
    x, y := BatchIdPreimage(r, n), BatchIdPreimage(r', n');
    BatchIdLayout(r, n);
    BatchIdLayout(r', n');
  }

  function BatchFor(d: Digest, recipient: PublicKey, host: PublicKey, startIndex: u64, entries: seq<Entry>,
                    createdAt: u64, expiresAt: u64): Batch {
    Batch(recipient, host, DeriveBatchId(d, recipient, startIndex), entries, createdAt, expiresAt)
  }

  /** The loop over pairs of digits that decodes a public key. */
  method DecodeHexFixed(n: nat, s: string) returns (r: Option<seq<byte>>)
    ensures r == HexFixed(n, s)
  {
    var t := Trim(s);
    if |t| != 2 * n { return None; }
    var out: seq<byte> := [];
    assert t[0..] == t;
    PrependAssociative(out, [], HexDecode(t));
    for i := 0 to n
      invariant |out| == i && HexDecode(t) == Prepend(out, HexDecode(t[2 * i..]))
    {
      var high, low := Nibble(t[2 * i]), Nibble(t[2 * i + 1]);
      if high.None? || low.None? { return None; }
      NibbleBound(t[2 * i]); NibbleBound(t[2 * i + 1]);
      var b := high.value * 16 + low.value;
      assert t[2 * i..][2..] == t[2 * (i + 1)..];
      PrependAssociative(out, [b], HexDecode(t[2 * (i + 1)..]));
      out := out + [b];
    }
    assert HexDecode(t[2 * n..]) == Some([]);
    assert out + [] == out;
    return Some(out);
  }

  /** The batch a request is for, or the first thing wrong with it. */
  function Requested(d: Digest, recipientHex: string, hostHex: string, startIndex: u64, hashes: seq<HashWire>,
                     createdAt: u64, expiresAt: u64): (r: Result<Batch, BatchError>)
    requires |hashes| < TWO_64
    ensures r.Ok? ==> InRange(r.value)
  {
    match HexFixed(33, recipientHex)
    case None => Err(InvalidRecipient)
    case Some(recipient) =>
      match HexFixed(33, hostHex)
      case None => Err(InvalidHost)
      case Some(host) =>
        if hashes == [] then Err(InvalidHashBatch)
        else
          match ParseEntries(hashes)
          case None => Err(InvalidPaymentHash)
          case Some(entries) => Ok(BatchFor(d, recipient, host, startIndex, entries, createdAt, expiresAt))
  }

  /** Exactly the requests with two keys of 33 bytes and a nonempty list of hashes that parse are for a batch: of
      these keys and times, and of each index and hash in its place. The error names the first thing wrong. */
  lemma RequestedExactly(d: Digest, recipientHex: string, hostHex: string, startIndex: u64, hashes: seq<HashWire>,
                         createdAt: u64, expiresAt: u64)
    requires |hashes| < TWO_64
    ensures var r := Requested(d, recipientHex, hostHex, startIndex, hashes, createdAt, expiresAt);
            var recipient, host := HexFixed(33, recipientHex), HexFixed(33, hostHex);
            && (r == Err(InvalidRecipient) <==> recipient == None)
            && (r == Err(InvalidHost) <==> recipient.Some? && host == None)
            && (r == Err(InvalidHashBatch) <==> recipient.Some? && host.Some? && hashes == [])
            && (r == Err(InvalidPaymentHash) <==>
                  && recipient.Some? && host.Some? && hashes != []
                  && exists w <- hashes :: ParsePaymentHash(w.paymentHash) == None)
            && (r.Ok? ==>
                  && Some(r.value.recipient) == recipient && Some(r.value.host) == host
                  && r.value.batchId == DeriveBatchId(d, recipient.value, startIndex)
                  && r.value.createdAt == createdAt && r.value.expiresAt == expiresAt
                  && |r.value.entries| == |hashes|
                  && forall i :: 0 <= i < |hashes| ==>
                       && r.value.entries[i].hashIndex == hashes[i].hashIndex
                       && Some(r.value.entries[i].paymentHash) == ParsePaymentHash(hashes[i].paymentHash))
            && (r.Err? ==> r.error != SignFailed)
  {
    EntriesParsed(hashes);
  }

  /** What is sent decodes to the host, the id and the root of this batch. */
  ghost predicate Carries(d: Digest, c: Commitment, b: Batch)
    requires InRange(b)
  {
    && HexDecode(c.host) == Some(b.host) && HexDecode(c.batchId) == Some(b.batchId)
    && HexDecode(c.root) == Some(BatchRootOf(d, b.recipient, b.batchId, b.entries))
    && c.size == |b.entries| && c.createdAt == b.createdAt && c.expiresAt == b.expiresAt
  }

  /** A commitment is returned exactly when both keys decode, the list is nonempty, every hash parses and
      the signer signs; the signature is then over the bytes of the whole batch, and what is sent
      decodes to that batch. */
  method BuildBatchCommitment(d: Digest, recipientHex: string, hostHex: string, startIndex: u64,
                              hashes: seq<HashWire>, createdAt: u64, expiresAt: u64,
                              sign: seq<byte> -> Option<string>)
      returns (r: Result<Commitment, BatchError>)
    requires |hashes| < TWO_64
    ensures var b := Requested(d, recipientHex, hostHex, startIndex, hashes, createdAt, expiresAt);
            match b
            case Err(e) => r == Err(e)
            case Ok(batch) =>
              && (r.Ok? <==> sign(CommitOf(d, batch)).Some?)
              && (r.Ok? ==> sign(CommitOf(d, batch)) == Some(r.value.sig) && Carries(d, r.value, batch))
              && (r.Err? ==> r.error == SignFailed)
  {
    var recipient := DecodeHexFixed(33, recipientHex);
    if recipient.None? { return Err(InvalidRecipient); }
    var host := DecodeHexFixed(33, hostHex);
    if host.None? { return Err(InvalidHost); }
    var batchId := DeriveBatchId(d, recipient.value, startIndex);
    var root := BatchRoot(d, recipient.value, batchId, hashes);
    if root.Err? { return Err(root.error); }
    var sig := sign(CommitBytes(recipient.value, host.value, batchId, root.value, |hashes|, createdAt, expiresAt));
    if sig.None? { return Err(SignFailed); }
    HexRoundTrip(host.value);
    HexRoundTrip(batchId);
    HexRoundTrip(root.value);
    var hexHost, hexId, hexRoot := HexStr(host.value), HexStr(batchId), HexStr(root.value);
    return Ok(Commitment(hexHost, hexId, hexRoot, |hashes|, sig.value, createdAt, expiresAt));
  }

  // ----- binding

  /** The bytes that are signed, field by field. */
  lemma CommitLayout(r: PublicKey, h: PublicKey, b: BatchId, m: Hash32, n: u64, c: u64, e: u64)
    ensures var x := CommitBytes(r, h, b, m, n, c, e);
            && |x| == 162 && x[..24] == Ascii("UTEXO_APAY_HASH_BATCH_V1")
            && x[24..57] == r && x[57..90] == h && x[90..106] == b && x[106..138] == m
            && BigEndianValue(x[138..146]) == n && BigEndianValue(x[146..154]) == c && BigEndianValue(x[154..]) == e
  {
    var x := CommitBytes(r, h, b, m, n, c, e);
    assert |BATCH_TAG| == 24;
    assert x[..24] == Ascii(BATCH_TAG);
    assert x[24..57] == r;
    assert x[57..90] == h;
    assert x[90..106] == b;
    assert x[106..138] == m;
    assert x[138..146] == Be64(n);
    assert x[146..154] == Be64(c);
    assert x[154..] == Be64(e);
    Be64RoundTrip(n);
    Be64RoundTrip(c);
    Be64RoundTrip(e);
  }

  lemma CommitBytesInjective(r: PublicKey, h: PublicKey, b: BatchId, m: Hash32, n: u64, c: u64, e: u64,
                             r': PublicKey, h': PublicKey, b': BatchId, m': Hash32, n': u64, c': u64, e': u64)
    requires CommitBytes(r, h, b, m, n, c, e) == CommitBytes(r', h', b', m', n', c', e')
    ensures r == r' && h == h' && b == b' && m == m' && n == n' && c == c' && e == e'
  {
    CommitLayout(r, h, b, m, n, c, e);
    CommitLayout(r', h', b', m', n', c', e');
  }

  lemma LeavesDetermineEntries(recipient: PublicKey, batchId: BatchId, a: seq<Entry>, b: seq<Entry>)
    requires LeavesFor(recipient, batchId, a) == LeavesFor(recipient, batchId, b)
    ensures a == b
  {
    assert |a| == |LeavesFor(recipient, batchId, a)| == |b|;
    forall i | 0 <= i < |a| ensures a[i] == b[i] {
      assert LeavesFor(recipient, batchId, a)[i] == LeavesFor(recipient, batchId, b)[i];
    }
  }

  /** Signed bytes fix the whole batch: recipient, host, id, times, and the exact list of indices and
      payment hashes, in order; or here is a collision. */
  lemma BatchBinding(d: Digest, a: Batch, b: Batch) returns (x: seq<byte>, y: seq<byte>)
    requires InRange(a) && InRange(b)
    requires CommitOf(d, a) == CommitOf(d, b)
    ensures a == b || Collision(d, x, y)
  {
    var ra := BatchRootOf(d, a.recipient, a.batchId, a.entries);
    var rb := BatchRootOf(d, b.recipient, b.batchId, b.entries);
    CommitBytesInjective(a.recipient, a.host, a.batchId, ra, |a.entries|, a.createdAt, a.expiresAt,
                         b.recipient, b.host, b.batchId, rb, |b.entries|, b.createdAt, b.expiresAt);
    var la, lb := LeavesFor(a.recipient, a.batchId, a.entries), LeavesFor(b.recipient, b.batchId, b.entries);
    x, y := RootBinding(d, LeafHashes(d, la), LeafHashes(d, lb));
    if !Collision(d, x, y) {
      x, y := LeafHashesBinding(d, la, lb);
      if la == lb { LeavesDetermineEntries(a.recipient, a.batchId, a.entries, b.entries); }
    }
  }
}
