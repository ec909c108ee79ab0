/** Chunked streaming encryption of a backup file.

    The authenticated cipher is a parameter: sealing and opening take the position of the chunk and
    whether it is the last one. A file read may return fewer bytes than were asked for. */
module Backup {
  import opened Wrappers
  import opened Text

  const ENCRYPT_LEN: nat := 239
  const TAG_LEN: nat := 16
  const DECRYPT_LEN: nat := ENCRYPT_LEN + TAG_LEN
  /** The stream cipher refuses to use its greatest 32-bit position for a chunk that is not the last. */
  const POSITION_MAX: nat := 0xffff_ffff

  datatype Aead = Aead(
    seal: (nat, bool, seq<byte>) -> seq<byte>,
    open: (nat, bool, seq<byte>) -> Option<seq<byte>>)

  ghost predicate Sound(a: Aead) {
    && (forall pos, last, p :: |a.seal(pos, last, p)| == |p| + TAG_LEN)
    && (forall pos, last, p :: a.open(pos, last, a.seal(pos, last, p)) == Some(p))
  }

  /** A file, with how many bytes the system is willing to give at each offset. */
  datatype File = File(content: seq<byte>, willing: nat -> nat)

  /** How many bytes one read at `off` gives: none exactly at the end of the file. */
  function ReadCount(f: File, off: nat, capacity: nat): (n: nat)
    requires capacity > 0
    ensures off + n <= |f.content| || n == 0
    ensures n <= capacity
    ensures n == 0 <==> off >= |f.content|
  {
    if off >= |f.content| then 0
    else
      var n := Min(f.willing(off), Min(capacity, |f.content| - off));
      if n == 0 then 1 else n
  }

  /** The reads that start at a chunk boundary fill the buffer, or reach the end. */
  ghost predicate ChunkReadsFill(f: File, capacity: nat)
    requires capacity > 0
  {
    ChunkReadsFillFrom(f, 0, capacity)
  }

  ghost predicate ChunkReadsFillFrom(f: File, off: nat, capacity: nat)
    requires capacity > 0
    decreases |f.content| - off
  {
    off < |f.content| ==>
      && ReadCount(f, off, capacity) == Min(capacity, |f.content| - off)
      && ChunkReadsFillFrom(f, off + capacity, capacity)
  }

  // ----- what the two loops compute

  function EncryptFrom(a: Aead, f: File, off: nat, pos: nat): Option<seq<byte>>
    requires off <= |f.content|
    decreases |f.content| - off
  {
    var n := ReadCount(f, off, ENCRYPT_LEN);
    var chunk := f.content[off..off + n];
    if n < ENCRYPT_LEN then Some(a.seal(pos, true, chunk))
    else if pos >= POSITION_MAX then None
    else Prepend(a.seal(pos, false, chunk), EncryptFrom(a, f, off + n, pos + 1))
  }

  function DecryptFrom(a: Aead, f: File, off: nat, pos: nat): Option<seq<byte>>
    requires off <= |f.content|
    decreases |f.content| - off
  {
    var n := ReadCount(f, off, DECRYPT_LEN);
    var chunk := f.content[off..off + n];
    if n == 0 then Some([])
    else if n < DECRYPT_LEN then a.open(pos, true, chunk)
    else if pos >= POSITION_MAX then None
    else
      match a.open(pos, false, chunk)
      case None => None
      case Some(plain) => Prepend(plain, DecryptFrom(a, f, off + n, pos + 1))
  }

  method EncryptFile(a: Aead, source: File) returns (r: Option<seq<byte>>)
    ensures r == EncryptFrom(a, source, 0, 0)
  {
    var out: seq<byte> := [];
    var off, pos := 0, 0;
    PrependAssociative(out, [], EncryptFrom(a, source, 0, 0));
    while true
      invariant off <= |source.content|
      invariant EncryptFrom(a, source, 0, 0) == Prepend(out, EncryptFrom(a, source, off, pos))
      decreases |source.content| - off
    {
      var n := ReadCount(source, off, ENCRYPT_LEN);
      var buffer := source.content[off..off + n];
      if n == ENCRYPT_LEN {
        if pos >= POSITION_MAX { return None; }
        PrependAssociative(out, a.seal(pos, false, buffer), EncryptFrom(a, source, off + n, pos + 1));
        out := out + a.seal(pos, false, buffer);
        off, pos := off + n, pos + 1;
      } else {
        out := out + a.seal(pos, true, buffer);
        break;
      }
    }
    return Some(out);
  }

  method DecryptFile(a: Aead, source: File) returns (r: Option<seq<byte>>)
    ensures r == DecryptFrom(a, source, 0, 0)
  {
    var out: seq<byte> := [];
    var off, pos := 0, 0;
    PrependAssociative(out, [], DecryptFrom(a, source, 0, 0));
    while true
      invariant off <= |source.content|
      invariant DecryptFrom(a, source, 0, 0) == Prepend(out, DecryptFrom(a, source, off, pos))
      decreases |source.content| - off
    {
      var n := ReadCount(source, off, DECRYPT_LEN);
      var buffer := source.content[off..off + n];
      if n == DECRYPT_LEN {
        if pos >= POSITION_MAX { return None; }
        var plain := a.open(pos, false, buffer);
        if plain.None? { return None; }
        PrependAssociative(out, plain.value, DecryptFrom(a, source, off + n, pos + 1));
        out := out + plain.value;
        off, pos := off + n, pos + 1;
      } else if n == 0 {
        assert out + [] == out;
        break;
      } else {
        var plain := a.open(pos, true, buffer);
        if plain.None? { return None; }
        out := out + plain.value;
        break;
      }
    }
    return Some(out);
  }

  // ----- where encryption stops

  /** Encryption stops at the first read that does not fill the buffer. */
  function Consumed(f: File, off: nat): (end: nat)
    requires off <= |f.content|
    ensures off <= end <= |f.content|
    decreases |f.content| - off
  {
    var n := ReadCount(f, off, ENCRYPT_LEN);
    if n < ENCRYPT_LEN then off + n else Consumed(f, off + n)
  }

  lemma {:induction false} ConsumedAllFrom(f: File, off: nat)
    requires off <= |f.content|
    ensures Consumed(f, off) == |f.content| <==> ChunkReadsFillFrom(f, off, ENCRYPT_LEN)
    decreases |f.content| - off
  {
    var n := ReadCount(f, off, ENCRYPT_LEN);
    if n == ENCRYPT_LEN {
      ConsumedAllFrom(f, off + n);
    }
  }

  lemma {:induction false} WillingReadsFill(f: File, off: nat, capacity: nat)
    requires capacity > 0 && forall at :: f.willing(at) >= capacity
    ensures ChunkReadsFillFrom(f, off, capacity)
    decreases |f.content| - off
  {
    if off < |f.content| { WillingReadsFill(f, off + capacity, capacity); }
  }

  // ----- round trip

  /** The first chunk of what decryption reads is the chunk that was sealed, and the rest follows it. */
  lemma SealedPrefix(cipher: File, coff: nat, sealed: seq<byte>, rest: seq<byte>)
    requires coff <= |cipher.content| && cipher.content[coff..] == sealed + rest
    ensures coff + |sealed| <= |cipher.content| && cipher.content[coff..coff + |sealed|] == sealed
    ensures cipher.content[coff + |sealed|..] == rest
  {
    var all := cipher.content[coff..];
    assert all[..|sealed|] == sealed && all[|sealed|..] == rest;
  }

  /** Decrypting at a sealed chunk that is not the last gives the chunk and goes on behind it, if the read
      fills the buffer. */
  lemma DecryptChunk(a: Aead, cipher: File, coff: nat, pos: nat, chunk: seq<byte>, rest: seq<byte>)
    requires Sound(a) && |chunk| == ENCRYPT_LEN && pos < POSITION_MAX
    requires coff <= |cipher.content| && cipher.content[coff..] == a.seal(pos, false, chunk) + rest
    ensures coff + DECRYPT_LEN <= |cipher.content| && cipher.content[coff + DECRYPT_LEN..] == rest
    ensures ReadCount(cipher, coff, DECRYPT_LEN) == DECRYPT_LEN ==>
      DecryptFrom(a, cipher, coff, pos) == Prepend(chunk, DecryptFrom(a, cipher, coff + DECRYPT_LEN, pos + 1))
  {
    SealedPrefix(cipher, coff, a.seal(pos, false, chunk), rest);
  }

  lemma DecryptLast(a: Aead, cipher: File, coff: nat, pos: nat, chunk: seq<byte>)
    requires Sound(a) && |chunk| < ENCRYPT_LEN
    requires coff <= |cipher.content| && cipher.content[coff..] == a.seal(pos, true, chunk)
    ensures ReadCount(cipher, coff, DECRYPT_LEN) == |cipher.content| - coff ==>
      DecryptFrom(a, cipher, coff, pos) == Some(chunk)
  {
    var sealed := a.seal(pos, true, chunk);
    assert sealed + [] == sealed;
    SealedPrefix(cipher, coff, sealed, []);
  }

  lemma SlicesJoin(s: seq<byte>, i: nat, j: nat, k: nat)
    requires i <= j <= k <= |s|
    ensures s[i..j] + s[j..k] == s[i..k]
  {
  }

  lemma {:induction false} DecryptUndoesFrom(a: Aead, plain: File, off: nat, cipher: File, coff: nat, pos: nat)
    requires Sound(a) && off <= |plain.content| && coff <= |cipher.content|
    requires EncryptFrom(a, plain, off, pos) == Some(cipher.content[coff..])
    requires ChunkReadsFillFrom(cipher, coff, DECRYPT_LEN)
    ensures DecryptFrom(a, cipher, coff, pos) == Some(plain.content[off..Consumed(plain, off)])
    decreases |plain.content| - off
  {
    var n := ReadCount(plain, off, ENCRYPT_LEN);
    var chunk := plain.content[off..off + n];
    if n < ENCRYPT_LEN {
      DecryptLast(a, cipher, coff, pos, chunk);
    } else {
      DecryptChunk(a, cipher, coff, pos, chunk, EncryptFrom(a, plain, off + n, pos + 1).value);
      DecryptUndoesFrom(a, plain, off + n, cipher, coff + DECRYPT_LEN, pos + 1);
      SlicesJoin(plain.content, off, off + n, Consumed(plain, off));
    }
  }

  /** Decrypting what encryption wrote, with reads that fill the buffer at its chunk boundaries, gives back the
      file exactly when the reads at the chunk boundaries of the file filled the buffer too; otherwise it gives
      only the bytes before the first short read. */
  lemma DecryptUndoesEncrypt(a: Aead, plain: File, cipher: File)
    requires Sound(a) && ChunkReadsFill(cipher, DECRYPT_LEN)
    requires EncryptFrom(a, plain, 0, 0) == Some(cipher.content)
    ensures DecryptFrom(a, cipher, 0, 0) == Some(plain.content[..Consumed(plain, 0)])
    ensures DecryptFrom(a, cipher, 0, 0) == Some(plain.content) <==> ChunkReadsFill(plain, ENCRYPT_LEN)
  {
    assert cipher.content[0..] == cipher.content;
    DecryptUndoesFrom(a, plain, 0, cipher, 0, 0);
    ConsumedAllFrom(plain, 0);
    if Consumed(plain, 0) == |plain.content| { assert plain.content[..|plain.content|] == plain.content; }
  }

  // ----- short reads while decrypting

  /** What sealing a chunk of this file at this position gives. */
  ghost predicate Sealed(a: Aead, plain: File, off: nat, pos: nat, at: nat, c: seq<byte>)
    requires off <= |plain.content|
    decreases |plain.content| - off
  {
    var n := ReadCount(plain, off, ENCRYPT_LEN);
    var last := n < ENCRYPT_LEN;
    || (at == pos && c == a.seal(pos, last, plain.content[off..off + n]))
    || (!last && Sealed(a, plain, off + n, pos + 1, at, c))
  }

  /** No beginning of a sealed chunk opens as a last chunk. */
  ghost predicate TruncationsRefused(a: Aead, plain: File, off: nat, pos: nat)
    requires off <= |plain.content|
  {
    forall at, c, m :: Sealed(a, plain, off, pos, at, c) && 0 <= m < |c| ==> a.open(at, true, c[..m]).None?
  }

  lemma RefusedFurther(a: Aead, plain: File, off: nat, pos: nat)
    requires off <= |plain.content| && ReadCount(plain, off, ENCRYPT_LEN) == ENCRYPT_LEN
    requires TruncationsRefused(a, plain, off, pos)
    ensures TruncationsRefused(a, plain, off + ENCRYPT_LEN, pos + 1)
  {
    forall at, c, m | Sealed(a, plain, off + ENCRYPT_LEN, pos + 1, at, c) && 0 <= m < |c|
      ensures a.open(at, true, c[..m]).None?
    {
      assert Sealed(a, plain, off, pos, at, c);
    }
  }

  /** A short read at a sealed chunk ends in failure. */
  lemma ShortReadFails(a: Aead, plain: File, off: nat, cipher: File, coff: nat, pos: nat, sealed: seq<byte>,
                       rest: seq<byte>)
    requires off <= |plain.content| && TruncationsRefused(a, plain, off, pos) && Sealed(a, plain, off, pos, pos, sealed)
    requires coff <= |cipher.content| && cipher.content[coff..] == sealed + rest && |sealed| <= DECRYPT_LEN
    requires 0 < ReadCount(cipher, coff, DECRYPT_LEN) < |sealed|
    ensures DecryptFrom(a, cipher, coff, pos).None?
  {
    SealedPrefix(cipher, coff, sealed, rest);
    var n := ReadCount(cipher, coff, DECRYPT_LEN);
    assert cipher.content[coff..coff + n] == sealed[..n];
  }

  lemma {:induction false} DecryptFailsFrom(a: Aead, plain: File, off: nat, cipher: File, coff: nat, pos: nat)
    requires Sound(a) && off <= |plain.content| && coff <= |cipher.content|
    requires TruncationsRefused(a, plain, off, pos)
    requires EncryptFrom(a, plain, off, pos) == Some(cipher.content[coff..])
    requires !ChunkReadsFillFrom(cipher, coff, DECRYPT_LEN)
    ensures DecryptFrom(a, cipher, coff, pos).None?
    decreases |plain.content| - off
  {
    var n, m := ReadCount(plain, off, ENCRYPT_LEN), ReadCount(cipher, coff, DECRYPT_LEN);
    var chunk := plain.content[off..off + n];
    var sealed := a.seal(pos, n < ENCRYPT_LEN, chunk);
    if n < ENCRYPT_LEN {
      assert sealed + [] == sealed;
      ShortReadFails(a, plain, off, cipher, coff, pos, sealed, []);
    } else {
      var rest := EncryptFrom(a, plain, off + n, pos + 1).value;
      DecryptChunk(a, cipher, coff, pos, chunk, rest);
      if m < DECRYPT_LEN {
        ShortReadFails(a, plain, off, cipher, coff, pos, sealed, rest);
      } else {
        RefusedFurther(a, plain, off, pos);
        DecryptFailsFrom(a, plain, off + n, cipher, coff + DECRYPT_LEN, pos + 1);
      }
    }
  }

  /** With a cipher that opens no beginning of a sealed chunk, decrypting what encryption wrote succeeds exactly
      when the reads at the chunk boundaries filled the buffer: a short read is noticed, and never gives back
      less than was encrypted. */
  lemma DecryptSucceedsExactly(a: Aead, plain: File, cipher: File)
    requires Sound(a) && TruncationsRefused(a, plain, 0, 0)
    requires EncryptFrom(a, plain, 0, 0) == Some(cipher.content)
    ensures DecryptFrom(a, cipher, 0, 0) ==
      if ChunkReadsFill(cipher, DECRYPT_LEN) then Some(plain.content[..Consumed(plain, 0)]) else None
  {
    assert cipher.content[0..] == cipher.content;
    if ChunkReadsFill(cipher, DECRYPT_LEN) {
      DecryptUndoesEncrypt(a, plain, cipher);
    } else {
      DecryptFailsFrom(a, plain, 0, cipher, 0, 0);
    }
  }

  /** A file of two whole chunks whose first read gives only 100 bytes comes back as those 100 bytes. */
  lemma ShortReadTruncates(a: Aead)
    requires Sound(a)
    ensures var plain := File(seq(478, _ => 0), off => if off == 0 then 100 else ENCRYPT_LEN);
            && EncryptFrom(a, plain, 0, 0).Some?
            && DecryptFrom(a, File(EncryptFrom(a, plain, 0, 0).value, _ => DECRYPT_LEN), 0, 0) ==
              Some(plain.content[..100])
            && !ChunkReadsFill(plain, ENCRYPT_LEN)
  {
    var plain := File(seq(478, _ => 0), off => if off == 0 then 100 else ENCRYPT_LEN);
    assert ReadCount(plain, 0, ENCRYPT_LEN) == 100;
    var cipher := File(EncryptFrom(a, plain, 0, 0).value, _ => DECRYPT_LEN);
    WillingReadsFill(cipher, 0, DECRYPT_LEN);
    DecryptUndoesEncrypt(a, plain, cipher);
  }

  lemma {:induction false} EncryptedLengthFrom(a: Aead, f: File, off: nat, pos: nat)
    requires Sound(a) && off <= |f.content| && ChunkReadsFillFrom(f, off, ENCRYPT_LEN)
    ensures EncryptFrom(a, f, off, pos).Some? <==>
      pos + (|f.content| - off) / ENCRYPT_LEN <= POSITION_MAX || |f.content| - off < ENCRYPT_LEN
    ensures EncryptFrom(a, f, off, pos).Some? ==>
      |EncryptFrom(a, f, off, pos).value| == |f.content| - off + TAG_LEN * ((|f.content| - off) / ENCRYPT_LEN + 1)
    decreases |f.content| - off
  {
    var left := |f.content| - off;
    if left >= ENCRYPT_LEN {
      EncryptedLengthFrom(a, f, off + ENCRYPT_LEN, pos + 1);
      assert (left - ENCRYPT_LEN) / ENCRYPT_LEN == left / ENCRYPT_LEN - 1;
    }
  }

  /** What is at the place of the `i`-th chunk: the next 239 bytes of the file sealed at position `i`, or what is
      left of it sealed as the last. */
  ghost predicate ChunkAt(a: Aead, content: seq<byte>, pos: nat, out: seq<byte>, i: nat) {
    && 239 * i <= |content| && 255 * i <= |out|
    && if 239 * (i + 1) <= |content|
       then 255 * (i + 1) <= |out|
            && out[255 * i..255 * (i + 1)] == a.seal(pos + i, false, content[239 * i..239 * (i + 1)])
       else out[255 * i..] == a.seal(pos + i, true, content[239 * i..])
  }

  /** A chunk behind the first is one of what comes after the first. */
  lemma ChunkBehind(a: Aead, content: seq<byte>, pos: nat, first: seq<byte>, rest: seq<byte>, i: nat)
    requires |content| >= 239 && |first| == 255 && ChunkAt(a, content[239..], pos + 1, rest, i)
    ensures ChunkAt(a, content, pos, first + rest, i + 1)
  {
    var out, left := first + rest, content[239..];
    assert out[255..] == rest;
    if 239 * (i + 2) <= |content| {
      assert out[255 * (i + 1)..255 * (i + 2)] == rest[255 * i..255 * (i + 1)];
      assert content[239 * (i + 1)..239 * (i + 2)] == left[239 * i..239 * (i + 1)];
    } else {
      assert out[255 * (i + 1)..] == rest[255 * i..];
      assert content[239 * (i + 1)..] == left[239 * i..];
    }
  }

  lemma {:induction false} ChunksFrom(a: Aead, f: File, off: nat, pos: nat, out: seq<byte>, i: nat)
    requires Sound(a) && off <= |f.content| && ChunkReadsFillFrom(f, off, ENCRYPT_LEN)
    requires EncryptFrom(a, f, off, pos) == Some(out) && 239 * i <= |f.content| - off
    ensures ChunkAt(a, f.content[off..], pos, out, i)
    decreases i
  {
    if i == 0 {
      FirstFrom(a, f, off, pos, out);
    } else {
      var rest := EncryptsChunk(a, f, off, pos, out);
      ChunksFrom(a, f, off + 239, pos + 1, rest, i - 1);
      ChunkBehind(a, f.content[off..], pos, a.seal(pos, false, f.content[off..][..239]), rest, i - 1);
    }
  }

  lemma FirstFrom(a: Aead, f: File, off: nat, pos: nat, out: seq<byte>)
    requires Sound(a) && off <= |f.content| && ChunkReadsFillFrom(f, off, ENCRYPT_LEN)
    requires EncryptFrom(a, f, off, pos) == Some(out)
    ensures ChunkAt(a, f.content[off..], pos, out, 0)
  {
    var content := f.content[off..];
    if |content| < 239 {
      assert content == f.content[off..off + |content|];
      OnlyChunk(a, content, pos);
    } else {
      var rest := EncryptsChunk(a, f, off, pos, out);
      FirstChunk(a, content, pos, rest);
    }
  }

  lemma OnlyChunk(a: Aead, content: seq<byte>, pos: nat)
    requires |content| < 239
    ensures ChunkAt(a, content, pos, a.seal(pos, true, content), 0)
  {
    var out := a.seal(pos, true, content);
    assert out[0..] == out && content[0..] == content;
  }

  lemma FirstChunk(a: Aead, content: seq<byte>, pos: nat, rest: seq<byte>)
    requires Sound(a) && |content| >= 239
    ensures ChunkAt(a, content, pos, a.seal(pos, false, content[..239]) + rest, 0)
  {
    var first := a.seal(pos, false, content[..239]);
    assert |first| == 255 && (first + rest)[0..255] == first && content[0..239] == content[..239];
  }

  /** A whole chunk is sealed first, and the rest follows it. */
  lemma EncryptsChunk(a: Aead, f: File, off: nat, pos: nat, out: seq<byte>) returns (rest: seq<byte>)
    requires Sound(a) && off + 239 <= |f.content| && ChunkReadsFillFrom(f, off, ENCRYPT_LEN)
    requires EncryptFrom(a, f, off, pos) == Some(out)
    ensures EncryptFrom(a, f, off + 239, pos + 1) == Some(rest) && ChunkReadsFillFrom(f, off + 239, ENCRYPT_LEN)
    ensures var content := f.content[off..];
            out == a.seal(pos, false, content[..239]) + rest && content[239..] == f.content[off + 239..]
  {
    rest := EncryptFrom(a, f, off + 239, pos + 1).value;
    assert f.content[off..][..239] == f.content[off..off + 239];
  }

  /** The ciphertext, chunk by chunk, for reads that fill the buffer. */
  lemma CiphertextChunks(a: Aead, f: File, out: seq<byte>, i: nat)
    requires Sound(a) && ChunkReadsFill(f, ENCRYPT_LEN) && EncryptFrom(a, f, 0, 0) == Some(out)
    requires 239 * i <= |f.content|
    ensures ChunkAt(a, f.content, 0, out, i)
  {
    ChunksFrom(a, f, 0, 0, out, i);
    assert f.content[0..] == f.content;
  }

  /** Encryption succeeds exactly when the chunk counter does not run out, and the ciphertext has one
      tag for each whole chunk and one for the last, possibly empty, chunk. */
  lemma EncryptedLength(a: Aead, f: File)
    requires Sound(a) && ChunkReadsFill(f, ENCRYPT_LEN)
    ensures EncryptFrom(a, f, 0, 0).Some? <==> |f.content| / 239 < 0x1_0000_0000
    ensures EncryptFrom(a, f, 0, 0).Some? ==>
      |EncryptFrom(a, f, 0, 0).value| == |f.content| + 16 * (|f.content| / 239 + 1)
  {
    EncryptedLengthFrom(a, f, 0, 0);
  }

  /** With reads that fill the buffer and a counter that does not run out, the round trip always
      succeeds, the empty file and whole numbers of chunks included. */
  lemma BackupRoundTrip(a: Aead, plain: File, willing: nat -> nat)
    requires Sound(a) && ChunkReadsFill(plain, ENCRYPT_LEN)
    requires |plain.content| / ENCRYPT_LEN <= POSITION_MAX
    ensures EncryptFrom(a, plain, 0, 0).Some?
    ensures var cipher := File(EncryptFrom(a, plain, 0, 0).value, willing);
            ChunkReadsFill(cipher, DECRYPT_LEN) ==> DecryptFrom(a, cipher, 0, 0) == Some(plain.content)
  {
    EncryptedLength(a, plain);
    var cipher := File(EncryptFrom(a, plain, 0, 0).value, willing);
    if ChunkReadsFill(cipher, DECRYPT_LEN) { DecryptUndoesEncrypt(a, plain, cipher); }
  }
}
