/** Bytes, 64-bit words, and the textual and binary encodings the node uses for them:
    hexadecimal, decimal and fixed-width big-endian. */
module Text {
  import opened Wrappers

  const TWO_64: int := 0x1_0000_0000_0000_0000

  type byte = x: int | 0 <= x < 256
  type u64 = x: int | 0 <= x < TWO_64
  type PublicKey = k: seq<byte> | |k| == 33 witness seq(33, _ => 0)
  type Hash32 = h: seq<byte> | |h| == 32 witness seq(32, _ => 0)

  function SaturatingAdd(a: u64, b: u64): u64 {
    if a + b < TWO_64 then a + b else TWO_64 - 1
  }

  function Min(a: nat, b: nat): nat { if a <= b then a else b }

  function Ascii(s: string): (bytes: seq<byte>)
    ensures |bytes| == |s|
    ensures forall i :: 0 <= i < |s| && s[i] as int < 128 ==> bytes[i] == s[i] as int
  {
    seq(|s|, i requires 0 <= i < |s| => (s[i] as int) % 256)
  }

  // ----- hexadecimal

  function Nibble(c: char): Option<nat> {
    if 'A' <= c <= 'F' then Some((c as int) - ('A' as int) + 10)
    else if 'a' <= c <= 'f' then Some((c as int) - ('a' as int) + 10)
    else if '0' <= c <= '9' then Some((c as int) - ('0' as int))
    else None
  }

  function NibbleChar(n: nat): char
    requires n < 16
  {
    "0123456789abcdef"[n]
  }

  lemma NibbleOfChar(n: nat)
    requires n < 16
    ensures Nibble(NibbleChar(n)) == Some(n)
    ensures '0' <= NibbleChar(n) <= '9' || 'a' <= NibbleChar(n) <= 'f'
  {
    assert NibbleChar(n) == "0123456789abcdef"[n];
  }

  /** Exactly the sixteen digits, in either case. */
  lemma NibbleExactly(c: char)
    ensures Nibble(c).Some? <==> '0' <= c <= '9' || 'a' <= c <= 'f' || 'A' <= c <= 'F'
    ensures Nibble(c).Some? ==>
      && Nibble(c).value < 16
      && (c == "0123456789abcdef"[Nibble(c).value] || c == "0123456789ABCDEF"[Nibble(c).value])
  {
  }

  /** What `hex_str_to_vec` computes: two digits a byte, and a single trailing digit, if there is
      one, is checked and then dropped. */
  function HexDecode(s: string): Option<seq<byte>> {
    if s == "" then Some([])
    else if |s| == 1 then
      if Nibble(s[0]).Some? then Some([]) else None
    else if Nibble(s[0]).None? || Nibble(s[1]).None? then None
    else
      var rest := HexDecode(s[2..]);
      if rest.None? then None
      else
        NibbleBound(s[0]); NibbleBound(s[1]);
        Some([Nibble(s[0]).value * 16 + Nibble(s[1]).value] + rest.value)
  }

  lemma NibbleBound(c: char)
    ensures Nibble(c).Some? ==> Nibble(c).value < 16
  {
  }

  function HexStr(bytes: seq<byte>): string {
    if bytes == [] then ""
    else [NibbleChar(bytes[0] / 16), NibbleChar(bytes[0] % 16)] + HexStr(bytes[1..])
  }

  /** A whole output: what is written already, followed by what is still to come, if it does come. */
  function Prepend(out: seq<byte>, rest: Option<seq<byte>>): Option<seq<byte>> {
    if rest.None? then None else Some(out + rest.value)
  }

  lemma PrependAssociative(out: seq<byte>, chunk: seq<byte>, rest: Option<seq<byte>>)
    ensures Prepend([], rest) == rest
    ensures Prepend(out, Prepend(chunk, rest)) == Prepend(out + chunk, rest)
  {
    if rest.Some? {
      assert [] + rest.value == rest.value;
      assert out + (chunk + rest.value) == (out + chunk) + rest.value;
    }
  }

  /** Two digits at place `i` are a byte, in front of what follows. */
  lemma HexDecodePair(hex: string, i: nat)
    requires i + 1 < |hex| && Nibble(hex[i]).Some? && Nibble(hex[i + 1]).Some?
    ensures Nibble(hex[i]).value * 16 + Nibble(hex[i + 1]).value < 256
    ensures HexDecode(hex[i..]) ==
      Prepend([Nibble(hex[i]).value * 16 + Nibble(hex[i + 1]).value], HexDecode(hex[i + 2..]))
  {
    NibbleBound(hex[i]);
    NibbleBound(hex[i + 1]);
    assert hex[i..][2..] == hex[i + 2..];
  }

  /** The first `p` pairs of digits have been read: `out` are their bytes. */
  ghost predicate Decoded(hex: string, p: nat, out: seq<byte>) {
    2 * p <= |hex| && HexDecode(hex) == Prepend(out, HexDecode(hex[2 * p..]))
  }

  lemma DecodedNone(hex: string)
    ensures Decoded(hex, 0, [])
  {
    assert hex[0..] == hex;
    PrependAssociative([], [], HexDecode(hex));
  }

  lemma DecodedPair(hex: string, p: nat, out: seq<byte>)
    requires Decoded(hex, p, out) && 2 * p + 1 < |hex| && Nibble(hex[2 * p]).Some? && Nibble(hex[2 * p + 1]).Some?
    ensures Nibble(hex[2 * p]).value * 16 + Nibble(hex[2 * p + 1]).value < 256
    ensures Decoded(hex, p + 1, out + [Nibble(hex[2 * p]).value * 16 + Nibble(hex[2 * p + 1]).value])
  {
    HexDecodePair(hex, 2 * p);
    assert 2 * p + 2 == 2 * (p + 1);
    var b: byte := Nibble(hex[2 * p]).value * 16 + Nibble(hex[2 * p + 1]).value;
    PrependAssociative(out, [b], HexDecode(hex[2 * (p + 1)..]));
  }

  /** Anything but a digit makes the decoding of its pair fail, and so the whole. */
  lemma DecodedNothing(hex: string, p: nat, out: seq<byte>, i: nat)
    requires Decoded(hex, p, out) && (i == 2 * p || i == 2 * p + 1) && i < |hex| && Nibble(hex[i]).None?
    ensures HexDecode(hex).None?
  {
    var rest := hex[2 * p..];
    assert rest[i - 2 * p] == hex[i];
    assert HexDecode(rest).None?;
  }

  lemma DecodedAll(hex: string, p: nat, out: seq<byte>)
    requires Decoded(hex, p, out) && |hex| <= 2 * p + 1 && (|hex| == 2 * p + 1 ==> Nibble(hex[2 * p]).Some?)
    ensures HexDecode(hex) == Some(out)
  {
    var rest := hex[2 * p..];
    assert HexDecode(rest) == Some([]);
    assert out + [] == out;
  }

  /** The loop of `hex_str_to_vec`: `b` holds the digit read since the last whole byte. */
  method HexStrToVec(hex: string) returns (r: Option<seq<byte>>)
    ensures r == HexDecode(hex)
  {
    var out: seq<byte> := [];
    var b: nat := 0;
    ghost var p: nat := 0;
    DecodedNone(hex);
    for i := 0 to |hex|
      invariant Decoded(hex, p, out)
      invariant (i == 2 * p && b == 0) || (i == 2 * p + 1 && Nibble(hex[2 * p]) == Some(b))
    {
      var digit := Nibble(hex[i]);
      if digit.None? {
        DecodedNothing(hex, p, out, i);
        return None;
      }
      b := b * 16 + digit.value;
      if i % 2 == 1 {
        DecodedPair(hex, p, out);
        out, b := out + [b], 0;
        p := p + 1;
      }
    }
    DecodedAll(hex, p, out);
    return Some(out);
  }

  lemma HexDecodeByte(b: byte, s: string)
    ensures HexDecode([NibbleChar(b / 16), NibbleChar(b % 16)] + s) == Prepend([b], HexDecode(s))
  {
    NibbleOfChar(b / 16);
    NibbleOfChar(b % 16);
    var longer := [NibbleChar(b / 16), NibbleChar(b % 16)] + s;
    assert longer[2..] == s;
  }

  lemma {:induction false} HexRoundTrip(bytes: seq<byte>)
    ensures HexDecode(HexStr(bytes)) == Some(bytes)
    ensures |HexStr(bytes)| == 2 * |bytes|
    ensures forall c <- HexStr(bytes) :: '0' <= c <= '9' || 'a' <= c <= 'f'
  {
    if bytes != [] {
      HexRoundTrip(bytes[1..]);
      HexDecodeByte(bytes[0], HexStr(bytes[1..]));
      NibbleOfChar(bytes[0] / 16);
      NibbleOfChar(bytes[0] % 16);
      assert bytes == [bytes[0]] + bytes[1..];
    }
  }

  /** A payment hash is 32 bytes of hexadecimal text. */
  function ParsePaymentHash(s: string): Option<Hash32> {
    match HexDecode(s)
    case Some(bytes) => if |bytes| == 32 then Some(bytes) else None
    case None => None
  }

  method ParseHash(s: string) returns (r: Option<Hash32>)
    ensures r == ParsePaymentHash(s)
  {
    var bytes := HexStrToVec(s);
    if bytes.None? || |bytes.value| != 32 { return None; }
    return Some(bytes.value);
  }

  lemma {:induction false} HexDecodeAccepts(s: string)
    ensures HexDecode(s).Some? <==> forall c <- s :: Nibble(c).Some?
    ensures HexDecode(s).Some? ==> |HexDecode(s).value| == |s| / 2
  {
    if |s| >= 2 {
      HexDecodeAccepts(s[2..]);
      assert s == [s[0], s[1]] + s[2..];
    }
  }

  /** Exactly the texts of 64 or 65 hexadecimal digits are payment hashes. */
  lemma PaymentHashAccepted(s: string)
    ensures ParsePaymentHash(s).Some? <==> (forall c <- s :: Nibble(c).Some?) && (|s| == 64 || |s| == 65)
  {
    HexDecodeAccepts(s);
  }

  function Lower(c: char): char { if 'A' <= c <= 'F' then ((c as int) + 32) as char else c }

  lemma SameDigit(a: char, b: char)
    requires Nibble(a).Some? && Nibble(b).Some?
    ensures Nibble(a) == Nibble(b) <==> Lower(a) == Lower(b)
  {
  }

  /** The digits that make up whole bytes agree up to case. */
  ghost predicate SameDigits(s: string, t: string, n: nat)
    requires n <= |s| && n <= |t|
  {
    forall i :: 0 <= i < n ==> Lower(s[i]) == Lower(t[i])
  }

  lemma SameDigitPair(a: char, b: char, c: char, e: char)
    requires Nibble(a).Some? && Nibble(b).Some? && Nibble(c).Some? && Nibble(e).Some?
    ensures Nibble(a).value * 16 + Nibble(b).value == Nibble(c).value * 16 + Nibble(e).value <==>
            Lower(a) == Lower(c) && Lower(b) == Lower(e)
  {
    SameDigit(a, c);
    SameDigit(b, e);
    NibbleBound(a);
    NibbleBound(b);
    NibbleBound(c);
    NibbleBound(e);
  }

  /** Byte `j` is made of the digits at `2 * j` and `2 * j + 1`. */
  ghost predicate ByteOf(s: string, j: nat, b: byte) {
    && 2 * j + 1 < |s| && Nibble(s[2 * j]).Some? && Nibble(s[2 * j + 1]).Some?
    && b == Nibble(s[2 * j]).value * 16 + Nibble(s[2 * j + 1]).value
  }

  lemma {:induction false} HexByteAt(s: string, j: nat)
    requires HexDecode(s).Some? && j < |HexDecode(s).value|
    ensures ByteOf(s, j, HexDecode(s).value[j])
  {
    if j > 0 {
      HexByteAt(s[2..], j - 1);
      assert s[2..][2 * (j - 1)] == s[2 * j] && s[2..][2 * (j - 1) + 1] == s[2 * j + 1];
    }
  }

  lemma SameByte(s: string, t: string, j: nat, a: byte, b: byte)
    requires ByteOf(s, j, a) && ByteOf(t, j, b)
    ensures a == b <==> Lower(s[2 * j]) == Lower(t[2 * j]) && Lower(s[2 * j + 1]) == Lower(t[2 * j + 1])
  {
    SameDigitPair(s[2 * j], s[2 * j + 1], t[2 * j], t[2 * j + 1]);
  }

  ghost predicate BytesOf(s: string, u: seq<byte>) { forall j :: 0 <= j < |u| ==> ByteOf(s, j, u[j]) }

  lemma SameBytes(s: string, t: string, u: seq<byte>, v: seq<byte>)
    requires BytesOf(s, u) && BytesOf(t, v) && |u| == |v| && 2 * |u| <= |s| && 2 * |u| <= |t|
    ensures u == v <==> SameDigits(s, t, 2 * |u|)
  {
    forall j | 0 <= j < |u|
      ensures u[j] == v[j] <==> Lower(s[2 * j]) == Lower(t[2 * j]) && Lower(s[2 * j + 1]) == Lower(t[2 * j + 1])
    {
      assert ByteOf(s, j, u[j]) && ByteOf(t, j, v[j]);
      SameByte(s, t, j, u[j], v[j]);
    }
    if u == v {
      forall i | 0 <= i < 2 * |u| ensures Lower(s[i]) == Lower(t[i]) {
        var j := i / 2;
        assert u[j] == v[j] && (i == 2 * j || i == 2 * j + 1);
      }
    }
  }

  /** Two spellings are the same payment hash exactly when their first 64 digits agree up to case. */
  lemma PaymentHashSpellings(s: string, t: string)
    requires ParsePaymentHash(s).Some? && ParsePaymentHash(t).Some?
    ensures |s| >= 64 && |t| >= 64
    ensures ParsePaymentHash(s) == ParsePaymentHash(t) <==> SameDigits(s, t, 64)
  {
    PaymentHashAccepted(s);
    PaymentHashAccepted(t);
    var u, v := HexDecode(s).value, HexDecode(t).value;
    forall j | 0 <= j < |u| ensures ByteOf(s, j, u[j]) { HexByteAt(s, j); }
    forall j | 0 <= j < |v| ensures ByteOf(t, j, v[j]) { HexByteAt(t, j); }
    SameBytes(s, t, u, v);
  }

  /** So every payment hash has spellings of 65 digits. */
  lemma TrailingDigitIgnored(hash: Hash32, c: char)
    requires Nibble(c).Some?
    ensures ParsePaymentHash(HexStr(hash) + [c]) == Some(hash)
  {
    var s, t := HexStr(hash), HexStr(hash) + [c];
    HexRoundTrip(hash);
    HexDecodeAccepts(s);
    PaymentHashAccepted(t);
    PaymentHashSpellings(s, t);
  }

  /** White space as the node trims it: the ASCII kinds. */
  predicate IsSpace(c: char) { c == ' ' || '\t' <= c <= '\r' }

  function TrimLeft(s: string): string {
    if s != "" && IsSpace(s[0]) then TrimLeft(s[1..]) else s
  }

  function TrimRight(s: string): string {
    if s != "" && IsSpace(s[|s| - 1]) then TrimRight(s[..|s| - 1]) else s
  }

  function Trim(s: string): string { TrimRight(TrimLeft(s)) }

  predicate AllSpace(s: string) { forall c <- s :: IsSpace(c) }

  lemma {:induction false} TrimmedLeft(left: string, s: string)
    requires AllSpace(left) && (s == "" || !IsSpace(s[0]))
    ensures TrimLeft(left + s) == s
  {
    if left == "" {
      assert left + s == s;
    } else {
      TrimmedLeft(left[1..], s);
      assert (left + s)[1..] == left[1..] + s && left[0] in left;
    }
  }

  lemma {:induction false} TrimmedRight(s: string, right: string)
    requires AllSpace(right) && (s == "" || !IsSpace(s[|s| - 1]))
    ensures TrimRight(s + right) == s
  {
    var n := |right| - 1;
    if right == "" {
      assert s + right == s;
    } else {
      TrimmedRight(s, right[..n]);
      assert (s + right)[..|s| + n] == s + right[..n] && right[n] in right;
    }
  }

  /** Trimming takes away exactly the white space around a text. */
  lemma Trimmed(left: string, s: string, right: string)
    requires AllSpace(left) && AllSpace(right) && s != "" && !IsSpace(s[0]) && !IsSpace(s[|s| - 1])
    ensures Trim(left + s + right) == s
  {
    assert left + s + right == left + (s + right);
    TrimmedLeft(left, s + right);
    TrimmedRight(s, right);
  }

  lemma {:induction false} HexHasNoSpace(bytes: seq<byte>)
    ensures forall c <- HexStr(bytes) :: !IsSpace(c)
  {
    if bytes != [] {
      HexHasNoSpace(bytes[1..]);
      assert forall n: nat :: n < 16 ==> !IsSpace(NibbleChar(n));
    }
  }

  lemma TrimmedHex(bytes: seq<byte>)
    ensures Trim(HexStr(bytes)) == HexStr(bytes)
  {
    HexHasNoSpace(bytes);
  }

  /** The bytes of exactly `n`-byte hexadecimal text, with white space around it ignored. */
  function HexFixed(n: nat, s: string): (r: Option<seq<byte>>)
    ensures r.Some? ==> |r.value| == n
  {
    HexDecodeAccepts(Trim(s));
    if |Trim(s)| == 2 * n then HexDecode(Trim(s)) else None
  }

  /** Whatever the white space around it, the hexadecimal text of `n` bytes is accepted for just these bytes, and no
      text of another length is. */
  lemma HexFixedExactly(n: nat, left: string, s: string, right: string)
    requires AllSpace(left) && AllSpace(right) && s != "" && !IsSpace(s[0]) && !IsSpace(s[|s| - 1])
    ensures HexFixed(n, left + s + right).Some? <==> |s| == 2 * n && forall c <- s :: Nibble(c).Some?
    ensures HexFixed(n, left + s + right).Some? ==> HexFixed(n, left + s + right) == HexDecode(s)
  {
    Trimmed(left, s, right);
    HexDecodeAccepts(s);
  }

  // ----- decimal

  predicate IsDigit(c: char) { '0' <= c <= '9' }

  function DigitChar(n: nat): char
    requires n < 10
  {
    "0123456789"[n]
  }

  function DecStr(n: nat): string {
    if n < 10 then [DigitChar(n)] else DecStr(n / 10) + [DigitChar(n % 10)]
  }

  function DigitsValue(s: string): nat
    requires forall c <- s :: IsDigit(c)
  {
    if s == "" then 0
    else
      assert IsDigit(s[|s| - 1]);
      DigitsValue(s[..|s| - 1]) * 10 + ((s[|s| - 1] as int) - ('0' as int))
  }

  /** Parsing of an unsigned 64-bit number: an optional plus sign, then at least one digit, leading
      zeros allowed, and the value has to fit. */
  function ParseU64(s: string): Option<u64> {
    var digits := if s != "" && s[0] == '+' then s[1..] else s;
    if digits == "" || exists c <- digits :: !IsDigit(c) then None
    else if DigitsValue(digits) < TWO_64 then Some(DigitsValue(digits))
    else None
  }

  lemma DigitsValueLast(s: string, d: nat)
    requires d < 10 && forall c <- s :: IsDigit(c)
    ensures IsDigit(DigitChar(d)) && DigitsValue(s + [DigitChar(d)]) == DigitsValue(s) * 10 + d
  {
    assert DigitChar(d) == "0123456789"[d];
    assert (s + [DigitChar(d)])[..|s|] == s;
  }

  lemma {:induction false} DecStrValue(n: nat)
    ensures DecStr(n) != ""
    ensures forall c <- DecStr(n) :: IsDigit(c)
    ensures DigitsValue(DecStr(n)) == n
    ensures |DecStr(n)| > 1 ==> DecStr(n)[0] != '0'
  {
    if n < 10 {
      DigitsValueLast("", n);
      assert "" + [DigitChar(n)] == DecStr(n);
    } else {
      DecStrValue(n / 10);
      DigitsValueLast(DecStr(n / 10), n % 10);
    }
  }

  lemma DecRoundTrip(n: u64)
    ensures ParseU64(DecStr(n)) == Some(n)
    ensures '/' !in DecStr(n)
  {
    DecStrValue(n);
    assert DecStr(n)[0] in DecStr(n);
  }

  lemma {:induction false} LeadingZero(s: string)
    requires forall c <- s :: IsDigit(c)
    ensures (forall c <- "0" + s :: IsDigit(c)) && DigitsValue("0" + s) == DigitsValue(s)
  {
    if s == "" {
      assert "0" + s == "0" && "0"[..0] == "";
    } else {
      var n := |s| - 1;
      LeadingZero(s[..n]);
      assert ("0" + s)[..n + 1] == "0" + s[..n];
    }
  }

  /** The texts that stand for a number: its decimal digits, with any number of zeros and then at most one plus
      sign in front. A number that does not fit has none. */
  lemma NumberSpellings(s: string, n: u64)
    requires s != "" && forall c <- s :: IsDigit(c)
    ensures ParseU64(s) == ParseU64("0" + s) == ParseU64("+" + s)
    ensures ParseU64(s) == Some(n) <==> DigitsValue(s) == n
    ensures ParseU64(s) == None <==> DigitsValue(s) >= TWO_64
  {
    LeadingZero(s);
    assert s[0] in s && ("0" + s)[0] == '0' && ("+" + s)[1..] == s;
  }

  /** Anything but a digit, except a plus sign in front of digits, makes a text no number. */
  lemma NotANumber(s: string, i: nat)
    requires s == "" || s == "+" || (i < |s| && !IsDigit(s[i]) && (i > 0 || s[0] != '+'))
    ensures ParseU64(s) == None
  {
    if s != "" && s != "+" {
      var digits := if s[0] == '+' then s[1..] else s;
      assert s[i] in digits;
    }
  }

  // ----- fixed-width big-endian numbers

  function Pow256(k: nat): nat { if k == 0 then 1 else 256 * Pow256(k - 1) }

  function BigEndian(n: nat, k: nat): (bytes: seq<byte>)
    ensures |bytes| == k
  {
    if k == 0 then [] else BigEndian(n / 256, k - 1) + [n % 256]
  }

  /** The number that bytes stand for, the most significant first. */
  function BigEndianValue(bytes: seq<byte>): nat {
    if bytes == [] then 0 else BigEndianValue(bytes[..|bytes| - 1]) * 256 + bytes[|bytes| - 1]
  }

  lemma {:induction false} BigEndianRoundTrip(n: nat, k: nat)
    requires n < Pow256(k)
    ensures BigEndianValue(BigEndian(n, k)) == n
  {
    if k != 0 {
      BigEndianRoundTrip(n / 256, k - 1);
      assert BigEndian(n, k)[..k - 1] == BigEndian(n / 256, k - 1);
    }
  }

  function Be64(n: u64): (bytes: seq<byte>)
    ensures |bytes| == 8
  {
    BigEndian(n, 8)
  }

  lemma Be64RoundTrip(n: u64)
    ensures BigEndianValue(Be64(n)) == n
  {
    assert Pow256(4) == 0x1_0000_0000;
    assert Pow256(8) == 256 * (256 * (256 * (256 * Pow256(4))));
    BigEndianRoundTrip(n, 8);
  }
}
