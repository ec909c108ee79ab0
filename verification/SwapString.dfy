/** The textual form of a swap offer: six fields separated by slashes. */
module SwapString {
  import opened Wrappers
  import opened Text

  /** How contract identifiers of type `C` are printed and parsed. */
  datatype AssetCodec<!C> = AssetCodec(render: C -> string, parse: string -> Option<C>)

  const BTC: string := "btc"

  ghost predicate Faithful<C(!new)>(codec: AssetCodec<C>) {
    forall c: C ::
      && codec.parse(codec.render(c)) == Some(c)
      && codec.render(c) != BTC
      && '/' !in codec.render(c)
  }

  datatype SwapInfo<C> = SwapInfo(
    qtyFrom: u64, qtyTo: u64, fromAsset: Option<C>, toAsset: Option<C>, expiry: u64)

  datatype SwapString<C> = SwapString(info: SwapInfo<C>, paymentHash: Hash32)

  datatype ParseError = WrongNumberOfParts | UnableToParse | NotPositive | SameAsset

  // ----- splitting

  function Split(s: string): (parts: seq<string>)
    ensures parts != []
  {
    if s == "" then [""]
    else
      var rest := Split(s[1..]);
      if s[0] == '/' then [""] + rest else [[s[0]] + rest[0]] + rest[1..]
  }

  lemma {:induction false} SplitOne(part: string)
    requires '/' !in part
    ensures Split(part) == [part]
  {
    if part != "" {
      SplitOne(part[1..]);
      assert part == [part[0]] + part[1..];
    }
  }

  lemma {:induction false} SplitFirst(part: string, rest: string)
    requires '/' !in part
    ensures Split(part + "/" + rest) == [part] + Split(rest)
  {
    var whole := part + "/" + rest;
    if part == "" {
      assert whole[1..] == rest;
    } else {
      SplitFirst(part[1..], rest);
      assert whole[1..] == part[1..] + "/" + rest;
      assert part == [part[0]] + part[1..];
    }
  }

  function Join(parts: seq<string>): string
    requires parts != []
  {
    if |parts| == 1 then parts[0] else parts[0] + "/" + Join(parts[1..])
  }

  lemma {:induction false} SplitJoin(parts: seq<string>)
    requires parts != [] && forall p <- parts :: '/' !in p
    ensures Split(Join(parts)) == parts
  {
    if |parts| == 1 {
      SplitOne(parts[0]);
    } else {
      SplitJoin(parts[1..]);
      SplitFirst(parts[0], Join(parts[1..]));
      assert parts == [parts[0]] + parts[1..];
    }
  }

  lemma JoinFirst(parts: seq<string>)
    requires |parts| > 1
    ensures Join(parts) == parts[0] + "/" + Join(parts[1..])
    ensures |parts| == 2 ==> Join(parts) == parts[0] + "/" + parts[1]
  {
  }

  lemma Associative(a: string, b: string, c: string)
    ensures (a + b) + c == a + (b + c)
  {
  }

  /** A character in front of the first part is in front of the whole. */
  lemma JoinGrows(c: char, parts: seq<string>)
    requires parts != []
    ensures Join([[c] + parts[0]] + parts[1..]) == [c] + Join(parts)
  {
    var longer := [[c] + parts[0]] + parts[1..];
    if |parts| == 1 {
      assert longer == [[c] + parts[0]];
    } else {
      assert longer[1..] == parts[1..];
      JoinFirst(longer);
      JoinFirst(parts);
      Associative([c], parts[0], "/");
      Associative([c], parts[0] + "/", Join(parts[1..]));
    }
  }

  /** The parts of any text are what is between its slashes. */
  lemma {:induction false} SplitExactly(s: string)
    ensures Join(Split(s)) == s
    ensures forall p <- Split(s) :: '/' !in p
  {
    if s != "" {
      var rest := Split(s[1..]);
      SplitExactly(s[1..]);
      if s[0] == '/' {
        JoinFirst([""] + rest);
        assert ([""] + rest)[1..] == rest && "" + "/" + s[1..] == s;
      } else {
        JoinGrows(s[0], rest);
        assert [s[0]] + s[1..] == s && rest[0] in rest;
      }
    }
  }

  // ----- printing and parsing

  function PrintAsset<C>(codec: AssetCodec<C>, asset: Option<C>): string {
    if asset.None? then BTC else codec.render(asset.value)
  }

  function ParseAsset<C>(codec: AssetCodec<C>, s: string): Option<Option<C>> {
    if s == BTC then Some(None)
    else match codec.parse(s)
         case Some(c) => Some(Some(c))
         case None => None
  }

  function Fields<C>(codec: AssetCodec<C>, v: SwapString<C>): seq<string> {
    [DecStr(v.info.qtyFrom), PrintAsset(codec, v.info.fromAsset), DecStr(v.info.qtyTo),
     PrintAsset(codec, v.info.toAsset), DecStr(v.info.expiry), HexStr(v.paymentHash)]
  }

  function Print<C>(codec: AssetCodec<C>, v: SwapString<C>): string {
    Join(Fields(codec, v))
  }

  function Parse<C(==)>(codec: AssetCodec<C>, s: string): Result<SwapString<C>, ParseError> {
    var parts := Split(s);
    if |parts| != 6 then Err(WrongNumberOfParts)
    else ParseParts(codec, parts)
  }

  function ParseParts<C(==)>(codec: AssetCodec<C>, parts: seq<string>): Result<SwapString<C>, ParseError>
    requires |parts| == 6
  {
    var qtyFrom, fromAsset := ParseU64(parts[0]), ParseAsset(codec, parts[1]);
    var qtyTo, toAsset := ParseU64(parts[2]), ParseAsset(codec, parts[3]);
    var expiry, paymentHash := ParseU64(parts[4]), HexDecode(parts[5]);
    if qtyFrom.None? || fromAsset.None? || qtyTo.None? || toAsset.None? || expiry.None?
       || paymentHash.None? || |paymentHash.value| != 32
    then Err(UnableToParse)
    else if qtyFrom.value == 0 || qtyTo.value == 0 || expiry.value == 0 then Err(NotPositive)
    else if fromAsset.value == toAsset.value then Err(SameAsset)
    else Ok(SwapString(SwapInfo(qtyFrom.value, qtyTo.value, fromAsset.value, toAsset.value, expiry.value),
                       paymentHash.value))
  }

  predicate Positive<C>(info: SwapInfo<C>) { info.qtyFrom > 0 && info.qtyTo > 0 && info.expiry > 0 }

  predicate Valid<C(==)>(v: SwapString<C>) { Positive(v.info) && v.info.fromAsset != v.info.toAsset }

  /** The printed form, field by field. */
  lemma PrintedLayout<C>(codec: AssetCodec<C>, v: SwapString<C>)
    ensures var asset := (a: Option<C>) => if a.None? then "btc" else codec.render(a.value);
            var end := DecStr(v.info.expiry) + "/" + HexStr(v.paymentHash);
            var to := DecStr(v.info.qtyTo) + "/" + (asset(v.info.toAsset) + "/" + end);
            Print(codec, v) == DecStr(v.info.qtyFrom) + "/" + (asset(v.info.fromAsset) + "/" + to)
  {
    var f := Fields(codec, v);
    JoinFirst(f[4..]);
    JoinFirst(f[3..]);
    JoinFirst(f[2..]);
    JoinFirst(f[1..]);
    assert f[1..][1..] == f[2..] && f[2..][1..] == f[3..] && f[3..][1..] == f[4..];
  }

  /** A text parses to an offer exactly when it has six parts that stand for its fields and the offer is valid;
      which error it gives otherwise depends on the first of these that fails. */
  lemma ParsedExactly<C(!new)>(codec: AssetCodec<C>, s: string, v: SwapString<C>)
    ensures var parts := Split(s);
            var stands :=
              && |parts| == 6
              && ParseU64(parts[0]) == Some(v.info.qtyFrom) && ParseAsset(codec, parts[1]) == Some(v.info.fromAsset)
              && ParseU64(parts[2]) == Some(v.info.qtyTo) && ParseAsset(codec, parts[3]) == Some(v.info.toAsset)
              && ParseU64(parts[4]) == Some(v.info.expiry) && ParsePaymentHash(parts[5]) == Some(v.paymentHash);
            && (Parse(codec, s) == Ok(v) <==> stands && Valid(v))
            && (stands && !Positive(v.info) ==> Parse(codec, s) == Err(NotPositive))
            && (stands && Positive(v.info) && !Valid(v) ==> Parse(codec, s) == Err(SameAsset))
            && (Parse(codec, s) == Err(WrongNumberOfParts) <==> |parts| != 6)
  {
  }

  // ----- round trips

  lemma AssetRoundTrip<C(!new)>(codec: AssetCodec<C>, asset: Option<C>)
    requires Faithful(codec)
    ensures '/' !in PrintAsset(codec, asset)
    ensures ParseAsset(codec, PrintAsset(codec, asset)) == Some(asset)
  {
  }

  /** What parsing makes of the printed form of any offer: a valid one comes back unchanged, and any
      other is refused for the first rule it breaks. */
  lemma ParsePrinted<C(!new)>(codec: AssetCodec<C>, v: SwapString<C>)
    requires Faithful(codec)
    ensures Parse(codec, Print(codec, v)) ==
      if !Positive(v.info) then Err(NotPositive)
      else if v.info.fromAsset == v.info.toAsset then Err(SameAsset)
      else Ok(v)
    ensures Parse(codec, Print(codec, v)) == Ok(v) <==> Valid(v)
  {
    DecRoundTrip(v.info.qtyFrom);
    DecRoundTrip(v.info.qtyTo);
    DecRoundTrip(v.info.expiry);
    AssetRoundTrip(codec, v.info.fromAsset);
    AssetRoundTrip(codec, v.info.toAsset);
    HexRoundTrip(v.paymentHash);
    SplitJoin(Fields(codec, v));
  }

  /** Whatever text parses, in whatever spelling, printing the result and parsing it again gives the
      same offer. */
  lemma ReparsePrinted<C(!new)>(codec: AssetCodec<C>, s: string)
    requires Faithful(codec)
    requires Parse(codec, s).Ok?
    ensures Valid(Parse(codec, s).value)
    ensures Parse(codec, Print(codec, Parse(codec, s).value)) == Parse(codec, s)
  {
    ParsePrinted(codec, Parse(codec, s).value);
  }
}
