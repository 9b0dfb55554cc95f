/** The native state envelope, prefix descriptor and id texts, as bytes. */
module NativeCodec {
  import opened Wrappers
  import opened Bytes
  import opened Datums
  import opened DatumParsing

  const U32_LIMIT: nat := 0x1_0000_0000

  datatype ContentId = ContentId(algorithm: Symbol, digest: seq<byte>)

  datatype Head = Head(sequence: nat, entry: ContentId)

  datatype Location = Location(namespace: Text, sequence: nat, entry: ContentId, storage: ContentId)

  datatype PrefixRef = PrefixRef(entries: nat, physicalHead: Head, canonicalHead: Head, descriptor: ContentId)

  datatype Envelope = Envelope(
    fence: nat, namespace: Text, prefix: Option<PrefixRef>, head: Option<Head>, headLocation: Option<Location>)

  // ---------------------------------------------------------------------------------------------
  // Symbols as text

  /** The unqualified names that the kernel's check lets through. */
  type Accepts = iset<Text>

  const SLASH: byte := 0x2F

  /** `as_qualified_str` */
  function QualifiedText(s: Symbol): Text {
    if s.namespace.Some? then s.namespace.value + [SLASH] + s.name else s.name
  }

  /** The position of the first `b`, or the length. */
  function FirstOf(t: Text, b: byte): (n: nat)
    ensures n <= |t| && (n < |t| ==> t[n] == b)
  {
    if t == [] || t[0] == b then 0 else FirstOf(t[1..], b) + 1
  }

  lemma {:induction false} FirstOfJoined(front: Text, b: byte, back: Text)
    requires b !in front
    ensures FirstOf(front + [b] + back, b) == |front|
  {
    if front != [] {
      assert (front + [b] + back)[1..] == front[1..] + [b] + back;
      FirstOfJoined(front[1..], b, back);
    }
  }

  lemma {:induction false} FirstOfIff(t: Text, b: byte)
    ensures FirstOf(t, b) == |t| <==> b !in t
    ensures b !in t[..FirstOf(t, b)]
  {
    if t != [] && t[0] != b {
      FirstOfIff(t[1..], b);
      assert t[..FirstOf(t, b)] == [t[0]] + t[1..][..FirstOf(t[1..], b)];
      assert t == [t[0]] + t[1..];
    }
  }

  /** `parse_symbol`; `accepts` are the unqualified names the kernel lets through. */
  function ParseSymbolText(accepts: Accepts, t: Text): Option<Symbol> {
    var n := FirstOf(t, SLASH);
    if n == |t| then if t in accepts then Some(Symbol(None, t)) else None
    else if n > 0 && n + 1 < |t| then Some(Symbol(Some(t[..n]), t[n + 1..]))
    else None
  }

  /** The symbols whose text can be told apart from every other symbol's. */
  predicate Tellable(accepts: Accepts, s: Symbol) {
    if s.namespace.Some? then s.namespace.value != [] && SLASH !in s.namespace.value && s.name != []
    else SLASH !in s.name && s.name in accepts
  }

  /** A symbol's text parses back to it exactly when the symbol is tellable. */
  lemma {:induction false} SymbolTextBack(accepts: Accepts, s: Symbol)
    ensures ParseSymbolText(accepts, QualifiedText(s)) == Some(s) <==> Tellable(accepts, s)
  {
    var t := QualifiedText(s);
    FirstOfIff(t, SLASH);
    if s.namespace.Some? {
      var ns := s.namespace.value;
      assert t[|ns|] == SLASH && t[|ns| + 1..] == s.name && t[..|ns|] == ns;
      if SLASH !in ns {
        FirstOfJoined(ns, SLASH, s.name);
      }
    }
  }

  /** Text that parses is the text of what it parses to. */
  lemma {:induction false} SymbolTextExact(accepts: Accepts, t: Text)
    requires ParseSymbolText(accepts, t).Some?
    ensures QualifiedText(ParseSymbolText(accepts, t).value) == t
  {
    var n := FirstOf(t, SLASH);
    if n < |t| {
      assert t == t[..n] + [t[n]] + t[n + 1..];
    }
  }

  /** Two different symbols can have one text when a namespace holds a slash. */
  lemma {:induction false} QualifiedTextCollides()
    ensures var a, b := Symbol(Some([0x61, SLASH, 0x62]), [0x63]), Symbol(Some([0x61]), [0x62, SLASH, 0x63]);
      a != b && QualifiedText(a) == QualifiedText(b)
  {
    assert [0x61, SLASH, 0x62] + [SLASH] + [0x63] == [0x61] + [SLASH] + [0x62, SLASH, 0x63];
  }

  // ---------------------------------------------------------------------------------------------
  // Hexadecimal names

  const DASH: byte := 0x2D

  function Digit(n: nat): byte
    requires n < 16
  {
    if n < 10 then (0x30 + n) as byte else (0x57 + n) as byte
  }

  function DigitValue(b: byte): Option<nat> {
    if 0x30 <= b <= 0x39 then Some(b as nat - 0x30)
    else if 0x61 <= b <= 0x66 then Some(b as nat - 0x57)
    else if 0x41 <= b <= 0x46 then Some(b as nat - 0x37)
    else None
  }

  function Hex(bytes: seq<byte>): (t: Text)
    ensures |t| == 2 * |bytes| && DASH !in t
    ensures forall i :: 0 <= i < |t| ==>
      '0' as int <= t[i] as int <= '9' as int || 'a' as int <= t[i] as int <= 'f' as int
  {
    if bytes == [] then []
    else [Digit(bytes[0] as nat / 16), Digit(bytes[0] as nat % 16)] + Hex(bytes[1..])
  }

  function Unhex(t: Text): Option<seq<byte>> {
    if t == [] then Some([])
    else if |t| == 1 then None
    else
      match (DigitValue(t[0]), DigitValue(t[1]), Unhex(t[2..]))
      case (Some(high), Some(low), Some(rest)) => Some([(16 * high + low) as byte] + rest)
      case _ => None
  }

  lemma {:induction false} HexBack(bytes: seq<byte>)
    ensures Unhex(Hex(bytes)) == Some(bytes)
  {
    if bytes != [] {
      HexBack(bytes[1..]);
      assert Hex(bytes)[2..] == Hex(bytes[1..]);
      assert bytes == [bytes[0]] + bytes[1..];
    }
  }

  function Lower(b: byte): byte {
    if 'A' as int <= b as int <= 'F' as int then b + 0x20 else b
  }

  /** The text with the letter case of its hexadecimal digits taken away. */
  function Lowered(t: Text): (r: Text)
    ensures |r| == |t|
  {
    seq(|t|, i requires 0 <= i < |t| => Lower(t[i]))
  }

  lemma {:induction false} DigitIff(b: byte, n: nat)
    requires n < 16
    ensures DigitValue(b) == Some(n) <==> Lower(b) == Digit(n)
    ensures DigitValue(b).Some? ==> DigitValue(b).value < 16
  {
  }

  /** Read as bytes is exactly what, but for letter case, spells these bytes. */
  lemma {:induction false} UnhexIff(t: Text, bytes: seq<byte>)
    ensures Unhex(t) == Some(bytes) <==> Lowered(t) == Hex(bytes)
    decreases |t|
  {
    if |t| >= 2 && bytes != [] {
      var high, low := bytes[0] as nat / 16, bytes[0] as nat % 16;
      UnhexIff(t[2..], bytes[1..]);
      DigitIff(t[0], high);
      DigitIff(t[1], low);
      assert Lowered(t) == [Lower(t[0]), Lower(t[1])] + Lowered(t[2..]);
      assert Hex(bytes) == [Digit(high), Digit(low)] + Hex(bytes[1..]);
      assert Hex(bytes)[2..] == Hex(bytes[1..]) && Lowered(t)[2..] == Lowered(t[2..]);
      if Unhex(t) == Some(bytes) {
        UnhexFirst(t, bytes);
      }
      assert bytes == [bytes[0]] + bytes[1..];
    }
  }

  lemma {:induction false} UnhexFirst(t: Text, bytes: seq<byte>)
    requires |t| >= 2 && bytes != [] && Unhex(t) == Some(bytes)
    ensures DigitValue(t[0]) == Some(bytes[0] as nat / 16) && DigitValue(t[1]) == Some(bytes[0] as nat % 16)
    ensures Unhex(t[2..]) == Some(bytes[1..])
  {
    DigitIff(t[0], 0);
    DigitIff(t[1], 0);
  }

  /** `id_key` */
  function IdKey(id: ContentId): Text {
    Hex(QualifiedText(id.algorithm)) + [DASH] + Hex(id.digest)
  }

  /** `parse_id_key` */
  function ParseIdKey(accepts: Accepts, t: Text): Option<ContentId> {
    var n := FirstOf(t, DASH);
    if n == |t| then None
    else
      match (Unhex(t[..n]), Unhex(t[n + 1..]))
      case (Some(algorithm), Some(digest)) =>
        if !Utf8(algorithm) || |digest| != 32 then None
        else (match ParseSymbolText(accepts, algorithm) case None => None case Some(s) => Some(ContentId(s, digest)))
      case _ => None
  }

  /** A file name gives its id back exactly when the algorithm's symbol is tellable. */
  lemma {:induction false} IdKeyBack(accepts: Accepts, id: ContentId)
    requires SymbolOk(id.algorithm) && |id.digest| == 32
    ensures ParseIdKey(accepts, IdKey(id)) == Some(id) <==> Tellable(accepts, id.algorithm)
  {
    var text := QualifiedText(id.algorithm);
    var front, back := Hex(text), Hex(id.digest);
    var t := IdKey(id);
    FirstOfJoined(front, DASH, back);
    assert t[..|front|] == front && t[|front| + 1..] == back;
    HexBack(text);
    HexBack(id.digest);
    QualifiedTextUtf8(id.algorithm);
    SymbolTextBack(accepts, id.algorithm);
  }

  lemma {:induction false} SymbolTextIff(accepts: Accepts, t: Text, s: Symbol)
    ensures ParseSymbolText(accepts, t) == Some(s) <==> Tellable(accepts, s) && t == QualifiedText(s)
  {
    SymbolTextBack(accepts, s);
    if ParseSymbolText(accepts, t).Some? {
      SymbolTextExact(accepts, t);
    }
  }

  /** A file name is read as an id exactly when it is, but for letter case, the name of that tellable id. */
  lemma {:induction false} IdKeyIff(accepts: Accepts, t: Text, id: ContentId)
    ensures ParseIdKey(accepts, t) == Some(id) <==>
      && |id.digest| == 32 && Tellable(accepts, id.algorithm) && Utf8(QualifiedText(id.algorithm))
      && Lowered(t) == IdKey(id)
  {
    var n := FirstOf(t, DASH);
    IdKeySplit(t, id);
    if n < |t| {
      UnhexIff(t[..n], QualifiedText(id.algorithm));
      UnhexIff(t[n + 1..], id.digest);
      var algorithm := Unhex(t[..n]);
      if algorithm.Some? {
        SymbolTextIff(accepts, algorithm.value, id.algorithm);
      }
    }
    hide QualifiedText, Hex, Unhex, Lowered, IdKey, Tellable, ParseSymbolText, Utf8;
  }

  /** A text spells a file name part by part, on both sides of its first dash. */
  lemma {:induction false} IdKeySplit(t: Text, id: ContentId)
    ensures var n := FirstOf(t, DASH);
      Lowered(t) == IdKey(id) <==>
        n < |t| && Lowered(t[..n]) == Hex(QualifiedText(id.algorithm)) && Lowered(t[n + 1..]) == Hex(id.digest)
  {
    var front, back := Hex(QualifiedText(id.algorithm)), Hex(id.digest);
    var n := FirstOf(t, DASH);
    FirstOfJoined(front, DASH, back);
    FirstLowered(t);
    if n < |t| {
      assert Lowered(t) == Lowered(t[..n]) + [DASH] + Lowered(t[n + 1..]);
      assert Lowered(t)[..n] == Lowered(t[..n]) && Lowered(t)[n + 1..] == Lowered(t[n + 1..]);
      assert IdKey(id)[..|front|] == front && IdKey(id)[|front| + 1..] == back;
    }
  }

  /** Taking the letter case away leaves the first dash where it is. */
  lemma {:induction false} FirstLowered(t: Text)
    ensures FirstOf(Lowered(t), DASH) == FirstOf(t, DASH)
  {
    if t != [] && t[0] != DASH {
      FirstLowered(t[1..]);
      assert Lowered(t)[1..] == Lowered(t[1..]);
    }
  }

  lemma {:induction false} QualifiedTextUtf8(s: Symbol)
    requires SymbolOk(s)
    ensures Utf8(QualifiedText(s))
  {
    if s.namespace.Some? {
      assert Utf8([SLASH]);
      Utf8Concat(s.namespace.value, [SLASH]);
      Utf8Concat(s.namespace.value + [SLASH], s.name);
    }
  }
}
