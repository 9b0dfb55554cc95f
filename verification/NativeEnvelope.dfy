/** The byte forms of heads, locations, the state envelope and the prefix descriptor. */
module NativeEnvelope {
  import opened Wrappers
  import opened Bytes
  import opened Datums
  import opened DatumParsing
  import opened NativeCodec


  // ---------------------------------------------------------------------------------------------
  // Forms

  /** `put_text`: the length is cut to 32 bits. */
  function RawText(t: Text): seq<byte> {
    BigEndian(|t| % U32_LIMIT, 4) + t
  }

  function RawId(id: ContentId): seq<byte> {
    RawText(QualifiedText(id.algorithm)) + id.digest
  }

  function RawHead(h: Head): seq<byte> {
    RawLen(h.sequence) + RawId(h.entry)
  }

  function RawOption<T>(o: Option<T>, raw: T -> seq<byte>): seq<byte> {
    if o.Some? then [1] + raw(o.value) else [0]
  }

  function RawLocation(l: Location): seq<byte> {
    RawText(l.namespace) + (RawLen(l.sequence) + (RawId(l.entry) + RawId(l.storage)))
  }

  function RawPrefix(p: PrefixRef): seq<byte> {
    RawLen(p.entries) + (RawHead(p.physicalHead) + (RawHead(p.canonicalHead) + RawId(p.descriptor)))
  }

  /** `SIMJSTATE2` and the parts of the envelope. */
  const STATE_FORMAT: seq<byte> := [0x53, 0x49, 0x4D, 0x4A, 0x53, 0x54, 0x41, 0x54, 0x45, 0x32]

  function RawEnvelope(e: Envelope): seq<byte> {
    RawLen(e.fence) + (RawText(e.namespace) + (RawOption(e.prefix, RawPrefix)
      + (RawOption(e.head, RawHead) + RawOption(e.headLocation, RawLocation))))
  }

  // ---------------------------------------------------------------------------------------------
  // What the program can hold and read back

  predicate WordOk(n: nat) {
    n < U64_LIMIT
  }

  predicate NativeTextOk(t: Text) {
    Utf8(t) && |t| < U32_LIMIT
  }

  predicate IdOk(accepts: Accepts, id: ContentId) {
    |id.digest| == 32 && Tellable(accepts, id.algorithm) && NativeTextOk(QualifiedText(id.algorithm))
  }

  predicate HeadOk(accepts: Accepts, h: Head) {
    WordOk(h.sequence) && IdOk(accepts, h.entry)
  }

  predicate LocationOk(accepts: Accepts, l: Location) {
    NativeTextOk(l.namespace) && WordOk(l.sequence) && IdOk(accepts, l.entry) && IdOk(accepts, l.storage)
  }

  predicate PrefixOk(accepts: Accepts, p: PrefixRef) {
    && WordOk(p.entries) && HeadOk(accepts, p.physicalHead) && HeadOk(accepts, p.canonicalHead)
    && IdOk(accepts, p.descriptor)
  }

  predicate EnvelopeOk(accepts: Accepts, e: Envelope) {
    && WordOk(e.fence) && NativeTextOk(e.namespace)
    && (e.prefix.Some? ==> PrefixOk(accepts, e.prefix.value))
    && (e.head.Some? ==> HeadOk(accepts, e.head.value))
    && (e.headLocation.Some? ==> LocationOk(accepts, e.headLocation.value))
  }

  // ---------------------------------------------------------------------------------------------
  // Parsers

  function ParseText32(s: seq<byte>): Parsed<Text> {
    if |s| < 4 then Bad
    else
      match Take(s[4..], FromBigEndian(s[..4]))
      case Bad => Bad
      case Done(t, rest) => if Utf8(t) then Done(t, rest) else Bad
  }

  function ParseId(accepts: Accepts, s: seq<byte>): Parsed<ContentId> {
    match ParseText32(s)
    case Bad => Bad
    case Done(t, middle) =>
      (match (ParseSymbolText(accepts, t), Take(middle, 32))
       case (Some(algorithm), Done(digest, rest)) => Done(ContentId(algorithm, digest), rest)
       case _ => Bad)
  }

  function ParseHead(accepts: Accepts, s: seq<byte>): Parsed<Head> {
    match ParseLen(s)
    case Bad => Bad
    case Done(sequence, middle) =>
      (match ParseId(accepts, middle) case Bad => Bad case Done(entry, rest) => Done(Head(sequence, entry), rest))
  }

  function HeadParser(accepts: Accepts): seq<byte> -> Parsed<Head> {
    (s: seq<byte>) => ParseHead(accepts, s)
  }

  function ParseOption<T>(s: seq<byte>, parse: seq<byte> -> Parsed<T>): Parsed<Option<T>> {
    if s == [] then Bad
    else if s[0] == 0 then Done(None, s[1..])
    else if s[0] == 1 then (match parse(s[1..]) case Bad => Bad case Done(x, rest) => Done(Some(x), rest))
    else Bad
  }

  function ParseLocation(accepts: Accepts, s: seq<byte>): Parsed<Location> {
    match ParseText32(s)
    case Bad => Bad
    case Done(namespace, a) =>
      (match ParseLen(a)
       case Bad => Bad
       case Done(sequence, b) =>
         (match ParseId(accepts, b)
          case Bad => Bad
          case Done(entry, c) =>
            (match ParseId(accepts, c)
             case Bad => Bad
             case Done(storage, rest) => Done(Location(namespace, sequence, entry, storage), rest))))
  }

  function LocationParser(accepts: Accepts): seq<byte> -> Parsed<Location> {
    (s: seq<byte>) => ParseLocation(accepts, s)
  }

  function ParsePrefix(accepts: Accepts, s: seq<byte>): Parsed<PrefixRef> {
    match ParseLen(s)
    case Bad => Bad
    case Done(entries, a) =>
      (match ParseHead(accepts, a)
       case Bad => Bad
       case Done(physical, b) =>
         (match ParseHead(accepts, b)
          case Bad => Bad
          case Done(canonical, c) =>
            (match ParseId(accepts, c)
             case Bad => Bad
             case Done(descriptor, rest) => Done(PrefixRef(entries, physical, canonical, descriptor), rest))))
  }

  function PrefixParser(accepts: Accepts): seq<byte> -> Parsed<PrefixRef> {
    (s: seq<byte>) => ParsePrefix(accepts, s)
  }

  function ParseEnvelope(accepts: Accepts, s: seq<byte>): Parsed<Envelope> {
    match ParseLen(s)
    case Bad => Bad
    case Done(fence, a) =>
      (match ParseText32(a)
       case Bad => Bad
       case Done(namespace, b) =>
         (match ParseOption(b, PrefixParser(accepts))
          case Bad => Bad
          case Done(prefix, c) =>
            (match ParseOption(c, HeadParser(accepts))
             case Bad => Bad
             case Done(head, d) =>
               (match ParseOption(d, LocationParser(accepts))
                case Bad => Bad
                case Done(location, rest) => Done(Envelope(fence, namespace, prefix, head, location), rest)))))
  }

  // ---------------------------------------------------------------------------------------------
  // What is written is read back

  /** Text comes back exactly when its length fits 32 bits. */
  lemma {:induction false} Text32Back(t: Text, s: seq<byte>, r: seq<byte>)
    requires Utf8(t) && s == RawText(t) + r
    ensures ParseText32(s) == Done(t, r) <==> |t| < U32_LIMIT
  {
    hide Utf8;
    Limits();
    var n := |t| % U32_LIMIT;
    BigEndianBack(n, 4);
    assert s[..4] == BigEndian(n, 4) && s[4..] == t + r;
    TakeBack(t, r);
  }

  lemma {:induction false} Associates3(a: seq<byte>, b: seq<byte>, c: seq<byte>, d: seq<byte>, r: seq<byte>)
    ensures a + (b + (c + d)) + r == a + (b + (c + (d + r)))
  {
    Associates(c, d, r);
    Associates(b, c + d, r);
    Associates(a, b + (c + d), r);
  }

  lemma {:induction false} Associates4(a: seq<byte>, b: seq<byte>, c: seq<byte>, d: seq<byte>, e: seq<byte>,
      r: seq<byte>)
    ensures a + (b + (c + (d + e))) + r == a + (b + (c + (d + (e + r))))
  {
    Associates3(b, c, d, e, r);
    Associates(a, b + (c + (d + e)), r);
  }

  lemma {:induction false} IdBack(accepts: Accepts, id: ContentId, s: seq<byte>, r: seq<byte>)
    requires IdOk(accepts, id) && s == RawId(id) + r
    ensures ParseId(accepts, s) == Done(id, r)
  {
    var text := QualifiedText(id.algorithm);
    Associates(RawText(text), id.digest, r);
    Text32Back(text, s, id.digest + r);
    SymbolTextBack(accepts, id.algorithm);
    TakeBack(id.digest, r);
  }

  lemma {:induction false} HeadBack(accepts: Accepts, h: Head, s: seq<byte>, r: seq<byte>)
    requires HeadOk(accepts, h) && s == RawHead(h) + r
    ensures ParseHead(accepts, s) == Done(h, r)
  {
    var middle := RawId(h.entry) + r;
    Associates(RawLen(h.sequence), RawId(h.entry), r);
    LenBack(h.sequence, middle);
    IdBack(accepts, h.entry, middle, r);
  }

  lemma {:induction false} LocationBack(accepts: Accepts, l: Location, s: seq<byte>, r: seq<byte>)
    requires LocationOk(accepts, l) && s == RawLocation(l) + r
    ensures ParseLocation(accepts, s) == Done(l, r)
  {
    var c := RawId(l.storage) + r;
    var b := RawId(l.entry) + c;
    var a := RawLen(l.sequence) + b;
    Associates3(RawText(l.namespace), RawLen(l.sequence), RawId(l.entry), RawId(l.storage), r);
    Text32Back(l.namespace, s, a);
    LenBack(l.sequence, b);
    IdBack(accepts, l.entry, b, c);
    IdBack(accepts, l.storage, c, r);
  }

  lemma {:induction false} PrefixBack(accepts: Accepts, p: PrefixRef, s: seq<byte>, r: seq<byte>)
    requires PrefixOk(accepts, p) && s == RawPrefix(p) + r
    ensures ParsePrefix(accepts, s) == Done(p, r)
  {
    var c := RawId(p.descriptor) + r;
    var b := RawHead(p.canonicalHead) + c;
    var a := RawHead(p.physicalHead) + b;
    Associates3(RawLen(p.entries), RawHead(p.physicalHead), RawHead(p.canonicalHead), RawId(p.descriptor), r);
    LenBack(p.entries, a);
    HeadBack(accepts, p.physicalHead, a, b);
    HeadBack(accepts, p.canonicalHead, b, c);
    IdBack(accepts, p.descriptor, c, r);
  }

  lemma {:induction false} OptionBack<T>(o: Option<T>, raw: T -> seq<byte>, parse: seq<byte> -> Parsed<T>, r: seq<byte>)
    requires o.Some? ==> parse(raw(o.value) + r) == Done(o.value, r)
    ensures ParseOption(RawOption(o, raw) + r, parse) == Done(o, r)
  {
    var s := RawOption(o, raw) + r;
    if o.Some? {
      assert s[1..] == raw(o.value) + r;
    } else {
      assert s[1..] == r;
    }
  }

  lemma {:induction false} OptionsBack(accepts: Accepts, e: Envelope, r: seq<byte>)
    requires EnvelopeOk(accepts, e)
    ensures ParseOption(RawOption(e.headLocation, RawLocation) + r, LocationParser(accepts)) == Done(e.headLocation, r)
    ensures ParseOption(RawOption(e.head, RawHead) + r, HeadParser(accepts)) == Done(e.head, r)
    ensures ParseOption(RawOption(e.prefix, RawPrefix) + r, PrefixParser(accepts)) == Done(e.prefix, r)
  {
    if e.headLocation.Some? {
      LocationBack(accepts, e.headLocation.value, RawLocation(e.headLocation.value) + r, r);
    }
    if e.head.Some? {
      HeadBack(accepts, e.head.value, RawHead(e.head.value) + r, r);
    }
    if e.prefix.Some? {
      PrefixBack(accepts, e.prefix.value, RawPrefix(e.prefix.value) + r, r);
    }
    OptionBack(e.headLocation, RawLocation, LocationParser(accepts), r);
    OptionBack(e.head, RawHead, HeadParser(accepts), r);
    OptionBack(e.prefix, RawPrefix, PrefixParser(accepts), r);
  }

  /** An envelope followed by anything reads back, and leaves the rest. */
  lemma {:induction false} EnvelopeBack(accepts: Accepts, e: Envelope, s: seq<byte>, r: seq<byte>)
    requires EnvelopeOk(accepts, e) && s == RawEnvelope(e) + r
    ensures ParseEnvelope(accepts, s) == Done(e, r)
  {
    var prefix, head, location :=
      RawOption(e.prefix, RawPrefix), RawOption(e.head, RawHead), RawOption(e.headLocation, RawLocation);
    var d := location + r;
    var c := head + d;
    var b := prefix + c;
    var a := RawText(e.namespace) + b;
    Associates4(RawLen(e.fence), RawText(e.namespace), prefix, head, location, r);
    LenBack(e.fence, a);
    Text32Back(e.namespace, a, b);
    OptionsBack(accepts, e, c);
    OptionsBack(accepts, e, d);
    OptionsBack(accepts, e, r);
  }

  // ---------------------------------------------------------------------------------------------
  // Nothing else is accepted

  lemma {:induction false} Text32Exact(s: seq<byte>, t: Text, r: seq<byte>)
    requires ParseText32(s) == Done(t, r)
    ensures NativeTextOk(t) && s == RawText(t) + r
  {
    Limits();
    FromBigEndianBack(s[..4]);
    assert s == s[..4] + s[4..] && s[4..] == t + r;
    Associates(s[..4], t, r);
  }

  lemma {:induction false} WordExact(s: seq<byte>, n: nat, r: seq<byte>)
    requires ParseLen(s) == Done(n, r)
    ensures WordOk(n) && s == RawLen(n) + r
  {
    LenExact(s);
  }

  lemma {:induction false} IdExact(accepts: Accepts, s: seq<byte>, id: ContentId, r: seq<byte>)
    requires ParseId(accepts, s) == Done(id, r)
    ensures IdOk(accepts, id) && s == RawId(id) + r
  {
    var t, middle := ParseText32(s).value, ParseText32(s).rest;
    Text32Exact(s, t, middle);
    SymbolTextExact(accepts, t);
    SymbolTextBack(accepts, id.algorithm);
    assert middle == id.digest + r;
    Associates(RawText(t), id.digest, r);
  }

  lemma {:induction false} HeadExact(accepts: Accepts, s: seq<byte>, h: Head, r: seq<byte>)
    requires ParseHead(accepts, s) == Done(h, r)
    ensures HeadOk(accepts, h) && s == RawHead(h) + r
  {
    var middle := ParseLen(s).rest;
    WordExact(s, h.sequence, middle);
    IdExact(accepts, middle, h.entry, r);
    Associates(RawLen(h.sequence), RawId(h.entry), r);
  }

  lemma {:induction false} LocationExact(accepts: Accepts, s: seq<byte>, l: Location, r: seq<byte>)
    requires ParseLocation(accepts, s) == Done(l, r)
    ensures LocationOk(accepts, l) && s == RawLocation(l) + r
  {
    var a := ParseText32(s).rest;
    var b := ParseLen(a).rest;
    var c := ParseId(accepts, b).rest;
    Text32Exact(s, l.namespace, a);
    WordExact(a, l.sequence, b);
    IdExact(accepts, b, l.entry, c);
    IdExact(accepts, c, l.storage, r);
    Associates3(RawText(l.namespace), RawLen(l.sequence), RawId(l.entry), RawId(l.storage), r);
  }

  lemma {:induction false} PrefixExact(accepts: Accepts, s: seq<byte>, p: PrefixRef, r: seq<byte>)
    requires ParsePrefix(accepts, s) == Done(p, r)
    ensures PrefixOk(accepts, p) && s == RawPrefix(p) + r
  {
    var a := ParseLen(s).rest;
    var b := ParseHead(accepts, a).rest;
    var c := ParseHead(accepts, b).rest;
    WordExact(s, p.entries, a);
    HeadExact(accepts, a, p.physicalHead, b);
    HeadExact(accepts, b, p.canonicalHead, c);
    IdExact(accepts, c, p.descriptor, r);
    Associates3(RawLen(p.entries), RawHead(p.physicalHead), RawHead(p.canonicalHead), RawId(p.descriptor), r);
  }

  lemma {:induction false} OptionExact<T>(s: seq<byte>, o: Option<T>, raw: T -> seq<byte>,
      parse: seq<byte> -> Parsed<T>, r: seq<byte>)
    requires ParseOption(s, parse) == Done(o, r)
    requires o.Some? ==> parse(s[1..]) == Done(o.value, r) && s[1..] == raw(o.value) + r
    ensures s == RawOption(o, raw) + r
  {
    assert s == [s[0]] + s[1..];
    if o.Some? {
      Associates([1], raw(o.value), r);
    }
  }

  lemma {:induction false} OptionalPrefixExact(accepts: Accepts, s: seq<byte>, o: Option<PrefixRef>, r: seq<byte>)
    requires ParseOption(s, PrefixParser(accepts)) == Done(o, r)
    ensures (o.Some? ==> PrefixOk(accepts, o.value)) && s == RawOption(o, RawPrefix) + r
  {
    if o.Some? {
      PrefixExact(accepts, s[1..], o.value, r);
    }
    OptionExact(s, o, RawPrefix, PrefixParser(accepts), r);
  }

  lemma {:induction false} OptionalHeadExact(accepts: Accepts, s: seq<byte>, o: Option<Head>, r: seq<byte>)
    requires ParseOption(s, HeadParser(accepts)) == Done(o, r)
    ensures (o.Some? ==> HeadOk(accepts, o.value)) && s == RawOption(o, RawHead) + r
  {
    if o.Some? {
      HeadExact(accepts, s[1..], o.value, r);
    }
    OptionExact(s, o, RawHead, HeadParser(accepts), r);
  }

  lemma {:induction false} OptionalLocationExact(accepts: Accepts, s: seq<byte>, o: Option<Location>, r: seq<byte>)
    requires ParseOption(s, LocationParser(accepts)) == Done(o, r)
    ensures (o.Some? ==> LocationOk(accepts, o.value)) && s == RawOption(o, RawLocation) + r
  {
    if o.Some? {
      LocationExact(accepts, s[1..], o.value, r);
    }
    OptionExact(s, o, RawLocation, LocationParser(accepts), r);
  }

  /** Bytes that parse as an envelope are that envelope's own bytes. */
  lemma {:induction false} EnvelopeExact(accepts: Accepts, s: seq<byte>, e: Envelope, r: seq<byte>)
    requires ParseEnvelope(accepts, s) == Done(e, r)
    ensures EnvelopeOk(accepts, e) && s == RawEnvelope(e) + r
  {
    var a := ParseLen(s).rest;
    var b := ParseText32(a).rest;
    var c := ParseOption(b, PrefixParser(accepts)).rest;
    var d := ParseOption(c, HeadParser(accepts)).rest;
    WordExact(s, e.fence, a);
    Text32Exact(a, e.namespace, b);
    OptionalPrefixExact(accepts, b, e.prefix, c);
    OptionalHeadExact(accepts, c, e.head, d);
    OptionalLocationExact(accepts, d, e.headLocation, r);
    Associates4(RawLen(e.fence), RawText(e.namespace), RawOption(e.prefix, RawPrefix), RawOption(e.head, RawHead),
                RawOption(e.headLocation, RawLocation), r);
  }
}
