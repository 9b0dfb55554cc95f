/**
 * The stored formats byte by byte: what an independent reader of the leaves would have to know. Words are eight bytes
 * with the most significant one first, texts carry their length in front, and every tag is written out as the
 * characters it consists of.
 */
module Formats {
  import opened Wrappers
  import opened Bytes
  import opened Datums
  import opened DatumParsing
  import opened DatumCodec
  import opened DatumEncoding
  import opened DatumObjects
  import opened NativeCodec
  import opened NativeEnvelope
  import opened NativeEntry
  import opened NativeLeaves
  import Lines

  /** The format tags and the separating characters. */
  lemma {:induction false} Tags()
    ensures DATUM_FORMAT == Ascii("SIMJDATUM1") && OBJECT_FORMAT == Ascii("SIMJOBJECT2")
    ensures STATE_FORMAT == Ascii("SIMJSTATE2") && PREFIX_FORMAT == Ascii("SIMJPREFIX1")
    ensures ENTRY_FORMAT == Ascii("SIMJENTRY2")
    ensures [Lines.NEWLINE, SLASH, DASH, PLUS] == Ascii("\n/-+")
  {
  }

  // ---------------------------------------------------------------------------------------------
  // Numbers

  /** The digit of `n` at a place value. */
  function Place(n: nat, value: nat): byte
    requires value > 0
  {
    (n / value % 0x100) as byte
  }

  function FourBytes(n: nat): seq<byte> {
    [Place(n, 0x100_0000), Place(n, 0x1_0000), Place(n, 0x100), Place(n, 1)]
  }

  /** Words are written with the most significant byte first. */
  lemma {:induction false} WordLayout(n: nat)
    ensures BigEndian(n, 4) == FourBytes(n)
    ensures RawLen(n) == FourBytes(n / 0x1_0000_0000) + FourBytes(n)
  {
    LowestFour(n, 0);
    LowestFour(n, 4);
    LowestFour(n / 0x1_0000_0000, 0);
  }

  lemma {:induction false} LowestFour(n: nat, width: nat)
    ensures BigEndian(n, width + 4) == BigEndian(n / 0x1_0000_0000, width) + FourBytes(n)
  {
    var a, b, c := n / 0x100, n / 0x1_0000, n / 0x100_0000;
    assert a / 0x100 == b && b / 0x100 == c && c / 0x100 == n / 0x1_0000_0000;
    assert BigEndian(n, width + 4) == BigEndian(a, width + 3) + [Place(n, 1)];
    assert BigEndian(a, width + 3) == BigEndian(b, width + 2) + [Place(n, 0x100)];
    assert BigEndian(b, width + 2) == BigEndian(c, width + 1) + [Place(n, 0x1_0000)];
    assert BigEndian(c, width + 1) == BigEndian(n / 0x1_0000_0000, width) + [Place(n, 0x100_0000)];
  }

  /** Decimal numbers: the digits most significant first, and no zero in front. */
  lemma {:induction false} DecimalLayout(n: nat, digit: nat)
    requires digit < 10
    ensures Decimal(digit) == Ascii("0123456789"[digit..digit + 1])
    ensures n > 0 ==> Decimal(10 * n + digit) == Decimal(n) + Decimal(digit)
  {
    assert "0123456789"[digit] == '0' + digit as char;
    assert n > 0 ==> (10 * n + digit) / 10 == n && (10 * n + digit) % 10 == digit;
  }

  /** Hexadecimal names: two lower-case digits a byte, the high one first; upper case is read as well. */
  lemma {:induction false} HexLayout(b: byte, rest: seq<byte>, digit: nat)
    requires digit < 16
    ensures Hex([b] + rest) == [Digit(b as nat / 16), Digit(b as nat % 16)] + Hex(rest)
    ensures [Digit(digit)] == Ascii("0123456789abcdef"[digit..digit + 1])
    ensures forall c :: DigitValue(c) == Some(digit) <==>
      [c] == Ascii("0123456789abcdef"[digit..digit + 1]) || [c] == Ascii("0123456789ABCDEF"[digit..digit + 1])
  {
    assert ([b] + rest)[1..] == rest;
  }

  // ---------------------------------------------------------------------------------------------
  // Datums

  /** The forms of some parts, one after another. */
  function Joined<T>(parts: seq<T>, form: T -> seq<byte>): seq<byte> {
    if parts == [] then [] else form(parts[0]) + Joined(parts[1..], form)
  }

  lemma {:induction false} JoinedItems(items: seq<Datum>)
    ensures RawItems(items) == Joined(items, (d: Datum) => Raw(d))
  {
    if items != [] {
      JoinedItems(items[1..]);
    }
  }

  lemma {:induction false} JoinedEntries(entries: seq<Entry>)
    ensures RawEntries(entries) == Joined(entries, (e: Entry) => Raw(e.key) + Raw(e.value))
  {
    if entries != [] {
      JoinedEntries(entries[1..]);
    }
  }

  lemma {:induction false} JoinedFields(fields: seq<Field>)
    ensures RawFields(fields) == Joined(fields, (f: Field) => RawSymbol(f.name) + Raw(f.value))
  {
    if fields != [] {
      JoinedFields(fields[1..]);
    }
  }

  lemma {:induction false} JoinedRefs(refs: seq<StoredRef>)
    ensures RawRefs(refs) == Joined(refs, (r: StoredRef) => RawId(r.meaning) + RawId(r.storage))
  {
    if refs != [] {
      JoinedRefs(refs[1..]);
    }
  }

  function Counted(t: seq<byte>): seq<byte> {
    RawLen(|t|) + t
  }

  lemma {:induction false} SymbolLayout(namespace: Text, name: Text)
    ensures RawSymbol(Symbol(None, name)) == [0] + Counted(name)
    ensures RawSymbol(Symbol(Some(namespace), name)) == [1] + Counted(namespace) + Counted(name)
  {
  }

  /** The twelve tags and what follows each of them. */
  lemma {:induction false} DatumLayout(d: Datum)
    ensures Raw(d) == match d
      case Nil => [0]
      case Bool(false) => [1]
      case Bool(true) => [2]
      case Number(domain, canonical) => [3] + RawSymbol(domain) + Counted(canonical)
      case Sym(symbol) => [4] + RawSymbol(symbol)
      case Str(text) => [5] + Counted(text)
      case Blob(bytes) => [6] + Counted(bytes)
      case List(items) => [7] + RawLen(|items|) + Joined(items, (i: Datum) => Raw(i))
      case Vector(items) => [8] + RawLen(|items|) + Joined(items, (i: Datum) => Raw(i))
      case Map(entries) => [9] + RawLen(|entries|) + Joined(entries, (e: Entry) => Raw(e.key) + Raw(e.value))
      case Set(items) => [10] + RawLen(|items|) + Joined(items, (i: Datum) => Raw(i))
      case Node(tag, fields) =>
        [11] + RawSymbol(tag) + RawLen(|fields|) + Joined(fields, (f: Field) => RawSymbol(f.name) + Raw(f.value))
  {
    hide RawSymbol, RawLen;
    match d
    case List(items) => JoinedItems(items);
    case Vector(items) => JoinedItems(items);
    case Set(items) => JoinedItems(items);
    case Map(entries) => JoinedEntries(entries);
    case Node(tag, fields) => JoinedFields(fields);
    case _ =>
  }

  // ---------------------------------------------------------------------------------------------
  // Leaves

  /** A text with its length in four bytes. */
  function Short(t: Text): seq<byte>
    requires |t| < U32_LIMIT
  {
    BigEndian(|t|, 4) + t
  }

  /** An id is written as its algorithm's text and its digest. */
  lemma {:induction false} IdLayout(namespace: Text, name: Text, digest: seq<byte>)
    requires |namespace| + |name| + 1 < U32_LIMIT
    ensures RawId(ContentId(Symbol(None, name), digest)) == Short(name) + digest
    ensures RawId(ContentId(Symbol(Some(namespace), name), digest)) == Short(namespace + Ascii("/") + name) + digest
  {
    hide BigEndian;
    assert Ascii("/") == [SLASH];
    assert BigEndian(|name| % U32_LIMIT, 4) + name == Short(name);
  }

  /** The ids that leaves can hold: a digest of 32 bytes, and an algorithm that its text, if short enough, tells. */
  lemma {:induction false} IdOkIff(accepts: Accepts, id: ContentId)
    ensures var text := QualifiedText(id.algorithm);
      IdOk(accepts, id) <==>
        && |id.digest| == 32 && Utf8(text) && |text| < 0x1_0000_0000
        && ParseSymbolText(accepts, text) == Some(id.algorithm)
    ensures SymbolOk(id.algorithm) ==> (IdShape(id) <==> |id.digest| == 32)
  {
    SymbolTextBack(accepts, id.algorithm);
  }

  /** An optional part is its form after a one, or a zero. */
  lemma {:induction false} HeadLayout(h: Head)
    ensures RawOption(Some(h), RawHead) == [1] + RawLen(h.sequence) + RawId(h.entry)
    ensures RawOption(None, RawHead) == [0]
  {
  }

  lemma {:induction false} LocationLayout(l: Location)
    requires |l.namespace| < U32_LIMIT
    ensures RawOption(Some(l), RawLocation)
      == [1] + Short(l.namespace) + RawLen(l.sequence) + RawId(l.entry) + RawId(l.storage)
    ensures RawOption(None, RawLocation) == [0]
  {
    hide RawLen, RawId, BigEndian;
    assert RawText(l.namespace) == Short(l.namespace);
    Flat([1], Short(l.namespace), RawLen(l.sequence), RawId(l.entry), RawId(l.storage), []);
  }

  lemma {:induction false} PrefixLayout(p: PrefixRef)
    ensures RawOption(Some(p), RawPrefix)
      == [1] + RawLen(p.entries) + RawLen(p.physicalHead.sequence) + RawId(p.physicalHead.entry)
         + RawLen(p.canonicalHead.sequence) + RawId(p.canonicalHead.entry) + RawId(p.descriptor)
    ensures RawOption(None, RawPrefix) == [0]
  {
  }

  lemma {:induction false} Flat(a: seq<byte>, b: seq<byte>, c: seq<byte>, d: seq<byte>, e: seq<byte>, f: seq<byte>)
    ensures a + (b + (c + (d + (e + f)))) == a + b + c + d + e + f
    ensures a + (b + (c + (d + e))) == a + b + c + d + e
    ensures a + (b + (c + d)) == a + b + c + d
  {
    Associates(a, b, c);
    Associates(a + b, c, d);
    Associates(a + b + c, d, e);
    Associates(a + b + c + d, e, f);
    Associates(a + b, c, d + e);
    Associates(a + b, c, d + (e + f));
    Associates(a + b + c, d, e + f);
    Associates(a, b, c + d);
    Associates(a, b, c + (d + e));
    Associates(a, b, c + (d + (e + f)));
  }

  lemma {:induction false} EnvelopeLayout(e: Envelope)
    requires |e.namespace| < U32_LIMIT
    ensures EncodedEnvelope(e) == Ascii("SIMJSTATE2") + RawLen(e.fence) + Short(e.namespace)
      + RawOption(e.prefix, RawPrefix) + RawOption(e.head, RawHead) + RawOption(e.headLocation, RawLocation)
  {
    hide Ascii, RawLen, RawOption, BigEndian;
    Tags();
    Flat(STATE_FORMAT, RawLen(e.fence), RawText(e.namespace), RawOption(e.prefix, RawPrefix),
      RawOption(e.head, RawHead), RawOption(e.headLocation, RawLocation));
  }

  /** The descriptor: the captured state with its length, and the canonical head. */
  lemma {:induction false} DescriptorLayout(state: seq<byte>, head: Head)
    ensures EncodedDescriptor(state, head)
      == Ascii("SIMJPREFIX1") + Counted(state) + RawLen(head.sequence) + RawId(head.entry)
  {
    hide Ascii, RawLen, RawId;
    Tags();
    Flat(PREFIX_FORMAT, RawBytes(state), RawLen(head.sequence), RawId(head.entry), [], []);
  }

  /** The entry: its value's encoding with its length, where the entry before it lies, and where its payloads lie. */
  lemma {:induction false} EntryLayout(k: Kernel, p: PhysicalEntry)
    requires Canonical(k.key, EntryDatum(p.entry))
    ensures EncodedEntry(k, p)
      == Ascii("SIMJENTRY2") + Counted(Encode(k.key, EntryDatum(p.entry)).value) + RawOption(p.previous, RawLocation)
         + RawLen(|p.payloads|) + Joined(p.payloads, (r: StoredRef) => RawId(r.meaning) + RawId(r.storage))
  {
    var datum := Encode(k.key, EntryDatum(p.entry)).value;
    hide Ascii, RawLen, RawId, RawOption, RawRefs, EntryDatum;
    Tags();
    JoinedRefs(p.payloads);
    Flat(ENTRY_FORMAT, RawBytes(datum), RawOption(p.previous, RawLocation), RawLen(|p.payloads|), RawRefs(p.payloads),
      []);
  }

  /** The object: its value's encoding, which is the format tag and the plain form of the normal form, measured. */
  lemma {:induction false} ObjectLayout(key: Key, d: Datum)
    requires Canonical(key, d)
    ensures Encode(key, d) == Ok(Ascii("SIMJDATUM1") + Raw(Normalize(key, d)))
    ensures StorageForm(key, d) == Ascii("SIMJOBJECT2") + Counted(Encode(key, d).value)
  {
    hide Ascii, RawLen, Raw, Normalize, Canonical;
    Tags();
  }

  // ---------------------------------------------------------------------------------------------
  // The journal's own values

  /** What an entry's value holds in its four fields, and an id's value in its two. */
  lemma {:induction false} EntryValues(e: JournalEntry, id: ContentId)
    ensures var values := EntryDatum(e).fields;
      && |values| == 4 && values[0].value.Number? && values[0].value.canonical == Decimal(e.sequence)
      && values[1].value == (if e.previous.None? then Nil else IdDatum(e.previous.value))
      && values[2].value == Sym(e.kind)
      && values[3].value.Vector? && |values[3].value.items| == |e.payloads|
      && forall i :: 0 <= i < |e.payloads| ==> values[3].value.items[i] == IdDatum(e.payloads[i])
    ensures var values := IdDatum(id).fields;
      |values| == 2 && values[0].value == Sym(id.algorithm) && values[1].value == Blob(id.digest)
  {
    hide Decimal, Ascii;
  }

  lemma {:induction false} QualifiedIs(namespace: string, name: string, text: string)
    requires text == namespace + "/" + name
    ensures QualifiedText(Qualified(namespace, name)) == Ascii(text)
  {
    assert forall i :: 0 <= i < |text| ==> QualifiedText(Qualified(namespace, name))[i] == Ascii(text)[i];
  }

  /** The tags of the journal's own values, and the domain of its sequence numbers. */
  lemma {:induction false} ValueTags(bytes: seq<byte>, id: ContentId)
    ensures QualifiedText(ExactDatum(bytes).tag) == Ascii("journal/exact-bytes-v1")
    ensures QualifiedText(IdDatum(id).tag) == Ascii("journal/content-id-v1")
  {
    hide Ascii, QualifiedText;
    QualifiedIs("journal", "exact-bytes-v1", "journal/exact-bytes-v1");
    QualifiedIs("journal", "content-id-v1", "journal/content-id-v1");
  }

  lemma {:induction false} EntryTags(e: JournalEntry)
    ensures QualifiedText(EntryDatum(e).tag) == Ascii("journal/entry-v2")
    ensures QualifiedText(EntryDatum(e).fields[0].value.domain) == Ascii("numbers/u64")
  {
    hide Ascii, QualifiedText;
    QualifiedIs("journal", "entry-v2", "journal/entry-v2");
    QualifiedIs("numbers", "u64", "numbers/u64");
  }

  /** The plain names of their fields. */
  lemma {:induction false} FieldNames(bytes: seq<byte>, id: ContentId)
    ensures Names(ExactDatum(bytes)) == ["bytes"]
    ensures Names(IdDatum(id)) == ["algorithm", "digest"]
  {
    PlainName("bytes");
    PlainName("algorithm");
    PlainName("digest");
    hide NameOf;
  }

  lemma {:induction false} EntryFieldNames(e: JournalEntry)
    ensures Names(EntryDatum(e)) == ["sequence", "previous", "kind", "payloads"]
  {
    PlainName("sequence");
    PlainName("previous");
    PlainName("kind");
    PlainName("payloads");
    hide NameOf;
  }

  /** The names of a node's fields in the order they come, the characters of a qualified name not among them. */
  function Names(d: Datum): (names: seq<string>)
    requires d.Node?
    ensures |names| == |d.fields|
  {
    seq(|d.fields|, i requires 0 <= i < |d.fields| => NameOf(d.fields[i].name))
  }

  function NameOf(s: Symbol): string {
    if s.namespace.Some? then ""
    else seq(|s.name|, i requires 0 <= i < |s.name| => (s.name[i] as int) as char)
  }

  lemma {:induction false} PlainName(name: string)
    requires forall i :: 0 <= i < |name| ==> name[i] < '\U{0080}'
    ensures NameOf(Plain(name)) == name
  {
  }
}
