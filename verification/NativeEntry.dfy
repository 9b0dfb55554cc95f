/** Journal entries as canonical values, and the three native leaves as whole byte strings. */
module NativeEntry {
  import opened Wrappers
  import opened Bytes
  import opened Datums
  import opened DatumParsing
  import opened Order
  import opened DatumCodec
  import opened DatumEncoding
  import opened DatumBuffers
  import opened DatumObjects
  import opened NativeCodec
  import opened NativeEnvelope

  /** What is used of the kernel: canonical bytes, content ids, and the check of an unqualified name. */
  datatype Kernel = Kernel(key: Key, idOf: Datum -> ContentId, accepts: Accepts)

  /** A content id depends on nothing but the canonical bytes. */
  ghost predicate GoodKernel(k: Kernel) {
    && GoodKey(k.key)
    && forall a, b :: Canonical(k.key, a) && Canonical(k.key, b) && k.key(a) == k.key(b) ==> k.idOf(a) == k.idOf(b)
  }

  // ---------------------------------------------------------------------------------------------
  // Decimal numbers

  const PLUS: byte := 0x2B

  function Decimal(n: nat): (t: Text)
    ensures t != []
    ensures forall i :: 0 <= i < |t| ==> 0x30 <= t[i] <= 0x39
  {
    if n < 10 then [(0x30 + n) as byte] else Decimal(n / 10) + [(0x30 + n % 10) as byte]
  }

  function DigitsValue(t: Text): Option<nat> {
    if t == [] then Some(0)
    else
      var last := t[|t| - 1];
      if !(0x30 <= last <= 0x39) then None
      else
        match DigitsValue(t[..|t| - 1])
        case None => None
        case Some(n) => Some(10 * n + (last as nat - 0x30))
  }

  /** `str::parse::<u64>`: an optional plus sign, then at least one digit. */
  function ParseU64(t: Text): Option<nat> {
    var digits := if t != [] && t[0] == PLUS then t[1..] else t;
    if digits == [] then None
    else
      match DigitsValue(digits)
      case None => None
      case Some(n) => if n < U64_LIMIT then Some(n) else None
  }

  lemma {:induction false} DecimalDigits(n: nat)
    ensures DigitsValue(Decimal(n)) == Some(n)
  {
    var t := Decimal(n);
    if n >= 10 {
      DecimalDigits(n / 10);
      assert t[..|t| - 1] == Decimal(n / 10);
    } else {
      assert t[..0] == [];
    }
  }

  lemma {:induction false} DecimalBack(n: nat)
    requires n < U64_LIMIT
    ensures ParseU64(Decimal(n)) == Some(n)
  {
    DecimalDigits(n);
  }

  /** The number, with any zeros in front. */
  ghost predicate Spells(t: Text, n: nat) {
    exists k: nat :: t == Zeros(k) + Decimal(n)
  }

  function Zeros(k: nat): (t: Text)
    ensures |t| == k
  {
    seq(k, _ => 0x30)
  }

  /** What reads as a number is exactly its decimal digits with any zeros in front. */
  lemma {:induction false} DigitsIff(t: Text, n: nat)
    requires t != []
    ensures DigitsValue(t) == Some(n) <==> Spells(t, n)
    decreases |t|
  {
    if |t| == 1 {
      OneDigit(t, n);
    } else {
      DigitsIff(t[..|t| - 1], n / 10);
      SpellsFront(t, n);
      hide Spells;
    }
  }

  lemma {:induction false} OneDigit(t: Text, n: nat)
    requires |t| == 1
    ensures DigitsValue(t) == Some(n) <==> Spells(t, n)
  {
    assert t[..0] == [] && DigitsValue(t[..0]) == Some(0);
    if n < 10 {
      assert Decimal(n) == [(0x30 + n) as byte] && Zeros(0) + Decimal(n) == Decimal(n);
      assert DigitsValue(t) == Some(n) ==> t[0] == (0x30 + n) as byte && t == Zeros(0) + Decimal(n);
    } else {
      assert |Decimal(n)| == |Decimal(n / 10)| + 1 > 1;
      assert forall k: nat :: |Zeros(k) + Decimal(n)| > 1;
    }
  }

  /** One digit less in front of the last. */
  lemma {:induction false} SpellsFront(t: Text, n: nat)
    requires |t| >= 2
    ensures Spells(t, n) <==> Spells(t[..|t| - 1], n / 10) && t[|t| - 1] == (0x30 + n % 10) as byte
  {
    var front, last := t[..|t| - 1], t[|t| - 1];
    assert t == front + [last];
    var digit := (0x30 + n % 10) as byte;
    if k: nat :| t == Zeros(k) + Decimal(n) {
      if n >= 10 {
        assert front == Zeros(k) + Decimal(n / 10);
      } else {
        assert front == Zeros(k - 1) + Decimal(0);
      }
    }
    if k: nat :| front == Zeros(k) + Decimal(n / 10) {
      if last == digit {
        assert t == if n >= 10 then Zeros(k) + Decimal(n) else Zeros(k + 1) + Decimal(n);
      }
    }
  }

  lemma {:induction false} SpellsDigit(t: Text, n: nat)
    requires Spells(t, n)
    ensures t != [] && 0x30 <= t[0] <= 0x39
  {
    var k: nat :| t == Zeros(k) + Decimal(n);
    assert t[0] == if k > 0 then Zeros(k)[0] else Decimal(n)[0];
  }

  /** What `parse` takes for a number: its digits, any zeros in front, perhaps a plus sign, and no more than 64 bits. */
  lemma {:induction false} ParseU64Iff(t: Text, n: nat)
    ensures ParseU64(t) == Some(n) <==>
      n < U64_LIMIT && (Spells(t, n) || (t != [] && t[0] == PLUS && Spells(t[1..], n)))
  {
    if Spells(t, n) {
      SpellsDigit(t, n);
    }
    if t != [] && t[0] == PLUS {
      if Spells(t[1..], n) {
        SpellsDigit(t[1..], n);
      }
      if |t| > 1 {
        DigitsIff(t[1..], n);
      }
    } else if t != [] {
      DigitsIff(t, n);
    }
    hide Spells;
  }

  // ---------------------------------------------------------------------------------------------
  // Entries and ids as values

  datatype JournalEntry = JournalEntry(
    id: ContentId, sequence: nat, previous: Option<ContentId>, kind: Symbol, payloads: seq<ContentId>)

  function IdDatum(id: ContentId): Datum {
    Node(Qualified("journal", "content-id-v1"),
         [Field(Plain("algorithm"), Sym(id.algorithm)), Field(Plain("digest"), Blob(id.digest))])
  }

  function IdDatums(ids: seq<ContentId>): (r: seq<Datum>)
    ensures |r| == |ids|
  {
    seq(|ids|, i requires 0 <= i < |ids| => IdDatum(ids[i]))
  }

  /** `canonical_datum` */
  function EntryDatum(e: JournalEntry): Datum {
    Node(Qualified("journal", "entry-v2"),
         [Field(Plain("sequence"), Number(Qualified("numbers", "u64"), Decimal(e.sequence))),
          Field(Plain("previous"), if e.previous.Some? then IdDatum(e.previous.value) else Nil),
          Field(Plain("kind"), Sym(e.kind)),
          Field(Plain("payloads"), Vector(IdDatums(e.payloads)))])
  }

  function Find(fields: seq<Field>, name: Symbol): Option<Datum> {
    if fields == [] then None
    else if fields[0].name == name then Some(fields[0].value)
    else Find(fields[1..], name)
  }

  function IdFromDatum(d: Datum): Option<ContentId> {
    if !d.Node? || d.tag != Qualified("journal", "content-id-v1") || |d.fields| != 2 then None
    else
      match (Find(d.fields, Plain("algorithm")), Find(d.fields, Plain("digest")))
      case (Some(Sym(algorithm)), Some(Blob(digest))) =>
        if |digest| == 32 then Some(ContentId(algorithm, digest)) else None
      case _ => None
  }

  function IdsFromDatums(ds: seq<Datum>): Option<seq<ContentId>> {
    if ds == [] then Some([])
    else
      match (IdFromDatum(ds[0]), IdsFromDatums(ds[1..]))
      case (Some(id), Some(rest)) => Some([id] + rest)
      case _ => None
  }

  function SequenceFrom(d: Datum): Option<nat> {
    if d.Number? && d.domain == Qualified("numbers", "u64") && ParseU64(d.canonical).Some?
       && Decimal(ParseU64(d.canonical).value) == d.canonical
    then ParseU64(d.canonical) else None
  }

  function PreviousFrom(d: Datum): Option<Option<ContentId>> {
    if d.Nil? then Some(None) else (match IdFromDatum(d) case None => None case Some(id) => Some(Some(id)))
  }

  /** The fields of an entry found by name, whatever their order; `id` is the id of the whole value. */
  function EntryFields(fields: seq<Field>, id: ContentId): Option<JournalEntry> {
    match (Find(fields, Plain("sequence")), Find(fields, Plain("previous")), Find(fields, Plain("kind")),
      Find(fields, Plain("payloads")))
    case (Some(s), Some(p), Some(Sym(kind)), Some(Vector(values))) =>
      (match (SequenceFrom(s), PreviousFrom(p), IdsFromDatums(values))
       case (Some(sequence), Some(previous), Some(payloads)) =>
         Some(JournalEntry(id, sequence, previous, kind, payloads))
       case _ => None)
    case _ => None
  }

  /** `entry_from_datum` */
  function EntryFromDatum(k: Kernel, d: Datum): Option<JournalEntry> {
    if !Canonical(k.key, d) || !d.Node? || d.tag != Qualified("journal", "entry-v2") || |d.fields| != 4 then None
    else
      match EntryFields(d.fields, k.idOf(d))
      case None => None
      case Some(e) => if Canonical(k.key, EntryDatum(e)) && k.idOf(EntryDatum(e)) == e.id then Some(e) else None
  }

  // ---------------------------------------------------------------------------------------------
  // What an entry holds

  predicate IdShape(id: ContentId) {
    SymbolOk(id.algorithm) && |id.digest| == 32
  }

  /** An entry as `JournalEntry::new` makes it. */
  predicate JournalEntryOk(k: Kernel, e: JournalEntry) {
    && e.id == k.idOf(EntryDatum(e))
    && WordOk(e.sequence) && SymbolOk(e.kind) && (e.previous.Some? ==> IdShape(e.previous.value))
    && |e.payloads| < U64_LIMIT && forall i :: 0 <= i < |e.payloads| ==> IdShape(e.payloads[i])
  }

  lemma {:induction false} SmallUtf8(t: Text)
    requires forall i :: 0 <= i < |t| ==> t[i] < 0x80
    ensures Utf8(t)
  {
    if t != [] {
      SmallUtf8(t[1..]);
      assert CharLength(t) == 1;
    }
  }

  lemma {:induction false} NamesOk()
    ensures SymbolOk(Qualified("journal", "content-id-v1")) && SymbolOk(Qualified("journal", "entry-v2"))
    ensures SymbolOk(Qualified("numbers", "u64")) && SymbolOk(Plain("algorithm")) && SymbolOk(Plain("digest"))
    ensures SymbolOk(Plain("sequence")) && SymbolOk(Plain("previous")) && SymbolOk(Plain("kind"))
    ensures SymbolOk(Plain("payloads"))
  {
    AsciiOk("journal");
    AsciiOk("content-id-v1");
    AsciiOk("entry-v2");
    AsciiOk("numbers");
    AsciiOk("u64");
    AsciiOk("algorithm");
    AsciiOk("digest");
    AsciiOk("sequence");
    AsciiOk("previous");
    AsciiOk("kind");
    AsciiOk("payloads");
  }

  lemma {:induction false} AsciiOk(s: string)
    requires |s| < U64_LIMIT
    ensures TextOk(Ascii(s))
  {
    SmallUtf8(Ascii(s));
  }

  /** The names of the fields differ, so no value of these shapes repeats one. */
  lemma {:induction false} NamesDiffer()
    ensures Plain("algorithm") != Plain("digest")
    ensures Plain("sequence") != Plain("previous") && Plain("sequence") != Plain("kind")
    ensures Plain("sequence") != Plain("payloads")
    ensures Plain("previous") != Plain("kind") && Plain("previous") != Plain("payloads")
    ensures Plain("kind") != Plain("payloads")
  {
    assert Ascii("algorithm")[0] == 0x61 && Ascii("digest")[0] == 0x64;
    assert Ascii("sequence")[0] == 0x73 && Ascii("kind")[0] == 0x6B;
    assert Ascii("previous")[0] == 0x70 && Ascii("previous")[1] == 0x72;
    assert Ascii("payloads")[0] == 0x70 && Ascii("payloads")[1] == 0x61;
  }

  ghost predicate NamesApart(fields: seq<Field>) {
    forall i, j :: 0 <= i < j < |fields| ==> fields[i].name != fields[j].name
  }

  lemma {:induction false} DistinctNames(fields: seq<Field>)
    requires NamesApart(fields)
    ensures Distinct(fields, FieldKey())
  {
    forall i, j | 0 <= i < j < |fields|
      ensures SymbolKey(fields[i].name) != SymbolKey(fields[j].name)
    {
      SymbolKeyOrder(fields[i].name, fields[j].name);
    }
  }

  lemma {:induction false} NodeCanonical(key: Key, tag: Symbol, fields: seq<Field>)
    requires SymbolOk(tag) && |fields| < U64_LIMIT && NamesApart(fields)
    requires forall i :: 0 <= i < |fields| ==> SymbolOk(fields[i].name) && Canonical(key, fields[i].value)
    ensures Canonical(key, Node(tag, fields)) && Distinct(fields, FieldKey())
  {
    DistinctNames(fields);
    forall i | 0 <= i < |fields|
      ensures FieldOk(fields[i]) && UnrepeatedField(key, fields[i])
    {
    }
  }

  lemma {:induction false} IdDatumCanonical(key: Key, id: ContentId)
    requires IdShape(id)
    ensures Canonical(key, IdDatum(id)) && Distinct(IdDatum(id).fields, FieldKey())
  {
    NamesOk();
    NamesDiffer();
    PairCanonical(key, Qualified("journal", "content-id-v1"), Plain("algorithm"), Plain("digest"), Sym(id.algorithm),
      Blob(id.digest));
  }

  lemma {:induction false} PairCanonical(key: Key, tag: Symbol, a: Symbol, b: Symbol, x: Datum, y: Datum)
    requires SymbolOk(tag) && SymbolOk(a) && SymbolOk(b) && a != b && Canonical(key, x) && Canonical(key, y)
    ensures var fields := [Field(a, x), Field(b, y)];
      Canonical(key, Node(tag, fields)) && Distinct(fields, FieldKey())
  {
    NodeCanonical(key, tag, [Field(a, x), Field(b, y)]);
  }

  /** Four names that differ. */
  predicate Apart4(a: Symbol, b: Symbol, c: Symbol, d: Symbol) {
    a != b && a != c && a != d && b != c && b != d && c != d
  }

  lemma {:induction false} FourCanonical(
      key: Key, tag: Symbol, a: Symbol, b: Symbol, c: Symbol, d: Symbol, w: Datum, x: Datum, y: Datum, z: Datum)
    requires SymbolOk(tag) && SymbolOk(a) && SymbolOk(b) && SymbolOk(c) && SymbolOk(d) && Apart4(a, b, c, d)
    requires Canonical(key, w) && Canonical(key, x) && Canonical(key, y) && Canonical(key, z)
    ensures var fields := [Field(a, w), Field(b, x), Field(c, y), Field(d, z)];
      Canonical(key, Node(tag, fields)) && Distinct(fields, FieldKey())
  {
    NodeCanonical(key, tag, [Field(a, w), Field(b, x), Field(c, y), Field(d, z)]);
  }

  lemma {:induction false} DecimalOk(n: nat)
    requires n < U64_LIMIT
    ensures TextOk(Decimal(n))
  {
    SmallUtf8(Decimal(n));
    DecimalShort(n);
  }

  lemma {:induction false} DecimalShort(n: nat)
    ensures |Decimal(n)| <= 1 + n / 10
  {
    if n >= 10 {
      DecimalShort(n / 10);
    }
  }

  lemma {:induction false} IdDatumsCanonical(key: Key, ids: seq<ContentId>)
    requires |ids| < U64_LIMIT && forall i :: 0 <= i < |ids| ==> IdShape(ids[i])
    ensures Canonical(key, Vector(IdDatums(ids)))
  {
    var ds := IdDatums(ids);
    forall i | 0 <= i < |ds|
      ensures Canonical(key, ds[i])
    {
      IdDatumCanonical(key, ids[i]);
    }
    assert ItemsOk(ds);
  }

  lemma {:induction false} EntryDatumCanonical(k: Kernel, e: JournalEntry)
    requires JournalEntryOk(k, e)
    ensures Canonical(k.key, EntryDatum(e)) && Distinct(EntryDatum(e).fields, FieldKey())
  {
    NamesOk();
    NamesDiffer();
    DecimalOk(e.sequence);
    if e.previous.Some? {
      IdDatumCanonical(k.key, e.previous.value);
    }
    IdDatumsCanonical(k.key, e.payloads);
    FourCanonical(
      k.key, Qualified("journal", "entry-v2"), Plain("sequence"), Plain("previous"), Plain("kind"), Plain("payloads"),
      Number(Qualified("numbers", "u64"), Decimal(e.sequence)),
      if e.previous.Some? then IdDatum(e.previous.value) else Nil, Sym(e.kind), Vector(IdDatums(e.payloads)));
  }

  // ---------------------------------------------------------------------------------------------
  // Fields are found by name in any order

  lemma {:induction false} FindMember(fields: seq<Field>, f: Field)
    requires Distinct(fields, FieldKey()) && f in fields
    ensures Find(fields, f.name) == Some(f.value)
  {
    if fields[0] != f {
      var i :| 0 <= i < |fields| && fields[i] == f;
      assert FieldKey()(fields[0]) != FieldKey()(fields[i]);
      assert f == fields[1..][i - 1];
      assert forall j :: 0 <= j < |fields[1..]| ==> fields[1..][j] == fields[j + 1];
      FindMember(fields[1..], f);
    }
  }

  /** Normalising moves the fields about, and every one is still found, with its value normalised. */
  lemma {:induction false} FindNormal(key: Key, d: Datum, f: Field)
    requires d.Node? && Distinct(d.fields, FieldKey()) && f in d.fields
    ensures var n := Normalize(key, d);
      n.Node? && n.tag == d.tag && |n.fields| == |d.fields| && Find(n.fields, f.name) == Some(Normalize(key, f.value))
  {
    NormalizeParts(key, d);
    var ordered := SortBy(d.fields, FieldKey());
    SortMembers(d.fields, FieldKey());
    SortDistinct(d.fields, FieldKey());
    var n := NormFields(key, ordered);
    SameKeys(ordered, n, FieldKey());
    var i :| 0 <= i < |ordered| && ordered[i] == f;
    assert n[i] == NormField(key, f) && n[i] in n;
    FindMember(n, n[i]);
  }

  lemma {:induction false} IdBackNormal(key: Key, id: ContentId)
    requires IdShape(id)
    ensures IdFromDatum(Normalize(key, IdDatum(id))) == Some(id)
  {
    var d := IdDatum(id);
    IdDatumCanonical(key, id);
    FindNormal(key, d, d.fields[0]);
    FindNormal(key, d, d.fields[1]);
    NormalizeTag(key, d.fields[0].value);
    NormalizeTag(key, d.fields[1].value);
  }

  lemma {:induction false} IdsBackNormal(key: Key, ids: seq<ContentId>)
    requires forall i :: 0 <= i < |ids| ==> IdShape(ids[i])
    ensures IdsFromDatums(NormAll(key, IdDatums(ids))) == Some(ids)
  {
    if ids != [] {
      var rest := ids[1..];
      IdBackNormal(key, ids[0]);
      IdsBackNormal(key, rest);
      assert NormAll(key, IdDatums(ids))[1..] == NormAll(key, IdDatums(rest));
      assert ids == [ids[0]] + rest;
    }
  }

  lemma {:induction false} PreviousBack(key: Key, previous: Option<ContentId>)
    requires previous.Some? ==> IdShape(previous.value)
    ensures PreviousFrom(Normalize(key, if previous.Some? then IdDatum(previous.value) else Nil)) == Some(previous)
  {
    NormalizeTag(key, if previous.Some? then IdDatum(previous.value) else Nil);
    if previous.Some? {
      IdBackNormal(key, previous.value);
    }
  }

  lemma {:induction false} EntryFinds(k: Kernel, e: JournalEntry)
    requires JournalEntryOk(k, e)
    ensures var n := Normalize(k.key, EntryDatum(e));
      && n.Node? && n.tag == EntryDatum(e).tag && |n.fields| == 4
      && forall i :: 0 <= i < 4 ==>
           Find(n.fields, EntryDatum(e).fields[i].name) == Some(Normalize(k.key, EntryDatum(e).fields[i].value))
  {
    var d := EntryDatum(e);
    EntryDatumCanonical(k, e);
    forall i | 0 <= i < 4
      ensures Find(Normalize(k.key, d).fields, d.fields[i].name) == Some(Normalize(k.key, d.fields[i].value))
    {
      FindNormal(k.key, d, d.fields[i]);
    }
    FindNormal(k.key, d, d.fields[0]);
  }

  /** What is found in the normal form of an entry's value are the entry's own parts. */
  lemma {:induction false} EntryFieldsBack(k: Kernel, e: JournalEntry, id: ContentId)
    requires JournalEntryOk(k, e)
    ensures Normalize(k.key, EntryDatum(e)).Node?
    ensures EntryFields(Normalize(k.key, EntryDatum(e)).fields, id) == Some(e.(id := id))
  {
    EntryFinds(k, e);
    var fields := EntryDatum(e).fields;
    assert fields[0].name == Plain("sequence") && fields[1].name == Plain("previous");
    assert fields[2].name == Plain("kind") && fields[3].name == Plain("payloads");
    NormalizeTag(k.key, fields[0].value);
    NormalizeTag(k.key, fields[2].value);
    NormalizeParts(k.key, fields[3].value);
    DecimalBack(e.sequence);
    PreviousBack(k.key, e.previous);
    IdsBackNormal(k.key, e.payloads);
  }

  /** An entry survives its value's normal form, id included. */
  lemma {:induction false} EntrySurvives(k: Kernel, e: JournalEntry)
    requires GoodKernel(k) && JournalEntryOk(k, e)
    ensures EntryFromDatum(k, Normalize(k.key, EntryDatum(e))) == Some(e)
  {
    var d := EntryDatum(e);
    EntryDatumCanonical(k, e);
    NormalizeStable(k.key, d);
    EntryFinds(k, e);
    EntryFieldsBack(k, e, k.idOf(Normalize(k.key, d)));
  }
}
