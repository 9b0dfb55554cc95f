/**
 * Exactly which bytes the v2 entry decoder accepts.
 *
 * The decoder finds an entry's fields by name and asks the datum codec only for a canonical value, so an entry has
 * as many accepted leaves as its value has orders of fields. `States` says which values state an entry, and
 * `EntryLeafIff` which bytes are leaves of it; only the ordered one is what the encoder writes.
 */
module NativeExact {
  import opened Wrappers
  import opened Bytes
  import opened Datums
  import opened DatumParsing
  import opened Order
  import opened DatumCodec
  import opened DatumEncoding
  import opened DatumOrder
  import opened DatumBuffers
  import opened DatumObjects
  import opened NativeCodec
  import opened NativeEnvelope
  import opened NativeEntry
  import opened NativeLeaves

  // ---------------------------------------------------------------------------------------------
  // Finding fields does not depend on their order

  lemma {:induction false} FoundIsField(fields: seq<Field>, name: Symbol)
    ensures Find(fields, name).Some? ==> Field(name, Find(fields, name).value) in fields
    ensures Find(fields, name).None? <==> forall f :: f in fields ==> f.name != name
  {
    if fields != [] {
      FoundIsField(fields[1..], name);
      assert forall f :: f in fields <==> f == fields[0] || f in fields[1..];
    }
  }

  /** A field is found in the normal form exactly when it is found in the value, normalised. */
  lemma {:induction false} FindThroughNormal(key: Key, d: Datum, name: Symbol)
    requires d.Node? && Distinct(d.fields, FieldKey())
    ensures var n := Normalize(key, d);
      && n.Node? && n.tag == d.tag && |n.fields| == |d.fields|
      && (Find(d.fields, name).None? ==> Find(n.fields, name).None?)
      && (Find(d.fields, name).Some? ==> Find(n.fields, name) == Some(Normalize(key, Find(d.fields, name).value)))
  {
    var ordered := SortBy(d.fields, FieldKey());
    NormalizeParts(key, d);
    SortMembers(d.fields, FieldKey());
    FoundIsField(d.fields, name);
    if Find(d.fields, name).Some? {
      FindNormal(key, d, Field(name, Find(d.fields, name).value));
    } else {
      var n := NormFields(key, ordered);
      forall f | f in n
        ensures f.name != name
      {
        var i :| 0 <= i < |n| && n[i] == f;
        assert ordered[i] in d.fields;
      }
      FoundIsField(n, name);
    }
  }

  lemma {:induction false} IdThroughNormal(key: Key, d: Datum)
    requires Unrepeated(key, d)
    ensures IdFromDatum(Normalize(key, d)) == IdFromDatum(d)
  {
    NormalizeTag(key, d);
    if d.Node? {
      FindThroughNormal(key, d, Plain("algorithm"));
      FindThroughNormal(key, d, Plain("digest"));
      var a, b := Find(d.fields, Plain("algorithm")), Find(d.fields, Plain("digest"));
      if a.Some? && b.Some? {
        NormalizeTag(key, a.value);
        NormalizeTag(key, b.value);
      }
    }
  }

  lemma {:induction false} IdsThroughNormal(key: Key, ds: seq<Datum>)
    requires forall i :: 0 <= i < |ds| ==> Unrepeated(key, ds[i])
    ensures IdsFromDatums(NormAll(key, ds)) == IdsFromDatums(ds)
  {
    if ds != [] {
      IdThroughNormal(key, ds[0]);
      IdsThroughNormal(key, ds[1..]);
      assert NormAll(key, ds)[1..] == NormAll(key, ds[1..]);
    }
  }

  lemma {:induction false} FoundUnrepeated(key: Key, d: Datum, name: Symbol)
    requires d.Node? && Canonical(key, d) && Find(d.fields, name).Some?
    ensures Canonical(key, Find(d.fields, name).value) && Unrepeated(key, Find(d.fields, name).value)
  {
    hide SymbolOk;
    var fields := d.fields;
    FoundIsField(fields, name);
    var i :| 0 <= i < |fields| && fields[i] == Field(name, Find(fields, name).value);
    assert FieldsOk(fields);
    assert FieldOk(fields[i]);
    assert UnrepeatedField(key, fields[i]);
  }

  /** The entry that the fields of a value state is the one its normal form states. */
  lemma {:induction false} FieldsThroughNormal(key: Key, d: Datum, id: ContentId)
    requires d.Node? && Canonical(key, d) && Distinct(d.fields, FieldKey())
    ensures Normalize(key, d).Node? && EntryFields(Normalize(key, d).fields, id) == EntryFields(d.fields, id)
  {
    hide Normalize, Find, SequenceFrom, PreviousFrom, IdsFromDatums, Canonical;
    FindThroughNormal(key, d, Plain("sequence"));
    FindThroughNormal(key, d, Plain("previous"));
    FindThroughNormal(key, d, Plain("kind"));
    FindThroughNormal(key, d, Plain("payloads"));
    var s, p := Find(d.fields, Plain("sequence")), Find(d.fields, Plain("previous"));
    var c, v := Find(d.fields, Plain("kind")), Find(d.fields, Plain("payloads"));
    if s.Some? && p.Some? && c.Some? && v.Some? {
      FoundUnrepeated(key, d, Plain("previous"));
      FoundUnrepeated(key, d, Plain("payloads"));
      PartsThroughNormal(key, s.value, p.value, c.value, v.value);
    }
  }

  lemma {:induction false} PartsThroughNormal(key: Key, s: Datum, p: Datum, c: Datum, v: Datum)
    requires Unrepeated(key, p) && Unrepeated(key, v)
    ensures SequenceFrom(Normalize(key, s)) == SequenceFrom(s) && PreviousFrom(Normalize(key, p)) == PreviousFrom(p)
    ensures Tag(Normalize(key, c)) == Tag(c) && (c.Sym? ==> Normalize(key, c) == c)
    ensures Normalize(key, v).Vector? == v.Vector?
    ensures v.Vector? ==> IdsFromDatums(Normalize(key, v).items) == IdsFromDatums(v.items)
  {
    NormalizeTag(key, s);
    NormalizeTag(key, p);
    IdThroughNormal(key, p);
    NormalizeTag(key, c);
    NormalizeTag(key, v);
    if v.Vector? {
      NormalizeParts(key, v);
      IdsThroughNormal(key, v.items);
    }
  }

  // ---------------------------------------------------------------------------------------------
  // What is found determines the normal form

  /** Distinct members, as many as and among those of the other sequence, are its members. */
  lemma {:induction false} SameCount<T(!new)>(a: seq<T>, b: seq<T>, key: T -> seq<int>)
    requires Distinct(a, key) && Distinct(b, key) && |a| == |b| && forall x :: x in b ==> x in a
    ensures multiset(a) == multiset(b)
  {
    var s, t := set x | x in a, set x | x in b;
    DistinctIsSet(a, key);
    DistinctIsSet(b, key);
    SubsetOfSameSize(t, s);
  }

  lemma {:induction false} DistinctIsSet<T(!new)>(a: seq<T>, key: T -> seq<int>)
    requires Distinct(a, key)
    ensures var s := set x | x in a; |s| == |a| && multiset(a) == multiset(s)
  {
    var s := set x | x in a;
    if a != [] {
      var rest := a[1..];
      assert a == [a[0]] + rest;
      assert forall i :: 0 <= i < |rest| ==> rest[i] == a[i + 1];
      DistinctIsSet(rest, key);
      assert a[0] !in rest;
      assert s == {a[0]} + set x | x in rest;
    }
  }

  lemma {:induction false} SubsetOfSameSize<T>(t: set<T>, s: set<T>)
    requires t <= s && |t| == |s|
    ensures t == s
  {
    var others := s - t;
    assert s == t + others;
    assert |s| == |t| + |others|;
  }

  /** Fields in order, each normalised. */
  ghost function Sorted(key: Key, fields: seq<Field>): seq<Field> {
    NormFields(key, SortBy(fields, FieldKey()))
  }

  lemma {:induction false} SortedFields(key: Key, fields: seq<Field>)
    requires Distinct(fields, FieldKey())
    ensures var r := Sorted(key, fields);
      && |r| == |fields| && Ascending(r, FieldKey()) && Distinct(r, FieldKey())
      && (forall f :: f in fields ==> NormField(key, f) in r)
      && (forall x :: x in r ==> exists f :: f in fields && x == NormField(key, f))
  {
    var ordered := SortBy(fields, FieldKey());
    SortMembers(fields, FieldKey());
    SortAscends(fields, FieldKey());
    SortDistinct(fields, FieldKey());
    SameKeys(ordered, NormFields(key, ordered), FieldKey());
    forall f | f in fields
      ensures NormField(key, f) in NormFields(key, ordered)
    {
      var i :| 0 <= i < |ordered| && ordered[i] == f;
      assert NormFields(key, ordered)[i] == NormField(key, f);
    }
  }

  /** The fields of the second value are found in the first, with values that have the same normal form. */
  ghost predicate FindsAll(key: Key, fields: seq<Field>, others: seq<Field>) {
    forall f :: f in others ==>
      Find(fields, f.name).Some? && Normalize(key, Find(fields, f.name).value) == Normalize(key, f.value)
  }

  lemma {:induction false} FoundSorted(key: Key, fields: seq<Field>, others: seq<Field>)
    requires Distinct(fields, FieldKey()) && Distinct(others, FieldKey()) && FindsAll(key, fields, others)
    ensures forall x :: x in Sorted(key, others) ==> x in Sorted(key, fields)
  {
    hide Normalize, Sorted;
    SortedFields(key, fields);
    SortedFields(key, others);
    forall x | x in Sorted(key, others)
      ensures x in Sorted(key, fields)
    {
      var f :| f in others && x == NormField(key, f);
      FoundIsField(fields, f.name);
      assert x == NormField(key, Field(f.name, Find(fields, f.name).value));
    }
  }

  /** Two values of the same tag with as many fields have one normal form when the fields' values have. */
  lemma {:induction false} SameFound(key: Key, d: Datum, e: Datum)
    requires d.Node? && e.Node? && d.tag == e.tag && |d.fields| == |e.fields|
    requires Distinct(d.fields, FieldKey()) && Distinct(e.fields, FieldKey())
    requires FindsAll(key, d.fields, e.fields)
    ensures Normalize(key, d) == Normalize(key, e)
  {
    var a, b := Sorted(key, d.fields), Sorted(key, e.fields);
    assert a == b by {
      hide Normalize, Sorted, FindsAll;
      FoundSorted(key, d.fields, e.fields);
      SortedFields(key, d.fields);
      SortedFields(key, e.fields);
      SameCount(a, b, FieldKey());
      DistinctDetermines(a, FieldKey());
      AscendingUnique(a, b, FieldKey());
    }
    NormalizeParts(key, d);
    NormalizeParts(key, e);
  }

  lemma {:induction false} FoundHas(key: Key, d: Datum, name: Symbol, value: Datum)
    requires d.Node? && Canonical(key, d) && Find(d.fields, name) == Some(value)
    ensures Canonical(key, value) && Distinct(d.fields, FieldKey())
  {
    FoundUnrepeated(key, d, name);
  }

  /** A value from which an id is read has the normal form of the id's own value. */
  lemma {:induction false} IdDetermines(key: Key, d: Datum, id: ContentId)
    requires Canonical(key, d) && IdFromDatum(d) == Some(id)
    ensures IdShape(id) && Normalize(key, d) == Normalize(key, IdDatum(id))
  {
    hide Normalize, Canonical, Find;
    var a, b := Find(d.fields, Plain("algorithm")), Find(d.fields, Plain("digest"));
    FoundHas(key, d, Plain("algorithm"), a.value);
    FoundHas(key, d, Plain("digest"), b.value);
    assert a.value == Sym(id.algorithm) && b.value == Blob(id.digest);
    SymbolOfValue(key, a.value);
    IdDatumCanonical(key, id);
    var fields := [Field(Plain("algorithm"), a.value), Field(Plain("digest"), b.value)];
    assert IdDatum(id).fields == fields;
    assert FindsAll(key, d.fields, fields);
    SameFound(key, d, IdDatum(id));
  }

  lemma {:induction false} SymbolOfValue(key: Key, d: Datum)
    requires d.Sym? && Canonical(key, d)
    ensures SymbolOk(d.symbol)
  {
  }

  lemma {:induction false} IdsDetermine(key: Key, ds: seq<Datum>, ids: seq<ContentId>)
    requires IdsFromDatums(ds) == Some(ids) && forall i :: 0 <= i < |ds| ==> Canonical(key, ds[i])
    ensures |ids| == |ds| && (forall i :: 0 <= i < |ids| ==> IdShape(ids[i]))
    ensures forall i :: 0 <= i < |ids| ==> Normalize(key, ds[i]) == Normalize(key, IdDatum(ids[i]))
  {
    hide Normalize, Canonical, IdFromDatum, IdDatum, IdShape;
    if ds != [] {
      IdDetermines(key, ds[0], ids[0]);
      IdsDetermine(key, ds[1..], ids[1..]);
      forall i | 0 < i < |ds|
        ensures IdShape(ids[i]) && Normalize(key, ds[i]) == Normalize(key, IdDatum(ids[i]))
      {
        assert ds[i] == ds[1..][i - 1] && ids[i] == ids[1..][i - 1];
      }
    }
  }

  lemma {:induction false} PreviousDetermines(key: Key, d: Datum, previous: Option<ContentId>)
    requires Canonical(key, d) && PreviousFrom(d) == Some(previous)
    ensures previous.Some? ==> IdShape(previous.value)
    ensures Normalize(key, d) == Normalize(key, if previous.Some? then IdDatum(previous.value) else Nil)
  {
    if previous.Some? {
      IdDetermines(key, d, previous.value);
    }
  }

  lemma {:induction false} SequenceDetermines(d: Datum, n: nat)
    requires SequenceFrom(d) == Some(n)
    ensures n < U64_LIMIT && d == Number(Qualified("numbers", "u64"), Decimal(n))
  {
  }

  lemma {:induction false} PayloadsDetermine(key: Key, d: Datum, ids: seq<ContentId>)
    requires d.Vector? && Canonical(key, d) && IdsFromDatums(d.items) == Some(ids)
    ensures |ids| < U64_LIMIT && forall i :: 0 <= i < |ids| ==> IdShape(ids[i])
    ensures Normalize(key, d) == Normalize(key, Vector(IdDatums(ids)))
  {
    forall i | 0 <= i < |d.items|
      ensures Canonical(key, d.items[i])
    {
      assert ItemsOk(d.items);
    }
    NormalizeParts(key, d);
    NormalizeParts(key, Vector(IdDatums(ids)));
    IdsDetermine(key, d.items, ids);
    assert NormAll(key, d.items) == NormAll(key, IdDatums(ids));
  }

  /** The parts that the fields of a canonical value state, up to normal form. */
  lemma {:induction false} FieldsDetermine(key: Key, d: Datum, id: ContentId, e: JournalEntry)
    requires d.Node? && Canonical(key, d) && EntryFields(d.fields, id) == Some(e)
    ensures e.id == id && WordOk(e.sequence) && SymbolOk(e.kind) && (e.previous.Some? ==> IdShape(e.previous.value))
    ensures |e.payloads| < U64_LIMIT && forall i :: 0 <= i < |e.payloads| ==> IdShape(e.payloads[i])
    ensures Distinct(d.fields, FieldKey()) && FindsAll(key, d.fields, EntryDatum(e).fields)
  {
    hide Normalize, Canonical, Find, SequenceFrom, PreviousFrom, IdsFromDatums, IdDatum, IdDatums, IdShape;
    var s, p := Find(d.fields, Plain("sequence")), Find(d.fields, Plain("previous"));
    var c, v := Find(d.fields, Plain("kind")), Find(d.fields, Plain("payloads"));
    FoundHas(key, d, Plain("sequence"), s.value);
    FoundHas(key, d, Plain("previous"), p.value);
    FoundHas(key, d, Plain("kind"), c.value);
    FoundHas(key, d, Plain("payloads"), v.value);
    SequenceDetermines(s.value, e.sequence);
    PreviousDetermines(key, p.value, e.previous);
    SymbolOfValue(key, c.value);
    PayloadsDetermine(key, v.value, e.payloads);
  }

  // ---------------------------------------------------------------------------------------------
  // Entries as values

  /** The value is the entry's own value up to the order of its fields and of its ids' fields. */
  ghost predicate States(k: Kernel, d: Datum, e: JournalEntry) {
    Canonical(k.key, d) && JournalEntryOk(k, e) && Normalize(k.key, d) == Normalize(k.key, EntryDatum(e))
  }

  lemma {:induction false} NormalNode(key: Key, d: Datum)
    requires Normalize(key, d).Node? && Canonical(key, d)
    ensures d.Node? && Normalize(key, d).tag == d.tag && |Normalize(key, d).fields| == |d.fields|
    ensures Distinct(d.fields, FieldKey())
  {
    NormalizeTag(key, d);
    NormalizeParts(key, d);
    SortMembers(d.fields, FieldKey());
  }

  lemma {:induction false} SameId(k: Kernel, d: Datum)
    requires GoodKernel(k) && Canonical(k.key, d)
    ensures Canonical(k.key, Normalize(k.key, d)) && k.idOf(Normalize(k.key, d)) == k.idOf(d)
  {
    NormalizeStable(k.key, d);
  }

  /** Values with one normal form state the same entry. */
  lemma {:induction false} EntryThroughNormal(k: Kernel, d: Datum)
    requires GoodKernel(k) && Canonical(k.key, d)
    ensures EntryFromDatum(k, Normalize(k.key, d)) == EntryFromDatum(k, d)
  {
    hide Normalize, EntryFields, EntryDatum, Canonical, GoodKernel, Distinct;
    SameId(k, d);
    NormalizeTag(k.key, d);
    if Normalize(k.key, d).Node? {
      NormalNode(k.key, d);
      FieldsThroughNormal(k.key, d, k.idOf(d));
    }
  }

  /** The id that is computed again is always the id of the value: the recheck never refuses. */
  lemma {:induction false} RecheckAgrees(k: Kernel, d: Datum, e: JournalEntry)
    requires GoodKernel(k) && Canonical(k.key, d) && d.Node? && d.tag == Qualified("journal", "entry-v2")
    requires |d.fields| == 4 && EntryFields(d.fields, k.idOf(d)) == Some(e)
    ensures States(k, d, e) && EntryFromDatum(k, d) == Some(e)
  {
    hide Normalize, Canonical, EntryFields, FindsAll;
    FieldsDetermine(k.key, d, k.idOf(d), e);
    var own := e.(id := k.idOf(EntryDatum(e)));
    assert EntryDatum(own) == EntryDatum(e);
    EntryDatumCanonical(k, own);
    SameFound(k.key, d, EntryDatum(e));
  }

  /** `entry_from_datum` accepts exactly the values that state an entry, in any order of their fields. */
  lemma {:induction false} EntryFromDatumIff(k: Kernel, d: Datum, e: JournalEntry)
    requires GoodKernel(k)
    ensures EntryFromDatum(k, d) == Some(e) <==> States(k, d, e)
  {
    hide Normalize, EntryFields;
    if EntryFromDatum(k, d) == Some(e) {
      RecheckAgrees(k, d, e);
    }
    if States(k, d, e) {
      EntrySurvives(k, e);
      EntryThroughNormal(k, d);
    }
  }

  // ---------------------------------------------------------------------------------------------
  // Entry leaves

  lemma {:induction false} RefExact(accepts: Accepts, s: seq<byte>, ref: StoredRef, r: seq<byte>)
    requires ParseRef(accepts, s) == Done(ref, r)
    ensures RefOk(accepts, ref) && s == RawRef(ref) + r
  {
    var middle := ParseId(accepts, s).rest;
    IdExact(accepts, s, ref.meaning, middle);
    IdExact(accepts, middle, ref.storage, r);
    Associates(RawId(ref.meaning), RawId(ref.storage), r);
  }

  lemma {:induction false} RefsExact(accepts: Accepts, s: seq<byte>, count: nat, refs: seq<StoredRef>, r: seq<byte>)
    requires ParseRefs(accepts, s, count) == Done(refs, r)
    ensures |refs| == count && RefsOk(accepts, refs) && s == RawRefs(refs) + r
    decreases count
  {
    hide ParseRef, RawRef, RefOk;
    if count == 0 {
      assert s == RawRefs(refs) + r;
    } else {
      var first := ParseRef(accepts, s);
      var others := ParseRefs(accepts, first.rest, count - 1);
      RefExact(accepts, s, first.value, first.rest);
      RefsExact(accepts, first.rest, count - 1, others.value, r);
      assert refs[0] == first.value && refs[1..] == others.value;
      Associates(RawRef(refs[0]), RawRefs(refs[1..]), r);
    }
  }

  lemma {:induction false} LinksExact(accepts: Accepts, s: seq<byte>, p: PhysicalEntry, r: seq<byte>)
    requires ParseLinks(accepts, s, p.entry) == Done(p, r)
    ensures LinksOk(accepts, p) && s == RawLinks(p) + r
  {
    hide ParseRefs;
    var middle := ParseOption(s, LocationParser(accepts)).rest;
    var refs := ParseLen(middle).rest;
    OptionalLocationExact(accepts, s, p.previous, middle);
    RefsExact(accepts, refs, ParseLen(middle).value, p.payloads, r);
    WordExact(middle, |p.payloads|, refs);
    Associates(RawLen(|p.payloads|), RawRefs(p.payloads), r);
    Associates(RawOption(p.previous, RawLocation), RawLen(|p.payloads|) + RawRefs(p.payloads), r);
  }

  /** The leaf that spells the entry by the given value. */
  ghost predicate EntryLeaf(k: Kernel, s: seq<byte>, p: PhysicalEntry, d: Datum) {
    && States(k, d, p.entry) && LinksOk(k.accepts, p) && |DATUM_FORMAT + Raw(d)| < U64_LIMIT
    && s == ENTRY_FORMAT + (RawBytes(DATUM_FORMAT + Raw(d)) + RawLinks(p))
  }

  /** The bytes the decoder reads as an entry are exactly the leaves that spell a value of it. */
  lemma {:induction false} EntryLeafIff(k: Kernel, s: seq<byte>, p: PhysicalEntry)
    requires GoodKernel(k)
    ensures DecodedEntry(k, s) == Some(p) <==> exists d :: EntryLeaf(k, s, p, d)
  {
    if DecodedEntry(k, s) == Some(p) {
      var d := SpelledBy(k, s, p);
    }
    if d :| EntryLeaf(k, s, p, d) {
      LeafAccepted(k, s, p, d);
    }
  }

  lemma {:induction false} SpelledBy(k: Kernel, s: seq<byte>, p: PhysicalEntry) returns (d: Datum)
    requires GoodKernel(k) && DecodedEntry(k, s) == Some(p)
    ensures EntryLeaf(k, s, p, d)
  {
    hide Decode, EntryFromDatum, ParseLinks, Normalize, Canonical;
    var body := Body(s, ENTRY_FORMAT).value;
    var datum, links := ParseBytes(body).value, ParseBytes(body).rest;
    d := Decode(k.key, datum).value;
    BytesExact(body);
    AcceptedIff(k.key, datum, d);
    EntryFromDatumIff(k, d, EntryFromDatum(k, d).value);
    LinksOwner(k.accepts, links, EntryFromDatum(k, d).value);
    LinksExact(k.accepts, links, p, []);
    assert links == RawLinks(p);
    assert s == s[..|ENTRY_FORMAT|] + body;
  }

  lemma {:induction false} LinksOwner(accepts: Accepts, s: seq<byte>, entry: JournalEntry)
    ensures ParseLinks(accepts, s, entry).Done? ==> ParseLinks(accepts, s, entry).value.entry == entry
  {
  }

  lemma {:induction false} LeafAccepted(k: Kernel, s: seq<byte>, p: PhysicalEntry, d: Datum)
    requires GoodKernel(k) && EntryLeaf(k, s, p, d)
    ensures DecodedEntry(k, s) == Some(p)
  {
    hide Decode, EntryFromDatum, ParseLinks, Normalize, Canonical, ParseBytes, RawBytes;
    var datum, links := DATUM_FORMAT + Raw(d), RawLinks(p);
    assert ENTRY_FORMAT + (RawBytes(datum) + links) + [] == s;
    EntryParts(k, datum, links, [], s);
    assert links + [] == links;
    AcceptedIff(k.key, datum, d);
    EntryFromDatumIff(k, d, p.entry);
    LinksBack(k.accepts, p, links, []);
  }

  /** Of all leaves of an entry only the ordered one is what the encoder writes. */
  lemma {:induction false} EntryLeafCanonicalIff(k: Kernel, s: seq<byte>, p: PhysicalEntry, d: Datum)
    requires GoodKernel(k) && EntryLeaf(k, s, p, d)
    ensures Canonical(k.key, EntryDatum(p.entry)) && (s == EncodedEntry(k, p) <==> Ordered(k.key, d))
  {
    hide Normalize, Canonical, Raw, RawLinks, EntryDatum;
    EntryDatumCanonical(k, p.entry);
    var own := EntryDatum(p.entry);
    var n := Normalize(k.key, own);
    NormalizeStable(k.key, own);
    NormalIffOrdered(k.key, d);
    if s == EncodedEntry(k, p) {
      SameDatum(DATUM_FORMAT + Raw(d), DATUM_FORMAT + Raw(n), RawLinks(p));
      TakeBack(DATUM_FORMAT, Raw(d));
      TakeBack(DATUM_FORMAT, Raw(n));
      CanonicalIsOk(k.key, n);
      CanonicalIsOk(k.key, d);
      RawInjective(n, d);
    }
  }

  lemma {:induction false} CanonicalIsOk(key: Key, d: Datum)
    requires Canonical(key, d)
    ensures DatumOk(d)
  {
  }

  lemma {:induction false} SameDatum(a: seq<byte>, b: seq<byte>, links: seq<byte>)
    requires ENTRY_FORMAT + (RawBytes(a) + links) == ENTRY_FORMAT + (RawBytes(b) + links)
    ensures a == b
  {
    TakeBack(ENTRY_FORMAT, RawBytes(a) + links);
    TakeBack(ENTRY_FORMAT, RawBytes(b) + links);
    var x, y := RawBytes(a), RawBytes(b);
    assert |x| == |y|;
    assert (x + links)[..|x|] == x && (y + links)[..|y|] == y;
    TakeBack(RawLen(|a|), a);
    TakeBack(RawLen(|b|), b);
  }
}
