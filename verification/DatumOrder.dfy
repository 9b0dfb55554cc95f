/**
 * Which accepted bytes are the canonical encoding.
 *
 * The decoder asks that nothing is repeated but not that members, entries and fields come in key order.
 * `Ordered` asks for that order at every depth, and it is all that tells canonical bytes from other accepted ones.
 */
module DatumOrder {
  import opened Wrappers
  import opened Bytes
  import opened Datums
  import opened DatumParsing
  import opened Order
  import opened DatumCodec
  import opened DatumEncoding

  /** Members, entries and fields in key order, at every depth. */
  ghost predicate Ordered(key: Key, d: Datum)
    decreases d
  {
    match d
    case List(items) => forall i :: 0 <= i < |items| ==> Ordered(key, items[i])
    case Vector(items) => forall i :: 0 <= i < |items| ==> Ordered(key, items[i])
    case Set(items) => Ascending(items, key) && forall i :: 0 <= i < |items| ==> Ordered(key, items[i])
    case Map(entries) =>
      Ascending(entries, EntryKey(key)) && forall i :: 0 <= i < |entries| ==> OrderedEntry(key, entries[i])
    case Node(_, fields) =>
      Ascending(fields, FieldKey()) && forall i :: 0 <= i < |fields| ==> OrderedField(key, fields[i])
    case _ => true
  }

  ghost predicate OrderedEntry(key: Key, e: Entry)
    decreases e
  {
    Ordered(key, e.key) && Ordered(key, e.value)
  }

  ghost predicate OrderedField(key: Key, f: Field)
    decreases f
  {
    Ordered(key, f.value)
  }

  // ---------------------------------------------------------------------------------------------
  // Ordered values are the normal forms

  ghost predicate Normal(key: Key, d: Datum) {
    Normalize(key, d) == d
  }

  lemma {:induction false} AllNormal(key: Key, items: seq<Datum>)
    ensures NormAll(key, items) == items <==> forall i :: 0 <= i < |items| ==> Normal(key, items[i])
  {
    if NormAll(key, items) == items {
      forall i | 0 <= i < |items|
        ensures Normal(key, items[i])
      {
        assert NormAll(key, items)[i] == items[i];
      }
    }
  }

  lemma {:induction false} AllEntriesNormal(key: Key, entries: seq<Entry>)
    ensures NormEntries(key, entries) == entries
      <==> forall i :: 0 <= i < |entries| ==> Normal(key, entries[i].key) && Normal(key, entries[i].value)
  {
    if NormEntries(key, entries) == entries {
      forall i | 0 <= i < |entries|
        ensures Normal(key, entries[i].key) && Normal(key, entries[i].value)
      {
        assert NormEntries(key, entries)[i] == entries[i];
      }
    }
  }

  lemma {:induction false} AllFieldsNormal(key: Key, fields: seq<Field>)
    ensures NormFields(key, fields) == fields
      <==> forall i :: 0 <= i < |fields| ==> Normal(key, fields[i].value)
  {
    if NormFields(key, fields) == fields {
      forall i | 0 <= i < |fields|
        ensures Normal(key, fields[i].value)
      {
        assert NormFields(key, fields)[i] == fields[i];
      }
    }
  }

  /** A sequence that sorting and replacing by the same keys leaves alone was in order. */
  lemma {:induction false} SortedByNow<T(!new)>(s: seq<T>, n: seq<T>, key: T -> seq<int>)
    requires |n| == |s| == |SortBy(s, key)| && forall i :: 0 <= i < |s| ==> key(n[i]) == key(SortBy(s, key)[i])
    ensures Ascending(n, key)
  {
    SortMembers(s, key);
    SortAscends(s, key);
    SameKeys(SortBy(s, key), n, key);
  }

  lemma {:induction false} SetNormal(key: Key, items: seq<Datum>)
    requires AllStable(key, items)
    ensures Normal(key, Set(items)) <==> Ascending(items, key) && NormAll(key, items) == items
  {
    var ordered := SortBy(items, key);
    NormalizeParts(key, Set(items));
    SortMembers(items, key);
    if Normal(key, Set(items)) {
      forall i | 0 <= i < |items|
        ensures key(items[i]) == key(ordered[i])
      {
        assert ordered[i] in items;
        assert NormAll(key, ordered)[i] == items[i];
      }
      SortedByNow(items, items, key);
      SortOfAscending(items, key);
    } else if Ascending(items, key) {
      SortOfAscending(items, key);
    }
  }

  lemma {:induction false} MapNormal(key: Key, entries: seq<Entry>)
    requires EntriesStable(key, entries)
    ensures Normal(key, Map(entries)) <==> Ascending(entries, EntryKey(key)) && NormEntries(key, entries) == entries
  {
    var order := EntryKey(key);
    var ordered := SortBy(entries, order);
    NormalizeParts(key, Map(entries));
    SortMembers(entries, order);
    if Normal(key, Map(entries)) {
      forall i | 0 <= i < |entries|
        ensures order(entries[i]) == order(ordered[i])
      {
        assert ordered[i] in entries;
        assert Stable(key, ordered[i].key);
        assert NormEntries(key, ordered)[i] == entries[i];
      }
      SortedByNow(entries, entries, order);
      SortOfAscending(entries, order);
    } else if Ascending(entries, order) {
      SortOfAscending(entries, order);
    }
  }

  lemma {:induction false} NodeNormal(key: Key, tag: Symbol, fields: seq<Field>)
    ensures Normal(key, Node(tag, fields)) <==> Ascending(fields, FieldKey()) && NormFields(key, fields) == fields
  {
    var ordered := SortBy(fields, FieldKey());
    NormalizeParts(key, Node(tag, fields));
    SortMembers(fields, FieldKey());
    if Normal(key, Node(tag, fields)) {
      forall i | 0 <= i < |fields|
        ensures FieldKey()(fields[i]) == FieldKey()(ordered[i])
      {
        assert NormFields(key, ordered)[i] == fields[i];
      }
      SortedByNow(fields, fields, FieldKey());
      SortOfAscending(fields, FieldKey());
    } else if Ascending(fields, FieldKey()) {
      SortOfAscending(fields, FieldKey());
    }
  }

  /** Normalising leaves exactly the ordered values as they are. */
  lemma {:induction false} NormalIffOrdered(key: Key, d: Datum)
    requires GoodKey(key) && Canonical(key, d)
    ensures Normal(key, d) <==> Ordered(key, d)
    decreases d
  {
    hide Normalize, SortBy;
    match d
    case List(items) =>
      NormalizeParts(key, d);
      AllNormal(key, items);
      ItemsNormalIff(key, items);
    case Vector(items) =>
      NormalizeParts(key, d);
      AllNormal(key, items);
      ItemsNormalIff(key, items);
    case Set(items) =>
      ItemsAreStable(key, items);
      SetNormal(key, items);
      AllNormal(key, items);
      ItemsNormalIff(key, items);
    case Map(entries) =>
      EntriesAreStable(key, entries);
      MapNormal(key, entries);
      AllEntriesNormal(key, entries);
      EntriesNormalIff(key, entries);
    case Node(tag, fields) =>
      NodeNormal(key, tag, fields);
      AllFieldsNormal(key, fields);
      FieldsNormalIff(key, fields);
    case _ =>
      FlatNormal(key, d);
  }

  lemma {:induction false} FlatNormal(key: Key, d: Datum)
    requires Tag(d) < 7
    ensures Normal(key, d) && Ordered(key, d)
  {
  }

  lemma {:induction false} ItemsNormalIff(key: Key, items: seq<Datum>)
    requires GoodKey(key) && ItemsOk(items) && forall i :: 0 <= i < |items| ==> Unrepeated(key, items[i])
    ensures forall i :: 0 <= i < |items| ==> (Normal(key, items[i]) <==> Ordered(key, items[i]))
    decreases items
  {
    forall i | 0 <= i < |items|
      ensures Normal(key, items[i]) <==> Ordered(key, items[i])
    {
      NormalIffOrdered(key, items[i]);
    }
  }

  lemma {:induction false} EntriesNormalIff(key: Key, entries: seq<Entry>)
    requires GoodKey(key) && EntriesOk(entries) && forall i :: 0 <= i < |entries| ==> UnrepeatedEntry(key, entries[i])
    ensures forall i :: 0 <= i < |entries| ==>
      (Normal(key, entries[i].key) && Normal(key, entries[i].value) <==> OrderedEntry(key, entries[i]))
    decreases entries
  {
    forall i | 0 <= i < |entries|
      ensures Normal(key, entries[i].key) && Normal(key, entries[i].value) <==> OrderedEntry(key, entries[i])
    {
      EntryNormalIff(key, entries[i]);
    }
  }

  lemma {:induction false} EntryNormalIff(key: Key, e: Entry)
    requires GoodKey(key) && EntryOk(e) && UnrepeatedEntry(key, e)
    ensures Normal(key, e.key) && Normal(key, e.value) <==> OrderedEntry(key, e)
    decreases e
  {
    NormalIffOrdered(key, e.key);
    NormalIffOrdered(key, e.value);
  }

  lemma {:induction false} FieldsNormalIff(key: Key, fields: seq<Field>)
    requires GoodKey(key) && FieldsOk(fields) && forall i :: 0 <= i < |fields| ==> UnrepeatedField(key, fields[i])
    ensures forall i :: 0 <= i < |fields| ==> (Normal(key, fields[i].value) <==> OrderedField(key, fields[i]))
    decreases fields
  {
    forall i | 0 <= i < |fields|
      ensures Normal(key, fields[i].value) <==> OrderedField(key, fields[i])
    {
      FieldNormalIff(key, fields[i]);
    }
  }

  lemma {:induction false} FieldNormalIff(key: Key, f: Field)
    requires GoodKey(key) && FieldOk(f) && UnrepeatedField(key, f)
    ensures Normal(key, f.value) <==> OrderedField(key, f)
    decreases f
  {
    NormalIffOrdered(key, f.value);
  }

  // ---------------------------------------------------------------------------------------------
  // Accepted bytes

  /** Accepted bytes are the canonical encoding of what they state exactly when that is in order. */
  lemma {:induction false} AcceptedCanonicalIff(key: Key, s: seq<byte>)
    requires GoodKey(key) && Decode(key, s).Ok?
    ensures Encode(key, Decode(key, s).value) == Ok(s) <==> Ordered(key, Decode(key, s).value)
  {
    var d := Decode(key, s).value;
    DecodeExact(key, s);
    NormalizeStable(key, d);
    NormalIffOrdered(key, d);
    if Encode(key, d) == Ok(s) {
      var n := Normalize(key, d);
      assert s[10..] == Raw(n) && s[10..] == Raw(d);
      RawInjective(n, d);
    }
  }

  /** The accepted bytes of a value are its plain form, in whatever order its parts stand. */
  lemma {:induction false} AcceptedIff(key: Key, s: seq<byte>, d: Datum)
    ensures Decode(key, s) == Ok(d) <==> Canonical(key, d) && s == DATUM_FORMAT + Raw(d)
  {
    if Canonical(key, d) && s == DATUM_FORMAT + Raw(d) {
      DecodeAnyOrder(key, d);
    }
    if Decode(key, s) == Ok(d) {
      DecodeExact(key, s);
    }
  }

  lemma {:induction false} LetterOk(c: byte)
    requires 0x61 <= c <= 0x7A
    ensures SymbolOk(Symbol(None, [c]))
  {
    assert [c][1..] == [] && CharLength([c]) == 1;
  }

  /** A node whose two fields are swapped is accepted, and its bytes are not the canonical encoding. */
  lemma {:induction false} SwappedFieldsAccepted(key: Key) returns (d: Datum)
    requires GoodKey(key)
    ensures var s := DATUM_FORMAT + Raw(d); Decode(key, s) == Ok(d) && Encode(key, d) != Ok(s)
  {
    var a, b := Symbol(None, [0x61]), Symbol(None, [0x62]);
    var fields := [Field(b, Nil), Field(a, Nil)];
    d := Node(a, fields);
    LetterOk(0x61);
    LetterOk(0x62);
    assert Ints([0x61]) == [0x61] && Ints([0x62]) == [0x62];
    assert SymbolKey(a) == [0, 0x61] && SymbolKey(b) == [0, 0x62];
    assert [0, 0x62][1..] == [0x62] && [0, 0x61][1..] == [0x61];
    assert !LexLeq(SymbolKey(b), SymbolKey(a));
    assert !Ascending(fields, FieldKey()) by {
      assert fields[0].name == b && fields[1].name == a;
    }
    assert FieldOk(fields[0]) && FieldOk(fields[1]) && Unrepeated(key, Nil);
    DecodeAnyOrder(key, d);
    AcceptedCanonicalIff(key, DATUM_FORMAT + Raw(d));
  }
}
