/** The encoding can serve as its own key, so the assumption on the kernel's key can be met. */
module DatumOwnKey {
  import opened Wrappers
  import opened Bytes
  import opened Datums
  import opened DatumParsing
  import opened Order
  import opened DatumCodec

  function RawKey(): Key {
    (x: Datum) => Ints(Raw(x))
  }

  function RawEntryKey(): Entry -> seq<int> {
    (e: Entry) => Ints(Raw(e.key))
  }

  /** Parts in order of their own encodings, from the inside out. */
  function Own(d: Datum): Datum
    decreases d, 0
  {
    match d
    case List(items) => List(OwnAll(items))
    case Vector(items) => Vector(OwnAll(items))
    case Set(items) => Set(SortBy(OwnAll(items), RawKey()))
    case Map(entries) => Map(SortBy(OwnEntries(entries), RawEntryKey()))
    case Node(tag, fields) => Node(tag, SortBy(OwnFields(fields), FieldKey()))
    case _ => d
  }

  function OwnAll(items: seq<Datum>): (r: seq<Datum>)
    ensures |r| == |items|
    decreases items, 0
  {
    seq(|items|, i requires 0 <= i < |items| => Own(items[i]))
  }

  function OwnEntry(e: Entry): Entry
    decreases e, 0
  {
    Entry(Own(e.key), Own(e.value))
  }

  function OwnEntries(entries: seq<Entry>): (r: seq<Entry>)
    ensures |r| == |entries|
    decreases entries, 0
  {
    seq(|entries|, i requires 0 <= i < |entries| => OwnEntry(entries[i]))
  }

  function OwnField(f: Field): Field
    decreases f, 0
  {
    Field(f.name, Own(f.value))
  }

  function OwnFields(fields: seq<Field>): (r: seq<Field>)
    ensures |r| == |fields|
    decreases fields, 0
  {
    seq(|fields|, i requires 0 <= i < |fields| => OwnField(fields[i]))
  }

  function OwnKey(): Key {
    (d: Datum) => Ints(Raw(Own(d)))
  }

  // ---------------------------------------------------------------------------------------------
  // Sorting images is taking images of what was sorted

  function Image<T>(f: T -> T, s: seq<T>): (r: seq<T>)
    ensures |r| == |s|
  {
    seq(|s|, i requires 0 <= i < |s| => f(s[i]))
  }

  lemma {:induction false} ImageCons<T>(f: T -> T, x: T, s: seq<T>)
    ensures Image(f, [x] + s) == [f(x)] + Image(f, s)
  {
  }

  ghost predicate KeyThrough<T(!new)>(f: T -> T, inner: T -> seq<int>, outer: T -> seq<int>) {
    forall x :: inner(x) == outer(f(x))
  }

  lemma {:induction false} InsertImage<T(!new)>(f: T -> T, inner: T -> seq<int>, outer: T -> seq<int>, x: T, s: seq<T>)
    requires KeyThrough(f, inner, outer)
    ensures Insert(f(x), Image(f, s), outer) == Image(f, Insert(x, s, inner))
  {
    if s != [] {
      var rest := s[1..];
      assert s == [s[0]] + rest && Image(f, s)[1..] == Image(f, rest);
      InsertImage(f, inner, outer, x, rest);
      ImageCons(f, x, s);
      ImageCons(f, s[0], Insert(x, rest, inner));
    }
  }

  lemma {:induction false} SortImage<T(!new)>(f: T -> T, inner: T -> seq<int>, outer: T -> seq<int>, s: seq<T>)
    requires KeyThrough(f, inner, outer)
    ensures SortBy(Image(f, s), outer) == Image(f, SortBy(s, inner))
  {
    if s != [] {
      var rest := s[1..];
      assert Image(f, s)[1..] == Image(f, rest);
      SortImage(f, inner, outer, rest);
      InsertImage(f, inner, outer, s[0], SortBy(rest, inner));
    }
  }

  // ---------------------------------------------------------------------------------------------
  // The normal form of this key

  /** With this key the normal form is the one built from the inside out. */
  lemma {:induction false} NormalizeIsOwn(d: Datum)
    ensures Normalize(OwnKey(), d) == Own(d)
    decreases d
  {
    NormalizeParts(OwnKey(), d);
    match d
    case List(items) => SequenceIsOwn(items);
    case Vector(items) => SequenceIsOwn(items);
    case Set(items) => SetIsOwn(items);
    case Map(entries) => EntriesAreOwn(entries);
    case Node(_, fields) => FieldsAreOwn(fields);
    case _ =>
  }

  lemma {:induction false} EachItemIsOwn(items: seq<Datum>, ordered: seq<Datum>)
    requires multiset(ordered) == multiset(items)
    ensures NormAll(OwnKey(), ordered) == Image(Own, ordered)
    decreases items, 0
  {
    SameMembers(ordered, items);
    forall i | 0 <= i < |ordered|
      ensures Normalize(OwnKey(), ordered[i]) == Own(ordered[i])
    {
      assert ordered[i] in items;
      NormalizeIsOwn(ordered[i]);
    }
  }

  lemma {:induction false} SequenceIsOwn(items: seq<Datum>)
    ensures NormAll(OwnKey(), items) == OwnAll(items)
    decreases items, 1
  {
    EachItemIsOwn(items, items);
  }

  lemma {:induction false} SetIsOwn(items: seq<Datum>)
    ensures NormAll(OwnKey(), SortBy(items, OwnKey())) == SortBy(OwnAll(items), RawKey())
    decreases items, 1
  {
    EachItemIsOwn(items, SortBy(items, OwnKey()));
    SortImage(Own, OwnKey(), RawKey(), items);
    assert Image(Own, items) == OwnAll(items);
  }

  lemma {:induction false} EntriesAreOwn(entries: seq<Entry>)
    ensures NormEntries(OwnKey(), SortBy(entries, EntryKey(OwnKey()))) == SortBy(OwnEntries(entries), RawEntryKey())
    decreases entries, 1
  {
    var inner := EntryKey(OwnKey());
    EachEntryIsOwn(entries, SortBy(entries, inner));
    SortImage(OwnEntry, inner, RawEntryKey(), entries);
    assert Image(OwnEntry, entries) == OwnEntries(entries);
  }

  lemma {:induction false} EachEntryIsOwn(entries: seq<Entry>, ordered: seq<Entry>)
    requires multiset(ordered) == multiset(entries)
    ensures NormEntries(OwnKey(), ordered) == Image(OwnEntry, ordered)
    decreases entries, 0
  {
    SameMembers(ordered, entries);
    forall i | 0 <= i < |ordered|
      ensures NormEntry(OwnKey(), ordered[i]) == OwnEntry(ordered[i])
    {
      assert ordered[i] in entries;
      EntryIsOwn(ordered[i]);
    }
  }

  lemma {:induction false} EntryIsOwn(e: Entry)
    ensures NormEntry(OwnKey(), e) == OwnEntry(e)
    decreases e
  {
    NormalizeIsOwn(e.key);
    NormalizeIsOwn(e.value);
  }

  lemma {:induction false} FieldsAreOwn(fields: seq<Field>)
    ensures NormFields(OwnKey(), SortBy(fields, FieldKey())) == SortBy(OwnFields(fields), FieldKey())
    decreases fields, 1
  {
    EachFieldIsOwn(fields, SortBy(fields, FieldKey()));
    SortImage(OwnField, FieldKey(), FieldKey(), fields);
    assert Image(OwnField, fields) == OwnFields(fields);
  }

  lemma {:induction false} EachFieldIsOwn(fields: seq<Field>, ordered: seq<Field>)
    requires multiset(ordered) == multiset(fields)
    ensures NormFields(OwnKey(), ordered) == Image(OwnField, ordered)
    decreases fields, 0
  {
    SameMembers(ordered, fields);
    forall i | 0 <= i < |ordered|
      ensures NormField(OwnKey(), ordered[i]) == OwnField(ordered[i])
    {
      assert ordered[i] in fields;
      FieldIsOwn(ordered[i]);
    }
  }

  lemma {:induction false} FieldIsOwn(f: Field)
    ensures NormField(OwnKey(), f) == OwnField(f)
    decreases f
  {
    NormalizeIsOwn(f.value);
  }

  // ---------------------------------------------------------------------------------------------
  // It is a good key

  lemma {:induction false} OwnOk(d: Datum)
    requires DatumOk(d)
    ensures DatumOk(Own(d))
    decreases d
  {
    match d
    case List(items) => ItemsOwnOk(items);
    case Vector(items) => ItemsOwnOk(items);
    case Set(items) =>
      ItemsOwnOk(items);
      SortOk(OwnAll(items), RawKey(), DatumOk);
    case Map(entries) =>
      EntriesOwnOk(entries);
      SortOk(OwnEntries(entries), RawEntryKey(), EntryOk);
    case Node(_, fields) =>
      FieldsOwnOk(fields);
      SortOk(OwnFields(fields), FieldKey(), FieldOk);
    case _ =>
  }

  lemma {:induction false} SortOk<T>(s: seq<T>, key: T -> seq<int>, ok: T -> bool)
    requires forall i :: 0 <= i < |s| ==> ok(s[i])
    ensures |SortBy(s, key)| == |s| && forall i :: 0 <= i < |s| ==> ok(SortBy(s, key)[i])
  {
    SortMembers(s, key);
    var r := SortBy(s, key);
    forall i | 0 <= i < |s|
      ensures ok(r[i])
    {
      assert r[i] in multiset(r);
      assert r[i] in multiset(s);
      var j :| 0 <= j < |s| && s[j] == r[i];
    }
  }

  lemma {:induction false} ItemsOwnOk(items: seq<Datum>)
    requires ItemsOk(items)
    ensures ItemsOk(OwnAll(items))
    decreases items
  {
    forall i | 0 <= i < |items|
      ensures DatumOk(Own(items[i]))
    {
      OwnOk(items[i]);
    }
  }

  lemma {:induction false} EntriesOwnOk(entries: seq<Entry>)
    requires EntriesOk(entries)
    ensures EntriesOk(OwnEntries(entries))
    decreases entries
  {
    forall i | 0 <= i < |entries|
      ensures EntryOk(OwnEntry(entries[i]))
    {
      EntryOwnOk(entries[i]);
    }
  }

  lemma {:induction false} EntryOwnOk(e: Entry)
    requires EntryOk(e)
    ensures EntryOk(OwnEntry(e))
    decreases e
  {
    OwnOk(e.key);
    OwnOk(e.value);
  }

  lemma {:induction false} FieldsOwnOk(fields: seq<Field>)
    requires FieldsOk(fields)
    ensures FieldsOk(OwnFields(fields))
    decreases fields
  {
    forall i | 0 <= i < |fields|
      ensures FieldOk(OwnField(fields[i]))
    {
      FieldOwnOk(fields[i]);
    }
  }

  lemma {:induction false} FieldOwnOk(f: Field)
    requires FieldOk(f)
    ensures FieldOk(OwnField(f))
    decreases f
  {
    OwnOk(f.value);
  }

  lemma {:induction false} OwnKeyTells(a: Datum, b: Datum)
    requires DatumOk(a) && DatumOk(b)
    ensures OwnKey()(a) == OwnKey()(b) <==> Normalize(OwnKey(), a) == Normalize(OwnKey(), b)
  {
    NormalizeIsOwn(a);
    NormalizeIsOwn(b);
    OwnOk(a);
    OwnOk(b);
    if OwnKey()(a) == OwnKey()(b) {
      IntsInjective(Raw(Own(a)), Raw(Own(b)));
      RawInjective(Own(a), Own(b));
    }
  }

  lemma {:induction false} OwnKeyIsGood()
    ensures GoodKey(OwnKey())
  {
    forall a, b | Canonical(OwnKey(), a) && Canonical(OwnKey(), b)
      ensures OwnKey()(a) == OwnKey()(b) <==> Normalize(OwnKey(), a) == Normalize(OwnKey(), b)
    {
      hide Unrepeated, Normalize;
      OwnKeyTells(a, b);
    }
  }
}
