/**
 * The canonical encoding: sorted copies of maps, sets and fields in the plain form.
 *
 * `key` stands for the kernel's canonical bytes. All that is asked of it is that two canonical values have
 * the same key exactly when they are the same up to the order of entries, members and fields.
 */
module DatumCodec {
  import opened Wrappers
  import opened Bytes
  import opened Datums
  import opened DatumParsing
  import opened Order

  type Key = Datum -> seq<int>

  // ---------------------------------------------------------------------------------------------
  // Field order

  function Ints(t: Text): (r: seq<int>)
    ensures |r| == |t|
  {
    seq(|t|, i requires 0 <= i < |t| => t[i] as int)
  }

  /** The order of Rust strings. */
  predicate TextLeq(a: Text, b: Text) {
    LexLeq(Ints(a), Ints(b))
  }

  /** The order of `(Option<String>, String)`. */
  predicate SymbolLeq(a: Symbol, b: Symbol) {
    if a.namespace.None? && b.namespace.None? then TextLeq(a.name, b.name)
    else if a.namespace.None? || b.namespace.None? then a.namespace.None?
    else if a.namespace.value == b.namespace.value then TextLeq(a.name, b.name)
    else TextLeq(a.namespace.value, b.namespace.value)
  }

  /** `symbol_key` as one string of numbers: a namespace ends before any longer one goes on. */
  function SymbolKey(s: Symbol): seq<int> {
    if s.namespace.None? then [0] + Ints(s.name) else [1] + (Shifted(s.namespace.value) + Ints(s.name))
  }

  function Shifted(t: Text): seq<int> {
    if t == [] then [0] else [t[0] as int + 1] + Shifted(t[1..])
  }

  lemma {:induction false} SymbolKeyOrder(a: Symbol, b: Symbol)
    ensures LexLeq(SymbolKey(a), SymbolKey(b)) <==> SymbolLeq(a, b)
    ensures a.namespace.None? && b.namespace.Some? ==> SymbolLeq(a, b) && !SymbolLeq(b, a)
    ensures a.namespace == b.namespace ==> (SymbolLeq(a, b) <==> TextLeq(a.name, b.name))
    ensures a.namespace.Some? && b.namespace.Some? && a.namespace != b.namespace ==>
      (SymbolLeq(a, b) <==> TextLeq(a.namespace.value, b.namespace.value))
    ensures SymbolKey(a) == SymbolKey(b) ==> a == b
  {
    var x, y := SymbolKey(a), SymbolKey(b);
    if a.namespace.None? && b.namespace.None? {
      assert x[1..] == Ints(a.name) && y[1..] == Ints(b.name);
      IntsInjective(a.name, b.name);
    } else if a.namespace.Some? && b.namespace.Some? {
      assert x[1..] == Shifted(a.namespace.value) + Ints(a.name) && y[1..] == Shifted(b.namespace.value) + Ints(b.name);
      ShiftedOrder(a.namespace.value, b.namespace.value, Ints(a.name), Ints(b.name));
      IntsInjective(a.name, b.name);
    }
  }

  /** One text comes before another where it ends first, or has the smaller byte at the first difference. */
  lemma {:induction false} TextLeqIff(a: Text, b: Text)
    ensures TextLeq(a, b) <==>
      exists k :: 0 <= k <= |a| && k <= |b| && a[..k] == b[..k] && (k == |a| || (k < |b| && a[k] < b[k]))
  {
    LexLeqIff(Ints(a), Ints(b));
    forall k | 0 <= k <= |a| && k <= |b|
      ensures Ints(a)[..k] == Ints(b)[..k] <==> a[..k] == b[..k]
    {
      assert Ints(a)[..k] == Ints(a[..k]) && Ints(b)[..k] == Ints(b[..k]);
      IntsInjective(a[..k], b[..k]);
    }
    if TextLeq(a, b) {
      var k :| 0 <= k <= |a| && LessAt(Ints(a), Ints(b), k);
      assert a[..k] == b[..k] && (k == |a| || (k < |b| && a[k] < b[k]));
    }
    assert forall k :: 0 <= k <= |a| && k <= |b| && a[..k] == b[..k] && (k == |a| || (k < |b| && a[k] < b[k])) ==>
      LessAt(Ints(a), Ints(b), k);
  }

  lemma {:induction false} IntsInjective(a: Text, b: Text)
    ensures Ints(a) == Ints(b) ==> a == b
  {
    if Ints(a) == Ints(b) {
      forall i | 0 <= i < |a|
        ensures a[i] == b[i]
      {
        assert Ints(a)[i] == Ints(b)[i];
      }
    }
  }

  lemma {:induction false} ShiftedOrder(a: Text, b: Text, p: seq<int>, q: seq<int>)
    ensures LexLeq(Shifted(a) + p, Shifted(b) + q) <==> if a == b then LexLeq(p, q) else TextLeq(a, b)
    ensures Shifted(a) + p == Shifted(b) + q ==> a == b && p == q
  {
    var x, y := Shifted(a) + p, Shifted(b) + q;
    if a == [] && b == [] {
      assert x[1..] == p && y[1..] == q;
    } else if a != [] && b != [] {
      assert x[1..] == Shifted(a[1..]) + p && y[1..] == Shifted(b[1..]) + q;
      ShiftedOrder(a[1..], b[1..], p, q);
      assert Ints(a)[1..] == Ints(a[1..]) && Ints(b)[1..] == Ints(b[1..]);
      assert a == [a[0]] + a[1..] && b == [b[0]] + b[1..];
    }
  }

  // ---------------------------------------------------------------------------------------------
  // Normal form

  function EntryKey(key: Key): Entry -> seq<int> {
    (e: Entry) => key(e.key)
  }

  function FieldKey(): Field -> seq<int> {
    (f: Field) => SymbolKey(f.name)
  }

  /** The value with its unordered parts in key order, all the way down. */
  function Normalize(key: Key, d: Datum): Datum
    decreases d
  {
    match d
    case List(items) => List(seq(|items|, i requires 0 <= i < |items| => Normalize(key, items[i])))
    case Vector(items) => Vector(seq(|items|, i requires 0 <= i < |items| => Normalize(key, items[i])))
    case Set(items) =>
      var ordered := SortBy(items, key);
      SortMembers(items, key);
      Set(seq(|ordered|, i requires 0 <= i < |ordered| => assert ordered[i] in items; Normalize(key, ordered[i])))
    case Map(entries) =>
      var ordered := SortBy(entries, EntryKey(key));
      SortMembers(entries, EntryKey(key));
      Map(seq(|ordered|, i requires 0 <= i < |ordered| => assert ordered[i] in entries; NormEntry(key, ordered[i])))
    case Node(tag, fields) =>
      var ordered := SortBy(fields, FieldKey());
      SortMembers(fields, FieldKey());
      Node(tag, seq(|ordered|, i requires 0 <= i < |ordered| =>
        assert ordered[i] in fields; NormField(key, ordered[i])))
    case _ => d
  }

  function NormEntry(key: Key, e: Entry): Entry
    decreases e
  {
    Entry(Normalize(key, e.key), Normalize(key, e.value))
  }

  function NormField(key: Key, f: Field): Field
    decreases f
  {
    Field(f.name, Normalize(key, f.value))
  }

  function NormAll(key: Key, items: seq<Datum>): (r: seq<Datum>)
    ensures |r| == |items|
  {
    seq(|items|, i requires 0 <= i < |items| => Normalize(key, items[i]))
  }

  function NormEntries(key: Key, entries: seq<Entry>): (r: seq<Entry>)
    ensures |r| == |entries|
  {
    seq(|entries|, i requires 0 <= i < |entries| => NormEntry(key, entries[i]))
  }

  function NormFields(key: Key, fields: seq<Field>): (r: seq<Field>)
    ensures |r| == |fields|
  {
    seq(|fields|, i requires 0 <= i < |fields| => NormField(key, fields[i]))
  }

  /** The normal form part by part. */
  lemma {:induction false} NormalizeParts(key: Key, d: Datum)
    ensures d.List? ==> Normalize(key, d) == List(NormAll(key, d.items))
    ensures d.Vector? ==> Normalize(key, d) == Vector(NormAll(key, d.items))
    ensures d.Set? ==> Normalize(key, d) == Set(NormAll(key, SortBy(d.items, key)))
    ensures d.Map? ==> Normalize(key, d) == Map(NormEntries(key, SortBy(d.entries, EntryKey(key))))
    ensures d.Node? ==> Normalize(key, d) == Node(d.tag, NormFields(key, SortBy(d.fields, FieldKey())))
  {
  }

  // ---------------------------------------------------------------------------------------------
  // Canonical values

  /** What `canonical_bytes` accepts: no member, key or field occurs twice, at any depth. */
  predicate Unrepeated(key: Key, d: Datum)
    decreases d
  {
    match d
    case List(items) => forall i :: 0 <= i < |items| ==> Unrepeated(key, items[i])
    case Vector(items) => forall i :: 0 <= i < |items| ==> Unrepeated(key, items[i])
    case Set(items) => Distinct(items, key) && forall i :: 0 <= i < |items| ==> Unrepeated(key, items[i])
    case Map(entries) => Distinct(entries, EntryKey(key)) && forall i :: 0 <= i < |entries| ==>
      UnrepeatedEntry(key, entries[i])
    case Node(_, fields) => Distinct(fields, FieldKey()) && forall i :: 0 <= i < |fields| ==>
      UnrepeatedField(key, fields[i])
    case _ => true
  }

  predicate UnrepeatedEntry(key: Key, e: Entry)
    decreases e
  {
    Unrepeated(key, e.key) && Unrepeated(key, e.value)
  }

  predicate UnrepeatedField(key: Key, f: Field)
    decreases f
  {
    Unrepeated(key, f.value)
  }

  predicate Canonical(key: Key, d: Datum) {
    DatumOk(d) && Unrepeated(key, d)
  }

  /** The key tells canonical values apart exactly up to normal form. */
  ghost predicate GoodKey(key: Key) {
    forall a, b :: Canonical(key, a) && Canonical(key, b) ==>
      (key(a) == key(b) <==> Normalize(key, a) == Normalize(key, b))
  }

  // ---------------------------------------------------------------------------------------------
  // The normal form is canonical, stable, and has the same key

  ghost predicate Stable(key: Key, d: Datum) {
    && Canonical(key, Normalize(key, d)) && Normalize(key, Normalize(key, d)) == Normalize(key, d)
    && key(Normalize(key, d)) == key(d)
  }

  lemma {:induction false} StableFromParts(key: Key, d: Datum)
    requires GoodKey(key) && Canonical(key, d) && Canonical(key, Normalize(key, d))
    requires Normalize(key, Normalize(key, d)) == Normalize(key, d)
    ensures Stable(key, d)
  {
  }

  ghost predicate AllStable(key: Key, items: seq<Datum>) {
    forall i :: 0 <= i < |items| ==> Stable(key, items[i])
  }

  lemma {:induction false} ItemsStable(key: Key, items: seq<Datum>)
    requires AllStable(key, items)
    ensures var n := NormAll(key, items);
      && ItemsOk(n) && (forall i :: 0 <= i < |n| ==> Unrepeated(key, n[i]))
      && NormAll(key, n) == n && (forall i :: 0 <= i < |n| ==> key(n[i]) == key(items[i]))
  {
    var n := NormAll(key, items);
    forall i | 0 <= i < |n|
      ensures Canonical(key, n[i]) && Normalize(key, n[i]) == n[i] && key(n[i]) == key(items[i])
    {
      assert Stable(key, items[i]);
    }
  }

  lemma {:induction false} SetStable(key: Key, items: seq<Datum>)
    requires AllStable(key, items) && Distinct(items, key)
    ensures var n := NormAll(key, SortBy(items, key));
      && ItemsOk(n) && (forall i :: 0 <= i < |n| ==> Unrepeated(key, n[i]))
      && |n| == |items| && Distinct(n, key) && NormAll(key, SortBy(n, key)) == n
  {
    var ordered := SortBy(items, key);
    SortMembers(items, key);
    SortAscends(items, key);
    SortDistinct(items, key);
    forall i | 0 <= i < |ordered|
      ensures Stable(key, ordered[i])
    {
      assert ordered[i] in items;
    }
    ItemsStable(key, ordered);
    SameKeys(ordered, NormAll(key, ordered), key);
    SortOfAscending(NormAll(key, ordered), key);
  }

  ghost predicate EntriesStable(key: Key, entries: seq<Entry>) {
    forall i :: 0 <= i < |entries| ==> Stable(key, entries[i].key) && Stable(key, entries[i].value)
  }

  lemma {:induction false} MapStable(key: Key, entries: seq<Entry>)
    requires EntriesStable(key, entries) && Distinct(entries, EntryKey(key))
    ensures var n := NormEntries(key, SortBy(entries, EntryKey(key)));
      && EntriesOk(n) && (forall i :: 0 <= i < |n| ==> UnrepeatedEntry(key, n[i]))
      && |n| == |entries| && Distinct(n, EntryKey(key)) && NormEntries(key, SortBy(n, EntryKey(key))) == n
  {
    var order := EntryKey(key);
    var ordered := SortBy(entries, order);
    SortMembers(entries, order);
    SortAscends(entries, order);
    SortDistinct(entries, order);
    var n := NormEntries(key, ordered);
    forall i | 0 <= i < |ordered|
      ensures EntryOk(n[i]) && UnrepeatedEntry(key, n[i]) && NormEntry(key, n[i]) == n[i]
      ensures order(n[i]) == order(ordered[i])
    {
      assert ordered[i] in entries;
      assert Stable(key, ordered[i].key) && Stable(key, ordered[i].value);
    }
    SameKeys(ordered, n, order);
    SortOfAscending(n, order);
    assert NormEntries(key, n) == n;
  }

  ghost predicate FieldsStable(key: Key, fields: seq<Field>) {
    forall i :: 0 <= i < |fields| ==> SymbolOk(fields[i].name) && Stable(key, fields[i].value)
  }

  lemma {:induction false} NodeStable(key: Key, fields: seq<Field>)
    requires FieldsStable(key, fields) && Distinct(fields, FieldKey())
    ensures var n := NormFields(key, SortBy(fields, FieldKey()));
      && FieldsOk(n) && (forall i :: 0 <= i < |n| ==> UnrepeatedField(key, n[i]))
      && |n| == |fields| && Distinct(n, FieldKey()) && NormFields(key, SortBy(n, FieldKey())) == n
  {
    var ordered := SortBy(fields, FieldKey());
    SortMembers(fields, FieldKey());
    SortAscends(fields, FieldKey());
    SortDistinct(fields, FieldKey());
    var n := NormFields(key, ordered);
    forall i | 0 <= i < |ordered|
      ensures FieldOk(n[i]) && UnrepeatedField(key, n[i]) && NormField(key, n[i]) == n[i]
      ensures FieldKey()(n[i]) == FieldKey()(ordered[i])
    {
      assert ordered[i] in fields;
      assert Stable(key, ordered[i].value);
    }
    SameKeys(ordered, n, FieldKey());
    SortOfAscending(n, FieldKey());
    assert NormFields(key, n) == n;
  }

  /** Normal forms of the parts make a canonical, stable whole. */
  ghost predicate Settled(key: Key, d: Datum) {
    Canonical(key, Normalize(key, d)) && Normalize(key, Normalize(key, d)) == Normalize(key, d)
  }

  lemma {:induction false} SequenceSettles(key: Key, d: Datum)
    requires (d.List? || d.Vector?) && |d.items| < U64_LIMIT && AllStable(key, d.items)
    ensures Settled(key, d)
  {
    NormalizeParts(key, d);
    NormalizeParts(key, Normalize(key, d));
    ItemsStable(key, d.items);
  }

  lemma {:induction false} SetSettles(key: Key, d: Datum)
    requires d.Set? && |d.items| < U64_LIMIT && AllStable(key, d.items) && Distinct(d.items, key)
    ensures Settled(key, d)
  {
    NormalizeParts(key, d);
    NormalizeParts(key, Normalize(key, d));
    SetStable(key, d.items);
  }

  lemma {:induction false} MapSettles(key: Key, d: Datum)
    requires d.Map? && |d.entries| < U64_LIMIT && EntriesStable(key, d.entries) && Distinct(d.entries, EntryKey(key))
    ensures Settled(key, d)
  {
    NormalizeParts(key, d);
    NormalizeParts(key, Normalize(key, d));
    MapStable(key, d.entries);
  }

  lemma {:induction false} NodeSettles(key: Key, d: Datum)
    requires d.Node? && SymbolOk(d.tag) && |d.fields| < U64_LIMIT && FieldsStable(key, d.fields)
    requires Distinct(d.fields, FieldKey())
    ensures Settled(key, d)
  {
    NormalizeParts(key, d);
    NormalizeParts(key, Normalize(key, d));
    NodeStable(key, d.fields);
  }

  /** Normalising twice is normalising once, and it keeps the meaning. */
  lemma {:induction false} NormalizeStable(key: Key, d: Datum)
    requires GoodKey(key) && Canonical(key, d)
    ensures Stable(key, d)
    decreases d
  {
    match d
    case List(items) =>
      ItemsAreStable(key, items);
      SequenceSettles(key, d);
    case Vector(items) =>
      ItemsAreStable(key, items);
      SequenceSettles(key, d);
    case Set(items) =>
      ItemsAreStable(key, items);
      SetSettles(key, d);
    case Map(entries) =>
      EntriesAreStable(key, entries);
      MapSettles(key, d);
    case Node(_, fields) =>
      FieldsAreStable(key, fields);
      NodeSettles(key, d);
    case _ =>
    StableFromParts(key, d);
  }

  lemma {:induction false} EntriesAreStable(key: Key, entries: seq<Entry>)
    requires GoodKey(key) && EntriesOk(entries) && forall i :: 0 <= i < |entries| ==> UnrepeatedEntry(key, entries[i])
    ensures EntriesStable(key, entries)
    decreases entries
  {
    forall i | 0 <= i < |entries|
      ensures Stable(key, entries[i].key) && Stable(key, entries[i].value)
    {
      EntryIsStable(key, entries[i]);
    }
  }

  lemma {:induction false} FieldsAreStable(key: Key, fields: seq<Field>)
    requires GoodKey(key) && FieldsOk(fields) && forall i :: 0 <= i < |fields| ==> UnrepeatedField(key, fields[i])
    ensures FieldsStable(key, fields)
    decreases fields
  {
    forall i | 0 <= i < |fields|
      ensures SymbolOk(fields[i].name) && Stable(key, fields[i].value)
    {
      FieldIsStable(key, fields[i]);
    }
  }

  lemma {:induction false} ItemsAreStable(key: Key, items: seq<Datum>)
    requires GoodKey(key) && ItemsOk(items) && forall i :: 0 <= i < |items| ==> Unrepeated(key, items[i])
    ensures AllStable(key, items)
    decreases items
  {
    forall i | 0 <= i < |items|
      ensures Stable(key, items[i])
    {
      NormalizeStable(key, items[i]);
    }
  }

  lemma {:induction false} EntryIsStable(key: Key, e: Entry)
    requires GoodKey(key) && EntryOk(e) && UnrepeatedEntry(key, e)
    ensures Stable(key, e.key) && Stable(key, e.value)
    decreases e
  {
    NormalizeStable(key, e.key);
    NormalizeStable(key, e.value);
  }

  lemma {:induction false} FieldIsStable(key: Key, f: Field)
    requires GoodKey(key) && FieldOk(f) && UnrepeatedField(key, f)
    ensures Stable(key, f.value)
    decreases f
  {
    NormalizeStable(key, f.value);
  }
}
