/** The plain form and its parser are inverse to each other, and the form is self-delimiting. */
module DatumParsing {
  import opened Wrappers
  import opened Bytes
  import opened Datums

  // ---------------------------------------------------------------------------------------------
  // What is written is read back, and what follows is left

  lemma {:induction false} TakeBack(a: seq<byte>, r: seq<byte>)
    ensures (a + r)[..|a|] == a && (a + r)[|a|..] == r
  {
  }

  lemma {:induction false} Associates(a: seq<byte>, b: seq<byte>, c: seq<byte>)
    ensures a + b + c == a + (b + c)
  {
  }

  lemma {:induction false} LenBack(n: nat, r: seq<byte>)
    requires n < U64_LIMIT
    ensures ParseLen(RawLen(n) + r) == Done(n, r)
  {
    Limits();
    BigEndianBack(n, 8);
    TakeBack(RawLen(n), r);
  }

  lemma {:induction false} BytesBack(b: seq<byte>, r: seq<byte>)
    requires |b| < U64_LIMIT
    ensures ParseBytes(RawBytes(b) + r) == Done(b, r)
  {
    assert RawBytes(b) + r == RawLen(|b|) + (b + r);
    LenBack(|b|, b + r);
    TakeBack(b, r);
  }

  lemma {:induction false} TextBack(t: Text, r: seq<byte>)
    requires TextOk(t)
    ensures ParseText(RawBytes(t) + r) == Done(t, r)
  {
    BytesBack(t, r);
  }

  lemma {:induction false} SymbolBack(s: Symbol, r: seq<byte>)
    requires SymbolOk(s)
    ensures ParseSymbol(RawSymbol(s) + r) == Done(s, r)
  {
    hide TextOk, ParseText, RawBytes;
    var whole := RawSymbol(s) + r;
    TextBack(s.name, r);
    if s.namespace.Some? {
      assert whole[1..] == RawBytes(s.namespace.value) + (RawBytes(s.name) + r);
      TextBack(s.namespace.value, RawBytes(s.name) + r);
    } else {
      assert whole[1..] == RawBytes(s.name) + r;
    }
  }

  lemma {:induction false} NumberBack(domain: Symbol, canonical: Text, s: seq<byte>, r: seq<byte>)
    requires SymbolOk(domain) && TextOk(canonical) && s == RawSymbol(domain) + RawBytes(canonical) + r
    ensures ParseNumber(s) == Done(Number(domain, canonical), r)
  {
    var tail := RawBytes(canonical) + r;
    Associates(RawSymbol(domain), RawBytes(canonical), r);
    SymbolBack(domain, tail);
    TextBack(canonical, r);
    assert ParseSymbol(s) == Done(domain, tail);
  }

  lemma {:induction false} FlatBack(d: Datum, body: seq<byte>, r: seq<byte>)
    requires DatumOk(d) && Tag(d) < 7 && body == RawBody(d) + r
    ensures ParseFlat(Tag(d), body) == Done(d, r)
  {
    match d
    case Nil =>
    case Bool(_) =>
    case Number(domain, canonical) => NumberBack(domain, canonical, body, r);
    case Sym(symbol) => SymbolBack(symbol, r);
    case Str(text) => TextBack(text, r);
    case Blob(bytes) => BytesBack(bytes, r);
  }

  /** A counted sequence: the count is read back, and then the elements. */
  lemma {:induction false} CountBack(count: nat, elements: seq<byte>, s: seq<byte>, r: seq<byte>)
    requires count < U64_LIMIT && s == RawLen(count) + elements + r
    ensures ParseLen(s) == Done(count, elements + r)
  {
    LenBack(count, elements + r);
    assert s == RawLen(count) + (elements + r);
  }

  /** Decoding an encoding followed by anything yields the value and leaves the rest. */
  lemma {:induction false} RoundTrip(d: Datum, s: seq<byte>, r: seq<byte>)
    requires DatumOk(d) && s == Raw(d) + r
    ensures Parse(s) == Done(d, r)
    decreases d, 1
  {
    var body := RawBody(d) + r;
    assert s[0] == Tag(d) && s[1..] == body;
    if Tag(d) < 7 {
      FlatBack(d, body, r);
    } else {
      NestedBack(d, body, r);
    }
  }

  lemma {:induction false} NestedBack(d: Datum, body: seq<byte>, r: seq<byte>)
    requires DatumOk(d) && Tag(d) >= 7 && body == RawBody(d) + r
    ensures ParseNested(Tag(d), body) == Done(d, r)
    decreases d, 0
  {
    match d
    case List(items) => ItemsBack(items, body, r);
    case Vector(items) => ItemsBack(items, body, r);
    case Set(items) => ItemsBack(items, body, r);
    case Map(entries) => EntriesBack(entries, body, r);
    case Node(tag, fields) => NodeBack(tag, fields, body, r);
  }

  lemma {:induction false} NodeBack(tag: Symbol, fields: seq<Field>, s: seq<byte>, r: seq<byte>)
    requires SymbolOk(tag) && |fields| < U64_LIMIT
    requires FieldsOk(fields)
    requires s == RawSymbol(tag) + (RawLen(|fields|) + RawFields(fields)) + r
    ensures ParseSymbol(s) == Done(tag, RawLen(|fields|) + RawFields(fields) + r)
    ensures ParseFields(RawLen(|fields|) + RawFields(fields) + r) == Done(fields, r)
    decreases fields, 2
  {
    var middle := RawLen(|fields|) + RawFields(fields);
    Associates(RawSymbol(tag), middle, r);
    SymbolBack(tag, middle + r);
    FieldsBack(fields, middle + r, r);
  }

  lemma {:induction false} ItemsBack(items: seq<Datum>, s: seq<byte>, r: seq<byte>)
    requires |items| < U64_LIMIT && ItemsOk(items)
    requires s == RawLen(|items|) + RawItems(items) + r
    ensures ParseItems(s) == Done(items, r)
    decreases items, 1
  {
    CountBack(|items|, RawItems(items), s, r);
    ItemsOfBack(items, RawItems(items) + r, r);
  }

  lemma {:induction false} ItemsOfBack(items: seq<Datum>, s: seq<byte>, r: seq<byte>)
    requires ItemsOk(items) && s == RawItems(items) + r
    ensures ParseItemsOf(s, |items|) == Done(items, r)
    decreases items, 0
  {
    if items != [] {
      hide DatumOk, Raw;
      var first, others := items[0], items[1..];
      var front, back := Raw(first), RawItems(others);
      var after := back + r;
      Associates(front, back, r);
      RoundTrip(first, s, after);
      ItemsOfBack(others, after, r);
      assert items == [first] + others;
    }
  }

  lemma {:induction false} EntriesBack(entries: seq<Entry>, s: seq<byte>, r: seq<byte>)
    requires |entries| < U64_LIMIT && EntriesOk(entries)
    requires s == RawLen(|entries|) + RawEntries(entries) + r
    ensures ParseEntries(s) == Done(entries, r)
    decreases entries, 1
  {
    CountBack(|entries|, RawEntries(entries), s, r);
    EntriesOfBack(entries, RawEntries(entries) + r, r);
  }

  lemma {:induction false} EntriesOfBack(entries: seq<Entry>, s: seq<byte>, r: seq<byte>)
    requires EntriesOk(entries)
    requires s == RawEntries(entries) + r
    ensures ParseEntriesOf(s, |entries|) == Done(entries, r)
    decreases entries, 0
  {
    if entries != [] {
      hide EntryOk, RawEntry, Raw;
      var first, others := entries[0], entries[1..];
      var front, back := RawEntry(first), RawEntries(others);
      var after := back + r;
      Associates(front, back, r);
      EntryBack(first, s, after);
      EntriesOfBack(others, after, r);
      assert entries == [first] + others;
    }
  }

  lemma {:induction false} EntryBack(entry: Entry, s: seq<byte>, r: seq<byte>)
    requires EntryOk(entry) && s == RawEntry(entry) + r
    ensures ParseEntry(s) == Done(entry, r)
    decreases entry
  {
    var middle := Raw(entry.value) + r;
    assert s == Raw(entry.key) + middle;
    RoundTrip(entry.key, s, middle);
    RoundTrip(entry.value, middle, r);
  }

  lemma {:induction false} FieldsBack(fields: seq<Field>, s: seq<byte>, r: seq<byte>)
    requires |fields| < U64_LIMIT && FieldsOk(fields)
    requires s == RawLen(|fields|) + RawFields(fields) + r
    ensures ParseFields(s) == Done(fields, r)
    decreases fields, 1
  {
    CountBack(|fields|, RawFields(fields), s, r);
    FieldsOfBack(fields, RawFields(fields) + r, r);
  }

  lemma {:induction false} FieldsOfBack(fields: seq<Field>, s: seq<byte>, r: seq<byte>)
    requires FieldsOk(fields)
    requires s == RawFields(fields) + r
    ensures ParseFieldsOf(s, |fields|) == Done(fields, r)
    decreases fields, 0
  {
    if fields != [] {
      hide FieldOk, RawField, Raw;
      var first, others := fields[0], fields[1..];
      var front, back := RawField(first), RawFields(others);
      var after := back + r;
      Associates(front, back, r);
      FieldBack(first, s, after);
      FieldsOfBack(others, after, r);
      assert fields == [first] + others;
    }
  }

  lemma {:induction false} FieldBack(field: Field, s: seq<byte>, r: seq<byte>)
    requires FieldOk(field) && s == RawField(field) + r
    ensures ParseField(s) == Done(field, r)
    decreases field
  {
    var middle := Raw(field.value) + r;
    assert s == RawSymbol(field.name) + middle;
    SymbolBack(field.name, middle);
    RoundTrip(field.value, middle, r);
  }

  /** Two values with one plain form are the same value. */
  lemma {:induction false} RawInjective(a: Datum, b: Datum)
    requires DatumOk(a) && DatumOk(b) && Raw(a) == Raw(b)
    ensures a == b
  {
    RoundTrip(a, Raw(a), []);
    RoundTrip(b, Raw(b), []);
  }

  // ---------------------------------------------------------------------------------------------
  // Nothing else is accepted

  lemma {:induction false} LenExact(s: seq<byte>)
    requires ParseLen(s).Done?
    ensures ParseLen(s).value < U64_LIMIT && s == RawLen(ParseLen(s).value) + ParseLen(s).rest
  {
    Limits();
    FromBigEndianBack(s[..8]);
    assert s == s[..8] + s[8..];
  }

  lemma {:induction false} BytesExact(s: seq<byte>)
    requires ParseBytes(s).Done?
    ensures |ParseBytes(s).value| < U64_LIMIT && s == RawBytes(ParseBytes(s).value) + ParseBytes(s).rest
  {
    LenExact(s);
    var rest := ParseLen(s).rest;
    assert rest == ParseBytes(s).value + ParseBytes(s).rest;
  }

  lemma {:induction false} SymbolExact(s: seq<byte>)
    requires ParseSymbol(s).Done?
    ensures SymbolOk(ParseSymbol(s).value) && s == RawSymbol(ParseSymbol(s).value) + ParseSymbol(s).rest
  {
    BytesExact(s[1..]);
    assert s == [s[0]] + s[1..];
    var first, middle := ParseText(s[1..]).value, ParseText(s[1..]).rest;
    if s[0] == 1 {
      BytesExact(middle);
      var name, rest := ParseText(middle).value, ParseText(middle).rest;
      Associates([1], RawBytes(first), RawBytes(name) + rest);
      Associates([1] + RawBytes(first), RawBytes(name), rest);
    } else {
      Associates([0], RawBytes(first), middle);
    }
  }

  /** The parser accepts only plain forms: it reads back exactly the bytes it consumed. */
  lemma {:induction false} ParseExact(s: seq<byte>)
    requires Parse(s).Done?
    ensures DatumOk(Parse(s).value) && s == Raw(Parse(s).value) + Parse(s).rest
    decreases |s|, 0
  {
    var r := Parse(s);
    if s[0] < 7 {
      FlatExact(s[0], s[1..]);
    } else {
      NestedExact(s[0], s[1..]);
    }
    TagJoin(s, r.value, r.rest);
  }

  lemma {:induction false} TagJoin(s: seq<byte>, d: Datum, rest: seq<byte>)
    requires s != [] && s[0] == Tag(d) && s[1..] == RawBody(d) + rest
    ensures s == Raw(d) + rest
  {
    assert s == [s[0]] + s[1..];
    Associates([s[0]], RawBody(d), rest);
  }

  lemma {:induction false} NumberExact(body: seq<byte>)
    requires ParseNumber(body).Done?
    ensures var r := ParseNumber(body); r.value.Number? && DatumOk(r.value) && body == RawBody(r.value) + r.rest
  {
    SymbolExact(body);
    var domain, middle := ParseSymbol(body).value, ParseSymbol(body).rest;
    BytesExact(middle);
    var canonical, rest := ParseText(middle).value, ParseText(middle).rest;
    Associates(RawSymbol(domain), RawBytes(canonical), rest);
  }

  lemma {:induction false} FlatExact(tag: byte, body: seq<byte>)
    requires tag < 7 && ParseFlat(tag, body).Done?
    ensures var r := ParseFlat(tag, body);
      DatumOk(r.value) && Tag(r.value) == tag && body == RawBody(r.value) + r.rest
  {
    if tag == 3 {
      NumberExact(body);
    } else if tag == 4 {
      SymbolExact(body);
    } else if tag > 4 {
      BytesExact(body);
    }
  }

  lemma {:induction false} NestedExact(tag: byte, body: seq<byte>)
    requires ParseNested(tag, body).Done?
    ensures var r := ParseNested(tag, body);
      DatumOk(r.value) && Tag(r.value) == tag && body == RawBody(r.value) + r.rest
    decreases |body|, 4
  {
    if tag == 9 {
      EntriesExact(body);
    } else if tag == 11 {
      NodeExact(body);
    } else {
      ItemsExact(body);
    }
  }

  lemma {:induction false} NodeExact(body: seq<byte>)
    requires ParseNested(11, body).Done?
    ensures var r := ParseNested(11, body); r.value.Node? && DatumOk(r.value) && body == RawBody(r.value) + r.rest
    decreases |body|, 3
  {
    SymbolExact(body);
    var name, middle := ParseSymbol(body).value, ParseSymbol(body).rest;
    FieldsExact(middle);
    var fields, rest := ParseFields(middle).value, ParseFields(middle).rest;
    Associates(RawSymbol(name), RawLen(|fields|) + RawFields(fields), rest);
  }

  lemma {:induction false} ItemsExact(s: seq<byte>)
    requires ParseItems(s).Done?
    ensures var items := ParseItems(s).value;
      && |items| < U64_LIMIT && ItemsOk(items)
      && s == RawLen(|items|) + RawItems(items) + ParseItems(s).rest
    decreases |s|, 3
  {
    LenExact(s);
    ItemsOfExact(ParseLen(s).rest, ParseLen(s).value, ParseItems(s).value, ParseItems(s).rest);
  }

  lemma {:induction false} ItemsFirst(s: seq<byte>, count: nat)
    requires count > 0 && ParseItemsOf(s, count).Done?
    ensures var first := Parse(s);
      && first.Done? && var others := ParseItemsOf(first.rest, count - 1);
      && others.Done? && ParseItemsOf(s, count) == Done([first.value] + others.value, others.rest)
  {
  }

  lemma {:induction false} ItemsJoin(s: seq<byte>, first: Datum, middle: seq<byte>, others: seq<Datum>, rest: seq<byte>)
    requires s == Raw(first) + middle && middle == RawItems(others) + rest
    requires DatumOk(first) && ItemsOk(others)
    ensures ItemsOk([first] + others) && s == RawItems([first] + others) + rest
  {
    assert ([first] + others)[1..] == others;
    Associates(Raw(first), RawItems(others), rest);
  }

  lemma {:induction false} ItemsOfExact(s: seq<byte>, count: nat, items: seq<Datum>, rest: seq<byte>)
    requires ParseItemsOf(s, count) == Done(items, rest)
    ensures ItemsOk(items) && s == RawItems(items) + rest
    decreases |s|, 1
  {
    if count > 0 {
      ItemsFirst(s, count);
      var first, middle := Parse(s).value, Parse(s).rest;
      var others := ParseItemsOf(middle, count - 1).value;
      ParseExact(s);
      ItemsOfExact(middle, count - 1, others, rest);
      ItemsJoin(s, first, middle, others, rest);
    }
  }

  lemma {:induction false} EntriesExact(s: seq<byte>)
    requires ParseEntries(s).Done?
    ensures var entries := ParseEntries(s).value;
      && |entries| < U64_LIMIT && EntriesOk(entries)
      && s == RawLen(|entries|) + RawEntries(entries) + ParseEntries(s).rest
    decreases |s|, 3
  {
    LenExact(s);
    EntriesOfExact(ParseLen(s).rest, ParseLen(s).value, ParseEntries(s).value, ParseEntries(s).rest);
  }

  lemma {:induction false} EntriesFirst(s: seq<byte>, count: nat)
    requires count > 0 && ParseEntriesOf(s, count).Done?
    ensures var first := ParseEntry(s);
      && first.Done? && var others := ParseEntriesOf(first.rest, count - 1);
      && others.Done? && ParseEntriesOf(s, count) == Done([first.value] + others.value, others.rest)
  {
  }

  lemma {:induction false} EntriesJoin(s: seq<byte>, first: Entry, middle: seq<byte>, others: seq<Entry>,
      rest: seq<byte>)
    requires s == RawEntry(first) + middle && middle == RawEntries(others) + rest
    requires EntryOk(first) && EntriesOk(others)
    ensures EntriesOk([first] + others) && s == RawEntries([first] + others) + rest
  {
    assert ([first] + others)[1..] == others;
    Associates(RawEntry(first), RawEntries(others), rest);
  }

  lemma {:induction false} EntriesOfExact(s: seq<byte>, count: nat, entries: seq<Entry>, rest: seq<byte>)
    requires ParseEntriesOf(s, count) == Done(entries, rest)
    ensures EntriesOk(entries) && s == RawEntries(entries) + rest
    decreases |s|, 2
  {
    if count > 0 {
      EntriesFirst(s, count);
      var first, middle := ParseEntry(s).value, ParseEntry(s).rest;
      var others := ParseEntriesOf(middle, count - 1).value;
      EntryExact(s);
      EntriesOfExact(middle, count - 1, others, rest);
      EntriesJoin(s, first, middle, others, rest);
    }
  }

  lemma {:induction false} EntryExact(s: seq<byte>)
    requires ParseEntry(s).Done?
    ensures var r := ParseEntry(s); EntryOk(r.value) && s == RawEntry(r.value) + r.rest
    decreases |s|, 1
  {
    ParseExact(s);
    ParseExact(Parse(s).rest);
  }

  lemma {:induction false} FieldsExact(s: seq<byte>)
    requires ParseFields(s).Done?
    ensures var fields := ParseFields(s).value;
      && |fields| < U64_LIMIT && FieldsOk(fields)
      && s == RawLen(|fields|) + RawFields(fields) + ParseFields(s).rest
    decreases |s|, 3
  {
    LenExact(s);
    FieldsOfExact(ParseLen(s).rest, ParseLen(s).value, ParseFields(s).value, ParseFields(s).rest);
  }

  lemma {:induction false} FieldsFirst(s: seq<byte>, count: nat)
    requires count > 0 && ParseFieldsOf(s, count).Done?
    ensures var first := ParseField(s);
      && first.Done? && var others := ParseFieldsOf(first.rest, count - 1);
      && others.Done? && ParseFieldsOf(s, count) == Done([first.value] + others.value, others.rest)
  {
  }

  lemma {:induction false} FieldsJoin(s: seq<byte>, first: Field, middle: seq<byte>, others: seq<Field>,
      rest: seq<byte>)
    requires s == RawField(first) + middle && middle == RawFields(others) + rest
    requires FieldOk(first) && FieldsOk(others)
    ensures FieldsOk([first] + others) && s == RawFields([first] + others) + rest
  {
    assert ([first] + others)[1..] == others;
    Associates(RawField(first), RawFields(others), rest);
  }

  lemma {:induction false} FieldsOfExact(s: seq<byte>, count: nat, fields: seq<Field>, rest: seq<byte>)
    requires ParseFieldsOf(s, count) == Done(fields, rest)
    ensures FieldsOk(fields) && s == RawFields(fields) + rest
    decreases |s|, 2
  {
    if count > 0 {
      FieldsFirst(s, count);
      var first, middle := ParseField(s).value, ParseField(s).rest;
      var others := ParseFieldsOf(middle, count - 1).value;
      FieldExact(s);
      FieldsOfExact(middle, count - 1, others, rest);
      FieldsJoin(s, first, middle, others, rest);
    }
  }

  lemma {:induction false} FieldExact(s: seq<byte>)
    requires ParseField(s).Done?
    ensures var r := ParseField(s); FieldOk(r.value) && s == RawField(r.value) + r.rest
    decreases |s|, 1
  {
    SymbolExact(s);
    ParseExact(ParseSymbol(s).rest);
  }
}
