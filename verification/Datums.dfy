/**
 * Semantic values as the datum codec sees them, their plain byte form, and the parser of that form.
 *
 * Text is its UTF-8 bytes. A length never exceeds the 64-bit size a host can hold.
 */
module Datums {
  import opened Wrappers
  import opened Bytes

  type Text = seq<byte>

  datatype Symbol = Symbol(namespace: Option<Text>, name: Text)

  datatype Datum =
    | Nil
    | Bool(value: bool)
    | Number(domain: Symbol, canonical: Text)
    | Sym(symbol: Symbol)
    | Str(text: Text)
    | Blob(bytes: seq<byte>)
    | List(items: seq<Datum>)
    | Vector(items: seq<Datum>)
    | Map(entries: seq<Entry>)
    | Set(items: seq<Datum>)
    | Node(tag: Symbol, fields: seq<Field>)

  datatype Entry = Entry(key: Datum, value: Datum)

  datatype Field = Field(name: Symbol, value: Datum)

  const U64_LIMIT: nat := 0x1_0000_0000_0000_0000

  /** What every Rust value of these types satisfies. */
  predicate TextOk(t: Text) {
    Utf8(t) && |t| < U64_LIMIT
  }

  predicate SymbolOk(s: Symbol) {
    (s.namespace.Some? ==> TextOk(s.namespace.value)) && TextOk(s.name)
  }

  predicate DatumOk(d: Datum)
    decreases d, 0
  {
    match d
    case Nil => true
    case Bool(_) => true
    case Number(domain, canonical) => SymbolOk(domain) && TextOk(canonical)
    case Sym(symbol) => SymbolOk(symbol)
    case Str(text) => TextOk(text)
    case Blob(bytes) => |bytes| < U64_LIMIT
    case List(items) => |items| < U64_LIMIT && ItemsOk(items)
    case Vector(items) => |items| < U64_LIMIT && ItemsOk(items)
    case Set(items) => |items| < U64_LIMIT && ItemsOk(items)
    case Map(entries) => |entries| < U64_LIMIT && EntriesOk(entries)
    case Node(tag, fields) => SymbolOk(tag) && |fields| < U64_LIMIT && FieldsOk(fields)
  }

  predicate ItemsOk(items: seq<Datum>)
    decreases items, 0
  {
    forall i :: 0 <= i < |items| ==> DatumOk(items[i])
  }

  predicate EntriesOk(entries: seq<Entry>)
    decreases entries, 0
  {
    forall i :: 0 <= i < |entries| ==> EntryOk(entries[i])
  }

  predicate EntryOk(entry: Entry)
    decreases entry, 0
  {
    DatumOk(entry.key) && DatumOk(entry.value)
  }

  predicate FieldsOk(fields: seq<Field>)
    decreases fields, 0
  {
    forall i :: 0 <= i < |fields| ==> FieldOk(fields[i])
  }

  predicate FieldOk(field: Field)
    decreases field, 0
  {
    SymbolOk(field.name) && DatumOk(field.value)
  }

  // ---------------------------------------------------------------------------------------------
  // Fixed-width integers

  /** `n` in `width` big-endian bytes. */
  function BigEndian(n: nat, width: nat): (r: seq<byte>)
    ensures |r| == width
  {
    if width == 0 then [] else BigEndian(n / 0x100, width - 1) + [(n % 0x100) as byte]
  }

  function FromBigEndian(s: seq<byte>): nat {
    if s == [] then 0 else FromBigEndian(s[..|s| - 1]) * 0x100 + s[|s| - 1] as nat
  }

  function Limit(width: nat): nat {
    if width == 0 then 1 else 0x100 * Limit(width - 1)
  }

  lemma {:induction false} BigEndianBack(n: nat, width: nat)
    requires n < Limit(width)
    ensures FromBigEndian(BigEndian(n, width)) == n
  {
    if width > 0 {
      BigEndianBack(n / 0x100, width - 1);
      var r := BigEndian(n, width);
      assert r[..|r| - 1] == BigEndian(n / 0x100, width - 1);
    }
  }

  lemma {:induction false} FromBigEndianBack(s: seq<byte>)
    ensures FromBigEndian(s) < Limit(|s|) && BigEndian(FromBigEndian(s), |s|) == s
  {
    if s != [] {
      FromBigEndianBack(s[..|s| - 1]);
      assert s == s[..|s| - 1] + [s[|s| - 1]];
    }
  }

  lemma {:induction false} Limits()
    ensures Limit(8) == U64_LIMIT && Limit(4) == 0x1_0000_0000
  {
    assert Limit(2) == 0x1_0000;
    assert Limit(3) == 0x100_0000;
    assert Limit(4) == 0x1_0000_0000;
    assert Limit(5) == 0x100_0000_0000;
    assert Limit(6) == 0x1_0000_0000_0000;
    assert Limit(7) == 0x100_0000_0000_0000;
  }

  // ---------------------------------------------------------------------------------------------
  // The plain form

  function RawLen(n: nat): (r: seq<byte>)
    ensures |r| == 8
  {
    BigEndian(n, 8)
  }

  function RawBytes(b: seq<byte>): seq<byte> {
    RawLen(|b|) + b
  }

  function RawSymbol(s: Symbol): seq<byte> {
    (if s.namespace.Some? then [1] + RawBytes(s.namespace.value) else [0]) + RawBytes(s.name)
  }

  function Tag(d: Datum): byte {
    match d
    case Nil => 0
    case Bool(value) => if value then 2 else 1
    case Number(_, _) => 3
    case Sym(_) => 4
    case Str(_) => 5
    case Blob(_) => 6
    case List(_) => 7
    case Vector(_) => 8
    case Map(_) => 9
    case Set(_) => 10
    case Node(_, _) => 11
  }

  /** The tag and the parts of a value, in the order it holds them. */
  function Raw(d: Datum): seq<byte>
    decreases d, 1
  {
    [Tag(d)] + RawBody(d)
  }

  function RawBody(d: Datum): seq<byte>
    decreases d, 0
  {
    match d
    case Nil => []
    case Bool(_) => []
    case Number(domain, canonical) => RawSymbol(domain) + RawBytes(canonical)
    case Sym(symbol) => RawSymbol(symbol)
    case Str(text) => RawBytes(text)
    case Blob(bytes) => RawBytes(bytes)
    case List(items) => RawLen(|items|) + RawItems(items)
    case Vector(items) => RawLen(|items|) + RawItems(items)
    case Map(entries) => RawLen(|entries|) + RawEntries(entries)
    case Set(items) => RawLen(|items|) + RawItems(items)
    case Node(tag, fields) => RawSymbol(tag) + (RawLen(|fields|) + RawFields(fields))
  }

  function RawItems(items: seq<Datum>): seq<byte>
    decreases items
  {
    if items == [] then [] else Raw(items[0]) + RawItems(items[1..])
  }

  function RawEntries(entries: seq<Entry>): seq<byte>
    decreases entries
  {
    if entries == [] then [] else RawEntry(entries[0]) + RawEntries(entries[1..])
  }

  function RawEntry(entry: Entry): seq<byte>
    decreases entry
  {
    Raw(entry.key) + Raw(entry.value)
  }

  function RawFields(fields: seq<Field>): seq<byte>
    decreases fields
  {
    if fields == [] then [] else RawField(fields[0]) + RawFields(fields[1..])
  }

  function RawField(field: Field): seq<byte>
    decreases field
  {
    RawSymbol(field.name) + Raw(field.value)
  }

  // ---------------------------------------------------------------------------------------------
  // The parser

  /** A value and what follows it, or a refusal. */
  datatype Parsed<+T> = Done(value: T, rest: seq<byte>) | Bad

  function Take(s: seq<byte>, n: nat): Parsed<seq<byte>> {
    if n <= |s| then Done(s[..n], s[n..]) else Bad
  }

  function ParseLen(s: seq<byte>): (r: Parsed<nat>)
    ensures r.Done? ==> |r.rest| < |s|
  {
    if |s| < 8 then Bad else Done(FromBigEndian(s[..8]), s[8..])
  }

  function ParseBytes(s: seq<byte>): (r: Parsed<seq<byte>>)
    ensures r.Done? ==> |r.rest| < |s|
  {
    match ParseLen(s)
    case Bad => Bad
    case Done(n, rest) => Take(rest, n)
  }

  function ParseText(s: seq<byte>): (r: Parsed<Text>)
    ensures r.Done? ==> |r.rest| < |s|
  {
    match ParseBytes(s)
    case Bad => Bad
    case Done(text, rest) => if Utf8(text) then Done(text, rest) else Bad
  }

  function ParseSymbol(s: seq<byte>): (r: Parsed<Symbol>)
    ensures r.Done? ==> |r.rest| < |s|
  {
    if s == [] then Bad
    else if s[0] == 0 then
      match ParseText(s[1..])
      case Bad => Bad
      case Done(name, rest) => Done(Symbol(None, name), rest)
    else if s[0] == 1 then
      match ParseText(s[1..])
      case Bad => Bad
      case Done(namespace, middle) =>
        (match ParseText(middle)
         case Bad => Bad
         case Done(name, rest) => Done(Symbol(Some(namespace), name), rest))
    else Bad
  }

  function ParseNumber(s: seq<byte>): (r: Parsed<Datum>)
    ensures r.Done? ==> |r.rest| < |s|
  {
    match ParseSymbol(s)
    case Bad => Bad
    case Done(domain, middle) =>
      (match ParseText(middle)
       case Bad => Bad
       case Done(canonical, rest) => Done(Number(domain, canonical), rest))
  }

  function Parse(s: seq<byte>): (r: Parsed<Datum>)
    ensures r.Done? ==> |r.rest| < |s|
    decreases |s|, 0
  {
    if s == [] then Bad
    else if s[0] < 7 then ParseFlat(s[0], s[1..])
    else ParseNested(s[0], s[1..])
  }

  /** The values without parts that are values. */
  function ParseFlat(tag: byte, body: seq<byte>): (r: Parsed<Datum>)
    ensures r.Done? ==> |r.rest| <= |body|
  {
    if tag == 0 then Done(Nil, body)
    else if tag == 1 then Done(Bool(false), body)
    else if tag == 2 then Done(Bool(true), body)
    else if tag == 3 then ParseNumber(body)
    else if tag == 4 then
      (match ParseSymbol(body) case Bad => Bad case Done(symbol, rest) => Done(Sym(symbol), rest))
    else if tag == 5 then
      (match ParseText(body) case Bad => Bad case Done(text, rest) => Done(Str(text), rest))
    else if tag == 6 then
      (match ParseBytes(body) case Bad => Bad case Done(bytes, rest) => Done(Blob(bytes), rest))
    else Bad
  }

  function ParseNested(tag: byte, body: seq<byte>): (r: Parsed<Datum>)
    ensures r.Done? ==> |r.rest| <= |body|
    decreases |body|, 4
  {
    if tag == 7 then
      (match ParseItems(body) case Bad => Bad case Done(items, rest) => Done(List(items), rest))
    else if tag == 8 then
      (match ParseItems(body) case Bad => Bad case Done(items, rest) => Done(Vector(items), rest))
    else if tag == 9 then
      (match ParseEntries(body) case Bad => Bad case Done(entries, rest) => Done(Map(entries), rest))
    else if tag == 10 then
      (match ParseItems(body) case Bad => Bad case Done(items, rest) => Done(Set(items), rest))
    else if tag == 11 then
      (match ParseSymbol(body)
       case Bad => Bad
       case Done(name, middle) =>
         (match ParseFields(middle) case Bad => Bad case Done(fields, rest) => Done(Node(name, fields), rest)))
    else Bad
  }

  function ParseEntries(s: seq<byte>): (r: Parsed<seq<Entry>>)
    ensures r.Done? ==> |r.rest| <= |s|
    decreases |s|, 3
  {
    match ParseLen(s)
    case Bad => Bad
    case Done(count, rest) => ParseEntriesOf(rest, count)
  }

  function ParseFields(s: seq<byte>): (r: Parsed<seq<Field>>)
    ensures r.Done? ==> |r.rest| <= |s|
    decreases |s|, 3
  {
    match ParseLen(s)
    case Bad => Bad
    case Done(count, rest) => ParseFieldsOf(rest, count)
  }

  function ParseItems(s: seq<byte>): (r: Parsed<seq<Datum>>)
    ensures r.Done? ==> |r.rest| <= |s|
    decreases |s|, 3
  {
    match ParseLen(s)
    case Bad => Bad
    case Done(count, rest) => ParseItemsOf(rest, count)
  }

  function ParseItemsOf(s: seq<byte>, count: nat): (r: Parsed<seq<Datum>>)
    ensures r.Done? ==> |r.rest| <= |s| && |r.value| == count
    decreases |s|, 1
  {
    if count == 0 then Done([], s)
    else
      match Parse(s)
      case Bad => Bad
      case Done(first, middle) =>
        (match ParseItemsOf(middle, count - 1) case Bad => Bad case Done(others, rest) => Done([first] + others, rest))
  }

  function ParseEntriesOf(s: seq<byte>, count: nat): (r: Parsed<seq<Entry>>)
    ensures r.Done? ==> |r.rest| <= |s| && |r.value| == count
    decreases |s|, 2
  {
    if count == 0 then Done([], s)
    else
      match ParseEntry(s)
      case Bad => Bad
      case Done(first, middle) =>
        (match ParseEntriesOf(middle, count - 1) case Bad => Bad case Done(others, rest) =>
          Done([first] + others, rest))
  }

  function ParseEntry(s: seq<byte>): (r: Parsed<Entry>)
    ensures r.Done? ==> |r.rest| < |s|
    decreases |s|, 1
  {
    match Parse(s)
    case Bad => Bad
    case Done(key, middle) =>
      (match Parse(middle) case Bad => Bad case Done(value, rest) => Done(Entry(key, value), rest))
  }

  function ParseFieldsOf(s: seq<byte>, count: nat): (r: Parsed<seq<Field>>)
    ensures r.Done? ==> |r.rest| <= |s| && |r.value| == count
    decreases |s|, 2
  {
    if count == 0 then Done([], s)
    else
      match ParseField(s)
      case Bad => Bad
      case Done(first, middle) =>
        (match ParseFieldsOf(middle, count - 1) case Bad => Bad case Done(others, rest) => Done([first] + others, rest))
  }

  function ParseField(s: seq<byte>): (r: Parsed<Field>)
    ensures r.Done? ==> |r.rest| < |s|
    decreases |s|, 1
  {
    match ParseSymbol(s)
    case Bad => Bad
    case Done(name, middle) =>
      (match Parse(middle) case Bad => Bad case Done(value, rest) => Done(Field(name, value), rest))
  }
}
