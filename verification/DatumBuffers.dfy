/** The buffer the encoder appends to and the cursor the decoder advances. */
module DatumBuffers {
  import opened Wrappers
  import opened Bytes
  import opened Datums
  import opened DatumParsing
  import opened Order
  import opened DatumCodec
  import opened DatumEncoding

  // ---------------------------------------------------------------------------------------------
  // Appending

  lemma {:induction false} RawItemsSnoc(items: seq<Datum>, x: Datum)
    ensures RawItems(items + [x]) == RawItems(items) + Raw(x)
  {
    if items == [] {
      assert RawItems([x]) == Raw(x) + RawItems([x][1..]) == Raw(x);
    } else {
      var rest := items[1..];
      RawItemsSnoc(rest, x);
      assert (items + [x])[1..] == rest + [x];
      Associates(Raw(items[0]), RawItems(rest), Raw(x));
    }
  }

  lemma {:induction false} RawEntriesSnoc(entries: seq<Entry>, x: Entry)
    ensures RawEntries(entries + [x]) == RawEntries(entries) + RawEntry(x)
  {
    if entries == [] {
      assert RawEntries([x]) == RawEntry(x) + RawEntries([x][1..]) == RawEntry(x);
    } else {
      var rest := entries[1..];
      RawEntriesSnoc(rest, x);
      assert (entries + [x])[1..] == rest + [x];
      Associates(RawEntry(entries[0]), RawEntries(rest), RawEntry(x));
    }
  }

  lemma {:induction false} RawFieldsSnoc(fields: seq<Field>, x: Field)
    ensures RawFields(fields + [x]) == RawFields(fields) + RawField(x)
  {
    if fields == [] {
      assert RawFields([x]) == RawField(x) + RawFields([x][1..]) == RawField(x);
    } else {
      var rest := fields[1..];
      RawFieldsSnoc(rest, x);
      assert (fields + [x])[1..] == rest + [x];
      Associates(RawField(fields[0]), RawFields(rest), RawField(x));
    }
  }

  lemma {:induction false} ItemsGrow(base: seq<byte>, n: seq<Datum>, k: nat)
    requires k < |n|
    ensures base + RawItems(n[..k]) + Raw(n[k]) == base + RawItems(n[..k + 1])
  {
    RawItemsSnoc(n[..k], n[k]);
    assert n[..k + 1] == n[..k] + [n[k]];
    Associates(base, RawItems(n[..k]), Raw(n[k]));
  }

  lemma {:induction false} EntriesGrow(base: seq<byte>, n: seq<Entry>, k: nat)
    requires k < |n|
    ensures base + RawEntries(n[..k]) + Raw(n[k].key) + Raw(n[k].value) == base + RawEntries(n[..k + 1])
  {
    RawEntriesSnoc(n[..k], n[k]);
    assert n[..k + 1] == n[..k] + [n[k]];
    Associates(base, RawEntries(n[..k]), RawEntry(n[k]));
    Associates(base + RawEntries(n[..k]), Raw(n[k].key), Raw(n[k].value));
  }

  lemma {:induction false} FieldsGrow(base: seq<byte>, n: seq<Field>, k: nat)
    requires k < |n|
    ensures base + RawFields(n[..k]) + RawSymbol(n[k].name) + Raw(n[k].value) == base + RawFields(n[..k + 1])
  {
    RawFieldsSnoc(n[..k], n[k]);
    assert n[..k + 1] == n[..k] + [n[k]];
    Associates(base, RawFields(n[..k]), RawField(n[k]));
    Associates(base + RawFields(n[..k]), RawSymbol(n[k].name), Raw(n[k].value));
  }

  lemma {:induction false} NormalizeTag(key: Key, d: Datum)
    ensures Tag(Normalize(key, d)) == Tag(d) && (Tag(d) < 7 ==> Normalize(key, d) == d)
  {
    NormalizeParts(key, d);
  }

  /** The body of a normal form, part by part. */
  lemma {:induction false} NormalBody(key: Key, d: Datum)
    ensures d.List? || d.Vector? ==>
      RawBody(Normalize(key, d)) == RawLen(|d.items|) + RawItems(NormAll(key, d.items))
    ensures d.Set? ==>
      RawBody(Normalize(key, d)) == RawLen(|d.items|) + RawItems(NormAll(key, SortBy(d.items, key)))
    ensures d.Map? ==>
      RawBody(Normalize(key, d)) == RawLen(|d.entries|) + RawEntries(NormEntries(key, SortBy(d.entries, EntryKey(key))))
    ensures d.Node? ==>
      RawBody(Normalize(key, d))
        == RawSymbol(d.tag) + (RawLen(|d.fields|) + RawFields(NormFields(key, SortBy(d.fields, FieldKey()))))
  {
    NormalizeParts(key, d);
    if d.Set? {
      SortMembers(d.items, key);
    } else if d.Map? {
      SortMembers(d.entries, EntryKey(key));
    } else if d.Node? {
      SortMembers(d.fields, FieldKey());
    }
  }

  class Buffer {
    var out: seq<byte>

    constructor (start: seq<byte>)
      ensures out == start
    {
      out := start;
    }

    method PutLen(n: nat)
      modifies this
      ensures out == old(out) + RawLen(n)
    {
      out := out + BigEndian(n, 8);
    }

    method PutBytes(b: seq<byte>)
      modifies this
      ensures out == old(out) + RawBytes(b)
    {
      PutLen(|b|);
      out := out + b;
      Associates(old(out), RawLen(|b|), b);
    }

    method PutSymbol(s: Symbol)
      modifies this
      ensures out == old(out) + RawSymbol(s)
    {
      match s.namespace
      case Some(namespace) =>
        out := out + [1];
        PutBytes(namespace);
        PutBytes(s.name);
        assert out == old(out) + (([1] + RawBytes(namespace)) + RawBytes(s.name));
      case None =>
        out := out + [0];
        PutBytes(s.name);
        assert out == old(out) + ([0] + RawBytes(s.name));
    }

    /** `put_items`; `whole` is the value the items are parts of. */
    method PutItems(key: Key, items: seq<Datum>, ghost whole: Datum)
      requires forall x :: x in items ==> x < whole
      modifies this
      ensures out == old(out) + (RawLen(|items|) + RawItems(NormAll(key, items)))
      decreases whole, 0
    {
      PutLen(|items|);
      ghost var base, n := out, NormAll(key, items);
      for k := 0 to |items|
        invariant out == base + RawItems(n[..k])
      {
        assert items[k] in items;
        PutDatum(key, items[k]);
        ItemsGrow(base, n, k);
      }
      assert n[..|items|] == n;
      Associates(old(out), RawLen(|items|), RawItems(n));
    }

    method PutEntries(key: Key, ordered: seq<Entry>, ghost whole: Datum)
      requires forall e :: e in ordered ==> e.key < whole && e.value < whole
      modifies this
      ensures out == old(out) + (RawLen(|ordered|) + RawEntries(NormEntries(key, ordered)))
      decreases whole, 0
    {
      PutLen(|ordered|);
      ghost var base, n := out, NormEntries(key, ordered);
      for k := 0 to |ordered|
        invariant out == base + RawEntries(n[..k])
      {
        assert ordered[k] in ordered;
        PutDatum(key, ordered[k].key);
        PutDatum(key, ordered[k].value);
        EntriesGrow(base, n, k);
      }
      assert n[..|ordered|] == n;
      Associates(old(out), RawLen(|ordered|), RawEntries(n));
    }

    method PutFields(key: Key, ordered: seq<Field>, ghost whole: Datum)
      requires forall f :: f in ordered ==> f.value < whole
      modifies this
      ensures out == old(out) + (RawLen(|ordered|) + RawFields(NormFields(key, ordered)))
      decreases whole, 0
    {
      PutLen(|ordered|);
      ghost var base, n := out, NormFields(key, ordered);
      for k := 0 to |ordered|
        invariant out == base + RawFields(n[..k])
      {
        assert ordered[k] in ordered;
        PutSymbol(ordered[k].name);
        PutDatum(key, ordered[k].value);
        FieldsGrow(base, n, k);
      }
      assert n[..|ordered|] == n;
      Associates(old(out), RawLen(|ordered|), RawFields(n));
    }

    /** `put_datum`: sorts a copy of the unordered parts and appends them in that order. */
    method PutDatum(key: Key, d: Datum)
      modifies this
      ensures out == old(out) + Raw(Normalize(key, d))
      decreases d, 3
    {
      NormalizeTag(key, d);
      out := out + [Tag(d)];
      if Tag(d) < 7 {
        PutFlat(d);
      } else {
        PutNested(key, d);
      }
      Associates(old(out), [Tag(d)], RawBody(Normalize(key, d)));
    }

    method PutFlat(d: Datum)
      requires Tag(d) < 7
      modifies this
      ensures out == old(out) + RawBody(d)
    {
      match d
      case Nil =>
      case Bool(_) =>
      case Number(domain, canonical) =>
        PutSymbol(domain);
        PutBytes(canonical);
      case Sym(symbol) =>
        PutSymbol(symbol);
      case Str(text) =>
        PutBytes(text);
      case Blob(bytes) =>
        PutBytes(bytes);
    }

    method PutNested(key: Key, d: Datum)
      requires Tag(d) >= 7
      modifies this
      ensures out == old(out) + RawBody(Normalize(key, d))
      decreases d, 2
    {
      NormalBody(key, d);
      match d
      case List(items) =>
        PutItems(key, items, d);
      case Vector(items) =>
        PutItems(key, items, d);
      case Set(items) =>
        SortMembers(items, key);
        PutItems(key, SortBy(items, key), d);
      case Map(entries) =>
        SortMembers(entries, EntryKey(key));
        PutEntries(key, SortBy(entries, EntryKey(key)), d);
      case Node(tag, fields) =>
        PutNode(key, tag, fields, d);
    }

    method PutNode(key: Key, tag: Symbol, fields: seq<Field>, ghost whole: Datum)
      requires whole == Node(tag, fields)
      modifies this
      ensures out == old(out)
        + (RawSymbol(tag) + (RawLen(|fields|) + RawFields(NormFields(key, SortBy(fields, FieldKey())))))
      decreases whole, 1
    {
      PutSymbol(tag);
      var ordered := SortBy(fields, FieldKey());
      SortMembers(fields, FieldKey());
      PutFields(key, ordered, whole);
      Associates(old(out), RawSymbol(tag), RawLen(|fields|) + RawFields(NormFields(key, ordered)));
    }
  }

  method EncodeDatum(key: Key, d: Datum) returns (r: Result<seq<byte>, CodecError>)
    ensures r == Encode(key, d)
  {
    if !Canonical(key, d) {
      return Err(NonCanonicalDatum);
    }
    var buffer := new Buffer(DATUM_FORMAT);
    buffer.PutDatum(key, d);
    return Ok(buffer.out);
  }

  // ---------------------------------------------------------------------------------------------
  // Advancing

  /** The elements read so far, in front of those still to be parsed. */
  ghost function Prepend<T>(front: seq<T>, p: Parsed<seq<T>>): Parsed<seq<T>> {
    match p
    case Bad => Bad
    case Done(others, rest) => Done(front + others, rest)
  }

  lemma {:induction false} PrependNothing<T>(p: Parsed<seq<T>>)
    ensures Prepend([], p) == p
  {
    if p.Done? {
      assert [] + p.value == p.value;
    }
  }

  lemma {:induction false} PrependSnoc<T>(front: seq<T>, x: T, p: Parsed<seq<T>>)
    ensures Prepend(front, Prepend([x], p)) == Prepend(front + [x], p)
  {
    if p.Done? {
      assert front + ([x] + p.value) == (front + [x]) + p.value;
    }
  }

  lemma {:induction false} ItemsNext(s: seq<byte>, count: nat)
    requires count > 0
    ensures ParseItemsOf(s, count) ==
      match Parse(s) case Bad => Bad case Done(first, middle) => Prepend([first], ParseItemsOf(middle, count - 1))
  {
  }

  lemma {:induction false} EntriesNext(s: seq<byte>, count: nat)
    requires count > 0
    ensures ParseEntriesOf(s, count) ==
      match ParseEntry(s) case Bad => Bad case Done(first, middle) =>
        Prepend([first], ParseEntriesOf(middle, count - 1))
  {
  }

  lemma {:induction false} FieldsNext(s: seq<byte>, count: nat)
    requires count > 0
    ensures ParseFieldsOf(s, count) ==
      match ParseField(s) case Bad => Bad case Done(first, middle) => Prepend([first], ParseFieldsOf(middle, count - 1))
  {
  }

  class Cursor {
    const bytes: seq<byte>
    var at: nat

    constructor (bytes: seq<byte>)
      ensures this.bytes == bytes && at == 0
    {
      this.bytes, at := bytes, 0;
    }

    ghost predicate Valid()
      reads `at
    {
      at <= |bytes|
    }

    ghost function Rest(): seq<byte>
      reads `at
      requires Valid()
    {
      bytes[at..]
    }

    /** The cursor did what the parser says: on success it stands at what is left. */
    ghost predicate Did<T>(p: Parsed<T>, r: Result<T, CodecError>)
      reads `at
    {
      Valid() && match p case Bad => r == Err(Corrupt) case Done(value, rest) => r == Ok(value) && Rest() == rest
    }

    method TakeBytes(n: nat) returns (r: Result<seq<byte>, CodecError>)
      requires Valid()
      modifies this
      ensures Did(Take(old(Rest()), n), r)
    {
      if at + n > |bytes| {
        return Err(Corrupt);
      }
      ghost var rest := Rest();
      r := Ok(bytes[at..at + n]);
      at := at + n;
      assert rest[..n] == r.value && rest[n..] == Rest();
    }

    method Byte() returns (r: Result<byte, CodecError>)
      requires Valid()
      modifies this
      ensures Valid()
      ensures if old(Rest()) == [] then r == Err(Corrupt) else r == Ok(old(Rest())[0]) && Rest() == old(Rest())[1..]
    {
      var taken := TakeBytes(1);
      return if taken.Ok? then Ok(taken.value[0]) else Err(Corrupt);
    }

    method Len() returns (r: Result<nat, CodecError>)
      requires Valid()
      modifies this
      ensures Did(ParseLen(old(Rest())), r)
    {
      var taken := TakeBytes(8);
      return if taken.Ok? then Ok(FromBigEndian(taken.value)) else Err(Corrupt);
    }

    method ReadBytes() returns (r: Result<seq<byte>, CodecError>)
      requires Valid()
      modifies this
      ensures Did(ParseBytes(old(Rest())), r)
    {
      var n := Len();
      if n.Err? {
        return Err(Corrupt);
      }
      r := TakeBytes(n.value);
    }

    method ReadText() returns (r: Result<Text, CodecError>)
      requires Valid()
      modifies this
      ensures Did(ParseText(old(Rest())), r)
    {
      r := ReadBytes();
      if r.Ok? && !Utf8(r.value) {
        return Err(Corrupt);
      }
    }

    method ReadSymbol() returns (r: Result<Symbol, CodecError>)
      requires Valid()
      modifies this
      ensures Did(ParseSymbol(old(Rest())), r)
    {
      var tag := Byte();
      if tag.Err? {
        return Err(Corrupt);
      }
      var namespace: Option<Text> := None;
      if tag.value == 1 {
        var text := ReadText();
        if text.Err? {
          return Err(Corrupt);
        }
        namespace := Some(text.value);
      } else if tag.value != 0 {
        return Err(Corrupt);
      }
      var name := ReadText();
      return if name.Ok? then Ok(Symbol(namespace, name.value)) else Err(Corrupt);
    }

    method ReadNumber() returns (r: Result<Datum, CodecError>)
      requires Valid()
      modifies this
      ensures Did(ParseNumber(old(Rest())), r)
    {
      var domain := ReadSymbol();
      if domain.Err? {
        return Err(Corrupt);
      }
      var canonical := ReadText();
      return if canonical.Ok? then Ok(Number(domain.value, canonical.value)) else Err(Corrupt);
    }

    method ReadItems() returns (r: Result<seq<Datum>, CodecError>)
      requires Valid()
      modifies this
      ensures Did(ParseItems(old(Rest())), r)
      decreases |Rest()|, 3
    {
      var count := Len();
      if count.Err? {
        return Err(Corrupt);
      }
      var items: seq<Datum> := [];
      ghost var whole := ParseItemsOf(Rest(), count.value);
      PrependNothing(whole);
      for k := 0 to count.value
        invariant Valid() && |Rest()| < |old(Rest())|
        invariant Prepend(items, ParseItemsOf(Rest(), count.value - k)) == whole
      {
        ItemsNext(Rest(), count.value - k);
        var item := ReadDatum();
        if item.Err? {
          return Err(Corrupt);
        }
        PrependSnoc(items, item.value, ParseItemsOf(Rest(), count.value - k - 1));
        items := items + [item.value];
      }
      assert items + [] == items;
      return Ok(items);
    }

    method ReadEntries() returns (r: Result<seq<Entry>, CodecError>)
      requires Valid()
      modifies this
      ensures Did(ParseEntries(old(Rest())), r)
      decreases |Rest()|, 3
    {
      var count := Len();
      if count.Err? {
        return Err(Corrupt);
      }
      var entries: seq<Entry> := [];
      ghost var whole := ParseEntriesOf(Rest(), count.value);
      PrependNothing(whole);
      for k := 0 to count.value
        invariant Valid() && |Rest()| < |old(Rest())|
        invariant Prepend(entries, ParseEntriesOf(Rest(), count.value - k)) == whole
      {
        EntriesNext(Rest(), count.value - k);
        var entry := ReadEntry();
        if entry.Err? {
          return Err(Corrupt);
        }
        PrependSnoc(entries, entry.value, ParseEntriesOf(Rest(), count.value - k - 1));
        entries := entries + [entry.value];
      }
      assert entries + [] == entries;
      return Ok(entries);
    }

    method ReadEntry() returns (r: Result<Entry, CodecError>)
      requires Valid()
      modifies this
      ensures Did(ParseEntry(old(Rest())), r)
      decreases |Rest()|, 2
    {
      var key := ReadDatum();
      if key.Err? {
        return Err(Corrupt);
      }
      var value := ReadDatum();
      return if value.Ok? then Ok(Entry(key.value, value.value)) else Err(Corrupt);
    }

    method ReadFields() returns (r: Result<seq<Field>, CodecError>)
      requires Valid()
      modifies this
      ensures Did(ParseFields(old(Rest())), r)
      decreases |Rest()|, 3
    {
      var count := Len();
      if count.Err? {
        return Err(Corrupt);
      }
      var fields: seq<Field> := [];
      ghost var whole := ParseFieldsOf(Rest(), count.value);
      PrependNothing(whole);
      for k := 0 to count.value
        invariant Valid() && |Rest()| < |old(Rest())|
        invariant Prepend(fields, ParseFieldsOf(Rest(), count.value - k)) == whole
      {
        FieldsNext(Rest(), count.value - k);
        var field := ReadField();
        if field.Err? {
          return Err(Corrupt);
        }
        PrependSnoc(fields, field.value, ParseFieldsOf(Rest(), count.value - k - 1));
        fields := fields + [field.value];
      }
      assert fields + [] == fields;
      return Ok(fields);
    }

    method ReadField() returns (r: Result<Field, CodecError>)
      requires Valid()
      modifies this
      ensures Did(ParseField(old(Rest())), r)
      decreases |Rest()|, 2
    {
      var name := ReadSymbol();
      if name.Err? {
        return Err(Corrupt);
      }
      var value := ReadDatum();
      return if value.Ok? then Ok(Field(name.value, value.value)) else Err(Corrupt);
    }

    /** `datum`: one value, whatever follows it. */
    method ReadDatum() returns (r: Result<Datum, CodecError>)
      requires Valid()
      modifies this
      ensures Did(Parse(old(Rest())), r)
      decreases |Rest()|, 1
    {
      var tag := Byte();
      if tag.Err? {
        return Err(Corrupt);
      }
      if tag.value < 7 {
        r := ReadFlat(tag.value);
      } else {
        r := ReadNested(tag.value);
      }
    }

    method ReadFlat(tag: byte) returns (r: Result<Datum, CodecError>)
      requires Valid()
      modifies this
      ensures Did(ParseFlat(tag, old(Rest())), r)
    {
      if tag == 0 {
        return Ok(Nil);
      } else if tag == 1 {
        return Ok(Bool(false));
      } else if tag == 2 {
        return Ok(Bool(true));
      } else if tag == 3 {
        r := ReadNumber();
      } else if tag == 4 {
        var symbol := ReadSymbol();
        return if symbol.Ok? then Ok(Sym(symbol.value)) else Err(Corrupt);
      } else if tag == 5 {
        var text := ReadText();
        return if text.Ok? then Ok(Str(text.value)) else Err(Corrupt);
      } else if tag == 6 {
        var blob := ReadBytes();
        return if blob.Ok? then Ok(Blob(blob.value)) else Err(Corrupt);
      } else {
        return Err(Corrupt);
      }
    }

    method ReadNested(tag: byte) returns (r: Result<Datum, CodecError>)
      requires Valid()
      modifies this
      ensures Did(ParseNested(tag, old(Rest())), r)
      decreases |Rest()|, 4
    {
      if tag == 7 || tag == 8 || tag == 10 {
        var items := ReadItems();
        if items.Err? {
          return Err(Corrupt);
        }
        return Ok(if tag == 7 then List(items.value) else if tag == 8 then Vector(items.value) else Set(items.value));
      } else if tag == 9 {
        var entries := ReadEntries();
        return if entries.Ok? then Ok(Map(entries.value)) else Err(Corrupt);
      } else if tag == 11 {
        var name := ReadSymbol();
        if name.Err? {
          return Err(Corrupt);
        }
        var fields := ReadFields();
        return if fields.Ok? then Ok(Node(name.value, fields.value)) else Err(Corrupt);
      } else {
        return Err(Corrupt);
      }
    }
  }

  method DecodeDatum(key: Key, s: seq<byte>) returns (r: Result<Datum, CodecError>)
    ensures r == Decode(key, s)
  {
    var cursor := new Cursor(s);
    assert cursor.Rest() == s;
    var format := cursor.TakeBytes(10);
    if format.Err? || format.value != DATUM_FORMAT {
      return Err(Corrupt);
    }
    r := cursor.ReadDatum();
    if r.Err? || cursor.at != |s| {
      return Err(Corrupt);
    }
    if !Canonical(key, r.value) {
      return Err(NonCanonicalDatum);
    }
  }
}
