/** Journal objects as stored: semantic identity, byte projection, and the storage leaf. */
module DatumObjects {
  import opened Wrappers
  import opened Bytes
  import opened Datums
  import opened DatumParsing
  import opened Order
  import opened DatumCodec
  import opened DatumEncoding
  import opened DatumBuffers

  /** ASCII text as bytes. */
  function Ascii(s: string): (r: Text)
    ensures |r| == |s|
  {
    seq(|s|, i requires 0 <= i < |s| => if s[i] < '\U{0080}' then s[i] as int as byte else 0)
  }

  function Qualified(namespace: string, name: string): Symbol {
    Symbol(Some(Ascii(namespace)), Ascii(name))
  }

  function Plain(name: string): Symbol {
    Symbol(None, Ascii(name))
  }

  /** `id` is the key of the datum, which stands for the kernel's content id of it. */
  datatype StoredObject = StoredObject(id: seq<int>, bytes: seq<byte>, datum: Datum)

  /** `exact_bytes`: the bytes of a value tagged as exact bytes. */
  function ExactBytesOf(d: Datum): Option<seq<byte>> {
    if d.Node? && d.tag == Qualified("journal", "exact-bytes-v1") && |d.fields| == 1
       && d.fields[0].name == Plain("bytes") && d.fields[0].value.Blob?
    then Some(d.fields[0].value.bytes) else None
  }

  /** `from_bytes`: the value that stands for exact bytes. */
  function ExactDatum(bytes: seq<byte>): Datum {
    Node(Qualified("journal", "exact-bytes-v1"), [Field(Plain("bytes"), Blob(bytes))])
  }

  /** Exactly the values made from bytes are read as exact bytes, and as the bytes they were made from. */
  lemma {:induction false} ExactBytesIff(d: Datum, bytes: seq<byte>)
    ensures ExactBytesOf(d) == Some(bytes) <==> d == ExactDatum(bytes)
  {
    if ExactBytesOf(d) == Some(bytes) {
      assert d.fields == [Field(Plain("bytes"), Blob(bytes))];
    }
  }

  ghost function Projection(key: Key, d: Datum): seq<byte>
    requires Canonical(key, d)
  {
    if ExactBytesOf(d).Some? then ExactBytesOf(d).value else Encode(key, d).value
  }

  /** The bytes of an object made from bytes are these bytes; any other object's bytes are its encoding. */
  lemma {:induction false} ProjectionIs(key: Key, d: Datum)
    requires Canonical(key, d)
    ensures if exists bytes :: d == ExactDatum(bytes) then d == ExactDatum(Projection(key, d))
      else Ok(Projection(key, d)) == Encode(key, d)
  {
    if bytes :| d == ExactDatum(bytes) {
      ExactBytesIff(d, bytes);
    } else if ExactBytesOf(d).Some? {
      ExactBytesIff(d, ExactBytesOf(d).value);
    }
  }

  method FromDatum(key: Key, d: Datum) returns (r: Result<StoredObject, CodecError>)
    ensures r == if Canonical(key, d) then Ok(StoredObject(key(d), Projection(key, d), d)) else Err(NonCanonicalDatum)
  {
    if !Canonical(key, d) {
      return Err(NonCanonicalDatum);
    }
    var encoded := EncodeDatum(key, d);
    return Ok(StoredObject(key(d), if ExactBytesOf(d).Some? then ExactBytesOf(d).value else encoded.value, d));
  }

  /** `verify`: canonical, and the claimed id and bytes are the datum's. */
  ghost predicate ObjectSound(key: Key, o: StoredObject) {
    Canonical(key, o.datum) && o.id == key(o.datum) && o.bytes == Projection(key, o.datum)
  }

  /** `SIMJOBJECT2` */
  const OBJECT_FORMAT: seq<byte> := [0x53, 0x49, 0x4D, 0x4A, 0x4F, 0x42, 0x4A, 0x45, 0x43, 0x54, 0x32]

  ghost function StorageForm(key: Key, d: Datum): seq<byte>
    requires Canonical(key, d)
  {
    OBJECT_FORMAT + RawBytes(Encode(key, d).value)
  }

  method StorageBytes(key: Key, o: StoredObject) returns (r: Result<seq<byte>, CodecError>)
    ensures r == if Canonical(key, o.datum) then Ok(StorageForm(key, o.datum)) else Err(NonCanonicalDatum)
  {
    var encoded := EncodeDatum(key, o.datum);
    if encoded.Err? {
      return encoded;
    }
    var out := OBJECT_FORMAT;
    out := out + BigEndian(|encoded.value|, 8);
    out := out + encoded.value;
    Associates(OBJECT_FORMAT, RawLen(|encoded.value|), encoded.value);
    return Ok(out);
  }

  /** What a storage leaf must look like, and the object it yields. */
  ghost predicate Stores(key: Key, s: seq<byte>, o: StoredObject) {
    && |s| >= 19 && s[..11] == OBJECT_FORMAT && FromBigEndian(s[11..19]) == |s[19..]|
    && Decode(key, s[19..]) == Ok(o.datum) && ObjectSound(key, o)
  }

  method FromStorageBytes(key: Key, s: seq<byte>) returns (r: Result<StoredObject, CodecError>)
    ensures r.Ok? ==> Stores(key, s, r.value)
    ensures r.Err? ==> forall o :: !Stores(key, s, o)
    ensures r.Err? ==>
      if |s| < 19 || s[..11] != OBJECT_FORMAT || FromBigEndian(s[11..19]) != |s[19..]| then r.error == Corrupt
      else Decode(key, s[19..]) == Err(r.error)
  {
    if |s| < 19 || s[..11] != OBJECT_FORMAT {
      return Err(Corrupt);
    }
    var n := FromBigEndian(s[11..19]);
    if |s[19..]| != n {
      return Err(Corrupt);
    }
    var datum := DecodeDatum(key, s[19..]);
    if datum.Err? {
      return Err(datum.error);
    }
    if !Canonical(key, datum.value) {
      return Err(NonCanonicalDatum);
    }
    r := FromDatum(key, datum.value);
  }

  // ---------------------------------------------------------------------------------------------
  // Laws

  /** Exact bytes are already in normal form. */
  lemma {:induction false} ExactOfNormal(key: Key, d: Datum)
    ensures ExactBytesOf(Normalize(key, d)) == ExactBytesOf(d)
  {
    NormalizeTag(key, d);
    if d.Node? {
      NormalizeParts(key, d);
      SortMembers(d.fields, FieldKey());
      if |d.fields| == 1 {
        SingleSorted(d.fields);
        NormalizeTag(key, d.fields[0].value);
      }
    }
  }

  /** Projecting forgets how the value was ordered. */
  lemma {:induction false} ProjectionOfNormal(key: Key, d: Datum)
    requires GoodKey(key) && Canonical(key, d)
    ensures Canonical(key, Normalize(key, d)) && Projection(key, Normalize(key, d)) == Projection(key, d)
  {
    NormalizeStable(key, d);
    ExactOfNormal(key, d);
  }

  lemma {:induction false} SingleSorted(fields: seq<Field>)
    requires |fields| <= 1
    ensures SortBy(fields, FieldKey()) == fields
  {
    SortOfAscending(fields, FieldKey());
  }

  lemma {:induction false} StorageParts(key: Key, d: Datum, encoded: seq<byte>)
    requires Canonical(key, d) && encoded == Encode(key, d).value
    ensures var s := StorageForm(key, d);
      |s| == 19 + |encoded| && s[..11] == OBJECT_FORMAT && s[11..19] == RawLen(|encoded|) && s[19..] == encoded
  {
  }

  /** Storing an object and loading it again keeps its id and bytes and normalises its value. */
  lemma {:induction false} StorageRoundTrip(key: Key, o: StoredObject)
    requires GoodKey(key) && ObjectSound(key, o) && |Encode(key, o.datum).value| < U64_LIMIT
    ensures Stores(key, StorageForm(key, o.datum), o.(datum := Normalize(key, o.datum)))
  {
    var encoded := Encode(key, o.datum).value;
    StorageParts(key, o.datum, encoded);
    Limits();
    BigEndianBack(|encoded|, 8);
    DecodeEncode(key, o.datum);
    ProjectionOfNormal(key, o.datum);
  }

  /** Objects of one meaning have one storage form, so their leaves have one name. */
  lemma {:induction false} OneLeafPerMeaning(key: Key, a: StoredObject, b: StoredObject)
    requires GoodKey(key) && ObjectSound(key, a) && ObjectSound(key, b)
    ensures a.id == b.id <==> StorageForm(key, a.datum) == StorageForm(key, b.datum)
    ensures a.id == b.id ==> a.bytes == b.bytes
  {
    StorageParts(key, a.datum, Encode(key, a.datum).value);
    StorageParts(key, b.datum, Encode(key, b.datum).value);
    EncodeSameIffSameMeaning(key, a.datum, b.datum);
    ProjectionOfNormal(key, a.datum);
    ProjectionOfNormal(key, b.datum);
  }
}
