/** The datum codec itself: a buffer that is appended to, a cursor that advances, and what they amount to. */
module DatumEncoding {
  import opened Wrappers
  import opened Bytes
  import opened Datums
  import opened DatumParsing
  import opened Order
  import opened DatumCodec

  datatype CodecError = Corrupt | NonCanonicalDatum

  /** `SIMJDATUM1` */
  const DATUM_FORMAT: seq<byte> := [0x53, 0x49, 0x4D, 0x4A, 0x44, 0x41, 0x54, 0x55, 0x4D, 0x31]

  ghost function Encode(key: Key, d: Datum): Result<seq<byte>, CodecError> {
    if Canonical(key, d) then Ok(DATUM_FORMAT + Raw(Normalize(key, d))) else Err(NonCanonicalDatum)
  }

  ghost function Decode(key: Key, s: seq<byte>): Result<Datum, CodecError> {
    if |s| < 10 || s[..10] != DATUM_FORMAT then Err(Corrupt)
    else
      match Parse(s[10..])
      case Bad => Err(Corrupt)
      case Done(d, rest) =>
        if rest != [] then Err(Corrupt) else if !Canonical(key, d) then Err(NonCanonicalDatum) else Ok(d)
  }

  // ---------------------------------------------------------------------------------------------
  // Laws

  /** Encoding and decoding again gives the normal form, which has the same key. */
  lemma {:induction false} DecodeEncode(key: Key, d: Datum)
    requires GoodKey(key) && Canonical(key, d)
    ensures Encode(key, d).Ok? && Decode(key, Encode(key, d).value) == Ok(Normalize(key, d))
    ensures key(Normalize(key, d)) == key(d)
  {
    NormalizeStable(key, d);
    var n := Normalize(key, d);
    var s := DATUM_FORMAT + Raw(n);
    assert s[..10] == DATUM_FORMAT && s[10..] == Raw(n);
    RoundTrip(n, Raw(n), []);
  }

  /** One meaning, one encoding: equal encodings, equal normal forms and equal keys are the same thing. */
  lemma {:induction false} EncodeSameIffSameMeaning(key: Key, a: Datum, b: Datum)
    requires GoodKey(key) && Canonical(key, a) && Canonical(key, b)
    ensures Encode(key, a) == Encode(key, b) <==> Normalize(key, a) == Normalize(key, b)
    ensures Encode(key, a) == Encode(key, b) <==> key(a) == key(b)
  {
    NormalizeStable(key, a);
    NormalizeStable(key, b);
    if Encode(key, a) == Encode(key, b) {
      var x, y := Normalize(key, a), Normalize(key, b);
      assert (DATUM_FORMAT + Raw(x))[10..] == Raw(x) && (DATUM_FORMAT + Raw(y))[10..] == Raw(y);
      RawInjective(x, y);
    }
  }

  /** Decoding accepts a value in any order of its parts, but only its own bytes and nothing after them. */
  lemma {:induction false} DecodeExact(key: Key, s: seq<byte>)
    ensures Decode(key, s).Ok? ==> Canonical(key, Decode(key, s).value) && s == DATUM_FORMAT + Raw(Decode(key, s).value)
    ensures Decode(key, s).Ok? ==> forall x: seq<byte> :: x != [] ==> Decode(key, s + x).Err?
  {
    if Decode(key, s).Ok? {
      ParseExact(s[10..]);
      var d := Decode(key, s).value;
      assert s == s[..10] + s[10..];
      forall x: seq<byte> | x != []
        ensures Decode(key, s + x).Err?
      {
        assert (s + x)[..10] == s[..10] && (s + x)[10..] == s[10..] + x;
        RoundTrip(d, s[10..] + x, x);
      }
    }
  }

  /** Bytes that are no value's plain form are corrupt; those of a value that is not canonical are refused as such. */
  lemma {:induction false} CodecReasons(key: Key, s: seq<byte>, d: Datum)
    ensures Encode(key, d).Ok? <==> Canonical(key, d)
    ensures !Canonical(key, d) ==> Encode(key, d) == Err(NonCanonicalDatum)
    ensures Decode(key, s) == Err(NonCanonicalDatum)
      <==> exists x :: DatumOk(x) && !Canonical(key, x) && s == DATUM_FORMAT + Raw(x)
    ensures Decode(key, s) == Err(Corrupt) <==> !exists x :: DatumOk(x) && s == DATUM_FORMAT + Raw(x)
  {
    hide Raw, Unrepeated;
    forall x | DatumOk(x) && s == DATUM_FORMAT + Raw(x)
      ensures Decode(key, s) == if Canonical(key, x) then Ok(x) else Err(NonCanonicalDatum)
    {
      assert s[..10] == DATUM_FORMAT && s[10..] == Raw(x);
      RoundTrip(x, s[10..], []);
    }
    if |s| >= 10 && s[..10] == DATUM_FORMAT && Parse(s[10..]).Done? && Parse(s[10..]).rest == [] {
      ParseExact(s[10..]);
      assert s == s[..10] + s[10..];
      var x := Parse(s[10..]).value;
      assert DatumOk(x) && s == DATUM_FORMAT + Raw(x);
    }
  }

  /** The decoder does not ask for the canonical order: the plain form of any canonical value is accepted. */
  lemma {:induction false} DecodeAnyOrder(key: Key, d: Datum)
    requires Canonical(key, d)
    ensures Decode(key, DATUM_FORMAT + Raw(d)) == Ok(d)
  {
    var s := DATUM_FORMAT + Raw(d);
    assert s[..10] == DATUM_FORMAT && s[10..] == Raw(d);
    RoundTrip(d, Raw(d), []);
  }

  /** The order of members, entries and fields never reaches the encoding. */
  lemma {:induction false} EncodeForgetsOrder(key: Key, a: Datum, b: Datum)
    requires Canonical(key, a) && Canonical(key, b)
    requires
      || (a.Set? && b.Set? && multiset(a.items) == multiset(b.items))
      || (a.Map? && b.Map? && multiset(a.entries) == multiset(b.entries))
      || (a.Node? && b.Node? && a.tag == b.tag && multiset(a.fields) == multiset(b.fields))
    ensures Encode(key, a) == Encode(key, b)
  {
    NormalizeParts(key, a);
    NormalizeParts(key, b);
    if a.Set? {
      DistinctDetermines(a.items, key);
      SortForgetsOrder(a.items, b.items, key);
    } else if a.Map? {
      DistinctDetermines(a.entries, EntryKey(key));
      SortForgetsOrder(a.entries, b.entries, EntryKey(key));
    } else {
      DistinctDetermines(a.fields, FieldKey());
      SortForgetsOrder(a.fields, b.fields, FieldKey());
    }
  }

  /** Normalising a set, a map or a node moves its parts and normalises each, and does no more. */
  lemma {:induction false} NormalizeKeepsParts(key: Key, d: Datum)
    ensures d.Set? ==> exists o :: multiset(o) == multiset(d.items) && Normalize(key, d) == Set(NormAll(key, o))
    ensures d.Map? ==> exists o :: multiset(o) == multiset(d.entries) && Normalize(key, d) == Map(NormEntries(key, o))
    ensures d.Node? ==>
      exists o :: multiset(o) == multiset(d.fields) && Normalize(key, d) == Node(d.tag, NormFields(key, o))
    ensures d.List? ==> Normalize(key, d) == List(NormAll(key, d.items))
    ensures d.Vector? ==> Normalize(key, d) == Vector(NormAll(key, d.items))
    ensures !(d.Set? || d.Map? || d.Node? || d.List? || d.Vector?) ==> Normalize(key, d) == d
  {
    NormalizeParts(key, d);
    if d.Set? {
      var o := SortBy(d.items, key);
      assert multiset(o) == multiset(d.items) && Normalize(key, d) == Set(NormAll(key, o));
    } else if d.Map? {
      var o := SortBy(d.entries, EntryKey(key));
      assert multiset(o) == multiset(d.entries) && Normalize(key, d) == Map(NormEntries(key, o));
    } else if d.Node? {
      var o := SortBy(d.fields, FieldKey());
      assert multiset(o) == multiset(d.fields) && Normalize(key, d) == Node(d.tag, NormFields(key, o));
    }
  }
}
