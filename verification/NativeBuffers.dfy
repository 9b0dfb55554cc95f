/** The native encoders and decoders, step by step over a buffer and a cursor. */
module NativeBuffers {
  import opened Wrappers
  import opened Bytes
  import opened Datums
  import opened DatumParsing
  import opened DatumCodec
  import opened DatumEncoding
  import opened DatumBuffers
  import opened NativeCodec
  import opened NativeEnvelope
  import opened NativeEntry
  import opened NativeLeaves

  // ---------------------------------------------------------------------------------------------
  // Appending

  method PutText(b: Buffer, t: Text)
    modifies b
    ensures b.out == old(b.out) + RawText(t)
  {
    b.out := b.out + BigEndian(|t| % U32_LIMIT, 4);
    b.out := b.out + t;
    Associates(old(b.out), BigEndian(|t| % U32_LIMIT, 4), t);
  }

  method PutId(b: Buffer, id: ContentId)
    modifies b
    ensures b.out == old(b.out) + RawId(id)
  {
    PutText(b, QualifiedText(id.algorithm));
    b.out := b.out + id.digest;
    Associates(old(b.out), RawText(QualifiedText(id.algorithm)), id.digest);
  }

  method PutHead(b: Buffer, h: Head)
    modifies b
    ensures b.out == old(b.out) + RawHead(h)
  {
    b.PutLen(h.sequence);
    PutId(b, h.entry);
    Associates(old(b.out), RawLen(h.sequence), RawId(h.entry));
  }

  method PutOptionalHead(b: Buffer, h: Option<Head>)
    modifies b
    ensures b.out == old(b.out) + RawOption(h, RawHead)
  {
    match h
    case Some(head) =>
      b.out := b.out + [1];
      PutHead(b, head);
      Associates(old(b.out), [1], RawHead(head));
    case None =>
      b.out := b.out + [0];
  }

  method PutOptionalLocation(b: Buffer, l: Option<Location>)
    modifies b
    ensures b.out == old(b.out) + RawOption(l, RawLocation)
  {
    match l
    case Some(location) =>
      b.out := b.out + [1];
      PutText(b, location.namespace);
      b.PutLen(location.sequence);
      PutId(b, location.entry);
      PutId(b, location.storage);
      AppendFour(old(b.out) + [1], RawText(location.namespace), RawLen(location.sequence), RawId(location.entry),
        RawId(location.storage));
      Associates(old(b.out), [1], RawLocation(location));
    case None =>
      b.out := b.out + [0];
  }

  lemma {:induction false} AppendFour(start: seq<byte>, a: seq<byte>, b: seq<byte>, c: seq<byte>, d: seq<byte>)
    ensures start + a + b + c + d == start + (a + (b + (c + d)))
  {
    Associates(start + a + b, c, d);
    Associates(start + a, b, c + d);
    Associates(start, a, b + (c + d));
  }

  method PutOptionalPrefix(b: Buffer, p: Option<PrefixRef>)
    modifies b
    ensures b.out == old(b.out) + RawOption(p, RawPrefix)
  {
    match p
    case Some(prefix) =>
      b.out := b.out + [1];
      b.PutLen(prefix.entries);
      PutHead(b, prefix.physicalHead);
      PutHead(b, prefix.canonicalHead);
      PutId(b, prefix.descriptor);
      AppendFour(old(b.out) + [1], RawLen(prefix.entries), RawHead(prefix.physicalHead), RawHead(prefix.canonicalHead),
        RawId(prefix.descriptor));
      Associates(old(b.out), [1], RawPrefix(prefix));
    case None =>
      b.out := b.out + [0];
  }

  method EncodeEnvelope(e: Envelope) returns (s: seq<byte>)
    ensures s == EncodedEnvelope(e)
  {
    var b := new Buffer(STATE_FORMAT);
    b.PutLen(e.fence);
    PutText(b, e.namespace);
    PutOptionalPrefix(b, e.prefix);
    PutOptionalHead(b, e.head);
    PutOptionalLocation(b, e.headLocation);
    var head, location := RawOption(e.head, RawHead), RawOption(e.headLocation, RawLocation);
    AppendFour(STATE_FORMAT, RawLen(e.fence), RawText(e.namespace), RawOption(e.prefix, RawPrefix), head);
    AppendFive(STATE_FORMAT, RawLen(e.fence), RawText(e.namespace), RawOption(e.prefix, RawPrefix), head, location);
    return b.out;
  }

  lemma {:induction false} AppendFive(start: seq<byte>, a: seq<byte>, b: seq<byte>, c: seq<byte>, d: seq<byte>,
      e: seq<byte>)
    ensures start + a + b + c + d + e == start + (a + (b + (c + (d + e))))
  {
    AppendFour(start + a, b, c, d, e);
    Associates(start, a, b + (c + (d + e)));
  }

  method EncodeDescriptor(state: seq<byte>, head: Head) returns (s: seq<byte>)
    ensures s == EncodedDescriptor(state, head)
  {
    var b := new Buffer(PREFIX_FORMAT);
    b.PutBytes(state);
    PutHead(b, head);
    Associates(PREFIX_FORMAT, RawBytes(state), RawHead(head));
    return b.out;
  }

  method PutRefs(b: Buffer, refs: seq<StoredRef>)
    modifies b
    ensures b.out == old(b.out) + RawRefs(refs)
  {
    ghost var rest := refs;
    for k := 0 to |refs|
      invariant rest == refs[k..] && b.out + RawRefs(rest) == old(b.out) + RawRefs(refs)
    {
      ghost var before := b.out;
      PutId(b, refs[k].meaning);
      PutId(b, refs[k].storage);
      Associates(before, RawId(refs[k].meaning), RawId(refs[k].storage));
      Associates(before, RawRef(refs[k]), RawRefs(rest[1..]));
      rest := rest[1..];
    }
  }

  method EncodeV2Entry(k: Kernel, p: PhysicalEntry) returns (s: seq<byte>)
    requires Canonical(k.key, EntryDatum(p.entry))
    ensures s == EncodedEntry(k, p)
  {
    var b := new Buffer(ENTRY_FORMAT);
    var datum := EncodeDatum(k.key, EntryDatum(p.entry));
    b.PutBytes(datum.value);
    PutOptionalLocation(b, p.previous);
    b.PutLen(|p.payloads|);
    PutRefs(b, p.payloads);
    AppendFour(ENTRY_FORMAT, RawBytes(datum.value), RawOption(p.previous, RawLocation), RawLen(|p.payloads|),
      RawRefs(p.payloads));
    return b.out;
  }

  // ---------------------------------------------------------------------------------------------
  // Advancing

  method ReadText32(c: Cursor) returns (r: Result<Text, CodecError>)
    requires c.Valid()
    modifies c
    ensures c.Did(ParseText32(old(c.Rest())), r)
  {
    var length := c.TakeBytes(4);
    if length.Err? {
      return Err(Corrupt);
    }
    r := c.TakeBytes(FromBigEndian(length.value));
    if r.Ok? && !Utf8(r.value) {
      return Err(Corrupt);
    }
  }

  method ReadId(c: Cursor, accepts: Accepts) returns (r: Result<ContentId, CodecError>)
    requires c.Valid()
    modifies c
    ensures c.Did(ParseId(accepts, old(c.Rest())), r)
  {
    var text := ReadText32(c);
    if text.Err? {
      return Err(Corrupt);
    }
    var algorithm := ParseSymbolText(accepts, text.value);
    if algorithm.None? {
      return Err(Corrupt);
    }
    var digest := c.TakeBytes(32);
    return if digest.Ok? then Ok(ContentId(algorithm.value, digest.value)) else Err(Corrupt);
  }

  method ReadHead(c: Cursor, accepts: Accepts) returns (r: Result<Head, CodecError>)
    requires c.Valid()
    modifies c
    ensures c.Did(ParseHead(accepts, old(c.Rest())), r)
  {
    var sequence := c.Len();
    if sequence.Err? {
      return Err(Corrupt);
    }
    var entry := ReadId(c, accepts);
    return if entry.Ok? then Ok(Head(sequence.value, entry.value)) else Err(Corrupt);
  }

  method ReadOptionalHead(c: Cursor, accepts: Accepts) returns (r: Result<Option<Head>, CodecError>)
    requires c.Valid()
    modifies c
    ensures c.Did(ParseOption(old(c.Rest()), HeadParser(accepts)), r)
  {
    var tag := c.Byte();
    if tag.Err? || tag.value > 1 {
      return Err(Corrupt);
    }
    if tag.value == 0 {
      return Ok(None);
    }
    var head := ReadHead(c, accepts);
    return if head.Ok? then Ok(Some(head.value)) else Err(Corrupt);
  }

  method ReadLocation(c: Cursor, accepts: Accepts) returns (r: Result<Location, CodecError>)
    requires c.Valid()
    modifies c
    ensures c.Did(ParseLocation(accepts, old(c.Rest())), r)
  {
    var namespace := ReadText32(c);
    if namespace.Err? {
      return Err(Corrupt);
    }
    var sequence := c.Len();
    if sequence.Err? {
      return Err(Corrupt);
    }
    var entry := ReadId(c, accepts);
    if entry.Err? {
      return Err(Corrupt);
    }
    var storage := ReadId(c, accepts);
    return if storage.Ok? then Ok(Location(namespace.value, sequence.value, entry.value, storage.value))
      else Err(Corrupt);
  }

  method ReadOptionalLocation(c: Cursor, accepts: Accepts) returns (r: Result<Option<Location>, CodecError>)
    requires c.Valid()
    modifies c
    ensures c.Did(ParseOption(old(c.Rest()), LocationParser(accepts)), r)
  {
    var tag := c.Byte();
    if tag.Err? || tag.value > 1 {
      return Err(Corrupt);
    }
    if tag.value == 0 {
      return Ok(None);
    }
    var location := ReadLocation(c, accepts);
    return if location.Ok? then Ok(Some(location.value)) else Err(Corrupt);
  }

  method ReadPrefix(c: Cursor, accepts: Accepts) returns (r: Result<PrefixRef, CodecError>)
    requires c.Valid()
    modifies c
    ensures c.Did(ParsePrefix(accepts, old(c.Rest())), r)
  {
    var entries := c.Len();
    if entries.Err? {
      return Err(Corrupt);
    }
    var physical := ReadHead(c, accepts);
    if physical.Err? {
      return Err(Corrupt);
    }
    var canonical := ReadHead(c, accepts);
    if canonical.Err? {
      return Err(Corrupt);
    }
    var descriptor := ReadId(c, accepts);
    return if descriptor.Ok? then Ok(PrefixRef(entries.value, physical.value, canonical.value, descriptor.value))
      else Err(Corrupt);
  }

  method ReadOptionalPrefix(c: Cursor, accepts: Accepts) returns (r: Result<Option<PrefixRef>, CodecError>)
    requires c.Valid()
    modifies c
    ensures c.Did(ParseOption(old(c.Rest()), PrefixParser(accepts)), r)
  {
    var tag := c.Byte();
    if tag.Err? || tag.value > 1 {
      return Err(Corrupt);
    }
    if tag.value == 0 {
      return Ok(None);
    }
    var prefix := ReadPrefix(c, accepts);
    return if prefix.Ok? then Ok(Some(prefix.value)) else Err(Corrupt);
  }

  method ReadEnvelope(c: Cursor, accepts: Accepts) returns (r: Result<Envelope, CodecError>)
    requires c.Valid()
    modifies c
    ensures c.Did(ParseEnvelope(accepts, old(c.Rest())), r)
  {
    var fence := c.Len();
    if fence.Err? {
      return Err(Corrupt);
    }
    var namespace := ReadText32(c);
    if namespace.Err? {
      return Err(Corrupt);
    }
    var prefix := ReadOptionalPrefix(c, accepts);
    if prefix.Err? {
      return Err(Corrupt);
    }
    var head := ReadOptionalHead(c, accepts);
    if head.Err? {
      return Err(Corrupt);
    }
    var location := ReadOptionalLocation(c, accepts);
    return if location.Ok? then Ok(Envelope(fence.value, namespace.value, prefix.value, head.value, location.value))
      else Err(Corrupt);
  }

  /** A cursor behind the expected format tag. */
  method OpenLeaf(s: seq<byte>, format: seq<byte>) returns (c: Cursor, ok: bool)
    ensures fresh(c) && c.Valid() && c.bytes == s
    ensures ok <==> Body(s, format).Some?
    ensures ok ==> c.Rest() == Body(s, format).value
  {
    c := new Cursor(s);
    assert c.Rest() == s;
    var tag := c.TakeBytes(|format|);
    ok := tag.Ok? && tag.value == format;
  }

  method DecodeEnvelope(accepts: Accepts, s: seq<byte>) returns (r: Result<Envelope, CodecError>)
    ensures r == match DecodedEnvelope(accepts, s) case Some(e) => Ok(e) case None => Err(Corrupt)
  {
    var c, ok := OpenLeaf(s, STATE_FORMAT);
    if !ok {
      return Err(Corrupt);
    }
    r := ReadEnvelope(c, accepts);
    if r.Err? || c.at != |c.bytes| || !Located(r.value) {
      return Err(Corrupt);
    }
  }

  method DecodeDescriptor(accepts: Accepts, s: seq<byte>) returns (r: Result<(seq<byte>, Head), CodecError>)
    ensures r == match DecodedDescriptor(accepts, s) case Some(d) => Ok(d) case None => Err(Corrupt)
  {
    var c, ok := OpenLeaf(s, PREFIX_FORMAT);
    if !ok {
      return Err(Corrupt);
    }
    var state := c.ReadBytes();
    if state.Err? {
      return Err(Corrupt);
    }
    var head := ReadHead(c, accepts);
    if head.Err? || c.at != |c.bytes| {
      return Err(Corrupt);
    }
    return Ok((state.value, head.value));
  }

  method ReadRef(c: Cursor, accepts: Accepts) returns (r: Result<StoredRef, CodecError>)
    requires c.Valid()
    modifies c
    ensures c.Did(ParseRef(accepts, old(c.Rest())), r)
  {
    var meaning := ReadId(c, accepts);
    if meaning.Err? {
      return Err(Corrupt);
    }
    var storage := ReadId(c, accepts);
    return if storage.Ok? then Ok(StoredRef(meaning.value, storage.value)) else Err(Corrupt);
  }

  lemma {:induction false} RefsNext(accepts: Accepts, s: seq<byte>, count: nat)
    requires count > 0
    ensures ParseRefs(accepts, s, count) ==
      match ParseRef(accepts, s) case Bad => Bad case Done(first, middle) =>
        Prepend([first], ParseRefs(accepts, middle, count - 1))
  {
  }

  method ReadRefs(c: Cursor, accepts: Accepts) returns (r: Result<seq<StoredRef>, CodecError>)
    requires c.Valid()
    modifies c
    ensures c.Did(ParseCountedRefs(accepts, old(c.Rest())), r)
  {
    var count := c.Len();
    if count.Err? {
      return Err(Corrupt);
    }
    r := ReadRefsOf(c, accepts, count.value);
  }

  method ReadRefsOf(c: Cursor, accepts: Accepts, count: nat) returns (r: Result<seq<StoredRef>, CodecError>)
    requires c.Valid()
    modifies c
    ensures c.Did(ParseRefs(accepts, old(c.Rest()), count), r)
  {
    hide ParseRef;
    var refs: seq<StoredRef> := [];
    ghost var whole := ParseRefs(accepts, c.Rest(), count);
    PrependNothing(whole);
    for k := 0 to count
      invariant c.Valid()
      invariant Prepend(refs, ParseRefs(accepts, c.Rest(), count - k)) == whole
    {
      RefsNext(accepts, c.Rest(), count - k);
      var ref := ReadRef(c, accepts);
      if ref.Err? {
        return Err(Corrupt);
      }
      PrependSnoc(refs, ref.value, ParseRefs(accepts, c.Rest(), count - k - 1));
      refs := refs + [ref.value];
    }
    assert refs + [] == refs;
    return Ok(refs);
  }

  method ReadLinks(c: Cursor, accepts: Accepts, entry: JournalEntry) returns (r: Result<PhysicalEntry, CodecError>)
    requires c.Valid()
    modifies c
    ensures c.Did(ParseLinks(accepts, old(c.Rest()), entry), r)
  {
    var previous := ReadOptionalLocation(c, accepts);
    if previous.Err? {
      return Err(Corrupt);
    }
    var refs := ReadRefs(c, accepts);
    return if refs.Ok? then Ok(PhysicalEntry(entry, previous.value, refs.value)) else Err(Corrupt);
  }

  /** `decode_v2_entry`; which complaint comes first is not told apart. */
  method DecodeV2Entry(k: Kernel, s: seq<byte>) returns (r: Option<PhysicalEntry>)
    ensures r == DecodedEntry(k, s)
  {
    var c, ok := OpenLeaf(s, ENTRY_FORMAT);
    if !ok {
      return None;
    }
    var bytes := c.ReadBytes();
    if bytes.Err? {
      return None;
    }
    var datum := DecodeDatum(k.key, bytes.value);
    if datum.Err? {
      return None;
    }
    var entry := EntryFromDatum(k, datum.value);
    if entry.None? {
      return None;
    }
    var physical := ReadLinks(c, k.accepts, entry.value);
    if physical.Err? || c.at != |c.bytes| {
      return None;
    }
    return Some(physical.value);
  }
}
