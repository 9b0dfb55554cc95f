/**
 * The native leaves as whole byte strings: what is written is read back, and nothing may follow it. State and
 * descriptor bytes correspond one to one to what they state; which further bytes of an entry are accepted is the
 * subject of `NativeExact`.
 */
module NativeLeaves {
  import opened Wrappers
  import opened Bytes
  import opened Datums
  import opened DatumParsing
  import opened DatumCodec
  import opened DatumEncoding
  import opened DatumBuffers
  import opened NativeCodec
  import opened NativeEnvelope
  import opened NativeEntry

  /** The bytes after a format tag, or none. */
  function Body(s: seq<byte>, format: seq<byte>): Option<seq<byte>> {
    if |format| <= |s| && s[..|format|] == format then Some(s[|format|..]) else None
  }

  lemma {:induction false} BodyBack(format: seq<byte>, body: seq<byte>)
    ensures Body(format + body, format) == Some(body)
  {
    TakeBack(format, body);
  }

  /** The value of a parser that leaves nothing. */
  function Whole<T>(p: Parsed<T>): Option<T> {
    if p.Done? && p.rest == [] then Some(p.value) else None
  }

  // ---------------------------------------------------------------------------------------------
  // The state envelope

  function EncodedEnvelope(e: Envelope): seq<byte> {
    STATE_FORMAT + RawEnvelope(e)
  }

  /** A head of a journal without v1 prefix must have its location. */
  predicate Located(e: Envelope) {
    e.prefix.None? && e.head.Some? ==> e.headLocation.Some?
  }

  function DecodedEnvelope(accepts: Accepts, s: seq<byte>): Option<Envelope> {
    match Body(s, STATE_FORMAT)
    case None => None
    case Some(body) =>
      (match Whole(ParseEnvelope(accepts, body))
       case None => None
       case Some(e) => if Located(e) then Some(e) else None)
  }

  /** State bytes and sound envelopes correspond one to one, so exchanging the one is exchanging the other. */
  lemma {:induction false} EnvelopeCodec(accepts: Accepts, s: seq<byte>, e: Envelope)
    ensures DecodedEnvelope(accepts, s) == Some(e) <==> EnvelopeOk(accepts, e) && Located(e) && s == EncodedEnvelope(e)
  {
    if EnvelopeOk(accepts, e) && s == EncodedEnvelope(e) {
      BodyBack(STATE_FORMAT, RawEnvelope(e));
      EnvelopeBack(accepts, e, RawEnvelope(e), []);
    }
    if DecodedEnvelope(accepts, s) == Some(e) {
      var body := s[|STATE_FORMAT|..];
      EnvelopeExact(accepts, body, e, []);
      assert s == s[..|STATE_FORMAT|] + body;
    }
  }

  /** Nothing may follow an encoded envelope. */
  lemma {:induction false} EnvelopeAlone(accepts: Accepts, e: Envelope, x: seq<byte>)
    requires EnvelopeOk(accepts, e) && x != []
    ensures DecodedEnvelope(accepts, EncodedEnvelope(e) + x) == None
  {
    Associates(STATE_FORMAT, RawEnvelope(e), x);
    BodyBack(STATE_FORMAT, RawEnvelope(e) + x);
    EnvelopeBack(accepts, e, RawEnvelope(e) + x, x);
  }

  /** Different sound envelopes have different bytes. */
  lemma {:induction false} EnvelopeInjective(accepts: Accepts, a: Envelope, b: Envelope)
    requires EnvelopeOk(accepts, a) && EnvelopeOk(accepts, b) && EncodedEnvelope(a) == EncodedEnvelope(b)
    ensures a == b
  {
    TakeBack(STATE_FORMAT, RawEnvelope(a));
    TakeBack(STATE_FORMAT, RawEnvelope(b));
    EnvelopeBack(accepts, a, RawEnvelope(a), []);
    EnvelopeBack(accepts, b, RawEnvelope(b), []);
  }

  // ---------------------------------------------------------------------------------------------
  // The prefix descriptor

  /** `SIMJPREFIX1` */
  const PREFIX_FORMAT: seq<byte> := [0x53, 0x49, 0x4D, 0x4A, 0x50, 0x52, 0x45, 0x46, 0x49, 0x58, 0x31]

  function EncodedDescriptor(state: seq<byte>, head: Head): seq<byte> {
    PREFIX_FORMAT + (RawBytes(state) + RawHead(head))
  }

  function ParseDescriptor(accepts: Accepts, s: seq<byte>): Parsed<(seq<byte>, Head)> {
    match ParseBytes(s)
    case Bad => Bad
    case Done(state, middle) =>
      (match ParseHead(accepts, middle) case Bad => Bad case Done(head, rest) => Done((state, head), rest))
  }

  function DecodedDescriptor(accepts: Accepts, s: seq<byte>): Option<(seq<byte>, Head)> {
    match Body(s, PREFIX_FORMAT)
    case None => None
    case Some(body) => Whole(ParseDescriptor(accepts, body))
  }

  lemma {:induction false} DescriptorCodec(accepts: Accepts, s: seq<byte>, state: seq<byte>, head: Head)
    ensures DecodedDescriptor(accepts, s) == Some((state, head)) <==>
      |state| < U64_LIMIT && HeadOk(accepts, head) && s == EncodedDescriptor(state, head)
  {
    if |state| < U64_LIMIT && HeadOk(accepts, head) && s == EncodedDescriptor(state, head) {
      BodyBack(PREFIX_FORMAT, RawBytes(state) + RawHead(head));
      BytesBack(state, RawHead(head));
      HeadBack(accepts, head, RawHead(head), []);
    }
    if DecodedDescriptor(accepts, s) == Some((state, head)) {
      var body := s[|PREFIX_FORMAT|..];
      BytesExact(body);
      HeadExact(accepts, ParseBytes(body).rest, head, []);
      assert s == s[..|PREFIX_FORMAT|] + body;
    }
  }

  // ---------------------------------------------------------------------------------------------
  // The v2 entry

  datatype StoredRef = StoredRef(meaning: ContentId, storage: ContentId)

  datatype PhysicalEntry = PhysicalEntry(entry: JournalEntry, previous: Option<Location>, payloads: seq<StoredRef>)

  /** `SIMJENTRY2` */
  const ENTRY_FORMAT: seq<byte> := [0x53, 0x49, 0x4D, 0x4A, 0x45, 0x4E, 0x54, 0x52, 0x59, 0x32]

  function RawRef(r: StoredRef): seq<byte> {
    RawId(r.meaning) + RawId(r.storage)
  }

  function RawRefs(refs: seq<StoredRef>): seq<byte> {
    if refs == [] then [] else RawRef(refs[0]) + RawRefs(refs[1..])
  }

  function RawLinks(p: PhysicalEntry): seq<byte> {
    RawOption(p.previous, RawLocation) + (RawLen(|p.payloads|) + RawRefs(p.payloads))
  }

  ghost function EncodedEntry(k: Kernel, p: PhysicalEntry): seq<byte>
    requires Canonical(k.key, EntryDatum(p.entry))
  {
    ENTRY_FORMAT + (RawBytes(Encode(k.key, EntryDatum(p.entry)).value) + RawLinks(p))
  }

  function ParseRef(accepts: Accepts, s: seq<byte>): Parsed<StoredRef> {
    match ParseId(accepts, s)
    case Bad => Bad
    case Done(meaning, middle) =>
      (match ParseId(accepts, middle) case Bad => Bad case Done(storage, rest) =>
        Done(StoredRef(meaning, storage), rest))
  }

  function ParseRefs(accepts: Accepts, s: seq<byte>, count: nat): Parsed<seq<StoredRef>> {
    if count == 0 then Done([], s)
    else
      match ParseRef(accepts, s)
      case Bad => Bad
      case Done(first, middle) =>
        (match ParseRefs(accepts, middle, count - 1) case Bad => Bad case Done(others, rest) =>
          Done([first] + others, rest))
  }

  function ParseCountedRefs(accepts: Accepts, s: seq<byte>): Parsed<seq<StoredRef>> {
    match ParseLen(s)
    case Bad => Bad
    case Done(count, rest) => ParseRefs(accepts, rest, count)
  }

  function ParseLinks(accepts: Accepts, s: seq<byte>, entry: JournalEntry): Parsed<PhysicalEntry> {
    match ParseOption(s, LocationParser(accepts))
    case Bad => Bad
    case Done(previous, middle) =>
      (match ParseCountedRefs(accepts, middle) case Bad => Bad case Done(refs, rest) =>
        Done(PhysicalEntry(entry, previous, refs), rest))
  }

  /** The entry a value states, with the links that follow it. */
  ghost function EntryAndLinks(k: Kernel, datum: seq<byte>, links: seq<byte>): Option<PhysicalEntry> {
    if Decode(k.key, datum).Err? then None
    else
      match EntryFromDatum(k, Decode(k.key, datum).value)
      case None => None
      case Some(entry) => Whole(ParseLinks(k.accepts, links, entry))
  }

  ghost function DecodedEntry(k: Kernel, s: seq<byte>): Option<PhysicalEntry> {
    match Body(s, ENTRY_FORMAT)
    case None => None
    case Some(body) =>
      (match ParseBytes(body) case Bad => None case Done(datum, links) => EntryAndLinks(k, datum, links))
  }

  predicate RefOk(accepts: Accepts, r: StoredRef) {
    IdOk(accepts, r.meaning) && IdOk(accepts, r.storage)
  }

  predicate RefsOk(accepts: Accepts, refs: seq<StoredRef>) {
    forall i :: 0 <= i < |refs| ==> RefOk(accepts, refs[i])
  }

  predicate LinksOk(accepts: Accepts, p: PhysicalEntry) {
    && (p.previous.Some? ==> LocationOk(accepts, p.previous.value))
    && |p.payloads| < U64_LIMIT && RefsOk(accepts, p.payloads)
  }

  ghost predicate PhysicalOk(k: Kernel, p: PhysicalEntry) {
    && JournalEntryOk(k, p.entry) && LinksOk(k.accepts, p)
    && Canonical(k.key, EntryDatum(p.entry)) && |Encode(k.key, EntryDatum(p.entry)).value| < U64_LIMIT
  }

  lemma {:induction false} RefBack(accepts: Accepts, ref: StoredRef, s: seq<byte>, r: seq<byte>)
    requires RefOk(accepts, ref) && s == RawRef(ref) + r
    ensures ParseRef(accepts, s) == Done(ref, r)
  {
    var middle := RawId(ref.storage) + r;
    Associates(RawId(ref.meaning), RawId(ref.storage), r);
    IdBack(accepts, ref.meaning, s, middle);
    IdBack(accepts, ref.storage, middle, r);
  }

  lemma {:induction false} FrontAndRest<T>(s: seq<T>)
    requires s != []
    ensures s == [s[0]] + s[1..]
  {
  }

  lemma {:induction false} RefsBack(accepts: Accepts, refs: seq<StoredRef>, s: seq<byte>, r: seq<byte>)
    requires RefsOk(accepts, refs) && s == RawRefs(refs) + r
    ensures ParseRefs(accepts, s, |refs|) == Done(refs, r)
  {
    if refs != [] {
      var first, others := refs[0], refs[1..];
      var after := RawRefs(others) + r;
      Associates(RawRef(first), RawRefs(others), r);
      RefBack(accepts, first, s, after);
      RefsBack(accepts, others, after, r);
      FrontAndRest(refs);
    } else {
      assert s == r;
    }
  }

  lemma {:induction false} LinksBack(accepts: Accepts, p: PhysicalEntry, s: seq<byte>, r: seq<byte>)
    requires LinksOk(accepts, p) && s == RawLinks(p) + r
    ensures ParseLinks(accepts, s, p.entry) == Done(p, r)
  {
    var refs := RawRefs(p.payloads) + r;
    var middle := RawLen(|p.payloads|) + refs;
    Associates(RawLen(|p.payloads|), RawRefs(p.payloads), r);
    Associates(RawOption(p.previous, RawLocation), RawLen(|p.payloads|) + RawRefs(p.payloads), r);
    if p.previous.Some? {
      LocationBack(accepts, p.previous.value, RawLocation(p.previous.value) + middle, middle);
    }
    OptionBack(p.previous, RawLocation, LocationParser(accepts), middle);
    LenBack(|p.payloads|, refs);
    RefsBack(accepts, p.payloads, refs, r);
  }

  /** An entry leaf gives back the entry with its own id, its link and its references, and nothing may follow it. */
  lemma {:induction false} EntryCodec(k: Kernel, p: PhysicalEntry, x: seq<byte>)
    requires GoodKernel(k) && PhysicalOk(k, p)
    ensures DecodedEntry(k, EncodedEntry(k, p) + x) == if x == [] then Some(p) else None
  {
    var datum, links := Encode(k.key, EntryDatum(p.entry)).value, RawLinks(p);
    EntryParts(k, datum, links, x, EncodedEntry(k, p) + x);
    EntryAndLinksBack(k, p, datum, links + x, x);
  }

  lemma {:induction false} EntryAndLinksBack(k: Kernel, p: PhysicalEntry, datum: seq<byte>, s: seq<byte>, x: seq<byte>)
    requires GoodKernel(k) && PhysicalOk(k, p) && Encode(k.key, EntryDatum(p.entry)) == Ok(datum)
    requires s == RawLinks(p) + x
    ensures EntryAndLinks(k, datum, s) == if x == [] then Some(p) else None
  {
    EntryDatumBack(k, p.entry);
    LinksBack(k.accepts, p, s, x);
  }

  lemma {:induction false} EntryDatumBack(k: Kernel, e: JournalEntry)
    requires GoodKernel(k) && JournalEntryOk(k, e) && Canonical(k.key, EntryDatum(e))
    ensures var d := Decode(k.key, Encode(k.key, EntryDatum(e)).value); d.Ok? && EntryFromDatum(k, d.value) == Some(e)
  {
    DecodeEncode(k.key, EntryDatum(e));
    EntrySurvives(k, e);
  }

  lemma {:induction false} EntryParts(k: Kernel, datum: seq<byte>, links: seq<byte>, x: seq<byte>, s: seq<byte>)
    requires |datum| < U64_LIMIT && s == ENTRY_FORMAT + (RawBytes(datum) + links) + x
    ensures DecodedEntry(k, s) == EntryAndLinks(k, datum, links + x)
  {
    Associates(RawBytes(datum), links, x);
    Associates(ENTRY_FORMAT, RawBytes(datum) + links, x);
    BodyBack(ENTRY_FORMAT, RawBytes(datum) + (links + x));
    BytesBack(datum, links + x);
  }
}
