/**
 * Journal values. An identity wraps the value it identifies, so equal identities mean equal values;
 * a semantic value stands for its whole class of equal encodings (module DatumCodec covers those).
 */
module JournalTypes {
  import opened Wrappers

  type Symbol = string

  /** A semantic value: tagged exact bytes, any other value, or the fact an entry's id is taken from. */
  datatype Datum =
    | ExactBytes(bytes: seq<nat>)
    | Value(token: nat)
    | EntryFact(sequence: nat, previous: Option<ContentId>, kind: Symbol, payloads: seq<ContentId>)

  datatype ContentId = ContentId(meaning: Datum)

  /** The byte projection of a value: its exact bytes, or its encoding. */
  datatype Projection = Exact(bytes: seq<nat>) | Encoded(datum: Datum)

  function Project(datum: Datum): (p: Projection)
    ensures match datum case ExactBytes(bytes) => p == Exact(bytes) case _ => p.Encoded? && p.datum == datum
  {
    if datum.ExactBytes? then Exact(datum.bytes) else Encoded(datum)
  }

  datatype JournalObject = JournalObject(id: ContentId, bytes: Projection, datum: Datum)

  /** `JournalObject::from_datum`. */
  function ObjectOf(datum: Datum): JournalObject {
    JournalObject(ContentId(datum), Project(datum), datum)
  }

  /** `JournalObject::verify`: the claimed id and bytes are the datum's. */
  predicate ObjectOk(item: JournalObject) {
    item.id == ContentId(item.datum) && item.bytes == Project(item.datum)
  }

  datatype Entry = Entry(
    id: ContentId, sequence: nat, previous: Option<ContentId>, kind: Symbol, payloads: seq<ContentId>)

  /** `canonical_id`: the id of the fact the other fields state. */
  function CanonicalId(entry: Entry): ContentId {
    ContentId(EntryFact(entry.sequence, entry.previous, entry.kind, entry.payloads))
  }

  /** `JournalEntry::new`. */
  function NewEntry(sequence: nat, previous: Option<ContentId>, kind: Symbol, payloads: seq<ContentId>): (e: Entry)
    ensures e.sequence == sequence && e.previous == previous && e.kind == kind && e.payloads == payloads
    ensures e.id == CanonicalId(e)
  {
    Entry(ContentId(EntryFact(sequence, previous, kind, payloads)), sequence, previous, kind, payloads)
  }

  datatype Head = Head(sequence: nat, entry: ContentId)

  function HeadOf(entry: Entry): Head {
    Head(entry.sequence, entry.id)
  }

  datatype StoredState = StoredState(
    objects: map<ContentId, Projection>, datums: map<ContentId, Datum>, entries: map<nat, Entry>, head: Option<Head>)

  const EMPTY_STATE := StoredState(map[], map[], map[], None)

  datatype Admission = Admission(
    fence: nat, expected: Option<Head>, objects: seq<JournalObject>, entries: seq<Entry>)

  datatype Disposition = CommittedActionInvoked | AlreadyCommittedActionNotInvoked

  datatype Guarded = Guarded(head: Head, disposition: Disposition)

  datatype JournalError =
    | EmptyBatch
    | WrongHead
    | StaleLease
    | SequenceGap
    | WrongPrevious
    | CorruptEntry
    | CorruptObject(claimed: ContentId)
    | CorruptV1Object
    | MissingPayload(payload: ContentId)
    | ConflictingObject
    | MissingSemanticObject(meaning: ContentId)
    | ConflictingDelivery
    | CorruptState
    | Backend
    | WriteRefused
    | WorkBoundExceeded

  // ---------------------------------------------------------------------------------------------
  // Chains

  /** The id the next entry must name. */
  function LastId(chain: seq<Entry>): Option<ContentId> {
    if chain == [] then None else Some(chain[|chain| - 1].id)
  }

  function ChainHead(chain: seq<Entry>): Option<Head> {
    if chain == [] then None else Some(HeadOf(chain[|chain| - 1]))
  }

  /** Gapless entries from zero, each canonical and naming the one before it. */
  ghost predicate IsChain(chain: seq<Entry>) {
    forall i :: 0 <= i < |chain| ==>
      && chain[i].sequence == i
      && chain[i].id == CanonicalId(chain[i])
      && chain[i].previous == LastId(chain[..i])
  }

  lemma {:induction false} IsChainPrefix(chain: seq<Entry>, n: nat)
    requires IsChain(chain) && n <= |chain|
    ensures IsChain(chain[..n])
  {
    forall i | 0 <= i < n
      ensures chain[..n][..i] == chain[..i]
    {
    }
  }

  /** Since an id wraps the previous id, the last entry determines the whole chain. */
  lemma {:induction false} ChainDetermined(a: seq<Entry>, b: seq<Entry>)
    requires IsChain(a) && IsChain(b)
    requires LastId(a) == LastId(b)
    ensures a == b
    decreases |a|
  {
    if a != [] {
      var x, y := a[|a| - 1], b[|b| - 1];
      assert x == y && |a| == |b|;
      IsChainPrefix(a, |a| - 1);
      IsChainPrefix(b, |b| - 1);
      ChainDetermined(a[..|a| - 1], b[..|b| - 1]);
      assert a == a[..|a| - 1] + [x] && b == b[..|b| - 1] + [y];
    }
  }

  /** The entry map a chain is stored as. */
  function EntryMap(chain: seq<Entry>): map<nat, Entry> {
    map i: nat | i < |chain| :: chain[i]
  }
}
