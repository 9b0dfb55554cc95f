/** The journal laws: what `verify_state` and `verify_batch` accept, and that admission preserves it. */
module JournalLaws {
  import opened Wrappers
  import opened Keys
  import opened JournalTypes

  // ---------------------------------------------------------------------------------------------
  // Values of an ordered map

  /** `values()`: the entries in key order. */
  function Values(entries: map<nat, Entry>): seq<Entry>
    decreases |entries.Keys|
  {
    if entries == map[] then []
    else
      var k := LeastKey(entries.Keys);
      SmallerSet((entries - {k}).Keys, entries.Keys);
      [entries[k]] + Values(entries - {k})
  }

  lemma {:induction false} SmallerSet(a: set<nat>, b: set<nat>)
    requires a < b
    ensures |a| < |b|
  {
    var x :| x in b && x !in a;
    assert a <= b - {x};
    SubsetSize(a, b - {x});
  }

  lemma {:induction false} SubsetSize(a: set<nat>, b: set<nat>)
    requires a <= b
    ensures |a| <= |b|
    decreases a
  {
    if a != {} {
      var x :| x in a;
      SubsetSize(a - {x}, b - {x});
    }
  }

  /** The entries of a chain stored from key `from` on come out in order. */
  lemma {:induction false} ValuesOfChain(entries: map<nat, Entry>, chain: seq<Entry>, from: nat)
    requires from <= |chain|
    requires entries == map i: nat | from <= i < |chain| :: chain[i]
    ensures Values(entries) == chain[from..]
    decreases |chain| - from
  {
    if from < |chain| {
      assert from in entries;
      var k := LeastKey(entries.Keys);
      assert k == from;
      assert entries - {k} == map i: nat | from + 1 <= i < |chain| :: chain[i];
      ValuesOfChain(entries - {k}, chain, from + 1);
    }
  }

  // ---------------------------------------------------------------------------------------------
  // verify_state

  datatype Verification = Verification(head: Option<Head>, entries: seq<Entry>, objectIds: set<ContentId>)

  function CheckPayload(state: StoredState, payload: ContentId): Result<(), JournalError> {
    if payload !in state.objects then Err(MissingPayload(payload))
    else if payload !in state.datums then Err(MissingSemanticObject(payload))
    else
      var rebuilt := ObjectOf(state.datums[payload]);
      if rebuilt.id != payload || rebuilt.bytes != state.objects[payload] then Err(CorruptObject(payload)) else Ok(())
  }

  function CheckPayloads(state: StoredState, payloads: seq<ContentId>): Result<(), JournalError> {
    if payloads == [] then Ok(())
    else if CheckPayload(state, payloads[0]).Err? then CheckPayload(state, payloads[0])
    else CheckPayloads(state, payloads[1..])
  }

  function CheckEntry(state: StoredState, entry: Entry, sequence: nat, prior: Option<ContentId>)
    : Result<(), JournalError>
  {
    if entry.sequence != sequence then Err(CorruptState)
    else if entry.previous != prior then Err(CorruptState)
    else if CanonicalId(entry) != entry.id then Err(CorruptEntry)
    else CheckPayloads(state, entry.payloads)
  }

  /** The first complaint about the entries from position `sequence` on. */
  ghost function CheckEntries(state: StoredState, entries: seq<Entry>, sequence: nat, prior: Option<ContentId>)
    : Result<(), JournalError>
  {
    if entries == [] then Ok(())
    else if CheckEntry(state, entries[0], sequence, prior).Err? then CheckEntry(state, entries[0], sequence, prior)
    else CheckEntries(state, entries[1..], sequence + 1, Some(entries[0].id))
  }

  ghost function PayloadIds(entries: seq<Entry>): set<ContentId> {
    if entries == [] then {} else (set p | p in entries[0].payloads) + PayloadIds(entries[1..])
  }

  ghost function VerifyStateResult(state: StoredState): Result<Verification, JournalError> {
    var entries := Values(state.entries);
    match CheckEntries(state, entries, 0, None)
    case Err(error) => Err(error)
    case Ok(_) =>
      if ChainHead(entries) != state.head then Err(CorruptState)
      else Ok(Verification(state.head, entries, PayloadIds(entries)))
  }

  /** `verify_state`: one pass over the entries in key order. */
  method VerifyState(state: StoredState) returns (r: Result<Verification, JournalError>)
    ensures r == VerifyStateResult(state)
  {
    var entries := Values(state.entries);
    var prior: Option<ContentId> := None;
    var objectIds: set<ContentId> := {};
    ghost var rest := entries;
    for sequence := 0 to |entries|
      invariant rest == entries[sequence..]
      invariant CheckEntries(state, entries, 0, None) == CheckEntries(state, rest, sequence, prior)
      invariant objectIds + PayloadIds(rest) == PayloadIds(entries)
    {
      var entry := entries[sequence];
      assert rest[0] == entry && rest[1..] == entries[sequence + 1..];
      if entry.sequence != sequence || entry.previous != prior {
        return Err(CorruptState);
      }
      if CanonicalId(entry) != entry.id {
        return Err(CorruptEntry);
      }
      var checked := VerifyPayloads(state, entry.payloads);
      if checked.Err? {
        return Err(checked.error);
      }
      objectIds := objectIds + (set p | p in entry.payloads);
      prior := Some(entry.id);
      rest := rest[1..];
    }
    var computed := ChainHead(entries);
    if computed != state.head {
      return Err(CorruptState);
    }
    return Ok(Verification(computed, entries, objectIds));
  }

  method VerifyPayloads(state: StoredState, payloads: seq<ContentId>) returns (r: Result<(), JournalError>)
    ensures r == CheckPayloads(state, payloads)
  {
    ghost var rest := payloads;
    for k := 0 to |payloads|
      invariant rest == payloads[k..]
      invariant CheckPayloads(state, payloads) == CheckPayloads(state, rest)
    {
      var payload := payloads[k];
      if CheckPayload(state, payload).Err? {
        return CheckPayload(state, payload);
      }
      rest := rest[1..];
    }
    return Ok(());
  }

  /** The payload is stored, with the bytes and the meaning its id stands for. */
  ghost predicate HeldIn(objects: map<ContentId, Projection>, datums: map<ContentId, Datum>, payload: ContentId) {
    && payload in objects && payload in datums
    && datums[payload] == payload.meaning && objects[payload] == Project(payload.meaning)
  }

  ghost predicate Held(state: StoredState, payload: ContentId) {
    HeldIn(state.objects, state.datums, payload)
  }

  /** Everything stored is held, in both maps. */
  ghost predicate AllHeld(objects: map<ContentId, Projection>, datums: map<ContentId, Datum>) {
    objects.Keys == datums.Keys && forall p :: p in objects ==> HeldIn(objects, datums, p)
  }

  ghost predicate PayloadsHeld(state: StoredState, entries: seq<Entry>) {
    forall e, p :: e in entries && p in e.payloads ==> Held(state, p)
  }

  lemma {:induction false} CheckPayloadsIffHeld(state: StoredState, payloads: seq<ContentId>)
    ensures CheckPayloads(state, payloads).Ok? <==> forall p :: p in payloads ==> Held(state, p)
  {
    if payloads != [] {
      CheckPayloadsIffHeld(state, payloads[1..]);
      assert forall p :: p in payloads <==> p == payloads[0] || p in payloads[1..];
      assert CheckPayload(state, payloads[0]).Ok? <==> Held(state, payloads[0]);
    }
  }

  /** The entries continue a chain of length `first` whose last id is `previous`. */
  ghost predicate Follows(entries: seq<Entry>, first: nat, previous: Option<ContentId>) {
    entries == [] ||
    (&& entries[0].sequence == first && entries[0].id == CanonicalId(entries[0]) && entries[0].previous == previous
     && Follows(entries[1..], first + 1, Some(entries[0].id)))
  }

  /** Following a chain is the same as making a longer chain. */
  lemma {:induction false} FollowsIffExtends(chain: seq<Entry>, batch: seq<Entry>)
    requires IsChain(chain)
    ensures Follows(batch, |chain|, LastId(chain)) <==> IsChain(chain + batch)
    decreases |batch|
  {
    var whole := chain + batch;
    if batch == [] {
      assert whole == chain;
    } else {
      var longer := chain + [batch[0]];
      assert longer + batch[1..] == whole && whole[..|longer|] == longer && whole[..|chain|] == chain;
      assert whole[|chain|] == batch[0];
      if IsChain(whole) {
        IsChainPrefix(whole, |longer|);
      }
      if batch[0].sequence == |chain| && batch[0].id == CanonicalId(batch[0]) && batch[0].previous == LastId(chain) {
        ChainSnoc(chain, batch[0]);
        FollowsIffExtends(longer, batch[1..]);
      }
    }
  }

  lemma {:induction false} ChainSnoc(chain: seq<Entry>, e: Entry)
    requires IsChain(chain)
    requires e.sequence == |chain| && e.id == CanonicalId(e) && e.previous == LastId(chain)
    ensures IsChain(chain + [e])
  {
    var longer := chain + [e];
    assert longer[..|chain|] == chain;
    forall i | 0 <= i < |chain|
      ensures longer[..i] == chain[..i]
    {
    }
  }

  lemma {:induction false} CheckEntriesIff(state: StoredState, entries: seq<Entry>, sequence: nat,
      prior: Option<ContentId>)
    ensures CheckEntries(state, entries, sequence, prior).Ok?
      <==> Follows(entries, sequence, prior) && PayloadsHeld(state, entries)
  {
    if entries != [] {
      var e := entries[0];
      CheckPayloadsIffHeld(state, e.payloads);
      CheckEntriesIff(state, entries[1..], sequence + 1, Some(e.id));
      assert forall x :: x in entries <==> x == e || x in entries[1..];
    }
  }

  /** `verify_state` accepts exactly the gapless canonical chains with all payloads and the right head. */
  lemma {:induction false} VerifyStateAccepts(state: StoredState)
    ensures var entries := Values(state.entries);
      VerifyStateResult(state).Ok? <==>
        (IsChain(entries) && PayloadsHeld(state, entries) && state.head == ChainHead(entries))
  {
    var entries := Values(state.entries);
    CheckEntriesIff(state, entries, 0, None);
    FollowsIffExtends([], entries);
    assert [] + entries == entries;
  }

  // ---------------------------------------------------------------------------------------------
  // verify_batch

  function CheckObjects(items: seq<JournalObject>, available: map<ContentId, Projection>)
    : Result<map<ContentId, Projection>, JournalError>
  {
    if items == [] then Ok(available)
    else if !ObjectOk(items[0]) then Err(CorruptObject(items[0].id))
    else if items[0].id in available && available[items[0].id] != items[0].bytes then Err(ConflictingObject)
    else CheckObjects(items[1..], available[items[0].id := items[0].bytes])
  }

  function FirstMissing(payloads: seq<ContentId>, available: map<ContentId, Projection>): Option<ContentId> {
    if payloads == [] then None
    else if payloads[0] !in available then Some(payloads[0])
    else FirstMissing(payloads[1..], available)
  }

  function CheckBatchEntry(
      state: StoredState, available: map<ContentId, Projection>, entry: Entry, sequence: nat,
      previous: Option<ContentId>)
    : Result<(), JournalError>
  {
    if CanonicalId(entry) != entry.id then Err(CorruptEntry)
    else if entry.sequence != sequence then Err(SequenceGap)
    else if entry.previous != previous then Err(WrongPrevious)
    else
      match FirstMissing(entry.payloads, available)
      case Some(payload) => Err(MissingPayload(payload))
      case None =>
        if sequence in state.entries && state.entries[sequence] != entry then Err(ConflictingDelivery) else Ok(())
  }

  ghost function CheckBatch(
      state: StoredState, available: map<ContentId, Projection>, entries: seq<Entry>, sequence: nat,
      previous: Option<ContentId>)
    : Result<(), JournalError>
  {
    if entries == [] then Ok(())
    else if CheckBatchEntry(state, available, entries[0], sequence, previous).Err? then
      CheckBatchEntry(state, available, entries[0], sequence, previous)
    else CheckBatch(state, available, entries[1..], sequence + 1, Some(entries[0].id))
  }

  function FirstSequence(expected: Option<Head>): nat {
    if expected.None? then 0 else expected.value.sequence + 1
  }

  function ExpectedId(expected: Option<Head>): Option<ContentId> {
    if expected.None? then None else Some(expected.value.entry)
  }

  ghost function VerifyBatchResult(state: StoredState, expected: Option<Head>, items: seq<JournalObject>,
      entries: seq<Entry>)
    : Result<(), JournalError>
  {
    match CheckObjects(items, state.objects)
    case Err(error) => Err(error)
    case Ok(available) => CheckBatch(state, available, entries, FirstSequence(expected), ExpectedId(expected))
  }

  /** `verify_batch`: the objects first, then the entries against the expected head. */
  method VerifyBatch(state: StoredState, expected: Option<Head>, items: seq<JournalObject>, entries: seq<Entry>)
    returns (r: Result<(), JournalError>)
    ensures r == VerifyBatchResult(state, expected, items, entries)
  {
    var available := state.objects;
    ghost var pending := items;
    for k := 0 to |items|
      invariant pending == items[k..]
      invariant CheckObjects(items, state.objects) == CheckObjects(pending, available)
    {
      var item := items[k];
      if !ObjectOk(item) {
        return Err(CorruptObject(item.id));
      }
      if item.id in available && available[item.id] != item.bytes {
        return Err(ConflictingObject);
      }
      available := available[item.id := item.bytes];
      pending := pending[1..];
    }
    var first := FirstSequence(expected);
    var previous := ExpectedId(expected);
    ghost var rest := entries;
    for k := 0 to |entries|
      invariant rest == entries[k..]
      invariant CheckBatch(state, available, entries, first, ExpectedId(expected))
             == CheckBatch(state, available, rest, first + k, previous)
    {
      var checked := CheckBatchEntry(state, available, entries[k], first + k, previous);
      if checked.Err? {
        return checked;
      }
      previous := Some(entries[k].id);
      rest := rest[1..];
    }
    return Ok(());
  }

  /** What `verify_batch` accepts, said without its order of checks. */
  ghost predicate BatchOk(state: StoredState, expected: Option<Head>, items: seq<JournalObject>, entries: seq<Entry>) {
    && (forall o :: o in items ==> ObjectOk(o) && (o.id in state.objects ==> state.objects[o.id] == o.bytes))
    && Follows(entries, FirstSequence(expected), ExpectedId(expected))
    && (forall e, p :: e in entries && p in e.payloads ==> p in state.objects || exists o :: o in items && o.id == p)
    && (forall e :: e in entries && e.sequence in state.entries ==> state.entries[e.sequence] == e)
  }

  lemma {:induction false} CheckObjectsIff(items: seq<JournalObject>, available: map<ContentId, Projection>)
    ensures CheckObjects(items, available).Ok? <==>
      forall o :: o in items ==> ObjectOk(o) && (o.id in available ==> available[o.id] == o.bytes)
    ensures CheckObjects(items, available).Ok? ==>
      forall p :: p in CheckObjects(items, available).value <==> p in available || exists o :: o in items && o.id == p
  {
    if items != [] {
      var o := items[0];
      assert forall x :: x in items <==> x == o || x in items[1..];
      if ObjectOk(o) && (o.id in available ==> available[o.id] == o.bytes) {
        CheckObjectsIff(items[1..], available[o.id := o.bytes]);
        assert forall x :: ObjectOk(x) && x.id == o.id ==> x.bytes == o.bytes;
      }
    }
  }

  lemma {:induction false} FirstMissingIff(payloads: seq<ContentId>, available: map<ContentId, Projection>)
    ensures FirstMissing(payloads, available).None? <==> forall p :: p in payloads ==> p in available
  {
    if payloads != [] {
      FirstMissingIff(payloads[1..], available);
      assert forall p :: p in payloads <==> p == payloads[0] || p in payloads[1..];
    }
  }

  lemma {:induction false} CheckBatchIff(
      state: StoredState, available: map<ContentId, Projection>, entries: seq<Entry>, sequence: nat,
      previous: Option<ContentId>)
    ensures CheckBatch(state, available, entries, sequence, previous).Ok? <==>
      && Follows(entries, sequence, previous)
      && (forall e, p :: e in entries && p in e.payloads ==> p in available)
      && (forall e :: e in entries && e.sequence in state.entries ==> state.entries[e.sequence] == e)
  {
    if entries != [] {
      var e := entries[0];
      FirstMissingIff(e.payloads, available);
      CheckBatchIff(state, available, entries[1..], sequence + 1, Some(e.id));
      assert forall x :: x in entries <==> x == e || x in entries[1..];
    }
  }

  lemma {:induction false} VerifyBatchAccepts(
      state: StoredState, expected: Option<Head>, items: seq<JournalObject>, entries: seq<Entry>)
    ensures VerifyBatchResult(state, expected, items, entries).Ok? <==> BatchOk(state, expected, items, entries)
  {
    CheckObjectsIff(items, state.objects);
    if CheckObjects(items, state.objects).Ok? {
      CheckBatchIff(state, CheckObjects(items, state.objects).value, entries, FirstSequence(expected),
        ExpectedId(expected));
    }
  }

  // ---------------------------------------------------------------------------------------------
  // Admission preserves the laws

  /** A head names the length and the last id of its chain. */
  lemma {:induction false} HeadNamesChain(chain: seq<Entry>)
    requires IsChain(chain)
    ensures FirstSequence(ChainHead(chain)) == |chain|
    ensures ExpectedId(ChainHead(chain)) == LastId(chain)
  {
  }
}
