/** The in-memory reference backend and the verified publication in front of it. */
module MemoryBackend {
  import opened Wrappers
  import opened JournalTypes
  import opened JournalLaws

  const MAX_FENCE: nat := 0xFFFF_FFFF_FFFF_FFFF

  // ---------------------------------------------------------------------------------------------
  // What a commit does to the stored state

  /** Objects go in one at a time; the first conflict stops the commit and keeps what went in before. */
  function InsertObjects(state: StoredState, items: seq<JournalObject>): (StoredState, bool)
    decreases |items|
  {
    if items == [] then (state, true)
    else if items[0].id in state.objects then
      if state.objects[items[0].id] != items[0].bytes then (state, false) else InsertObjects(state, items[1..])
    else
      InsertObjects(state.(objects := state.objects[items[0].id := items[0].bytes],
                           datums := state.datums[items[0].id := items[0].datum]), items[1..])
  }

  function InsertEntries(state: StoredState, entries: seq<Entry>): (StoredState, bool)
    decreases |entries|
  {
    if entries == [] then (state, true)
    else if entries[0].sequence in state.entries then
      if state.entries[entries[0].sequence] != entries[0] then (state, false) else InsertEntries(state, entries[1..])
    else InsertEntries(state.(entries := state.entries[entries[0].sequence := entries[0]]), entries[1..])
  }

  /** Every entry of the batch is already committed as it is. */
  predicate ExactlyCommitted(entries: map<nat, Entry>, batch: seq<Entry>) {
    batch != [] && forall e :: e in batch ==> e.sequence in entries && entries[e.sequence] == e
  }

  ghost function CommitResult(fence: nat, state: StoredState, admission: Admission)
    : (Result<Guarded, JournalError>, StoredState)
  {
    if admission.fence != fence then (Err(StaleLease), state)
    else if admission.expected != state.head then
      if ExactlyCommitted(state.entries, admission.entries) then
        if state.head.None? then (Err(WrongHead), state)
        else (Ok(Guarded(state.head.value, AlreadyCommittedActionNotInvoked)), state)
      else if exists e :: e in admission.entries && e.sequence in state.entries then (Err(ConflictingDelivery), state)
      else (Err(WrongHead), state)
    else
      var (withObjects, objectsOk) := InsertObjects(state, admission.objects);
      if !objectsOk then (Err(ConflictingObject), withObjects)
      else
        var (withEntries, entriesOk) := InsertEntries(withObjects, admission.entries);
        if !entriesOk then (Err(ConflictingDelivery), withEntries)
        else
          match ChainHead(Values(withEntries.entries))
          case None => (Err(EmptyBatch), withEntries)
          case Some(head) => (Ok(Guarded(head, CommittedActionInvoked)), withEntries.(head := Some(head)))
  }

  /** `publish`: an empty batch, an unlawful state or a bad batch never reaches the backend. */
  ghost function PublishResult(
      fence: nat, state: StoredState, lease: nat, expected: Option<Head>, items: seq<JournalObject>,
      entries: seq<Entry>)
    : (Result<Guarded, JournalError>, StoredState)
  {
    if entries == [] then (Err(EmptyBatch), state)
    else if VerifyStateResult(state).Err? then (Err(VerifyStateResult(state).error), state)
    else if VerifyBatchResult(state, expected, items, entries).Err? then
      (Err(VerifyBatchResult(state, expected, items, entries).error), state)
    else CommitResult(fence, state, Admission(lease, expected, items, entries))
  }

  class Memory {
    var fence: nat
    var state: StoredState
    /** The batches whose continuation was invoked, in order. */
    var invoked: seq<seq<Entry>>

    constructor ()
      ensures fence == 0 && state == EMPTY_STATE && invoked == []
    {
      fence, state, invoked := 0, EMPTY_STATE, [];
    }

    method AcquireLease() returns (r: Result<nat, JournalError>)
      modifies this
      ensures old(fence) == MAX_FENCE ==> r == Err(Backend) && fence == old(fence)
      ensures old(fence) != MAX_FENCE ==> r == Ok(fence) && fence == old(fence) + 1
      ensures state == old(state) && invoked == old(invoked)
    {
      if fence == MAX_FENCE {
        return Err(Backend);
      }
      fence := fence + 1;
      return Ok(fence);
    }

    method CommitAdmission(admission: Admission) returns (r: Result<Guarded, JournalError>)
      modifies this
      ensures (r, state) == CommitResult(old(fence), old(state), admission)
      ensures fence == old(fence) && invoked == old(invoked)
    {
      if admission.fence != fence {
        return Err(StaleLease);
      }
      if admission.expected != state.head {
        if ExactlyCommitted(state.entries, admission.entries) {
          if state.head.None? {
            return Err(WrongHead);
          }
          return Ok(Guarded(state.head.value, AlreadyCommittedActionNotInvoked));
        }
        if exists e :: e in admission.entries && e.sequence in state.entries {
          return Err(ConflictingDelivery);
        }
        return Err(WrongHead);
      }
      var stored := InsertAllObjects(admission.objects);
      if !stored {
        return Err(ConflictingObject);
      }
      stored := InsertAllEntries(admission.entries);
      if !stored {
        return Err(ConflictingDelivery);
      }
      var head := ChainHead(Values(state.entries));
      if head.None? {
        return Err(EmptyBatch);
      }
      state := state.(head := head);
      return Ok(Guarded(head.value, CommittedActionInvoked));
    }

    method InsertAllObjects(items: seq<JournalObject>) returns (stored: bool)
      modifies this`state
      ensures (state, stored) == InsertObjects(old(state), items)
    {
      ghost var rest := items;
      for k := 0 to |items|
        invariant rest == items[k..]
        invariant InsertObjects(state, rest) == InsertObjects(old(state), items)
      {
        var item := items[k];
        if item.id in state.objects {
          if state.objects[item.id] != item.bytes {
            return false;
          }
        } else {
          state := state.(objects := state.objects[item.id := item.bytes],
            datums := state.datums[item.id := item.datum]);
        }
        rest := rest[1..];
      }
      return true;
    }

    method InsertAllEntries(entries: seq<Entry>) returns (stored: bool)
      modifies this`state
      ensures (state, stored) == InsertEntries(old(state), entries)
    {
      ghost var rest := entries;
      for k := 0 to |entries|
        invariant rest == entries[k..]
        invariant InsertEntries(state, rest) == InsertEntries(old(state), entries)
      {
        var entry := entries[k];
        if entry.sequence in state.entries {
          if state.entries[entry.sequence] != entry {
            return false;
          }
        } else {
          state := state.(entries := state.entries[entry.sequence := entry]);
        }
        rest := rest[1..];
      }
      return true;
    }

    /** `admit_then`: the continuation runs only after a new commit. */
    method AdmitThen(admission: Admission) returns (r: Result<Guarded, JournalError>)
      modifies this
      ensures (r, state) == CommitResult(old(fence), old(state), admission)
      ensures fence == old(fence)
      ensures invoked == if r.Ok? && r.value.disposition == CommittedActionInvoked
        then old(invoked) + [admission.entries] else old(invoked)
    {
      r := CommitAdmission(admission);
      if r.Ok? && r.value.disposition == CommittedActionInvoked {
        invoked := invoked + [admission.entries];
      }
    }

    /** `publish_then`: verify the state read and the batch, then admit. */
    method PublishThen(lease: nat, expected: Option<Head>, items: seq<JournalObject>, entries: seq<Entry>)
      returns (r: Result<Guarded, JournalError>)
      modifies this
      ensures (r, state) == PublishResult(old(fence), old(state), lease, expected, items, entries)
      ensures fence == old(fence)
      ensures invoked == if r.Ok? && r.value.disposition == CommittedActionInvoked
        then old(invoked) + [entries] else old(invoked)
    {
      if entries == [] {
        return Err(EmptyBatch);
      }
      var verified := VerifyState(state);
      if verified.Err? {
        return Err(verified.error);
      }
      var checked := VerifyBatch(state, expected, items, entries);
      if checked.Err? {
        return Err(checked.error);
      }
      r := AdmitThen(Admission(lease, expected, items, entries));
    }
  }

  // ---------------------------------------------------------------------------------------------
  // The laws every memory journal keeps

  /** The state stores `chain` under its sequence numbers, with every stored object what its id says. */
  ghost predicate Lawful(state: StoredState, chain: seq<Entry>) {
    && IsChain(chain) && state.entries == EntryMap(chain) && state.head == ChainHead(chain)
    && AllHeld(state.objects, state.datums)
    && (forall e, p :: e in chain && p in e.payloads ==> p in state.objects)
  }

  /** A lawful state is one that `verify_state` accepts, and it replays as its chain. */
  lemma {:induction false} LawfulVerifies(state: StoredState, chain: seq<Entry>)
    requires Lawful(state, chain)
    ensures Values(state.entries) == chain
    ensures VerifyStateResult(state) == Ok(Verification(state.head, chain, PayloadIds(chain)))
  {
    ValuesOfChain(state.entries, chain, 0);
    assert chain[0..] == chain;
    VerifyStateAccepts(state);
  }

  lemma {:induction false} InsertObjectsKeeps(state: StoredState, items: seq<JournalObject>, chain: seq<Entry>)
    requires Lawful(state, chain)
    requires forall o :: o in items ==> ObjectOk(o)
    ensures var (after, stored) := InsertObjects(state, items);
      && stored && Lawful(after, chain) && after.entries == state.entries && after.head == state.head
      && after.objects.Keys == state.objects.Keys + set o | o in items :: o.id
    decreases |items|
  {
    if items != [] {
      var o := items[0];
      assert ObjectOk(o) && (o.id in state.objects ==> Held(state, o.id));
      assert (set x | x in items :: x.id) == {o.id} + set x | x in items[1..] :: x.id by {
        assert forall x :: x in items <==> x == o || x in items[1..];
      }
      if o.id in state.objects {
        InsertObjectsKeeps(state, items[1..], chain);
      } else {
        var next := state.(objects := state.objects[o.id := o.bytes], datums := state.datums[o.id := o.datum]);
        assert AllHeld(next.objects, next.datums) by {
          assert forall p :: p in state.objects ==> HeldIn(state.objects, state.datums, p);
        }
        InsertObjectsKeeps(next, items[1..], chain);
      }
    }
  }

  lemma {:induction false} InsertEntriesAppends(state: StoredState, chain: seq<Entry>, batch: seq<Entry>)
    requires state.entries == EntryMap(chain) && Follows(batch, |chain|, LastId(chain))
    ensures InsertEntries(state, batch) == (state.(entries := EntryMap(chain + batch)), true)
    decreases |batch|
  {
    if batch == [] {
      assert chain + batch == chain;
    } else {
      var next := chain + [batch[0]];
      assert EntryMap(next) == EntryMap(chain)[|chain| := batch[0]];
      assert LastId(next) == Some(batch[0].id) && next + batch[1..] == chain + batch;
      InsertEntriesAppends(state.(entries := EntryMap(next)), next, batch[1..]);
    }
  }

  /** The batch is committed where its sequence numbers say. */
  predicate Contains(chain: seq<Entry>, batch: seq<Entry>) {
    batch != [] && forall e :: e in batch ==> e.sequence < |chain| && chain[e.sequence] == e
  }

  /** The payloads are known before the batch or travel with it. */
  ghost predicate PayloadsAt(state: StoredState, items: seq<JournalObject>, entries: seq<Entry>) {
    forall e, p :: e in entries && p in e.payloads ==> p in state.objects || exists o :: o in items && o.id == p
  }

  /** When a publication on a lawful journal is accepted: as new, or as an exact redelivery. */
  ghost predicate AcceptsNew(
      fence: nat, state: StoredState, chain: seq<Entry>,
      lease: nat, expected: Option<Head>, items: seq<JournalObject>, entries: seq<Entry>)
  {
    && entries != [] && lease == fence && expected == ChainHead(chain)
    && (forall o :: o in items ==> ObjectOk(o))
    && PayloadsAt(state, items, entries)
    && IsChain(chain + entries)
  }

  ghost predicate AcceptsAgain(
      fence: nat, state: StoredState, chain: seq<Entry>,
      lease: nat, expected: Option<Head>, items: seq<JournalObject>, entries: seq<Entry>)
  {
    && lease == fence && expected != ChainHead(chain) && Contains(chain, entries)
    && (forall o :: o in items ==> ObjectOk(o))
    && PayloadsAt(state, items, entries)
    && Follows(entries, FirstSequence(expected), ExpectedId(expected))
  }

  /**
   * Publication on a lawful journal either appends exactly the batch, or finds it committed and changes
   * nothing, or is refused and changes nothing; the journal stays lawful.
   */
  lemma {:induction false} PublishKeepsLaws(
      fence: nat, state: StoredState, chain: seq<Entry>,
      lease: nat, expected: Option<Head>, items: seq<JournalObject>, entries: seq<Entry>)
    requires Lawful(state, chain)
    ensures var (r, after) := PublishResult(fence, state, lease, expected, items, entries);
      if AcceptsNew(fence, state, chain, lease, expected, items, entries) then
        && r == Ok(Guarded(HeadOf(entries[|entries| - 1]), CommittedActionInvoked))
        && Lawful(after, chain + entries)
        && after.objects.Keys == state.objects.Keys + set o | o in items :: o.id
      else if AcceptsAgain(fence, state, chain, lease, expected, items, entries) then
        chain != [] && r == Ok(Guarded(HeadOf(chain[|chain| - 1]), AlreadyCommittedActionNotInvoked)) && after == state
      else r.Err? && after == state
  {
    LawfulVerifies(state, chain);
    VerifyBatchAccepts(state, expected, items, entries);
    HeadNamesChain(chain);
    FollowsIffExtends(chain, entries);
    BatchOnLawful(state, chain, expected, items, entries);
    if AcceptsNew(fence, state, chain, lease, expected, items, entries) {
      assert VerifyBatchResult(state, expected, items, entries).Ok?;
      CommitNew(fence, state, chain, Admission(lease, expected, items, entries));
    } else if entries != [] && VerifyBatchResult(state, expected, items, entries).Ok? {
      assert lease == fence ==> expected != ChainHead(chain);
      CommitOther(fence, state, chain, Admission(lease, expected, items, entries));
    }
  }

  lemma {:induction false} CommitNew(fence: nat, state: StoredState, chain: seq<Entry>, admission: Admission)
    requires Lawful(state, chain)
    requires AcceptsNew(fence, state, chain, admission.fence, admission.expected, admission.objects, admission.entries)
    ensures var (r, after) := CommitResult(fence, state, admission); var batch := admission.entries;
      && r == Ok(Guarded(HeadOf(batch[|batch| - 1]), CommittedActionInvoked))
      && Lawful(after, chain + batch)
      && after.objects.Keys == state.objects.Keys + set o | o in admission.objects :: o.id
  {
    InsertObjectsKeeps(state, admission.objects, chain);
    var withObjects := InsertObjects(state, admission.objects).0;
    FollowsIffExtends(chain, admission.entries);
    InsertEntriesAppends(withObjects, chain, admission.entries);
    CommittedIsLawful(withObjects, chain, admission.entries);
  }

  lemma {:induction false} CommitOther(fence: nat, state: StoredState, chain: seq<Entry>, admission: Admission)
    requires Lawful(state, chain) && (admission.fence == fence ==> admission.expected != ChainHead(chain))
    ensures CommitResult(fence, state, admission).1 == state
    ensures if admission.fence == fence && Contains(chain, admission.entries)
      then chain != [] && CommitResult(fence, state, admission).0
             == Ok(Guarded(HeadOf(chain[|chain| - 1]), AlreadyCommittedActionNotInvoked))
      else CommitResult(fence, state, admission).0.Err?
  {
    assert ExactlyCommitted(state.entries, admission.entries) <==> Contains(chain, admission.entries);
    assert Contains(chain, admission.entries) ==> admission.entries[0] in admission.entries;
  }

  /** On a lawful state only payloads and continuation matter to `verify_batch` on the current head. */
  lemma {:induction false} BatchOnLawful(
      state: StoredState, chain: seq<Entry>, expected: Option<Head>, items: seq<JournalObject>, entries: seq<Entry>)
    requires Lawful(state, chain)
    ensures BatchOk(state, expected, items, entries) <==>
      && (forall o :: o in items ==> ObjectOk(o))
      && PayloadsAt(state, items, entries)
      && Follows(entries, FirstSequence(expected), ExpectedId(expected))
      && (forall e :: e in entries && e.sequence < |chain| ==> chain[e.sequence] == e)
    ensures expected == ChainHead(chain) && Follows(entries, FirstSequence(expected), ExpectedId(expected)) ==>
      forall e :: e in entries ==> e.sequence >= |chain|
  {
    forall o | o in items && ObjectOk(o) && o.id in state.objects
      ensures state.objects[o.id] == o.bytes
    {
      assert Held(state, o.id);
    }
    if expected == ChainHead(chain) && Follows(entries, FirstSequence(expected), ExpectedId(expected)) {
      HeadNamesChain(chain);
      FollowsSequences(entries, |chain|, LastId(chain));
    }
  }

  lemma {:induction false} FollowsSequences(entries: seq<Entry>, first: nat, previous: Option<ContentId>)
    requires Follows(entries, first, previous)
    ensures forall i :: 0 <= i < |entries| ==> entries[i].sequence == first + i
  {
    if entries != [] {
      FollowsSequences(entries[1..], first + 1, Some(entries[0].id));
      assert forall i :: 1 <= i < |entries| ==> entries[i] == entries[1..][i - 1];
    }
  }

  lemma {:induction false} CommittedIsLawful(withObjects: StoredState, chain: seq<Entry>, entries: seq<Entry>)
    requires Lawful(withObjects, chain) && entries != [] && IsChain(chain + entries)
    requires forall e, p :: e in entries && p in e.payloads ==> p in withObjects.objects
    ensures var after := withObjects.(entries := EntryMap(chain + entries), head := ChainHead(chain + entries));
      && Lawful(after, chain + entries)
      && Values(after.entries) == chain + entries
      && ChainHead(chain + entries) == Some(HeadOf(entries[|entries| - 1]))
  {
    var whole := chain + entries;
    var after := withObjects.(entries := EntryMap(whole), head := ChainHead(whole));
    LawfulVerifies(after, whole);
  }
}
