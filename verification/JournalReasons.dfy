/**
 * What the journal tells a refused caller. Acceptance is the subject of `JournalLaws` and `MemoryBackend`; here every
 * error of a verification or of a commit is traced to the first thing that is wrong, for all inputs.
 */
module JournalReasons {
  import opened Wrappers
  import opened JournalTypes
  import opened JournalLaws
  import opened MemoryBackend
  import Keys

  // ---------------------------------------------------------------------------------------------
  // verify_batch

  /** The id the entry at `k` must name as the one before it. */
  function PreviousAt(entries: seq<Entry>, k: nat, previous: Option<ContentId>): Option<ContentId>
    requires k < |entries|
  {
    if k == 0 then previous else Some(entries[k - 1].id)
  }

  /** The entry at `k` is its own, in its place, with its payloads at hand, and not another entry's successor. */
  ghost predicate EntryFits(state: StoredState, available: set<ContentId>, entries: seq<Entry>, k: nat, first: nat,
      previous: Option<ContentId>)
    requires k < |entries|
  {
    var e := entries[k];
    && CanonicalId(e) == e.id && e.sequence == first + k && e.previous == PreviousAt(entries, k, previous)
    && (forall p :: p in e.payloads ==> p in available)
    && (e.sequence in state.entries ==> state.entries[e.sequence] == e)
  }

  /** The first of the checks that the entry at `k` fails. */
  ghost predicate EntryFails(state: StoredState, available: set<ContentId>, entries: seq<Entry>, k: nat, first: nat,
      previous: Option<ContentId>, error: JournalError)
    requires k < |entries|
  {
    var e := entries[k];
    if CanonicalId(e) != e.id then error == CorruptEntry
    else if e.sequence != first + k then error == SequenceGap
    else if e.previous != PreviousAt(entries, k, previous) then error == WrongPrevious
    else if exists p :: p in e.payloads && p !in available then
      exists i :: 0 <= i < |e.payloads| && error == MissingPayload(e.payloads[i]) && FirstOut(e.payloads, available, i)
    else error == ConflictingDelivery && e.sequence in state.entries && state.entries[e.sequence] != e
  }

  /** The payload at `i` is the first one out of reach. */
  ghost predicate FirstOut(payloads: seq<ContentId>, available: set<ContentId>, i: nat)
    requires i < |payloads|
  {
    payloads[i] !in available && forall j :: 0 <= j < i ==> payloads[j] in available
  }

  /** The objects up to `k` are sound and agree with what is stored. */
  ghost predicate ObjectsFit(state: StoredState, items: seq<JournalObject>, k: nat)
    requires k <= |items|
  {
    forall i :: 0 <= i < k ==>
      ObjectOk(items[i]) && (items[i].id in state.objects ==> state.objects[items[i].id] == items[i].bytes)
  }

  ghost function Available(state: StoredState, items: seq<JournalObject>): set<ContentId> {
    state.objects.Keys + set o | o in items :: o.id
  }

  /**
   * A refused batch: the first unsound or conflicting object, or, when there is none, the first entry that does not
   * fit and the first check it fails.
   */
  lemma {:induction false} BatchReason(
      state: StoredState, expected: Option<Head>, items: seq<JournalObject>, entries: seq<Entry>)
    requires VerifyBatchResult(state, expected, items, entries).Err?
    ensures var error := VerifyBatchResult(state, expected, items, entries).error;
      if ObjectsFit(state, items, |items|) then
        exists k :: 0 <= k < |entries|
          && (forall j :: 0 <= j < k ==>
                EntryFits(state, Available(state, items), entries, j, FirstSequence(expected), ExpectedId(expected)))
          && EntryFails(
               state, Available(state, items), entries, k, FirstSequence(expected), ExpectedId(expected), error)
      else
        exists k :: 0 <= k < |items| && ObjectsFit(state, items, k) && !ObjectsFit(state, items, k + 1)
          && error == if ObjectOk(items[k]) then ConflictingObject else CorruptObject(items[k].id)
  {
    CheckObjectsIff(items, state.objects);
    if CheckObjects(items, state.objects).Ok? {
      var available := CheckObjects(items, state.objects).value;
      assert available.Keys == Available(state, items);
      var k := BatchFails(state, available, entries, FirstSequence(expected), ExpectedId(expected));
    } else {
      var k := ObjectFails(state, items, 0, state.objects);
    }
  }

  lemma {:induction false} ObjectFails(
      state: StoredState, items: seq<JournalObject>, done: nat, available: map<ContentId, Projection>)
    returns (k: nat)
    requires done <= |items| && ObjectsFit(state, items, done)
    requires forall p :: p in available ==>
      (if p in state.objects then available[p] == state.objects[p] else available[p] == Project(p.meaning))
    requires forall p :: p in state.objects ==> p in available
    requires CheckObjects(items[done..], available).Err?
    ensures done <= k < |items| && ObjectsFit(state, items, k) && !ObjectsFit(state, items, k + 1)
    ensures CheckObjects(items[done..], available).error
      == if ObjectOk(items[k]) then ConflictingObject else CorruptObject(items[k].id)
    decreases |items| - done
  {
    var o := items[done];
    if !ObjectOk(o) || (o.id in available && available[o.id] != o.bytes) {
      k := done;
    } else {
      assert items[done..][1..] == items[done + 1..];
      k := ObjectFails(state, items, done + 1, available[o.id := o.bytes]);
    }
  }

  lemma {:induction false} BatchFails(state: StoredState, available: map<ContentId, Projection>, entries: seq<Entry>,
      first: nat, previous: Option<ContentId>)
    returns (k: nat)
    requires CheckBatch(state, available, entries, first, previous).Err?
    ensures 0 <= k < |entries|
    ensures forall j :: 0 <= j < k ==> EntryFits(state, available.Keys, entries, j, first, previous)
    ensures EntryFails(state, available.Keys, entries, k, first, previous,
      CheckBatch(state, available, entries, first, previous).error)
  {
    var e := entries[0];
    if CheckBatchEntry(state, available, e, first, previous).Err? {
      k := 0;
      FirstFails(state, available, entries, first, previous);
    } else {
      FirstFits(state, available, entries, first, previous);
      hide CheckBatchEntry, EntryFits, EntryFails;
      var rest := entries[1..];
      k := BatchFails(state, available, rest, first + 1, Some(e.id));
      forall j | 0 < j < k + 1
        ensures EntryFits(state, available.Keys, entries, j, first, previous)
      {
        FitsShifted(state, available.Keys, entries, j, first, previous);
      }
      FailsShifted(state, available.Keys, entries, k + 1, first, previous,
        CheckBatch(state, available, rest, first + 1, Some(e.id)).error);
      k := k + 1;
    }
  }

  lemma {:induction false} FirstFails(state: StoredState, available: map<ContentId, Projection>, entries: seq<Entry>,
      first: nat, previous: Option<ContentId>)
    requires entries != [] && CheckBatchEntry(state, available, entries[0], first, previous).Err?
    ensures EntryFails(state, available.Keys, entries, 0, first, previous,
      CheckBatchEntry(state, available, entries[0], first, previous).error)
  {
    MissingIsFirst(entries[0].payloads, available);
  }

  lemma {:induction false} FirstFits(state: StoredState, available: map<ContentId, Projection>, entries: seq<Entry>,
      first: nat, previous: Option<ContentId>)
    requires entries != [] && CheckBatchEntry(state, available, entries[0], first, previous).Ok?
    ensures EntryFits(state, available.Keys, entries, 0, first, previous)
  {
    MissingIsFirst(entries[0].payloads, available);
  }

  lemma {:induction false} FailsShifted(state: StoredState, available: set<ContentId>, entries: seq<Entry>, k: nat,
      first: nat, previous: Option<ContentId>, error: JournalError)
    requires 0 < k < |entries|
    ensures EntryFails(state, available, entries, k, first, previous, error)
      <==> EntryFails(state, available, entries[1..], k - 1, first + 1, Some(entries[0].id), error)
  {
  }

  lemma {:induction false} FitsShifted(state: StoredState, available: set<ContentId>, entries: seq<Entry>, j: nat,
      first: nat, previous: Option<ContentId>)
    requires 0 < j < |entries|
    ensures EntryFits(state, available, entries, j, first, previous)
      <==> EntryFits(state, available, entries[1..], j - 1, first + 1, Some(entries[0].id))
  {
  }

  lemma {:induction false} MissingIsFirst(payloads: seq<ContentId>, available: map<ContentId, Projection>)
    ensures var missing := FirstMissing(payloads, available);
      if missing.None? then forall p :: p in payloads ==> p in available
      else exists i :: 0 <= i < |payloads| && missing == Some(payloads[i]) && FirstOut(payloads, available.Keys, i)
  {
    if payloads != [] && payloads[0] in available {
      MissingIsFirst(payloads[1..], available);
      var missing := FirstMissing(payloads[1..], available);
      if missing.Some? {
        var i :| 0 <= i < |payloads[1..]| && missing == Some(payloads[1..][i])
          && FirstOut(payloads[1..], available.Keys, i);
        assert FirstOut(payloads, available.Keys, i + 1);
      }
    }
  }

  // ---------------------------------------------------------------------------------------------
  // verify_state

  /** The entry at `k` of a stored state is in its place, its own, and has its payloads stored. */
  ghost predicate StoredFits(state: StoredState, entries: seq<Entry>, k: nat)
    requires k < |entries|
  {
    var e := entries[k];
    && e.sequence == k && e.previous == PreviousAt(entries, k, None) && CanonicalId(e) == e.id
    && forall p :: p in e.payloads ==> Held(state, p)
  }

  ghost predicate StoredFails(state: StoredState, entries: seq<Entry>, k: nat, error: JournalError)
    requires k < |entries|
  {
    var e := entries[k];
    if e.sequence != k || e.previous != PreviousAt(entries, k, None) then error == CorruptState
    else if CanonicalId(e) != e.id then error == CorruptEntry
    else exists i :: 0 <= i < |e.payloads| && FirstUnheld(state, e.payloads, i, error)
  }

  /** The payload at `i` is the first that is not held, and the error says what is wrong with it. */
  ghost predicate FirstUnheld(state: StoredState, payloads: seq<ContentId>, i: nat, error: JournalError)
    requires i < |payloads|
  {
    var p := payloads[i];
    && !Held(state, p) && (forall j :: 0 <= j < i ==> Held(state, payloads[j]))
    && error == if p !in state.objects then MissingPayload(p)
                else if p !in state.datums then MissingSemanticObject(p)
                else CorruptObject(p)
  }

  /** A refused state: the first entry that does not fit and its first complaint, or else the head. */
  lemma {:induction false} StateReason(state: StoredState)
    requires VerifyStateResult(state).Err?
    ensures var entries, error := Values(state.entries), VerifyStateResult(state).error;
      if forall k :: 0 <= k < |entries| ==> StoredFits(state, entries, k) then
        state.head != ChainHead(entries) && error == CorruptState
      else
        exists k :: 0 <= k < |entries| && (forall j :: 0 <= j < k ==> StoredFits(state, entries, j))
          && StoredFails(state, entries, k, error) && !StoredFits(state, entries, k)
  {
    var entries := Values(state.entries);
    assert entries[0..] == entries;
    if CheckEntries(state, entries, 0, None).Err? {
      var k := StoredFailsFrom(state, entries, 0, None);
    } else {
      AllStoredFit(state, entries, 0, None);
    }
  }

  lemma {:induction false} StoredFailsFrom(state: StoredState, entries: seq<Entry>, done: nat, prior: Option<ContentId>)
    returns (k: nat)
    requires done <= |entries| && (done < |entries| ==> prior == PreviousAt(entries, done, None))
    requires forall j :: 0 <= j < done ==> StoredFits(state, entries, j)
    requires CheckEntries(state, entries[done..], done, prior).Err?
    ensures k < |entries| && forall j :: 0 <= j < k ==> StoredFits(state, entries, j)
    ensures StoredFails(state, entries, k, CheckEntries(state, entries[done..], done, prior).error)
    ensures !StoredFits(state, entries, k)
    decreases |entries| - done
  {
    var e := entries[done];
    UnheldIsFirst(state, e.payloads);
    if CheckEntry(state, e, done, prior).Err? {
      k := done;
    } else {
      assert entries[done..][1..] == entries[done + 1..];
      k := StoredFailsFrom(state, entries, done + 1, Some(e.id));
    }
  }

  lemma {:induction false} AllStoredFit(state: StoredState, entries: seq<Entry>, done: nat, prior: Option<ContentId>)
    requires done <= |entries| && (done < |entries| ==> prior == PreviousAt(entries, done, None))
    requires CheckEntries(state, entries[done..], done, prior).Ok?
    ensures forall j :: done <= j < |entries| ==> StoredFits(state, entries, j)
    decreases |entries| - done
  {
    if done < |entries| {
      UnheldIsFirst(state, entries[done].payloads);
      assert entries[done..][1..] == entries[done + 1..];
      AllStoredFit(state, entries, done + 1, Some(entries[done].id));
    }
  }

  lemma {:induction false} UnheldIsFirst(state: StoredState, payloads: seq<ContentId>)
    ensures var checked := CheckPayloads(state, payloads);
      if checked.Ok? then forall p :: p in payloads ==> Held(state, p)
      else exists i :: 0 <= i < |payloads| && FirstUnheld(state, payloads, i, checked.error)
  {
    if payloads != [] {
      if CheckPayload(state, payloads[0]).Err? {
        assert FirstUnheld(state, payloads, 0, CheckPayload(state, payloads[0]).error);
      } else {
        UnheldIsFirst(state, payloads[1..]);
        if CheckPayloads(state, payloads[1..]).Err? {
          var error := CheckPayloads(state, payloads[1..]).error;
          var i :| 0 <= i < |payloads[1..]| && FirstUnheld(state, payloads[1..], i, error);
          assert FirstUnheld(state, payloads, i + 1, error);
        }
      }
    }
  }

  // ---------------------------------------------------------------------------------------------
  // commit_admission

  /** No object gives other bytes to an id that is stored or that an earlier object uses. */
  ghost predicate Agreeing(objects: map<ContentId, Projection>, items: seq<JournalObject>) {
    && (forall o :: o in items && o.id in objects ==> objects[o.id] == o.bytes)
    && (forall o, x :: o in items && x in items && o.id == x.id ==> o.bytes == x.bytes)
  }

  /** What is stored stays, and when nothing disagrees every object is stored under its id, and no other. */
  lemma {:induction false} InsertObjectsIs(state: StoredState, items: seq<JournalObject>)
    ensures var (after, stored) := InsertObjects(state, items);
      && (stored <==> Agreeing(state.objects, items))
      && after.entries == state.entries && after.head == state.head
      && (forall p :: p in state.objects ==> p in after.objects && after.objects[p] == state.objects[p])
      && (stored ==>
            && (forall p :: p in after.objects <==> p in state.objects || exists o :: o in items && o.id == p)
            && (forall o :: o in items ==> after.objects[o.id] == o.bytes))
    decreases |items|
  {
    if items != [] {
      var o := items[0];
      assert forall x :: x in items <==> x == o || x in items[1..];
      if o.id !in state.objects {
        var next := state.(objects := state.objects[o.id := o.bytes], datums := state.datums[o.id := o.datum]);
        InsertObjectsIs(next, items[1..]);
      } else if state.objects[o.id] == o.bytes {
        InsertObjectsIs(state, items[1..]);
      }
    }
  }

  ghost predicate EntriesAgree(entries: map<nat, Entry>, batch: seq<Entry>) {
    && (forall e :: e in batch && e.sequence in entries ==> entries[e.sequence] == e)
    && (forall e, x :: e in batch && x in batch && e.sequence == x.sequence ==> e == x)
  }

  lemma {:induction false} AgreeFirst(entries: map<nat, Entry>, batch: seq<Entry>)
    requires batch != []
    ensures var e := batch[0];
      EntriesAgree(entries, batch) <==>
        (e.sequence in entries ==> entries[e.sequence] == e) && EntriesAgree(entries[e.sequence := e], batch[1..])
  {
    assert forall x :: x in batch <==> x == batch[0] || x in batch[1..];
  }

  lemma {:induction false} InsertEntriesIs(state: StoredState, batch: seq<Entry>)
    ensures var (after, stored) := InsertEntries(state, batch);
      && (stored <==> EntriesAgree(state.entries, batch))
      && after.objects == state.objects && after.datums == state.datums && after.head == state.head
      && (forall n :: n in state.entries ==> n in after.entries && after.entries[n] == state.entries[n])
      && (stored ==>
            && (forall n :: n in after.entries <==> n in state.entries || exists e :: e in batch && e.sequence == n)
            && (forall e :: e in batch ==> after.entries[e.sequence] == e))
    decreases |batch|
  {
    if batch != [] {
      var e := batch[0];
      AgreeFirst(state.entries, batch);
      hide EntriesAgree;
      assert forall x :: x in batch <==> x == e || x in batch[1..];
      if e.sequence !in state.entries {
        InsertEntriesIs(state.(entries := state.entries[e.sequence := e]), batch[1..]);
      } else if state.entries[e.sequence] == e {
        assert state.entries[e.sequence := e] == state.entries;
        InsertEntriesIs(state, batch[1..]);
      }
    }
  }

  /** Some entry of the batch has a sequence number that is taken. */
  ghost predicate Touches(entries: map<nat, Entry>, batch: seq<Entry>) {
    exists e :: e in batch && e.sequence in entries
  }

  ghost predicate Greatest(entries: map<nat, Entry>, n: nat) {
    n in entries && forall m :: m in entries ==> m <= n
  }

  /** The last value in key order is that of the greatest key. */
  lemma {:induction false} LastIsGreatest(entries: map<nat, Entry>) returns (n: nat)
    requires entries != map[]
    ensures Greatest(entries, n) && ChainHead(Values(entries)) == Some(HeadOf(entries[n]))
    decreases |entries.Keys|
  {
    var k := Keys.LeastKey(entries.Keys);
    var rest := entries - {k};
    var values := Values(rest);
    assert Values(entries) == [entries[k]] + values;
    if rest == map[] {
      n := k;
      assert forall m :: m in entries ==> m == k || m in rest;
    } else {
      SmallerSet(rest.Keys, entries.Keys);
      n := LastIsGreatest(rest);
      assert forall m :: m in entries ==> m == k || m in rest;
      assert values != [];
    }
  }

  ghost predicate AllStored(entries: map<nat, Entry>, batch: seq<Entry>) {
    forall e :: e in batch ==> e.sequence in entries && entries[e.sequence] == e
  }

  /** Every refusal of a commit, on any stored state and any admission, verified or not. */
  lemma {:induction false} CommitReason(fence: nat, state: StoredState, a: Admission)
    ensures var (r, after) := CommitResult(fence, state, a);
      if a.fence != fence then r == Err(StaleLease) && after == state
      else if a.expected != state.head then
        && after == state
        && if a.entries != [] && AllStored(state.entries, a.entries)
           then r == if state.head.None? then Err(WrongHead)
                     else Ok(Guarded(state.head.value, AlreadyCommittedActionNotInvoked))
           else r == Err(if Touches(state.entries, a.entries) then ConflictingDelivery else WrongHead)
      else
        && (r.Err? ==> after.head == state.head)
        && if !Agreeing(state.objects, a.objects) then r == Err(ConflictingObject) && after.entries == state.entries
           else if !EntriesAgree(state.entries, a.entries) then r == Err(ConflictingDelivery)
           else if state.entries == map[] && a.entries == [] then r == Err(EmptyBatch)
           else r.Ok?
  {
    if a.fence == fence && a.expected == state.head {
      InsertObjectsIs(state, a.objects);
      if Agreeing(state.objects, a.objects) {
        CommitStores(state, a);
      }
    }
  }

  lemma {:induction false} NonePlaced(entries: map<nat, Entry>, batch: seq<Entry>)
    requires forall e :: e in batch ==> e.sequence in entries
    ensures entries == map[] ==> batch == []
  {
    if batch != [] {
      assert batch[0] in batch;
    }
  }

  /** The head returned and the head stored are the entry with the greatest number. */
  ghost predicate LastNamed(r: Result<Guarded, JournalError>, after: StoredState) {
    exists n :: Greatest(after.entries, n) && after.head == Some(HeadOf(after.entries[n]))
      && r == Ok(Guarded(HeadOf(after.entries[n]), CommittedActionInvoked))
  }

  /** A new commit stores every object and every entry, and names the entry with the greatest number as its head. */
  lemma {:induction false} CommitStores(state: StoredState, a: Admission)
    requires a.expected == state.head && Agreeing(state.objects, a.objects)
    ensures var (r, after) := CommitResult(a.fence, state, a);
      && (forall o :: o in a.objects ==> o.id in after.objects && after.objects[o.id] == o.bytes)
      && (r.Err? ==> after.head == state.head)
      && if !EntriesAgree(state.entries, a.entries) then r == Err(ConflictingDelivery)
         else
           && (forall e :: e in a.entries ==> e.sequence in after.entries && after.entries[e.sequence] == e)
           && (forall n :: n in state.entries ==> n in after.entries && after.entries[n] == state.entries[n])
           && if state.entries == map[] && a.entries == [] then r == Err(EmptyBatch) else LastNamed(r, after)
  {
    InsertObjectsIs(state, a.objects);
    var withObjects := InsertObjects(state, a.objects).0;
    InsertEntriesIs(withObjects, a.entries);
    var (withEntries, agree) := InsertEntries(withObjects, a.entries);
    if agree {
      if withEntries.entries == map[] {
        assert Values(withEntries.entries) == [];
        NonePlaced(withEntries.entries, a.entries);
        assert forall n :: n in state.entries ==> n in withEntries.entries;
      } else {
        var n := LastIsGreatest(withEntries.entries);
        var after := CommitResult(a.fence, state, a).1;
        assert after.entries == withEntries.entries && Greatest(after.entries, n);
        if a.entries == [] {
          assert n in state.entries;
        }
      }
    }
  }

  // ---------------------------------------------------------------------------------------------
  // publish_then

  /** A refused publication: the checks come in the order batch, state, entries, lease, head, and nothing is stored. */
  lemma {:induction false} PublishReason(
      fence: nat, state: StoredState, chain: seq<Entry>,
      lease: nat, expected: Option<Head>, items: seq<JournalObject>, entries: seq<Entry>)
    ensures var (r, after) := PublishResult(fence, state, lease, expected, items, entries);
      var verified, checked := VerifyStateResult(state), VerifyBatchResult(state, expected, items, entries);
      if entries == [] then r == Err(EmptyBatch) && after == state
      else if verified.Err? then r == Err(verified.error) && after == state
      else if checked.Err? then r == Err(checked.error) && after == state
      else if lease != fence then r == Err(StaleLease) && after == state
      else Lawful(state, chain) && r.Err? ==>
        expected != ChainHead(chain) && !Contains(chain, entries) && after == state
        && r == Err(if exists e :: e in entries && e.sequence < |chain| then ConflictingDelivery else WrongHead)
  {
    CommitReason(fence, state, Admission(lease, expected, items, entries));
    if Lawful(state, chain) {
      PublishKeepsLaws(fence, state, chain, lease, expected, items, entries);
      VerifyBatchAccepts(state, expected, items, entries);
      BatchOnLawful(state, chain, expected, items, entries);
      HeadNamesChain(chain);
      FollowsIffExtends(chain, entries);
    }
  }
}
