/** Immutable publication and guarded head admission by one writer among others. */
module HostAdmission {
  import opened Wrappers
  import opened JournalTypes
  import opened JournalLaws
  import opened MemoryBackend
  import opened HostStore
  import opened HostProtocol
  import opened HostWriter

  /** Each reference leads to the object it is filed under. */
  ghost predicate RefsGood(store: Store, references: map<ContentId, StoredRef>) {
    forall m :: m in references ==> references[m].meaning == m && RefReadable(store, references[m])
  }

  lemma {:induction false} RefsKept(store: Store, next: Store, references: map<ContentId, StoredRef>)
    requires Keeps(store, next) && RefsGood(store, references)
    ensures RefsGood(next, references)
  {
    forall m | m in references
      ensures RefReadable(next, references[m])
    {
      RefKept(store, next, references[m]);
    }
  }

  /** What a writer knew of the store before other writers moved still holds after. */
  lemma {:induction false} KeptSince(before: seq<Store>, run: seq<Store>)
    requires IsRun(run) && before != [] && before <= run
    ensures Keeps(before[|before| - 1], run[|run| - 1])
  {
    RunKeeps(run, |before| - 1, |run| - 1);
  }

  /** The payload is published, or travels with the batch. */
  predicate Resolvable(store: Store, carried: set<ContentId>, payload: ContentId) {
    payload in carried || ObjectAt(RefOf(payload.meaning)) in store.leaves
  }

  /** No object was published between the two stores. */
  ghost predicate SameObjects(store: Store, next: Store) {
    forall p: ContentId :: Resolvable(next, {}, p) <==> Resolvable(store, {}, p)
  }

  /** Every object published between the two stores was carried by the batch. */
  ghost predicate OnlyCarried(store: Store, next: Store, carried: set<ContentId>) {
    && store.leaves.Keys <= next.leaves.Keys
    && forall p: ContentId :: Resolvable(next, {}, p) ==> Resolvable(store, carried, p)
  }

  /** The error names the first payload that is neither carried nor published. */
  ghost predicate FirstAbsent(store: Store, carried: set<ContentId>, payloads: seq<ContentId>, error: JournalError) {
    exists i :: 0 <= i < |payloads| && AbsentAt(store, carried, payloads, i)
      && error == MissingSemanticObject(payloads[i])
  }

  ghost predicate AbsentAt(store: Store, carried: set<ContentId>, payloads: seq<ContentId>, i: nat)
    requires i < |payloads|
  {
    !Resolvable(store, carried, payloads[i]) && forall j :: 0 <= j < i ==> Resolvable(store, carried, payloads[j])
  }

  /** The error names the first absent payload of the first entry that has one. */
  ghost predicate EntriesLack(store: Store, carried: set<ContentId>, entries: seq<Entry>, error: JournalError) {
    exists k :: 0 <= k < |entries| && AllResolvable(store, carried, entries[..k])
      && FirstAbsent(store, carried, entries[k].payloads, error)
  }

  /** The error names the first object that is not what it claims. */
  ghost predicate FirstUnsound(items: seq<JournalObject>, error: JournalError) {
    exists k :: 0 <= k < |items| && !ObjectOk(items[k]) && (forall j :: 0 <= j < k ==> ObjectOk(items[j]))
      && error == CorruptObject(items[k].id)
  }

  /** The same payloads are in reach of both stores. */
  ghost predicate SameReach(store: Store, next: Store, carried: set<ContentId>) {
    forall p: ContentId :: Resolvable(store, carried, p) <==> Resolvable(next, carried, p)
  }

  lemma {:induction false} LackMoves(store: Store, next: Store, carried: set<ContentId>, entries: seq<Entry>,
      error: JournalError)
    requires SameReach(store, next, carried) && EntriesLack(next, carried, entries, error)
    ensures EntriesLack(store, carried, entries, error)
  {
    var k :| 0 <= k < |entries| && AllResolvable(next, carried, entries[..k])
      && FirstAbsent(next, carried, entries[k].payloads, error);
    var payloads := entries[k].payloads;
    var i :| 0 <= i < |payloads| && AbsentAt(next, carried, payloads, i) && error == MissingSemanticObject(payloads[i]);
    assert AbsentAt(store, carried, payloads, i);
  }

  lemma {:induction false} AbsentMoves(store: Store, next: Store, carried: set<ContentId>, payloads: seq<ContentId>,
      error: JournalError)
    requires SameReach(store, next, carried) && FirstAbsent(next, carried, payloads, error)
    ensures FirstAbsent(store, carried, payloads, error)
  {
    var i :| 0 <= i < |payloads| && AbsentAt(next, carried, payloads, i) && error == MissingSemanticObject(payloads[i]);
    assert AbsentAt(store, carried, payloads, i);
  }

  ghost predicate AllResolvable(store: Store, carried: set<ContentId>, entries: seq<Entry>) {
    forall e, p :: e in entries && p in e.payloads ==> Resolvable(store, carried, p)
  }

  lemma {:induction false} OneMoreCarried(store: Store, mid: Store, next: Store, carried: set<ContentId>, datum: Datum)
    requires OnlyCarried(store, mid, carried)
    requires next == mid.(leaves := mid.leaves[ObjectAt(RefOf(datum)) := ObjectLeaf(datum)])
    ensures OnlyCarried(store, next, carried + {ContentId(datum)})
  {
    forall p: ContentId | Resolvable(next, {}, p)
      ensures Resolvable(store, carried + {ContentId(datum)}, p)
    {
      assert Resolvable(mid, {}, p) || p == ContentId(datum);
    }
  }

  /** The object loop: every object is verified and published before any entry. */
  method PutObjects(w: Writer, items: seq<JournalObject>) returns (r: Result<map<ContentId, StoredRef>, JournalError>)
    requires w.Valid()
    modifies w`run, w`store
    ensures w.Valid() && old(w.run) <= w.run
    ensures r.Ok? <==> forall o :: o in items ==> ObjectOk(o)
    ensures r.Ok? ==> r.value.Keys == (set o | o in items :: o.id) && RefsGood(w.store, r.value)
    ensures r.Err? ==> FirstUnsound(items, r.error)
    ensures w.alone ==> w.store.state == old(w.store.state)
    ensures w.alone && r.Ok? ==> OnlyCarried(old(w.store), w.store, r.value.Keys)
  {
    var references: map<ContentId, StoredRef> := map[];
    for k := 0 to |items|
      invariant w.Valid() && old(w.run) <= w.run
      invariant forall o :: o in items[..k] ==> ObjectOk(o)
      invariant references.Keys == (set o | o in items[..k] :: o.id) && RefsGood(w.store, references)
      invariant w.alone ==> w.store.state == old(w.store.state) && OnlyCarried(old(w.store), w.store, references.Keys)
    {
      var item := items[k];
      assert items[..k + 1] == items[..k] + [item];
      if !ObjectOk(item) {
        return Err(CorruptObject(item.id));
      }
      ghost var before, stored := w.run, w.store;
      var ref := RefOf(item.datum);
      var put := w.Put(ObjectAt(ref), ObjectLeaf(item.datum));
      if !put {
        return Err(ConflictingObject);
      }
      KeptSince(before, w.run);
      RefsKept(stored, w.store, references);
      if w.alone {
        OneMoreCarried(old(w.store), stored, w.store, references.Keys, item.datum);
      }
      references := references[ref.meaning := ref];
    }
    assert items[..|items|] == items;
    return Ok(references);
  }

  /** The references of one entry: from this batch, or found under their meaning. */
  method ResolvePayloads(w: Writer, payloads: seq<ContentId>, references: map<ContentId, StoredRef>)
    returns (r: Result<seq<StoredRef>, JournalError>)
    requires w.Valid() && RefsGood(w.store, references)
    modifies w`run, w`store
    ensures w.Valid() && old(w.run) <= w.run
    ensures r.Ok? ==> |r.value| == |payloads| && RefsGood(w.store, references)
    ensures r.Ok? ==> forall i :: 0 <= i < |payloads| ==>
      r.value[i].meaning == payloads[i] && RefReadable(w.store, r.value[i])
    ensures w.alone ==> w.store == old(w.store)
    ensures w.alone ==> (r.Ok? <==> forall p :: p in payloads ==> Resolvable(w.store, references.Keys, p))
    ensures w.alone && r.Err? ==> FirstAbsent(w.store, references.Keys, payloads, r.error)
  {
    var found: seq<StoredRef> := [];
    for k := 0 to |payloads|
      invariant w.Valid() && old(w.run) <= w.run
      invariant w.alone ==> w.store == old(w.store)
      invariant |found| == k && RefsGood(w.store, references)
      invariant forall i :: 0 <= i < k ==> found[i].meaning == payloads[i] && RefReadable(w.store, found[i])
      invariant w.alone ==> forall i :: 0 <= i < k ==> Resolvable(w.store, references.Keys, payloads[i])
    {
      var meaning := payloads[k];
      assert meaning in payloads;
      if meaning in references {
        found := found + [references[meaning]];
      } else {
        ghost var before, stored := w.run, w.store;
        w.Others();
        RunInv(w.run, |w.run| - 1);
        KeptSince(before, w.run);
        RefsKept(stored, w.store, references);
        FindObjectExact(w.store, meaning);
        var ref := FindObject(w.store, meaning);
        if ref.Err? {
          assert w.alone ==> AbsentAt(w.store, references.Keys, payloads, k);
          return Err(ref.error);
        }
        forall i | 0 <= i < k
          ensures RefReadable(w.store, found[i])
        {
          RefKept(stored, w.store, found[i]);
        }
        found := found + [ref.value];
      }
    }
    return Ok(found);
  }

  /** The leaves behind `location` are stored and continue the observed chain by the first `k` entries. */
  ghost predicate Published(store: Store, envelope: Envelope, entries: seq<Entry>, k: nat, location: Option<Location>)
    requires k <= |entries|
  {
    && Linked(store, location, envelope.namespace)
    && Walk(location) == Walk(envelope.headLocation) + entries[..k]
  }

  lemma {:induction false} PublishedStep(
      store: Store, envelope: Envelope, entries: seq<Entry>, k: nat, previous: Option<Location>, location: Location)
    requires k < |entries| && Published(store, envelope, entries, k, previous)
    requires EntryReadable(store, location, envelope.namespace)
    requires location.storage.leaf.physical.previous == previous && location.storage.leaf.physical.entry == entries[k]
    ensures Published(store, envelope, entries, k + 1, Some(location))
  {
    assert entries[..k + 1] == entries[..k] + [entries[k]];
    assert Walk(Some(location)) == Walk(previous) + [entries[k]];
  }

  /** One entry leaf: its payload references, the location before it, and its own location. */
  method PutEntry(
      w: Writer, envelope: Envelope, ghost entries: seq<Entry>, ghost k: nat,
      entry: Entry, previous: Option<Location>, references: map<ContentId, StoredRef>)
    returns (r: Result<Location, JournalError>)
    requires w.Valid() && RefsGood(w.store, references)
    requires k < |entries| && entry == entries[k] && entry.id == CanonicalId(entry)
    requires Published(w.store, envelope, entries, k, previous)
    modifies w`run, w`store
    ensures w.Valid() && old(w.run) <= w.run
    ensures RefsGood(w.store, references)
    ensures r.Ok? ==> Published(w.store, envelope, entries, k + 1, Some(r.value))
    ensures w.alone ==> w.store.state == old(w.store.state) && SameObjects(old(w.store), w.store)
    ensures w.alone ==> (r.Ok? <==> forall p :: p in entry.payloads ==> Resolvable(old(w.store), references.Keys, p))
    ensures w.alone && r.Err? ==> FirstAbsent(old(w.store), references.Keys, entry.payloads, r.error)
  {
    var payloads := ResolvePayloads(w, entry.payloads, references);
    KeptSince(old(w.run), w.run);
    RefsKept(old(w.store), w.store, references);
    if payloads.Err? {
      return Err(payloads.error);
    }
    ghost var before, stored := w.run, w.store;
    var leaf := EntryLeaf(PhysicalEntry(entry, previous, payloads.value));
    var location := Location(envelope.namespace, entry.sequence, entry.id, StorageId(leaf));
    var put := w.Put(EntryAt(location), leaf);
    KeptSince(before, w.run);
    RefsKept(stored, w.store, references);
    if !put {
      return Err(ConflictingObject);
    }
    LinkedKept(old(w.store), stored, previous, envelope.namespace);
    LinkedKept(stored, w.store, previous, envelope.namespace);
    RefSeqKept(stored, w.store, payloads.value);
    PublishedStep(w.store, envelope, entries, k, previous, location);
    return Ok(location);
  }

  lemma {:induction false} RefSeqKept(store: Store, next: Store, refs: seq<StoredRef>)
    requires Keeps(store, next) && forall i :: 0 <= i < |refs| ==> RefReadable(store, refs[i])
    ensures forall i :: 0 <= i < |refs| ==> RefReadable(next, refs[i])
  {
    forall i | 0 <= i < |refs|
      ensures RefReadable(next, refs[i])
    {
      RefKept(store, next, refs[i]);
    }
  }

  /** The entry loop: each leaf names the one before it, so the last location names them all. */
  method PutEntries(w: Writer, envelope: Envelope, entries: seq<Entry>, references: map<ContentId, StoredRef>)
    returns (r: Result<Option<Location>, JournalError>)
    requires w.Valid() && RefsGood(w.store, references)
    requires Linked(w.store, envelope.headLocation, envelope.namespace)
    requires forall e :: e in entries ==> e.id == CanonicalId(e)
    modifies w`run, w`store
    ensures w.Valid() && old(w.run) <= w.run
    ensures r.Ok? ==> Published(w.store, envelope, entries, |entries|, r.value)
    ensures w.alone ==> w.store.state == old(w.store.state)
    ensures w.alone ==> (r.Ok? <==> AllResolvable(old(w.store), references.Keys, entries))
    ensures w.alone && r.Err? ==> EntriesLack(old(w.store), references.Keys, entries, r.error)
  {
    var previous := envelope.headLocation;
    assert entries[..0] == [];
    for k := 0 to |entries|
      invariant w.Valid() && old(w.run) <= w.run
      invariant RefsGood(w.store, references)
      invariant Published(w.store, envelope, entries, k, previous)
      invariant w.alone ==> w.store.state == old(w.store.state) && SameObjects(old(w.store), w.store)
      invariant w.alone ==> AllResolvable(old(w.store), references.Keys, entries[..k])
    {
      assert entries[k] in entries;
      assert entries[..k + 1] == entries[..k] + [entries[k]];
      if w.alone {
        SameResolvable(old(w.store), w.store, references.Keys, entries[k].payloads);
      }
      ghost var stored := w.store;
      var location := PutEntry(w, envelope, entries, k, entries[k], previous, references);
      if location.Err? {
        if w.alone {
          SameReachOf(old(w.store), stored, references.Keys);
          AbsentMoves(old(w.store), stored, references.Keys, entries[k].payloads, location.error);
        }
        return Err(location.error);
      }
      previous := Some(location.value);
    }
    assert entries[..|entries|] == entries;
    return Ok(previous);
  }

  /** The last step of the run commits exactly this batch under this fence and head. */
  ghost predicate CommittedLast(run: seq<Store>, admission: Admission) {
    && |run| >= 2 && CommitsAt(run, |run| - 2)
    && FenceOf(run[|run| - 2].state) == admission.fence
    && ChainHead(ChainOf(run[|run| - 2].state)) == admission.expected
    && ChainOf(run[|run| - 1].state) == ChainOf(run[|run| - 2].state) + admission.entries
  }

  lemma {:induction false} CommittedByExchange(run: seq<Store>, envelope: Envelope, after: Envelope,
      admission: Admission)
    requires |run| >= 2 && admission.entries != []
    requires run[|run| - 2].state == Some(V2(envelope)) && run[|run| - 1].state == Some(V2(after))
    requires envelope.fence == after.fence == admission.fence
    requires ChainHead(EnvelopeChain(envelope)) == admission.expected
    requires EnvelopeChain(after) == EnvelopeChain(envelope) + admission.entries
    ensures CommittedLast(run, admission)
  {
    assert |EnvelopeChain(after)| > |EnvelopeChain(envelope)|;
  }

  /** That step is the writer's own. */
  ghost predicate JustCommitted(w: Writer, admission: Admission)
    reads w`run, w`lastExchange
  {
    |w.run| >= 2 && w.lastExchange == |w.run| - 2 && CommittedLast(w.run, admission)
  }

  /** What the last exchange replaced. */
  ghost predicate Replaced(run: seq<Store>, state: Option<StateLeaf>) {
    |run| >= 2 && run[|run| - 2].state == state
  }

  /** The batch is committed in the present state, under the live fence. */
  ghost predicate FoundCommitted(w: Writer, admission: Admission)
    reads w`store
  {
    && FenceOf(w.store.state) == admission.fence
    && ChainHead(ChainOf(w.store.state)) != admission.expected
    && Contains(ChainOf(w.store.state), admission.entries)
  }

  /** The verified batch makes a longer chain, and its leaves spell it out. */
  lemma {:induction false} BatchExtends(envelope: Envelope, admission: Admission, location: Option<Location>,
      after: Envelope)
    requires IsChain(EnvelopeChain(envelope)) && ChainHead(EnvelopeChain(envelope)) == admission.expected
    requires BatchVerified(admission)
    requires Walk(location) == Walk(envelope.headLocation) + admission.entries
    requires after == envelope.(head := Some(HeadOf(admission.entries[|admission.entries| - 1])),
      headLocation := location)
    ensures EnvelopeChain(after) == EnvelopeChain(envelope) + admission.entries
    ensures IsChain(EnvelopeChain(after)) && after.head == ChainHead(EnvelopeChain(after))
  {
    var chain, entries := EnvelopeChain(envelope), admission.entries;
    HeadNamesChain(chain);
    FollowsIffExtends(chain, entries);
    ConcatAssociates(PrefixChain(envelope.prefix), Walk(envelope.headLocation), entries);
    ChainHeadConcat(chain, entries);
  }

  lemma {:induction false} ConcatAssociates<T>(a: seq<T>, b: seq<T>, c: seq<T>)
    ensures a + (b + c) == (a + b) + c
  {
  }

  lemma {:induction false} ChainHeadConcat(chain: seq<Entry>, entries: seq<Entry>)
    requires entries != []
    ensures ChainHead(chain + entries) == Some(HeadOf(entries[|entries| - 1]))
  {
    assert (chain + entries)[|chain + entries| - 1] == entries[|entries| - 1];
  }

  /** The exchange that an admission asks for is an append, once its leaves are stored. */
  lemma {:induction false} AppendReady(
      run: seq<Store>, store: Store, envelope: Envelope, admission: Admission, location: Option<Location>,
      after: Envelope)
    requires IsRun(run) && store == run[|run| - 1] && Selected(run, Some(V2(envelope)))
    requires envelope.head == admission.expected && BatchVerified(admission)
    requires Published(store, envelope, admission.entries, |admission.entries|, location)
    requires after == envelope.(head := Some(HeadOf(admission.entries[|admission.entries| - 1])),
      headLocation := location)
    ensures Justified(store, Some(V2(envelope)), V2(after))
    ensures EnvelopeChain(after) == EnvelopeChain(envelope) + admission.entries
    ensures ChainHead(EnvelopeChain(envelope)) == admission.expected
  {
    SelectedGood(run, envelope);
    assert admission.entries[..|admission.entries|] == admission.entries;
    BatchExtends(envelope, admission, location, after);
    assert Append(store, envelope, after);
  }

  /** A batch that is verified and refers to its own last id has canonical entries. */
  lemma {:induction false} VerifiedCanonical(entries: seq<Entry>, first: nat, previous: Option<ContentId>)
    requires Follows(entries, first, previous)
    ensures forall e :: e in entries ==> e.id == CanonicalId(e)
  {
    if entries != [] {
      VerifiedCanonical(entries[1..], first + 1, Some(entries[0].id));
      assert forall e :: e in entries ==> e == entries[0] || e in entries[1..];
    }
  }

  /** Without interference this is exactly when an admission goes through: as new, or as found committed. */
  ghost predicate AdmissibleAlone(store: Store, workBound: nat, admission: Admission) {
    && store.state.Some? && store.state.value.V2?
    && var envelope := store.state.value.envelope;
    && envelope.fence == admission.fence
    && if envelope.head == admission.expected then Deliverable(store, admission)
       else |EnvelopeChain(envelope)| <= workBound && Contains(EnvelopeChain(envelope), admission.entries)
  }

  /** What is told to the writer of a refused admission: the first thing in its way. */
  ghost predicate RefusedFor(store: Store, workBound: nat, admission: Admission, error: JournalError) {
    if store.state.None? || store.state.value.V1? then error == WriteRefused
    else
      var envelope := store.state.value.envelope;
      if envelope.fence != admission.fence then error == StaleLease
      else if envelope.head != admission.expected then
        error == if |EnvelopeChain(envelope)| > workBound then WorkBoundExceeded else WrongHead
      else Undelivered(store, admission, error)
  }

  /**
   * `admit_with_action`: whatever the other writers do, it either commits exactly the batch with its
   * last step, entering the continuation once, or finds the batch committed under the live fence, or
   * fails without having moved the state leaf.
   */
  method AdmitWithAction(w: Writer, admission: Admission, guarded: bool) returns (r: Result<Guarded, JournalError>)
    requires w.Valid() && BatchVerified(admission)
    modifies w
    ensures w.Valid() && old(w.run) <= w.run
    ensures r.Ok? && r.value.disposition == CommittedActionInvoked ==>
      JustCommitted(w, admission) && r.value.head == HeadOf(admission.entries[|admission.entries| - 1])
    ensures r.Ok? && r.value.disposition == AlreadyCommittedActionNotInvoked ==>
      FoundCommitted(w, admission) && Some(r.value.head) == ChainHead(ChainOf(w.store.state))
    ensures w.alone && r.Ok? && r.value.disposition == CommittedActionInvoked ==> Replaced(w.run, old(w.store.state))
    ensures w.exchanges == old(w.exchanges) + if r.Ok? && r.value.disposition == CommittedActionInvoked then 1 else 0
    ensures w.entered == old(w.entered)
      + if r.Ok? && r.value.disposition == CommittedActionInvoked && guarded then 1 else 0
    ensures w.alone && !(r.Ok? && r.value.disposition == CommittedActionInvoked) ==> w.store.state == old(w.store.state)
    ensures w.alone ==> (r.Ok? <==> w.writable && AdmissibleAlone(old(w.store), w.workBound, admission))
    ensures w.alone && r.Ok? ==>
      (r.value.disposition == CommittedActionInvoked <==> old(w.store.state.value.envelope.head) == admission.expected)
    ensures !w.writable ==> r == Err(WriteRefused) && w.run == old(w.run)
    ensures w.alone && w.writable && r.Err? ==> RefusedFor(old(w.store), w.workBound, admission, r.error)
  {
    if !w.writable {
      return Err(WriteRefused);
    }
    var observed := w.StateBytes();
    if observed.None? || observed.value.V1? {
      return Err(WriteRefused);
    }
    var envelope := observed.value.envelope;
    if envelope.fence != admission.fence {
      return Err(StaleLease);
    }
    if envelope.head != admission.expected {
      r := Redeliver(w, envelope, admission);
    } else {
      r := PublishAndCommit(w, envelope, admission, guarded);
    }
  }

  lemma {:induction false} ExactIffContains(chain: seq<Entry>, batch: seq<Entry>)
    ensures ExactlyCommitted(EntryMap(chain), batch) <==> Contains(chain, batch)
    ensures Contains(chain, batch) ==> chain != []
  {
    if Contains(chain, batch) {
      assert batch[0] in batch;
    }
  }

  /** The batch is in the verified committed chain; physical orphan leaves prove nothing. */
  method VerifyHistorical(w: Writer, envelope: Envelope, entries: seq<Entry>) returns (r: Result<(), JournalError>)
    requires w.Valid() && w.store.state == Some(V2(envelope))
    ensures r.Ok? <==> |EnvelopeChain(envelope)| <= w.workBound && Contains(EnvelopeChain(envelope), entries)
    ensures r.Err? ==> r.error == if |EnvelopeChain(envelope)| > w.workBound then WorkBoundExceeded else WrongHead
  {
    assert w.run[|w.run| - 1].state == Some(V2(envelope));
    SelectedGood(w.run, envelope);
    hide ReadRefused, Linked, PrefixReadable, EnvelopeGood, EnvelopeChain, Serves, IsRun, Snapshot;
    var state := ReadV2(w.store, envelope, w.workBound);
    if state.Err? {
      return Err(state.error);
    }
    SnapshotIff(state.value, EnvelopeChain(envelope));
    ExactIffContains(EnvelopeChain(envelope), entries);
    return if ExactlyCommitted(state.value.entries, entries) then Ok(()) else Err(WrongHead);
  }

  /** The stale-head branch: confirm the same envelope atomically, and never replay the continuation. */
  method Redeliver(w: Writer, envelope: Envelope, admission: Admission) returns (r: Result<Guarded, JournalError>)
    requires w.Valid() && w.store.state == Some(V2(envelope))
    requires envelope.fence == admission.fence && envelope.head != admission.expected
    modifies w`run, w`store
    ensures w.Valid() && old(w.run) <= w.run
    ensures r.Ok? ==>
      (&& r.value.disposition == AlreadyCommittedActionNotInvoked && FoundCommitted(w, admission)
       && Some(r.value.head) == ChainHead(ChainOf(w.store.state)))
    ensures w.alone ==> w.store == old(w.store)
    ensures w.alone ==>
      (r.Ok? <==> |EnvelopeChain(envelope)| <= w.workBound && Contains(EnvelopeChain(envelope), admission.entries))
    ensures r.Err? ==> r.error == if |EnvelopeChain(envelope)| > w.workBound then WorkBoundExceeded else WrongHead
  {
    RunInv(w.run, |w.run| - 1);
    ExactIffContains(EnvelopeChain(envelope), admission.entries);
    var historical := VerifyHistorical(w, envelope, admission.entries);
    if historical.Err? {
      return Err(historical.error);
    }
    var confirmed := w.ConfirmState(Some(V2(envelope)));
    if !confirmed || envelope.head.None? {
      return Err(WrongHead);
    }
    return Ok(Guarded(envelope.head.value, AlreadyCommittedActionNotInvoked));
  }

  /** Objects, then entries: everything the new head will need, before the head moves. */
  method PublishLeaves(w: Writer, envelope: Envelope, admission: Admission)
    returns (r: Result<Option<Location>, JournalError>)
    requires w.Valid() && BatchVerified(admission)
    requires Selected(w.run, Some(V2(envelope)))
    modifies w`run, w`store
    ensures w.Valid() && old(w.run) <= w.run
    ensures r.Ok? ==> Published(w.store, envelope, admission.entries, |admission.entries|, r.value)
    ensures w.alone ==> w.store.state == old(w.store.state)
    ensures w.alone ==> (r.Ok? <==> Deliverable(old(w.store), admission))
    ensures w.alone && r.Err? ==> Undelivered(old(w.store), admission, r.error)
  {
    var references := PutObjects(w, admission.objects);
    if references.Err? {
      return Err(references.error);
    }
    if w.alone {
      DeliverableAfter(old(w.store), w.store, admission, references.value.Keys);
    }
    SelectedLonger(old(w.run), w.run, Some(V2(envelope)));
    ghost var stored := w.store;
    r := PublishEntries(w, envelope, admission, references.value);
    if w.alone && r.Err? {
      LackMoves(old(w.store), stored, references.value.Keys, admission.entries, r.error);
    }
  }

  method PublishEntries(w: Writer, envelope: Envelope, admission: Admission, references: map<ContentId, StoredRef>)
    returns (r: Result<Option<Location>, JournalError>)
    requires w.Valid() && BatchVerified(admission) && RefsGood(w.store, references)
    requires Selected(w.run, Some(V2(envelope)))
    modifies w`run, w`store
    ensures w.Valid() && old(w.run) <= w.run
    ensures r.Ok? ==> Published(w.store, envelope, admission.entries, |admission.entries|, r.value)
    ensures w.alone ==> w.store.state == old(w.store.state)
    ensures w.alone ==> (r.Ok? <==> AllResolvable(old(w.store), references.Keys, admission.entries))
    ensures w.alone && r.Err? ==> EntriesLack(old(w.store), references.Keys, admission.entries, r.error)
  {
    SelectedGood(w.run, envelope);
    VerifiedCanonical(admission.entries, FirstSequence(admission.expected), ExpectedId(admission.expected));
    r := PutEntries(w, envelope, admission.entries, references);
  }

  /** The objects are sound and every payload travels with the batch or is published already. */
  ghost predicate Deliverable(store: Store, admission: Admission) {
    && (forall o :: o in admission.objects ==> ObjectOk(o))
    && AllResolvable(store, set o | o in admission.objects :: o.id, admission.entries)
  }

  /** The first unsound object, or, when all are sound, the first payload out of reach. */
  ghost predicate Undelivered(store: Store, admission: Admission, error: JournalError) {
    if forall o :: o in admission.objects ==> ObjectOk(o)
    then EntriesLack(store, set o | o in admission.objects :: o.id, admission.entries, error)
    else FirstUnsound(admission.objects, error)
  }

  lemma {:induction false} DeliverableAfter(store: Store, next: Store, admission: Admission, carried: set<ContentId>)
    requires forall o :: o in admission.objects ==> ObjectOk(o)
    requires carried == (set o | o in admission.objects :: o.id) && OnlyCarried(store, next, carried)
    ensures Deliverable(store, admission) <==> AllResolvable(next, carried, admission.entries)
    ensures SameReach(store, next, carried)
  {
    CarriedResolvable(store, next, carried, admission.entries);
  }

  lemma {:induction false} SameResolvable(store: Store, next: Store, carried: set<ContentId>, payloads: seq<ContentId>)
    requires SameObjects(store, next)
    ensures (forall p :: p in payloads ==> Resolvable(store, carried, p)) <==>
      (forall p :: p in payloads ==> Resolvable(next, carried, p))
  {
    forall p | p in payloads
      ensures Resolvable(store, carried, p) <==> Resolvable(next, carried, p)
    {
      assert Resolvable(next, {}, p) <==> Resolvable(store, {}, p);
    }
  }

  lemma {:induction false} SameReachOf(store: Store, next: Store, carried: set<ContentId>)
    requires SameObjects(store, next)
    ensures SameReach(store, next, carried)
  {
    forall p: ContentId
      ensures Resolvable(store, carried, p) <==> Resolvable(next, carried, p)
    {
      assert Resolvable(next, {}, p) <==> Resolvable(store, {}, p);
    }
  }

  lemma {:induction false} CarriedResolvable(store: Store, next: Store, carried: set<ContentId>, entries: seq<Entry>)
    requires OnlyCarried(store, next, carried)
    ensures AllResolvable(store, carried, entries) <==> AllResolvable(next, carried, entries)
    ensures SameReach(store, next, carried)
  {
    forall p: ContentId
      ensures Resolvable(store, carried, p) <==> Resolvable(next, carried, p)
    {
      assert Resolvable(next, {}, p) ==> Resolvable(store, carried, p);
      assert ObjectAt(RefOf(p.meaning)) in store.leaves ==> ObjectAt(RefOf(p.meaning)) in store.leaves.Keys;
    }
  }

  /** One exchange of the whole envelope. */
  method ExchangeHead(w: Writer, envelope: Envelope, admission: Admission, after: Envelope) returns (exchanged: bool)
    requires w.Valid() && admission.entries != [] && Selected(w.run, Some(V2(envelope)))
    requires envelope.fence == after.fence == admission.fence
    requires Justified(w.store, Some(V2(envelope)), V2(after))
    requires ChainHead(EnvelopeChain(envelope)) == admission.expected
    requires EnvelopeChain(after) == EnvelopeChain(envelope) + admission.entries
    modifies w`run, w`store, w`exchanges, w`lastExchange
    ensures w.Valid() && old(w.run) <= w.run
    ensures exchanged ==> JustCommitted(w, admission) && Replaced(w.run, Some(V2(envelope)))
    ensures w.exchanges == old(w.exchanges) + if exchanged then 1 else 0
    ensures w.alone ==> exchanged == (old(w.store.state) == Some(V2(envelope)))
    ensures w.alone && !exchanged ==> w.store == old(w.store)
    ensures !exchanged ==> w.store.state != Some(V2(envelope))
  {
    hide Justified, CommittedLast, ChainOf, EnvelopeChain, IsRun;
    exchanged := w.ExchangeState(Some(V2(envelope)), after);
    if exchanged {
      CommittedByExchange(w.run, envelope, after, admission);
    }
  }

  /** The continuation is entered only behind a successful exchange. */
  method CommitHead(w: Writer, envelope: Envelope, admission: Admission, after: Envelope, guarded: bool)
    returns (r: Result<Guarded, JournalError>)
    requires w.Valid() && admission.entries != [] && Selected(w.run, Some(V2(envelope)))
    requires envelope.fence == after.fence == admission.fence
    requires Justified(w.store, Some(V2(envelope)), V2(after))
    requires ChainHead(EnvelopeChain(envelope)) == admission.expected
    requires EnvelopeChain(after) == EnvelopeChain(envelope) + admission.entries
    modifies w
    ensures w.Valid() && old(w.run) <= w.run
    ensures r.Ok? ==> JustCommitted(w, admission) && Replaced(w.run, Some(V2(envelope)))
    ensures r.Ok? ==> r.value == Guarded(HeadOf(admission.entries[|admission.entries| - 1]), CommittedActionInvoked)
    ensures w.exchanges == old(w.exchanges) + if r.Ok? then 1 else 0
    ensures w.entered == old(w.entered) + if r.Ok? && guarded then 1 else 0
    ensures w.alone && r.Err? ==> w.store.state == old(w.store.state)
    ensures w.alone ==> (r.Ok? <==> old(w.store.state) == Some(V2(envelope)))
    ensures r.Err? ==> r == Err(WrongHead) && w.store.state != Some(V2(envelope))
  {
    hide Justified, CommittedLast, ChainOf, EnvelopeChain, IsRun, Replaced;
    var exchanged := ExchangeHead(w, envelope, admission, after);
    if !exchanged {
      return Err(WrongHead);
    }
    w.entered := w.entered + if guarded then 1 else 0;
    return Ok(Guarded(HeadOf(admission.entries[|admission.entries| - 1]), CommittedActionInvoked));
  }

  /** The live-head branch. */
  method PublishAndCommit(w: Writer, envelope: Envelope, admission: Admission, guarded: bool)
    returns (r: Result<Guarded, JournalError>)
    requires w.Valid() && BatchVerified(admission)
    requires w.store.state == Some(V2(envelope))
    requires envelope.fence == admission.fence && envelope.head == admission.expected
    modifies w
    ensures w.Valid() && old(w.run) <= w.run
    ensures r.Ok? ==> JustCommitted(w, admission) && Replaced(w.run, Some(V2(envelope)))
    ensures r.Ok? ==> r.value == Guarded(HeadOf(admission.entries[|admission.entries| - 1]), CommittedActionInvoked)
    ensures w.exchanges == old(w.exchanges) + if r.Ok? then 1 else 0
    ensures w.entered == old(w.entered) + if r.Ok? && guarded then 1 else 0
    ensures w.alone && r.Err? ==> w.store.state == old(w.store.state)
    ensures w.alone ==> (r.Ok? <==> Deliverable(old(w.store), admission))
    ensures w.alone && r.Err? ==> Undelivered(old(w.store), admission, r.error)
  {
    assert w.run[|w.run| - 1].state == Some(V2(envelope));
    var published := PublishLeaves(w, envelope, admission);
    if published.Err? {
      return Err(published.error);
    }
    SelectedLonger(old(w.run), w.run, Some(V2(envelope)));
    var newHead := HeadOf(admission.entries[|admission.entries| - 1]);
    var after := envelope.(head := Some(newHead), headLocation := published.value);
    AppendReady(w.run, w.store, envelope, admission, published.value, after);
    r := CommitHead(w, envelope, admission, after, guarded);
  }

  /**
   * A continuation is entered only by a call that ends a run with its own exchange of the batch. Of two such calls, by
   * whichever writers, one run goes on from the other; so over a whole run no batch enters a continuation twice.
   */
  lemma {:induction false} ContinuationOnce(first: seq<Store>, second: seq<Store>, a: Admission, b: Admission)
    requires IsRun(second) && first <= second && CommittedLast(first, a) && CommittedLast(second, b)
    ensures a.entries == b.entries ==> first == second
  {
    hide CommittedLast, CommitsAt, ChainOf, IsRun;
    var i := CommittedWithin(first, second, a);
    var j := CommittedWithin(second, second, b);
    if |first| == |second| {
      assert first == second[..|first|] == second;
    } else if a.entries == b.entries {
      CommitsOwnBatch(second, i, a.entries);
      CommitsOwnBatch(second, j, b.entries);
      BatchCommitsOnce(second, i, j);
    }
  }

  /** A run that goes on still holds the step that committed the batch. */
  lemma {:induction false} CommittedWithin(run: seq<Store>, longer: seq<Store>, a: Admission) returns (i: nat)
    requires run <= longer && CommittedLast(run, a)
    ensures |run| >= 2 && i == |run| - 2 && i + 1 < |longer| && CommitsAt(longer, i)
    ensures ChainOf(longer[i + 1].state) == ChainOf(longer[i].state) + a.entries
  {
    hide ChainOf;
    i := |run| - 2;
    assert run[i] == longer[i] && run[i + 1] == longer[i + 1];
  }

  lemma {:induction false} CommitsOwnBatch(run: seq<Store>, i: nat, batch: seq<Entry>)
    requires IsRun(run) && i + 1 < |run| && CommitsAt(run, i)
    requires ChainOf(run[i + 1].state) == ChainOf(run[i].state) + batch
    ensures BatchAt(run, i) == batch
  {
    CommitAppends(run, i);
    var chain := ChainOf(run[i].state);
    assert (chain + batch)[|chain|..] == batch;
  }
}
