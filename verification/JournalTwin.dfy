/**
 * The host backend and the in-memory backend run one after the other on the same operations, and both
 * against one abstract journal: a fence and a chain.
 */
module JournalTwin {
  import opened Wrappers
  import opened JournalTypes
  import opened JournalLaws
  import opened MemoryBackend
  import opened HostStore
  import opened HostProtocol
  import opened HostWriter
  import opened HostAdmission

  // ---------------------------------------------------------------------------------------------
  // The abstract journal

  datatype Journal = Journal(fence: nat, chain: seq<Entry>)

  datatype Op = TakeLease | Offer(admission: Admission)

  datatype Outcome = Leased(fence: nat) | Admitted(guarded: Guarded) | Refused

  /** Every payload travels with the batch or with a committed entry. */
  ghost predicate Travels(chain: seq<Entry>, admission: Admission) {
    forall e, p :: e in admission.entries && p in e.payloads ==>
      p in PayloadIds(chain) || exists o :: o in admission.objects && o.id == p
  }

  /** The batch is sound in itself and continues the head it expects. */
  ghost predicate Sound(admission: Admission) {
    && BatchVerified(admission) && (forall o :: o in admission.objects ==> ObjectOk(o))
  }

  ghost function After(j: Journal, op: Op): Journal {
    match op
    case TakeLease => if j.fence == MAX_FENCE then j else j.(fence := j.fence + 1)
    case Offer(a) =>
      if Sound(a) && Travels(j.chain, a) && a.fence == j.fence && a.expected == ChainHead(j.chain)
      then j.(chain := j.chain + a.entries) else j
  }

  ghost function OutcomeOf(j: Journal, op: Op): Outcome {
    match op
    case TakeLease => if j.fence == MAX_FENCE then Refused else Leased(j.fence + 1)
    case Offer(a) =>
      if !(Sound(a) && Travels(j.chain, a) && a.fence == j.fence) then Refused
      else if a.expected == ChainHead(j.chain) then
        Admitted(Guarded(HeadOf(a.entries[|a.entries| - 1]), CommittedActionInvoked))
      else if Contains(j.chain, a.entries) && j.chain != [] then
        Admitted(Guarded(HeadOf(j.chain[|j.chain| - 1]), AlreadyCommittedActionNotInvoked))
      else Refused
  }

  function Reported(r: Result<Guarded, JournalError>): Outcome {
    if r.Ok? then Admitted(r.value) else Refused
  }

  function ReportedLease(r: Result<nat, JournalError>): Outcome {
    if r.Ok? then Leased(r.value) else Refused
  }

  // ---------------------------------------------------------------------------------------------
  // The memory backend

  /** A payload that travels is known to a lawful state, whatever else is stored in it. */
  lemma {:induction false} TravellersKnown(state: StoredState, chain: seq<Entry>, a: Admission)
    requires Lawful(state, chain) && Travels(chain, a)
    ensures PayloadsAt(state, a.objects, a.entries)
  {
    forall e, p | e in a.entries && p in e.payloads && p in PayloadIds(chain)
      ensures p in state.objects
    {
      PayloadIdsMember(chain, p);
    }
  }

  /** The memory backend is the abstract journal, on batches whose payloads travel. */
  lemma {:induction false} MemoryRefines(fence: nat, state: StoredState, chain: seq<Entry>, a: Admission)
    requires Lawful(state, chain) && Travels(chain, a)
    ensures var (r, after) := PublishResult(fence, state, a.fence, a.expected, a.objects, a.entries);
      var j := Journal(fence, chain);
      && Reported(r) == OutcomeOf(j, Offer(a))
      && Lawful(after, After(j, Offer(a)).chain)
  {
    PublishKeepsLaws(fence, state, chain, a.fence, a.expected, a.objects, a.entries);
    AcceptsMeans(fence, state, chain, a);
  }

  lemma {:induction false} AcceptsMeans(fence: nat, state: StoredState, chain: seq<Entry>, a: Admission)
    requires Lawful(state, chain) && Travels(chain, a)
    ensures AcceptsNew(fence, state, chain, a.fence, a.expected, a.objects, a.entries) <==>
      Sound(a) && a.fence == fence && a.expected == ChainHead(chain)
    ensures AcceptsAgain(fence, state, chain, a.fence, a.expected, a.objects, a.entries) <==>
      Sound(a) && a.fence == fence && a.expected != ChainHead(chain) && Contains(chain, a.entries)
  {
    TravellersKnown(state, chain, a);
    FollowsIffExtends(chain, a.entries);
    HeadNamesChain(chain);
  }

  // ---------------------------------------------------------------------------------------------
  // The host backend

  ghost function Carried(a: Admission): set<ContentId> {
    set o | o in a.objects :: o.id
  }

  /** Exactly when a publication without interference is accepted. */
  ghost predicate HostAccepts(store: Store, workBound: nat, a: Admission) {
    && Sound(a) && ReadableV2(store, workBound)
    && FenceOf(store.state) == a.fence && Travels(ChainOf(store.state), a)
    && if a.expected == ChainHead(ChainOf(store.state)) then AllResolvable(store, Carried(a), a.entries)
       else Contains(ChainOf(store.state), a.entries)
  }

  /** `verify_batch` on what the host reads back. */
  lemma {:induction false} HostBatchOk(state: StoredState, chain: seq<Entry>, a: Admission)
    requires Snapshot(state, chain) && a.entries != []
    ensures BatchOk(state, a.expected, a.objects, a.entries) ==> Sound(a) && Travels(chain, a)
    ensures Sound(a) && Travels(chain, a) && (a.expected == ChainHead(chain) || Contains(chain, a.entries)) ==>
      BatchOk(state, a.expected, a.objects, a.entries)
  {
    BatchOnLawful(state, chain, a.expected, a.objects, a.entries);
    if Travels(chain, a) {
      TravellersKnown(state, chain, a);
    }
  }

  lemma {:induction false} HostAcceptsIff(store: Store, workBound: nat, state: StoredState, a: Admission)
    requires Inv(store) && ReadableV2(store, workBound) && Snapshot(state, ChainOf(store.state)) && a.entries != []
    ensures HostAccepts(store, workBound, a) <==>
      BatchOk(state, a.expected, a.objects, a.entries) && AdmissibleAlone(store, workBound, a)
  {
    HostBatchOk(state, ChainOf(store.state), a);
  }

  ghost predicate HeadNamed(store: Store) {
    store.state.Some? && store.state.value.V2? ==> store.state.value.envelope.head == ChainHead(ChainOf(store.state))
  }

  lemma {:induction false} HeadIsNamed(run: seq<Store>)
    requires IsRun(run)
    ensures HeadNamed(run[|run| - 1])
  {
    RunChain(run, |run| - 1);
  }

  /** What passing both checks on a complete reading means. */
  lemma {:induction false} VerifiedMeans(store: Store, workBound: nat, state: StoredState, a: Admission)
    requires Inv(store) && a.entries != [] && (ReadableV2(store, workBound) ==> Snapshot(state, ChainOf(store.state)))
    ensures VerifyBatchResult(state, a.expected, a.objects, a.entries).Ok? ==> BatchVerified(a)
    ensures ReadableV2(store, workBound) ==> VerifyStateResult(state).Ok?
    ensures ReadableV2(store, workBound) ==>
      (VerifyBatchResult(state, a.expected, a.objects, a.entries).Ok? && AdmissibleAlone(store, workBound, a)
       <==> HostAccepts(store, workBound, a))
  {
    VerifyBatchAccepts(state, a.expected, a.objects, a.entries);
    if ReadableV2(store, workBound) {
      LawfulVerifies(state, ChainOf(store.state));
      HostAcceptsIff(store, workBound, state, a);
    }
  }

  lemma {:induction false} AcceptsReadable(store: Store, workBound: nat, a: Admission)
    ensures HostAccepts(store, workBound, a) ==> ReadableV2(store, workBound) && a.entries != []
    ensures Inv(store) && ReadableV2(store, workBound) ==>
      StateGood(store, store.state) && |ChainOf(store.state)| <= workBound
    ensures AdmissibleAlone(store, workBound, a) && |ChainOf(store.state)| <= workBound ==> ReadableV2(store, workBound)
    ensures AdmissibleAlone(store, workBound, a) ==> store.state.Some? && store.state.value.V2?
  {
  }

  /** `verified_admission` over the host: read, verify what was read, verify the batch against it. */
  method VerifiedAdmission(w: Writer, a: Admission) returns (r: Result<(), JournalError>)
    requires w.Valid()
    modifies w`run, w`store
    ensures w.Valid() && old(w.run) <= w.run && (w.alone ==> w.store == old(w.store))
    ensures r.Ok? ==> BatchVerified(a)
    ensures r.Ok? && AdmissibleAlone(w.store, w.workBound, a) <==> HostAccepts(w.store, w.workBound, a)
    ensures a.entries == [] ==> r == Err(EmptyBatch)
    ensures a.entries != [] && |ChainOf(w.store.state)| > w.workBound ==> r == Err(WorkBoundExceeded)
    ensures a.entries != [] && |ChainOf(w.store.state)| <= w.workBound ==>
      forall state :: Snapshot(state, ChainOf(w.store.state)) ==>
        r == VerifyBatchResult(state, a.expected, a.objects, a.entries)
  {
    hide HostAccepts, AdmissibleAlone, ReadableV2, StateGood, ChainOf, Snapshot, VerifyStateResult, VerifyBatchResult;
    AcceptsReadable(w.store, w.workBound, a);
    if a.entries == [] {
      return Err(EmptyBatch);
    }
    var observed := w.StateBytes();
    RunInv(w.run, |w.run| - 1);
    AcceptsReadable(w.store, w.workBound, a);
    var before := ReadStore(w.store, observed, w.workBound);
    if before.Err? {
      return Err(before.error);
    }
    VerifiedMeans(w.store, w.workBound, before.value, a);
    SnapshotVerifies(before.value, ChainOf(w.store.state));
    var verified := VerifyState(before.value);
    if verified.Err? {
      return Err(verified.error);
    }
    r := VerifyBatch(before.value, a.expected, a.objects, a.entries);
  }

  /** `publish_then` over the host: read and verify first, then admit. */
  method HostPublish(w: Writer, a: Admission, guarded: bool) returns (r: Result<Guarded, JournalError>)
    requires w.Valid()
    modifies w
    ensures w.Valid() && old(w.run) <= w.run
    ensures r.Ok? && r.value.disposition == CommittedActionInvoked ==>
      a.entries != [] && JustCommitted(w, a) && r.value.head == HeadOf(a.entries[|a.entries| - 1])
    ensures r.Ok? && r.value.disposition == AlreadyCommittedActionNotInvoked ==>
      FoundCommitted(w, a) && Some(r.value.head) == ChainHead(ChainOf(w.store.state))
    ensures w.alone && r.Ok? && r.value.disposition == CommittedActionInvoked ==> Replaced(w.run, old(w.store.state))
    ensures w.exchanges == old(w.exchanges) + if r.Ok? && r.value.disposition == CommittedActionInvoked then 1 else 0
    ensures w.entered == old(w.entered)
      + if r.Ok? && r.value.disposition == CommittedActionInvoked && guarded then 1 else 0
    ensures w.alone && !(r.Ok? && r.value.disposition == CommittedActionInvoked) ==> w.store.state == old(w.store.state)
    ensures w.alone && w.writable ==> (r.Ok? <==> HostAccepts(old(w.store), w.workBound, a))
    ensures !w.writable ==> r.Err?
    ensures a.entries == [] ==> r == Err(EmptyBatch)
    ensures w.alone && r.Ok? ==>
      (r.value.disposition == CommittedActionInvoked <==> ChainHead(ChainOf(old(w.store).state)) == a.expected)
  {
    HeadIsNamed(w.run);
    var verified := VerifiedAdmission(w, a);
    if verified.Err? {
      return Err(verified.error);
    }
    r := AdmitWithAction(w, a, guarded);
  }

  /** The objects a chain refers to are published. */
  ghost predicate AllPublished(store: Store, chain: seq<Entry>) {
    AllResolvable(store, {}, chain)
  }

  lemma {:induction false} LinkedPublished(store: Store, location: Option<Location>, namespace: nat)
    requires Linked(store, location, namespace)
    ensures AllPublished(store, Walk(location))
    decreases location
  {
    if location.Some? {
      var physical := location.value.storage.leaf.physical;
      LinkedPublished(store, physical.previous, namespace);
      forall p | p in physical.entry.payloads
        ensures Resolvable(store, {}, p)
      {
        var i :| 0 <= i < |physical.entry.payloads| && physical.entry.payloads[i] == p;
        assert RefReadable(store, physical.payloads[i]);
      }
    }
  }

  /** The v1 prefix, if any, has its payloads published too; the walk behind a good envelope always has. */
  ghost predicate PrefixPublished(store: Store)
    requires store.state.Some? && store.state.value.V2?
  {
    AllPublished(store, PrefixChain(store.state.value.envelope.prefix))
  }

  lemma {:induction false} CommittedPublished(store: Store)
    requires Inv(store) && store.state.Some? && store.state.value.V2? && PrefixPublished(store)
    ensures AllPublished(store, ChainOf(store.state))
  {
    var envelope := store.state.value.envelope;
    LinkedPublished(store, envelope.headLocation, envelope.namespace);
    var prefix, walk := PrefixChain(envelope.prefix), Walk(envelope.headLocation);
    assert forall e :: e in prefix + walk ==> e in prefix || e in walk;
  }

  lemma {:induction false} TravellersResolve(store: Store, a: Admission)
    requires Inv(store) && store.state.Some? && store.state.value.V2? && PrefixPublished(store)
    requires Travels(ChainOf(store.state), a)
    ensures AllResolvable(store, Carried(a), a.entries)
  {
    CommittedPublished(store);
    forall e, p | e in a.entries && p in e.payloads
      ensures Resolvable(store, Carried(a), p)
    {
      PayloadIdsMember(ChainOf(store.state), p);
      if p in PayloadIds(ChainOf(store.state)) {
        assert Resolvable(store, {}, p);
      }
    }
  }

  // ---------------------------------------------------------------------------------------------
  // Both are the abstract journal

  /** A writer without interference whose store says what `j` says. */
  ghost predicate HostIs(w: Writer, j: Journal)
    reads w
  {
    && w.Valid() && w.alone && w.writable && StoreIs(w.store, w.workBound, j)
  }

  ghost predicate StoreIs(store: Store, workBound: nat, j: Journal) {
    && ReadableV2(store, workBound) && PrefixPublished(store)
    && ChainOf(store.state) == j.chain && FenceOf(store.state) == j.fence
  }

  ghost predicate MemoryIs(m: Memory, j: Journal)
    reads m
  {
    m.fence == j.fence && Lawful(m.state, j.chain)
  }

  /** The operation's payloads travel and the result can still be read back within the bound. */
  ghost predicate Fits(j: Journal, op: Op, workBound: nat) {
    (op.Offer? ==> Travels(j.chain, op.admission)) && |After(j, op).chain| <= workBound
  }

  /** The steps of a run keep the prefix and what is published. */
  lemma {:induction false} PrefixStays(run: seq<Store>, i: nat, j: nat)
    requires IsRun(run) && i <= j < |run|
    requires run[i].state.Some? && run[i].state.value.V2? && PrefixPublished(run[i])
    ensures run[j].state.Some? && run[j].state.value.V2? && PrefixPublished(run[j])
  {
    SelectedOnce(run, i, j);
    RunKeeps(run, i, j);
    forall e, p | e in PrefixChain(run[i].state.value.envelope.prefix) && p in e.payloads
      ensures Resolvable(run[j], {}, p)
    {
      assert Resolvable(run[i], {}, p);
      assert ObjectAt(RefOf(p.meaning)) in run[i].leaves.Keys;
    }
  }

  method HostOffer(w: Writer, a: Admission, ghost j: Journal) returns (o: Outcome)
    requires HostIs(w, j) && Fits(j, Offer(a), w.workBound)
    modifies w
    ensures HostIs(w, After(j, Offer(a))) && o == OutcomeOf(j, Offer(a))
    ensures w.entered == old(w.entered) + if Entered(o) then 1 else 0
  {
    ghost var before := |w.run| - 1;
    OfferAccepted(w.run, w.workBound, a, j);
    var r := HostPublish(w, a, true);
    HostOfferMeans(j, a, r);
    o := Reported(r);
    assert w.run[before] == old(w.store);
    OfferLeaves(w.run, before, w.workBound, a, j, Entered(o));
  }

  lemma {:induction false} OfferLeaves(run: seq<Store>, before: nat, workBound: nat, a: Admission, j: Journal,
      committed: bool)
    requires IsRun(run) && before < |run| && StoreIs(run[before], workBound, j)
    requires Fits(j, Offer(a), workBound)
    requires committed <==> Entered(OutcomeOf(j, Offer(a)))
    requires if committed then CommittedLast(run, a) && Replaced(run, run[before].state)
      else run[|run| - 1].state == run[before].state
    ensures StoreIs(run[|run| - 1], workBound, After(j, Offer(a)))
  {
    PrefixStays(run, before, |run| - 1);
  }

  lemma {:induction false} OfferAccepted(run: seq<Store>, workBound: nat, a: Admission, j: Journal)
    requires IsRun(run) && StoreIs(run[|run| - 1], workBound, j) && Travels(j.chain, a)
    ensures IsChain(j.chain)
    ensures HostAccepts(run[|run| - 1], workBound, a) <==>
      Sound(a) && a.fence == j.fence && (a.expected == ChainHead(j.chain) || Contains(j.chain, a.entries))
  {
    RunInv(run, |run| - 1);
    RunChain(run, |run| - 1);
    TravellersResolve(run[|run| - 1], a);
  }

  /** What an accepted publication is, in terms of the abstract journal. */
  lemma {:induction false} HostOfferMeans(j: Journal, a: Admission, r: Result<Guarded, JournalError>)
    requires IsChain(j.chain) && Travels(j.chain, a)
    requires r.Ok? <==>
      Sound(a) && a.fence == j.fence && (a.expected == ChainHead(j.chain) || Contains(j.chain, a.entries))
    requires r.Ok? ==> (r.value.disposition == CommittedActionInvoked <==> a.expected == ChainHead(j.chain))
    requires r.Ok? && a.expected == ChainHead(j.chain) ==>
      a.entries != [] && r.value.head == HeadOf(a.entries[|a.entries| - 1])
    requires r.Ok? && a.expected != ChainHead(j.chain) ==> Some(r.value.head) == ChainHead(j.chain)
    ensures Reported(r) == OutcomeOf(j, Offer(a))
  {
    if Contains(j.chain, a.entries) {
      assert a.entries[0] in a.entries;
    }
  }

  predicate Entered(o: Outcome) {
    o.Admitted? && o.guarded.disposition == CommittedActionInvoked
  }

  method HostLease(w: Writer, ghost j: Journal) returns (o: Outcome)
    requires HostIs(w, j)
    modifies w
    ensures HostIs(w, After(j, TakeLease)) && o == OutcomeOf(j, TakeLease) && w.entered == old(w.entered)
  {
    LeaseLeaves(w.store, w.workBound, j);
    var r := w.AcquireLease(1);
    o := ReportedLease(r);
  }

  lemma {:induction false} LeaseLeaves(store: Store, workBound: nat, j: Journal)
    requires StoreIs(store, workBound, j)
    ensures StoreIs(Bumped(store), workBound, j.(fence := j.fence + 1))
  {
    forall e, p | e in PrefixChain(store.state.value.envelope.prefix) && p in e.payloads
      ensures Resolvable(Bumped(store), {}, p)
    {
      assert Resolvable(store, {}, p);
    }
  }

  method MemoryStep(m: Memory, op: Op, ghost j: Journal) returns (o: Outcome)
    requires MemoryIs(m, j) && (op.Offer? ==> Travels(j.chain, op.admission))
    modifies m
    ensures MemoryIs(m, After(j, op)) && o == OutcomeOf(j, op)
    ensures |m.invoked| == |old(m.invoked)| + if Entered(o) then 1 else 0
  {
    match op
    case TakeLease =>
      var r := m.AcquireLease();
      o := ReportedLease(r);
    case Offer(a) =>
      MemoryRefines(m.fence, m.state, j.chain, a);
      var r := m.PublishThen(a.fence, a.expected, a.objects, a.entries);
      o := Reported(r);
  }

  method HostStep(w: Writer, op: Op, ghost j: Journal) returns (o: Outcome)
    requires HostIs(w, j) && Fits(j, op, w.workBound)
    modifies w
    ensures HostIs(w, After(j, op)) && o == OutcomeOf(j, op)
    ensures w.entered == old(w.entered) + if Entered(o) then 1 else 0
  {
    match op
    case TakeLease =>
      o := HostLease(w, j);
    case Offer(a) =>
      o := HostOffer(w, a, j);
  }

  // ---------------------------------------------------------------------------------------------
  // Runs of operations

  ghost function AfterAll(j: Journal, ops: seq<Op>): Journal
    decreases |ops|
  {
    if ops == [] then j else AfterAll(After(j, ops[0]), ops[1..])
  }

  ghost function OutcomesOf(j: Journal, ops: seq<Op>): seq<Outcome>
    decreases |ops|
  {
    if ops == [] then [] else [OutcomeOf(j, ops[0])] + OutcomesOf(After(j, ops[0]), ops[1..])
  }

  ghost predicate AllFit(j: Journal, ops: seq<Op>, workBound: nat)
    decreases |ops|
  {
    ops == [] || (Fits(j, ops[0], workBound) && AllFit(After(j, ops[0]), ops[1..], workBound))
  }

  ghost predicate BothAre(m: Memory, w: Writer, j: Journal)
    reads m, w
  {
    MemoryIs(m, j) && HostIs(w, j)
  }

  method TwinStep(m: Memory, w: Writer, op: Op, ghost j: Journal) returns (ofMemory: Outcome, ofHost: Outcome)
    requires BothAre(m, w, j) && Fits(j, op, w.workBound)
    modifies m, w
    ensures BothAre(m, w, After(j, op)) && ofMemory == ofHost == OutcomeOf(j, op)
    ensures |m.invoked| - |old(m.invoked)| == w.entered - old(w.entered)
  {
    ofMemory := MemoryStep(m, op, j);
    ofHost := HostStep(w, op, j);
  }

  /**
   * Both backends give the outcomes of the abstract journal on every run of operations, enter the
   * continuation for the same batches, and end with the same fence, chain and head.
   */
  method TwinRun(m: Memory, w: Writer, ops: seq<Op>, ghost start: Journal)
    returns (ofMemory: seq<Outcome>, ofHost: seq<Outcome>)
    requires BothAre(m, w, start) && AllFit(start, ops, w.workBound)
    modifies m, w
    ensures ofMemory == OutcomesOf(start, ops) && ofHost == OutcomesOf(start, ops)
    ensures BothAre(m, w, AfterAll(start, ops))
    ensures |m.invoked| - |old(m.invoked)| == w.entered - old(w.entered)
  {
    ofMemory, ofHost := [], [];
    ghost var j, rest := start, ops;
    for k := 0 to |ops|
      invariant rest == ops[k..] && ofHost == ofMemory
      invariant Remains(start, ops, j, rest, ofMemory, w.workBound)
      invariant BothAre(m, w, j)
      invariant |m.invoked| - |old(m.invoked)| == w.entered - old(w.entered)
    {
      RemainsStep(start, ops, j, rest, ofMemory, w.workBound);
      var x, y := TwinStep(m, w, ops[k], j);
      ofMemory, ofHost := ofMemory + [x], ofHost + [y];
      j, rest := After(j, rest[0]), rest[1..];
    }
  }

  /** After part of a run: what is left to do leads where the whole run leads. */
  ghost predicate Remains(start: Journal, ops: seq<Op>, j: Journal, rest: seq<Op>, outcomes: seq<Outcome>,
      workBound: nat)
  {
    && AllFit(j, rest, workBound) && AfterAll(j, rest) == AfterAll(start, ops)
    && outcomes + OutcomesOf(j, rest) == OutcomesOf(start, ops)
  }

  lemma {:induction false} RemainsStep(start: Journal, ops: seq<Op>, j: Journal, rest: seq<Op>, outcomes: seq<Outcome>,
      workBound: nat)
    requires Remains(start, ops, j, rest, outcomes, workBound) && rest != []
    ensures Fits(j, rest[0], workBound)
    ensures Remains(start, ops, After(j, rest[0]), rest[1..], outcomes + [OutcomeOf(j, rest[0])], workBound)
  {
    ConcatAssociates(outcomes, [OutcomeOf(j, rest[0])], OutcomesOf(After(j, rest[0]), rest[1..]));
  }

  /** An empty journal of either kind, after its first lease. */
  method TwinStart(workBound: nat) returns (m: Memory, w: Writer, lease: nat)
    ensures fresh(m) && fresh(w)
    ensures lease == 1 && BothAre(m, w, Journal(lease, []))
  {
    m := new Memory();
    w := new Writer(Store(None, map[], {}, map[], map[]), true, true, workBound);
    var ofMemory := m.AcquireLease();
    var ofHost := w.AcquireLease(1);
    lease := ofMemory.value;
  }

  method MemoryReplay(m: Memory, ghost j: Journal) returns (r: Verification)
    requires MemoryIs(m, j)
    ensures r == Verification(ChainHead(j.chain), j.chain, PayloadIds(j.chain))
  {
    LawfulVerifies(m.state, j.chain);
    var verified := VerifyState(m.state);
    r := verified.value;
  }

  method HostReplay(w: Writer, ghost j: Journal) returns (r: Verification)
    requires HostIs(w, j)
    modifies w`run, w`store
    ensures r == Verification(ChainHead(j.chain), j.chain, PayloadIds(j.chain))
  {
    hide ReadableV2, StateGood, Snapshot, VerifyStateResult, PrefixPublished;
    var observed := w.StateBytes();
    RunInv(w.run, |w.run| - 1);
    AcceptsReadable(w.store, w.workBound, Admission(0, None, [], []));
    var read := ReadStore(w.store, observed, w.workBound);
    SnapshotVerifies(read.value, j.chain);
    var verified := VerifyState(read.value);
    r := verified.value;
  }

  /** What is read of a chain is all there is to it, and verifies. */
  lemma {:induction false} SnapshotVerifies(state: StoredState, chain: seq<Entry>)
    requires Snapshot(state, chain)
    ensures VerifyStateResult(state) == Ok(Verification(ChainHead(chain), chain, PayloadIds(chain)))
    ensures forall other :: Snapshot(other, chain) ==> other == state
  {
    LawfulVerifies(state, chain);
    forall other | Snapshot(other, chain)
      ensures other == state
    {
      SnapshotUnique(other, state, chain);
    }
  }

  /** Both replay as the same verified chain under the same head. */
  method TwinReplay(m: Memory, w: Writer, ghost j: Journal) returns (ofMemory: Verification, ofHost: Verification)
    requires BothAre(m, w, j)
    modifies w`run, w`store
    ensures ofMemory == ofHost == Verification(ChainHead(j.chain), j.chain, PayloadIds(j.chain))
  {
    ofMemory := MemoryReplay(m, j);
    ofHost := HostReplay(w, j);
  }

  // ---------------------------------------------------------------------------------------------
  // Where the two differ

  /** A one-entry v1 journal with one payload, upgraded. */
  function UpgradedStore(): Store {
    var payload := V1Object([1]);
    var id := V1Hash(0, None, "kind", [payload]);
    var v1State := V1State(1, Some(V1Head(0, id)));
    var head := HeadOf(CanonV1(Some(id))[0]);
    var descriptor := DescriptorLeaf(v1State, head);
    var prefix := Prefix(1, V1Head(0, id), head, StorageId(descriptor));
    Store(
      Some(V2(Envelope(2, 0, Some(prefix), Some(head), None))), map[DescriptorAt(StorageId(descriptor)) := descriptor],
      {0}, map[0 := V1Entry(id, 0, None, "kind", [payload])], map[payload := [1]])
  }

  /** What a journal with an unpublished payload in its v1 prefix looks like. */
  ghost predicate HoldsUnpublished(store: Store, before: Entry) {
    && Inv(store) && ReadableV2(store, 1) && FenceOf(store.state) == 2
    && ChainOf(store.state) == PrefixChain(store.state.value.envelope.prefix) == [before]
    && IsChain([before]) && |before.payloads| > 0 && !Resolvable(store, {}, before.payloads[0])
  }

  lemma {:induction false} UpgradedHoldsUnpublished() returns (store: Store, before: Entry)
    ensures HoldsUnpublished(store, before)
  {
    store, before := UpgradedStore(), NewEntry(0, None, "kind", [ContentId(ExactBytes([1]))]);
    var payload := V1Object([1]);
    assert CanonV1(None) == [];
    assert ChainOf(store.state) == CanonV1(Some(V1Hash(0, None, "kind", [payload])));
    assert V1Meanings([payload]) == [ContentId(ExactBytes([1]))];
    assert V1EntryOk(store, 0);
    CanonV1IsChain(store, 1);
  }

  /** The next entry, with the payloads of the committed one. */
  function ReusingBatch(before: Entry): Admission {
    Admission(2, Some(HeadOf(before)), [], [NewEntry(before.sequence + 1, Some(before.id), "kind", before.payloads)])
  }

  /**
   * The payload travels in a committed entry, so `verify_batch` and the memory backend accept the batch;
   * the host does not find a payload that only the v1 prefix holds.
   */
  lemma {:induction false} PrefixPayloadDiffers() returns (store: Store, held: StoredState, a: Admission)
    ensures Inv(store) && ReadableV2(store, 1) && !PrefixPublished(store)
    ensures Lawful(held, ChainOf(store.state))
    ensures VerifyBatchResult(held, a.expected, a.objects, a.entries).Ok?
    ensures PublishResult(FenceOf(store.state), held, a.fence, a.expected, a.objects, a.entries).0.Ok?
    ensures !HostAccepts(store, 1, a)
  {
    var before: Entry;
    store, before := UpgradedHoldsUnpublished();
    a := ReusingBatch(before);
    MissingPayloadDiffers(store, before, a);
    held := HeldState(before);
    MemoryRefines(2, held, [before], a);
  }

  /** What a journal of one entry holds. */
  lemma {:induction false} HeldState(e: Entry) returns (held: StoredState)
    requires IsChain([e])
    ensures Lawful(held, [e])
  {
    held := AddPayloads(EMPTY_STATE, e.payloads);
    EmptySnapshot();
    SnapshotIff(EMPTY_STATE, []);
    ObjectsExactAdd(EMPTY_STATE, [], e);
    assert [] + [e] == [e];
    BuiltIsSnapshot(held.(entries := EntryMap([e])), [e]);
    held := held.(entries := EntryMap([e]), head := ChainHead([e]));
  }

  lemma {:induction false} MissingPayloadDiffers(store: Store, before: Entry, a: Admission)
    requires HoldsUnpublished(store, before) && a == ReusingBatch(before)
    ensures Travels([before], a) && OutcomeOf(Journal(2, [before]), Offer(a)).Admitted?
    ensures !HostAccepts(store, 1, a) && !PrefixPublished(store)
  {
    var e, p := a.entries[0], before.payloads[0];
    assert a.entries[1..] == [] && e in a.entries && before in [before] && p in before.payloads;
    forall q | q in e.payloads
      ensures q in PayloadIds([before])
    {
      PayloadIdsMember([before], q);
    }
    assert Follows(a.entries, 1, Some(before.id));
    assert Sound(a) && Travels([before], a);
    assert Carried(a) == {} && !Resolvable(store, Carried(a), p);
  }
}
