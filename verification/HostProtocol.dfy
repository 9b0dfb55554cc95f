/**
 * The shared store as a step relation: any number of writers publish leaves, reserve namespaces and
 * compare-exchange the `state` leaf, in any order. A crash is a writer that takes no further step, so
 * what holds of every run holds at every crash cut.
 */
module HostProtocol {
  import opened Wrappers
  import opened JournalTypes
  import opened JournalLaws
  import opened MemoryBackend
  import opened HostStore

  /** A leaf may only be stored under the path its content determines. */
  predicate Addresses(path: Path, leaf: Leaf) {
    match path
    case ObjectAt(ref) => leaf.ObjectLeaf? && ref == RefOf(leaf.datum)
    case EntryAt(location) => leaf.EntryLeaf? && location.storage == StorageId(leaf)
    case DescriptorAt(id) => leaf.DescriptorLeaf? && id == StorageId(leaf)
  }

  function FenceOf(state: Option<StateLeaf>): nat {
    match state
    case None => 0
    case Some(V1(v1State)) => v1State.fence
    case Some(V2(envelope)) => envelope.fence
  }

  /** How many v1 entries the state commits; their leaves never change again. */
  function CommittedV1(state: Option<StateLeaf>): nat {
    match state
    case None => 0
    case Some(V1(v1State)) => if v1State.head.None? then 0 else v1State.head.value.sequence + 1
    case Some(V2(envelope)) => if envelope.prefix.None? then 0 else envelope.prefix.value.physicalHead.sequence + 1
  }

  function V1HeadId(v1State: V1State): Option<V1Id> {
    if v1State.head.None? then None else Some(v1State.head.value.entry)
  }

  /** The semantic chain a state commits. */
  function ChainOf(state: Option<StateLeaf>): seq<Entry> {
    match state
    case None => []
    case Some(V1(v1State)) => CanonV1(V1HeadId(v1State))
    case Some(V2(envelope)) => EnvelopeChain(envelope)
  }

  ghost predicate StateGood(store: Store, state: Option<StateLeaf>) {
    match state
    case None => true
    case Some(V1(v1State)) => v1State.head.Some? ==> V1Readable(store, v1State.head.value)
    case Some(V2(envelope)) => EnvelopeGood(store, envelope)
  }

  ghost predicate Inv(store: Store) {
    && (forall path :: path in store.leaves ==> Addresses(path, store.leaves[path]))
    && StateGood(store, store.state)
  }

  // ---------------------------------------------------------------------------------------------
  // Steps

  /** The old protocol: a higher fence, or more v1 entries behind the same fence. */
  ghost predicate OldExchange(store: Store, before: Option<StateLeaf>, after: V1State) {
    match before
    case None => after.fence > 0 && after.head.None?
    case Some(V1(v1State)) =>
      || (after.head == v1State.head && after.fence > v1State.fence)
      || (&& after.fence == v1State.fence && after.head.Some? && V1Readable(store, after.head.value)
          && after.head.value.sequence >= CommittedV1(before)
          && V1Before(store, CommittedV1(before)) == V1HeadId(v1State))
    case Some(V2(_)) => false
  }

  /** The first v2 lease: next fence, a reserved namespace, and the verified prefix if there is one. */
  ghost predicate Install(store: Store, before: Option<StateLeaf>, after: Envelope) {
    && (before.Some? ==> before.value.V1?)
    && after.fence == FenceOf(before) + 1
    && after.namespace in store.namespaces && after.headLocation == None
    && if before.None? || before.value.v1State.head.None? then after.prefix == None && after.head == None
       else && after.prefix.Some? && PrefixReadable(store, after.prefix.value)
            && after.prefix.value.physicalHead == before.value.v1State.head.value
            && after.head == Some(after.prefix.value.canonicalHead)
  }

  /** A later lease: only the fence moves. */
  ghost predicate Bump(before: Envelope, after: Envelope) {
    after == before.(fence := before.fence + 1)
  }

  /** An admission: the head and its location move to a longer chain whose leaves are all stored. */
  ghost predicate Append(store: Store, before: Envelope, after: Envelope) {
    && after == before.(head := after.head, headLocation := after.headLocation)
    && Linked(store, after.headLocation, after.namespace)
    && IsChain(EnvelopeChain(after)) && after.head == ChainHead(EnvelopeChain(after))
    && EnvelopeChain(before) < EnvelopeChain(after)
  }

  /** What a successful exchange of the state leaf may do. */
  ghost predicate Justified(store: Store, before: Option<StateLeaf>, after: StateLeaf) {
    match after
    case V1(v1State) => OldExchange(store, before, v1State)
    case V2(envelope) =>
      || Install(store, before, envelope)
      || (before.Some? && before.value.V2? &&
          (Bump(before.value.envelope, envelope) || Append(store, before.value.envelope, envelope)))
  }

  datatype Step =
    | Publish(path: Path, leaf: Leaf)
    | Reserve(namespace: nat)
    | Exchange(replacement: StateLeaf)
    | OldObject(bytes: seq<nat>)
    | OldEntry(sequence: nat, entry: V1Entry)

  ghost predicate Takes(store: Store, step: Step, next: Store) {
    match step
    case Publish(path, leaf) => Addresses(path, leaf) && next == store.(leaves := store.leaves[path := leaf])
    case Reserve(namespace) =>
      namespace !in store.namespaces && next == store.(namespaces := store.namespaces + {namespace})
    case Exchange(replacement) =>
      Justified(store, store.state, replacement) && next == store.(state := Some(replacement))
    case OldObject(bytes) => next == store.(v1Objects := store.v1Objects[V1Object(bytes) := bytes])
    case OldEntry(sequence, entry) =>
      sequence >= CommittedV1(store.state) && next == store.(v1Entries := store.v1Entries[sequence := entry])
  }

  ghost predicate StoreStep(store: Store, next: Store) {
    exists step :: Takes(store, step, next)
  }

  // ---------------------------------------------------------------------------------------------
  // What one step keeps

  /** The state was selected at some time and its v1 part is frozen, so it stays readable. */
  ghost predicate Served(store: Store, state: Option<StateLeaf>) {
    StateGood(store, state) && CommittedV1(state) <= CommittedV1(store.state)
  }

  /** Everything a reader of committed leaves looks at is still there. */
  ghost predicate Keeps(store: Store, next: Store) {
    && store.leaves.Keys <= next.leaves.Keys
    && (forall path :: path in store.leaves ==> next.leaves[path] == store.leaves[path])
    && store.namespaces <= next.namespaces
    && (forall id :: id in store.v1Objects && V1Object(store.v1Objects[id]) == id ==>
          id in next.v1Objects && next.v1Objects[id] == store.v1Objects[id])
    && (forall n :: n in store.v1Entries && n < CommittedV1(store.state) ==>
          n in next.v1Entries && next.v1Entries[n] == store.v1Entries[n])
  }

  lemma {:induction false} AddressedOnce(store: Store, path: Path, leaf: Leaf)
    requires Inv(store) && Addresses(path, leaf) && path in store.leaves
    ensures store.leaves[path] == leaf
  {
    assert Addresses(path, store.leaves[path]);
  }

  lemma {:induction false} StepKeeps(store: Store, step: Step, next: Store)
    requires Inv(store) && Takes(store, step, next)
    ensures Keeps(store, next)
  {
    if step.Publish? && step.path in store.leaves {
      AddressedOnce(store, step.path, step.leaf);
    }
  }

  lemma {:induction false} RefKept(store: Store, next: Store, ref: StoredRef)
    requires Keeps(store, next) && RefReadable(store, ref)
    ensures RefReadable(next, ref)
  {
  }

  lemma {:induction false} LinkedKept(store: Store, next: Store, location: Option<Location>, namespace: nat)
    requires Keeps(store, next) && Linked(store, location, namespace)
    ensures Linked(next, location, namespace)
    decreases location
  {
    if location.Some? {
      var physical := location.value.storage.leaf.physical;
      forall i | 0 <= i < |physical.payloads|
        ensures RefReadable(next, physical.payloads[i])
      {
        RefKept(store, next, physical.payloads[i]);
      }
      LinkedKept(store, next, physical.previous, namespace);
    }
  }

  lemma {:induction false} V1Kept(store: Store, next: Store, n: nat)
    requires Keeps(store, next) && n <= CommittedV1(store.state) && V1Good(store, n)
    ensures V1Good(next, n) && V1Before(next, n) == V1Before(store, n)
  {
    forall i: nat | i < n
      ensures i in store.v1Entries && i in next.v1Entries && next.v1Entries[i] == store.v1Entries[i]
      ensures V1EntryOk(next, i)
    {
      assert V1EntryOk(store, i);
      assert i > 0 ==> V1EntryOk(store, i - 1);
    }
    assert n > 0 ==> V1EntryOk(store, n - 1);
  }

  lemma {:induction false} GoodKept(store: Store, next: Store, state: Option<StateLeaf>)
    requires Keeps(store, next) && StateGood(store, state) && CommittedV1(state) <= CommittedV1(store.state)
    ensures StateGood(next, state)
  {
    match state
    case None =>
    case Some(V1(v1State)) =>
      if v1State.head.Some? {
        V1Kept(store, next, v1State.head.value.sequence + 1);
      }
    case Some(V2(envelope)) =>
      LinkedKept(store, next, envelope.headLocation, envelope.namespace);
      if envelope.prefix.Some? {
        V1Kept(store, next, envelope.prefix.value.physicalHead.sequence + 1);
      }
  }

  /** The chain of a longer v1 prefix continues the chain of a shorter one. */
  lemma {:induction false} CanonV1Grows(store: Store, n: nat, m: nat)
    requires V1Good(store, m) && n <= m
    ensures CanonV1(V1Before(store, n)) <= CanonV1(V1Before(store, m))
    decreases m
  {
    if n < m {
      CanonV1Grows(store, n, m - 1);
      assert V1EntryOk(store, m - 1);
    }
  }

  /** The order in which states are selected: by fence, then by chain length. */
  predicate Later(before: Option<StateLeaf>, after: Option<StateLeaf>) {
    FenceOf(before) < FenceOf(after) || (FenceOf(before) == FenceOf(after) && |ChainOf(before)| < |ChainOf(after)|)
  }

  /** An exchange only ever lengthens the chain, and never takes committed v1 leaves back. */
  lemma {:induction false} ExchangeGrows(store: Store, before: Option<StateLeaf>, after: StateLeaf)
    requires StateGood(store, before) && Justified(store, before, after)
    ensures StateGood(store, Some(after))
    ensures ChainOf(before) <= ChainOf(Some(after))
    ensures CommittedV1(before) <= CommittedV1(Some(after))
    ensures Later(before, Some(after))
  {
    match after
    case V1(v1State) =>
      if before.Some? && v1State.fence == before.value.v1State.fence {
        var n, m := CommittedV1(before), CommittedV1(Some(after));
        CanonV1Grows(store, n, m);
        CanonV1IsChain(store, m);
        assert V1Good(store, n);
        CanonV1IsChain(store, n);
      }
    case V2(envelope) =>
      if Install(store, before, envelope) {
        InstallSameChain(store, before, envelope);
      }
  }

  /** Installing v2 keeps the chain: the prefix is the whole of it. */
  lemma {:induction false} InstallSameChain(store: Store, before: Option<StateLeaf>, after: Envelope)
    requires StateGood(store, before) && Install(store, before, after)
    ensures ChainOf(Some(V2(after))) == ChainOf(before)
    ensures EnvelopeGood(store, after)
    ensures CommittedV1(Some(V2(after))) == CommittedV1(before)
  {
    if after.prefix.Some? {
      CanonV1IsChain(store, after.prefix.value.physicalHead.sequence + 1);
    }
    assert Walk(None) == [];
    assert EnvelopeChain(after) == PrefixChain(after.prefix);
  }

  lemma {:induction false} StepKeepsInv(store: Store, step: Step, next: Store)
    requires Inv(store) && Takes(store, step, next)
    ensures Inv(next)
    ensures ChainOf(store.state) <= ChainOf(next.state)
    ensures CommittedV1(store.state) <= CommittedV1(next.state)
    ensures next.state == store.state || Later(store.state, next.state)
  {
    StepKeeps(store, step, next);
    if step.Exchange? {
      ExchangeGrows(store, store.state, step.replacement);
      SameLeavesGood(store, next, next.state);
    } else {
      GoodKept(store, next, store.state);
    }
  }

  lemma {:induction false} SameLeavesGood(store: Store, next: Store, state: Option<StateLeaf>)
    requires next == store.(state := next.state) && StateGood(store, state)
    ensures StateGood(next, state)
  {
    match state
    case None =>
    case Some(V1(v1State)) =>
      if v1State.head.Some? {
        SameV1(store, next, v1State.head.value.sequence + 1);
      }
    case Some(V2(envelope)) =>
      LinkedKept(store, next, envelope.headLocation, envelope.namespace);
      if envelope.prefix.Some? {
        SameV1(store, next, envelope.prefix.value.physicalHead.sequence + 1);
      }
  }

  lemma {:induction false} SameV1(store: Store, next: Store, n: nat)
    requires next == store.(state := next.state) && V1Good(store, n)
    ensures V1Good(next, n) && V1Before(next, n) == V1Before(store, n)
  {
    forall i: nat | i < n
      ensures V1EntryOk(next, i)
    {
      assert V1EntryOk(store, i);
    }
  }

  // ---------------------------------------------------------------------------------------------
  // Runs

  ghost predicate StepAt(run: seq<Store>, i: nat)
    requires i + 1 < |run|
  {
    StoreStep(run[i], run[i + 1])
  }

  /** Any interleaving of any number of writers, from a store whose committed state is good. */
  ghost predicate IsRun(run: seq<Store>) {
    run != [] && Inv(run[0]) && forall i: nat :: i + 1 < |run| ==> StepAt(run, i)
  }

  lemma {:induction false} RunInv(run: seq<Store>, i: nat)
    requires IsRun(run) && i < |run|
    ensures Inv(run[i])
  {
    if i > 0 {
      RunInv(run, i - 1);
      assert StepAt(run, i - 1);
      var step :| Takes(run[i - 1], step, run[i]);
      StepKeepsInv(run[i - 1], step, run[i]);
    }
  }

  lemma {:induction false} RunStep(run: seq<Store>, i: nat)
    requires IsRun(run) && i + 1 < |run|
    ensures Keeps(run[i], run[i + 1])
    ensures ChainOf(run[i].state) <= ChainOf(run[i + 1].state)
    ensures CommittedV1(run[i].state) <= CommittedV1(run[i + 1].state)
    ensures run[i + 1].state == run[i].state || Later(run[i].state, run[i + 1].state)
  {
    RunInv(run, i);
    assert StepAt(run, i);
    var step :| Takes(run[i], step, run[i + 1]);
    StepKeeps(run[i], step, run[i + 1]);
    StepKeepsInv(run[i], step, run[i + 1]);
  }

  /** A state selected at some point of a run is served, with its whole chain, at every later point. */
  lemma {:induction false} RunServes(run: seq<Store>, i: nat, j: nat)
    requires IsRun(run) && i <= j < |run|
    ensures Served(run[j], run[i].state)
    decreases j
  {
    RunInv(run, i);
    if i < j {
      RunServes(run, i, j - 1);
      RunStep(run, j - 1);
      GoodKept(run[j - 1], run[j], run[i].state);
    }
  }

  lemma {:induction false} PrefixTransitive<T>(a: seq<T>, b: seq<T>, c: seq<T>)
    requires a <= b && b <= c
    ensures a <= c
  {
  }

  /** Committed chains of a run are ordered by prefix: nothing committed is ever lost or rewritten. */
  lemma {:induction false} ChainsGrow(run: seq<Store>, i: nat, j: nat)
    requires IsRun(run) && i <= j < |run|
    ensures ChainOf(run[i].state) <= ChainOf(run[j].state)
    ensures run[i].state == run[j].state || Later(run[i].state, run[j].state)
    decreases j
  {
    hide ChainOf;
    if i < j {
      ChainsGrow(run, i, j - 1);
      RunStep(run, j - 1);
      PrefixTransitive(ChainOf(run[i].state), ChainOf(run[j - 1].state), ChainOf(run[j].state));
    }
  }

  /** No two different entries are ever committed at one sequence number. */
  lemma {:induction false} OneEntryPerSequence(run: seq<Store>, i: nat, j: nat, e: Entry, e': Entry)
    requires IsRun(run) && i < |run| && j < |run|
    requires e in ChainOf(run[i].state) && e' in ChainOf(run[j].state) && e.sequence == e'.sequence
    ensures e == e'
  {
    RunChain(run, i);
    RunChain(run, j);
    if i <= j {
      ChainsGrow(run, i, j);
    } else {
      ChainsGrow(run, j, i);
    }
  }

  /** Every committed chain of a run is a journal chain whose head the state names. */
  lemma {:induction false} RunChain(run: seq<Store>, i: nat)
    requires IsRun(run) && i < |run|
    ensures IsChain(ChainOf(run[i].state))
    ensures run[i].state.Some? && run[i].state.value.V2? ==>
      run[i].state.value.envelope.head == ChainHead(ChainOf(run[i].state))
  {
    RunInv(run, i);
    match run[i].state
    case None =>
    case Some(V1(v1State)) =>
      if v1State.head.Some? {
        CanonV1IsChain(run[i], v1State.head.value.sequence + 1);
      }
    case Some(V2(envelope)) =>
  }

  /** The compare-exchange has no ABA: a state that is left never comes back. */
  lemma {:induction false} NoAba(run: seq<Store>, i: nat, k: nat, j: nat)
    requires IsRun(run) && i <= k <= j < |run| && run[i].state == run[j].state
    ensures run[k].state == run[i].state
  {
    ChainsGrow(run, i, k);
    ChainsGrow(run, k, j);
  }

  /** Once v2 is selected, one namespace and one prefix stay selected and no v1 state returns. */
  lemma {:induction false} SelectedOnce(run: seq<Store>, i: nat, j: nat)
    requires IsRun(run) && i <= j < |run| && run[i].state.Some? && run[i].state.value.V2?
    ensures run[j].state.Some? && run[j].state.value.V2?
    ensures run[j].state.value.envelope.namespace == run[i].state.value.envelope.namespace
    ensures run[j].state.value.envelope.prefix == run[i].state.value.envelope.prefix
    decreases j
  {
    if i < j {
      SelectedOnce(run, i, j - 1);
      assert StepAt(run, j - 1);
      var step :| Takes(run[j - 1], step, run[j]);
    }
  }

  /** A writer still holding v1 bytes can exchange nothing after an upgrade. */
  lemma {:induction false} OldWriterLocked(run: seq<Store>, i: nat, j: nat, captured: V1State)
    requires IsRun(run) && i <= j < |run| && run[i].state.Some? && run[i].state.value.V2?
    ensures run[j].state != Some(V1(captured))
  {
    SelectedOnce(run, i, j);
  }

  /** The upgrade step keeps the chain, whatever other writers left behind. */
  lemma {:induction false} UpgradeKeepsChain(run: seq<Store>, i: nat)
    requires IsRun(run) && i + 1 < |run|
    requires run[i].state.None? || run[i].state.value.V1?
    requires run[i + 1].state.Some? && run[i + 1].state.value.V2?
    ensures ChainOf(run[i + 1].state) == ChainOf(run[i].state)
    ensures FenceOf(run[i + 1].state) == FenceOf(run[i].state) + 1
  {
    RunInv(run, i);
    assert StepAt(run, i);
    var step :| Takes(run[i], step, run[i + 1]);
    InstallSameChain(run[i], run[i].state, run[i + 1].state.value.envelope);
  }

  // ---------------------------------------------------------------------------------------------
  // Leases and commits of a run

  /** The step from `i` hands out a v2 lease: the fence moves and the chain does not. */
  ghost predicate LeasesAt(run: seq<Store>, i: nat)
    requires i + 1 < |run|
  {
    && run[i].state != run[i + 1].state && run[i + 1].state.Some? && run[i + 1].state.value.V2?
    && FenceOf(run[i + 1].state) != FenceOf(run[i].state)
  }

  /** The step from `i` commits a batch under the selected envelope. */
  ghost predicate CommitsAt(run: seq<Store>, i: nat)
    requires i + 1 < |run|
  {
    && run[i].state != run[i + 1].state && run[i].state.Some? && run[i].state.value.V2?
    && FenceOf(run[i + 1].state) == FenceOf(run[i].state)
  }

  ghost function BatchAt(run: seq<Store>, i: nat): seq<Entry>
    requires IsRun(run) && i + 1 < |run|
  {
    ChainsGrow(run, i, i + 1);
    ChainOf(run[i + 1].state)[|ChainOf(run[i].state)|..]
  }

  /** Issued fences strictly increase over the run. */
  lemma {:induction false} FencesIncrease(run: seq<Store>, i: nat, j: nat)
    requires IsRun(run) && i < j && j + 1 < |run| && LeasesAt(run, i) && LeasesAt(run, j)
    ensures FenceOf(run[i + 1].state) < FenceOf(run[j + 1].state)
  {
    ChainsGrow(run, i + 1, j);
    ChainsGrow(run, j, j + 1);
  }

  /** After a lease with a higher fence, nothing commits under an older one. */
  lemma {:induction false} SupersededNeverCommits(run: seq<Store>, i: nat, j: nat, fence: nat)
    requires IsRun(run) && i < j && j + 1 < |run| && LeasesAt(run, i) && CommitsAt(run, j)
    requires fence < FenceOf(run[i + 1].state)
    ensures FenceOf(run[j].state) != fence
  {
    ChainsGrow(run, i + 1, j);
  }

  /** A commit appends a batch that is not empty and that starts where the chain ended. */
  lemma {:induction false} CommitAppends(run: seq<Store>, i: nat)
    requires IsRun(run) && i + 1 < |run| && CommitsAt(run, i)
    ensures BatchAt(run, i) != []
    ensures ChainOf(run[i + 1].state) == ChainOf(run[i].state) + BatchAt(run, i)
    ensures BatchAt(run, i)[0].sequence == |ChainOf(run[i].state)|
  {
    ChainsGrow(run, i, i + 1);
    RunChain(run, i + 1);
    assert Later(run[i].state, run[i + 1].state);
  }

  /** Over a whole run no batch commits twice. */
  lemma {:induction false} BatchCommitsOnce(run: seq<Store>, i: nat, j: nat)
    requires IsRun(run) && i < j && j + 1 < |run| && CommitsAt(run, i) && CommitsAt(run, j)
    ensures BatchAt(run, i) != BatchAt(run, j)
  {
    hide ChainOf, CommitsAt, BatchAt, IsRun;
    CommitAppends(run, i);
    CommitAppends(run, j);
    ChainsGrow(run, i + 1, j);
  }

  /**
   * A reader that holds the envelope of time `i` and reads the leaves of any later time `j` rebuilds
   * exactly the chain of time `i` with its payloads, whatever orphan leaves there are.
   */
  method ReadOlder(run: seq<Store>, i: nat, j: nat, workBound: nat) returns (r: Result<StoredState, JournalError>)
    requires IsRun(run) && i <= j < |run| && run[i].state.Some? && run[i].state.value.V2?
    requires |ChainOf(run[i].state)| <= workBound
    ensures r.Ok? && Snapshot(r.value, ChainOf(run[i].state))
  {
    RunServes(run, i, j);
    r := ReadV2(run[j], run[i].state.value.envelope, workBound);
  }

  /** `read_state`: whatever the state leaf holds; a good state is read exactly when it is short enough. */
  method ReadStore(store: Store, state: Option<StateLeaf>, workBound: nat)
    returns (r: Result<StoredState, JournalError>)
    ensures StateGood(store, state) && |ChainOf(state)| <= workBound ==> r.Ok? && Snapshot(r.value, ChainOf(state))
    ensures StateGood(store, state) && r.Ok? ==> |ChainOf(state)| <= workBound
    ensures StateGood(store, state) && r.Err? ==> r == Err(WorkBoundExceeded)
    ensures r.Ok? && state.Some? && state.value.V2? ==> |ChainOf(state)| <= workBound
  {
    match state
    case None =>
      EmptySnapshot();
      r := Ok(EMPTY_STATE);
    case Some(V1(v1State)) =>
      if v1State.head.None? {
        EmptySnapshot();
        return Ok(EMPTY_STATE);
      }
      if StateGood(store, state) {
        CanonV1IsChain(store, v1State.head.value.sequence + 1);
      }
      r := ReadV1(store, v1State, workBound);
    case Some(V2(envelope)) =>
      r := ReadV2(store, envelope, workBound);
  }

  /**
   * Reading just before an upgrade and at any later time before anything else is committed: both succeed or neither,
   * and what they return is the same, whatever competing upgraders and crashed writers have left behind.
   */
  method ReadAcrossUpgrade(run: seq<Store>, i: nat, j: nat, workBound: nat)
    returns (before: Result<StoredState, JournalError>, after: Result<StoredState, JournalError>)
    requires IsRun(run) && i < j < |run| && ChainOf(run[j].state) == ChainOf(run[i + 1].state)
    requires run[i].state.None? || run[i].state.value.V1?
    requires run[i + 1].state.Some? && run[i + 1].state.value.V2?
    ensures before.Ok? <==> after.Ok?
    ensures before.Ok? <==> |ChainOf(run[i].state)| <= workBound
    ensures before.Ok? ==> before == after && Snapshot(after.value, ChainOf(run[i].state))
  {
    hide ChainOf, StateGood, Snapshot;
    RunInv(run, i);
    RunInv(run, j);
    UpgradeKeepsChain(run, i);
    before := ReadStore(run[i], run[i].state, workBound);
    after := ReadStore(run[j], run[j].state, workBound);
    if before.Ok? {
      SnapshotUnique(before.value, after.value, ChainOf(run[i].state));
    }
  }

  /** A chain has one snapshot: its entries, payloads and head leave nothing open. */
  lemma {:induction false} SnapshotUnique(a: StoredState, b: StoredState, chain: seq<Entry>)
    requires Snapshot(a, chain) && Snapshot(b, chain)
    ensures a == b
  {
    forall p | p in a.objects
      ensures a.objects[p] == b.objects[p] && a.datums[p] == b.datums[p]
    {
      assert HeldIn(a.objects, a.datums, p) && HeldIn(b.objects, b.datums, p);
    }
    assert a.objects == b.objects;
    assert a.datums == b.datums;
  }
}
