/**
 * One writer of the host journal, running against any other writers.
 *
 * Every port call first lets the others take any number of steps (`Others`), then takes at most one
 * step of its own. So each method below describes all interleavings, and stopping it between two port
 * calls is a crash that leaves a run behind. A writer that is `alone` meets no interference.
 */
module HostWriter {
  import opened Wrappers
  import opened JournalTypes
  import opened JournalLaws
  import opened MemoryBackend
  import opened HostStore
  import opened HostProtocol

  /** `Keeps` over any number of steps. */
  lemma {:induction false} RunKeeps(run: seq<Store>, i: nat, j: nat)
    requires IsRun(run) && i <= j < |run|
    ensures Keeps(run[i], run[j])
    decreases j
  {
    if i < j {
      RunKeeps(run, i, j - 1);
      RunStep(run, j - 1);
      RunCommitted(run, i, j - 1);
    }
  }

  lemma {:induction false} RunCommitted(run: seq<Store>, i: nat, j: nat)
    requires IsRun(run) && i <= j < |run|
    ensures CommittedV1(run[i].state) <= CommittedV1(run[j].state)
    decreases j
  {
    if i < j {
      RunCommitted(run, i, j - 1);
      RunStep(run, j - 1);
    }
  }

  lemma {:induction false} RunExtend(run: seq<Store>, step: Step, next: Store)
    requires IsRun(run) && Takes(run[|run| - 1], step, next)
    ensures IsRun(run + [next])
  {
    var longer := run + [next];
    forall i: nat | i + 1 < |longer|
      ensures StepAt(longer, i)
    {
      if i + 1 < |run| {
        assert StepAt(run, i);
      } else {
        assert longer[i] == run[|run| - 1] && longer[i + 1] == next;
      }
    }
  }

  /** The state was selected at some time so far. */
  ghost predicate Selected(run: seq<Store>, state: Option<StateLeaf>) {
    exists i :: 0 <= i < |run| && run[i].state == state
  }

  lemma {:induction false} SelectedServed(run: seq<Store>, state: Option<StateLeaf>)
    requires IsRun(run) && Selected(run, state)
    ensures Served(run[|run| - 1], state)
  {
    var i :| 0 <= i < |run| && run[i].state == state;
    RunServes(run, i, |run| - 1);
  }

  lemma {:induction false} SelectedGood(run: seq<Store>, envelope: Envelope)
    requires IsRun(run) && Selected(run, Some(V2(envelope)))
    ensures EnvelopeGood(run[|run| - 1], envelope)
  {
    SelectedServed(run, Some(V2(envelope)));
  }

  /** A justification found against a selected state still stands if that state is still current later. */
  lemma {:induction false} JustifiedLater(run: seq<Store>, i: nat, k: nat, expected: Option<StateLeaf>, after: Envelope)
    requires IsRun(run) && i < k < |run| + 1 && k <= |run|
    requires Selected(run[..i + 1], expected) && run[k - 1].state == expected
    requires Justified(run[i], expected, V2(after))
    ensures Justified(run[k - 1], expected, V2(after))
  {
    var j :| 0 <= j < i + 1 && run[..i + 1][j].state == expected;
    NoAba(run, j, i, k - 1);
    RunKeeps(run, i, k - 1);
    if Install(run[i], expected, after) {
      if after.prefix.Some? {
        V1Kept(run[i], run[k - 1], after.prefix.value.physicalHead.sequence + 1);
      }
    } else if !Bump(expected.value.envelope, after) {
      LinkedKept(run[i], run[k - 1], after.headLocation, after.namespace);
    }
  }

  lemma {:induction false} JustifiedNow(before: seq<Store>, run: seq<Store>, expected: Option<StateLeaf>,
      after: Envelope)
    requires IsRun(run) && before != [] && before <= run && Selected(before, expected)
    requires Justified(before[|before| - 1], expected, V2(after)) && run[|run| - 1].state == expected
    ensures Justified(run[|run| - 1], expected, V2(after))
  {
    assert run[..|before|] == before;
    JustifiedLater(run, |before| - 1, |run|, expected, after);
  }

  /** In a store of a run every listed object is the one leaf of its meaning. */
  lemma {:induction false} ListedOnce(store: Store, meaning: ContentId)
    requires Inv(store)
    ensures Listed(store, meaning) ==
      if ObjectAt(RefOf(meaning.meaning)) in store.leaves then {RefOf(meaning.meaning)} else {}
    ensures ObjectAt(RefOf(meaning.meaning)) in store.leaves ==> RefReadable(store, RefOf(meaning.meaning))
  {
    forall path | path in store.leaves && path.ObjectAt? && path.ref.meaning == meaning
      ensures path == ObjectAt(RefOf(meaning.meaning)) && store.leaves[path] == ObjectLeaf(meaning.meaning)
    {
      assert Addresses(path, store.leaves[path]);
    }
    if ObjectAt(RefOf(meaning.meaning)) in store.leaves {
      assert RefOf(meaning.meaning) in Listed(store, meaning);
    }
  }

  /** `find_object` finds exactly the published objects. */
  lemma {:induction false} FindObjectExact(store: Store, meaning: ContentId)
    requires Inv(store)
    ensures FindObject(store, meaning) ==
      if ObjectAt(RefOf(meaning.meaning)) in store.leaves then Ok(RefOf(meaning.meaning))
      else Err(MissingSemanticObject(meaning))
    ensures ObjectAt(RefOf(meaning.meaning)) in store.leaves ==> RefReadable(store, RefOf(meaning.meaning))
  {
    ListedOnce(store, meaning);
    if ObjectAt(RefOf(meaning.meaning)) in store.leaves {
      assert |Listed(store, meaning)| == 1;
      assert LoadObject(store, RefOf(meaning.meaning)).Ok?;
    }
  }

  lemma {:induction false} FreshName(names: set<nat>) returns (n: nat)
    ensures forall k :: k in names ==> k < n
  {
    if names == {} {
      n := 0;
    } else {
      var x :| x in names;
      var m := FreshName(names - {x});
      n := if m <= x then x + 1 else m;
      assert forall k :: k in names ==> k == x || k in names - {x};
    }
  }

  /** What `verified_admission` has established about a batch, whatever the store does meanwhile. */
  ghost predicate BatchVerified(admission: Admission) {
    && admission.entries != []
    && Follows(admission.entries, FirstSequence(admission.expected), ExpectedId(admission.expected))
  }

  /** The last step of the run hands out this fence and keeps the chain. */
  ghost predicate LeasedLast(run: seq<Store>, fence: nat) {
    && |run| >= 2 && LeasesAt(run, |run| - 2)
    && fence == FenceOf(run[|run| - 1].state) == FenceOf(run[|run| - 2].state) + 1
    && ChainOf(run[|run| - 1].state) == ChainOf(run[|run| - 2].state)
  }

  lemma {:induction false} InstalledLast(run: seq<Store>, observed: Option<StateLeaf>, fence: nat)
    requires IsRun(run) && |run| >= 2 && run[|run| - 2].state == observed && (observed.Some? ==> observed.value.V1?)
    requires run[|run| - 1].state.Some? && run[|run| - 1].state.value.V2? && fence == FenceOf(observed) + 1
    ensures LeasedLast(run, fence)
    ensures FenceOf(run[|run| - 1].state) == fence && ChainOf(run[|run| - 1].state) == ChainOf(observed)
  {
    UpgradeKeepsChain(run, |run| - 2);
  }

  lemma {:induction false} InstalledFirst(store: Store, envelope: Envelope)
    requires store.state == Some(V2(envelope)) && envelope.fence == 1
    requires envelope.prefix == None && envelope.headLocation == None
    ensures FirstLease(store)
  {
    assert Walk(None) == [] && PrefixChain(None) == [];
  }

  lemma {:induction false} BumpedLast(run: seq<Store>, envelope: Envelope)
    requires |run| >= 2 && run[|run| - 2].state == Some(V2(envelope))
    requires run[|run| - 1].state == Some(V2(envelope.(fence := envelope.fence + 1)))
    ensures LeasedLast(run, envelope.fence + 1)
  {
  }

  lemma {:induction false} BumpReady(store: Store, envelope: Envelope)
    ensures Justified(store, Some(V2(envelope)), V2(envelope.(fence := envelope.fence + 1)))
    ensures EnvelopeChain(envelope.(fence := envelope.fence + 1)) == EnvelopeChain(envelope)
  {
  }

  /** A v2 journal that is short enough to be read. */
  ghost predicate ReadableV2(store: Store, workBound: nat) {
    store.state.Some? && store.state.value.V2? && |EnvelopeChain(store.state.value.envelope)| <= workBound
  }

  /** The envelope after one more lease. */
  function Bumped(store: Store): Store
    requires store.state.Some? && store.state.value.V2?
  {
    var envelope := store.state.value.envelope;
    store.(state := Some(V2(envelope.(fence := envelope.fence + 1))))
  }

  /** The first lease of an empty journal. */
  ghost predicate FirstLease(store: Store) {
    && store.state.Some? && store.state.value.V2?
    && store.state.value.envelope.fence == 1 && store.state.value.envelope.prefix.None?
    && EnvelopeChain(store.state.value.envelope) == []
  }

  /** The selected journal is short enough to be read and its fence can still grow. */
  ghost predicate Leasable(state: Option<StateLeaf>, workBound: nat) {
    |ChainOf(state)| <= workBound && FenceOf(state) != MAX_FENCE
  }

  /** A lease without interference: the next fence and the same chain in the v2 format, or nothing selected anew. */
  ghost predicate Leased(before: Option<StateLeaf>, after: Option<StateLeaf>, r: Result<Option<nat>, JournalError>,
      workBound: nat)
  {
    if Leasable(before, workBound) then
      && r == Ok(Some(FenceOf(before) + 1)) && after.Some? && after.value.V2?
      && FenceOf(after) == FenceOf(before) + 1 && ChainOf(after) == ChainOf(before)
    else r == Err(if |ChainOf(before)| > workBound then WorkBoundExceeded else Backend) && after == before
  }

  /** The prefix and head the first v2 envelope must carry. */
  ghost predicate DescribedIn(store: Store, observed: Option<StateLeaf>, prefix: Option<Prefix>) {
    if observed.None? || (observed.value.V1? && observed.value.v1State.head.None?) then prefix == None
    else
      && observed.value.V1? && prefix.Some? && PrefixReadable(store, prefix.value)
      && observed.value.v1State.head == Some(prefix.value.physicalHead)
  }

  lemma {:induction false} InstallReady(
      before: seq<Store>, run: seq<Store>, observed: Option<StateLeaf>, prefix: Option<Prefix>, envelope: Envelope)
    requires IsRun(run) && before != [] && before <= run && Selected(run, observed)
    requires (observed.Some? ==> observed.value.V1?) && DescribedIn(before[|before| - 1], observed, prefix)
    requires envelope.fence == FenceOf(observed) + 1 && envelope.namespace in run[|run| - 1].namespaces
    requires envelope.prefix == prefix && envelope.headLocation == None
    requires envelope.head == if prefix.Some? then Some(prefix.value.canonicalHead) else None
    ensures Justified(run[|run| - 1], observed, V2(envelope))
    ensures observed.None? ==> prefix.None?
  {
    if prefix.Some? {
      PrefixKept(before, run, observed, prefix.value);
    }
  }

  lemma {:induction false} SelectedV1(run: seq<Store>, v1State: V1State)
    requires IsRun(run) && Selected(run, Some(V1(v1State))) && v1State.head.Some?
    ensures var head := v1State.head.value;
      V1Readable(run[|run| - 1], head) && |CanonV1(Some(head.entry))| == head.sequence + 1
  {
    SelectedServed(run, Some(V1(v1State)));
    CanonV1IsChain(run[|run| - 1], v1State.head.value.sequence + 1);
  }

  lemma {:induction false} SnapshotHead(state: StoredState, chain: seq<Entry>)
    requires Snapshot(state, chain)
    ensures state.head == ChainHead(chain)
  {
  }

  lemma {:induction false} DescribesPrefix(store: Store, v1State: V1State, prefix: Prefix)
    requires v1State.head == Some(prefix.physicalHead) && V1Readable(store, prefix.physicalHead)
    requires ChainHead(CanonV1(Some(prefix.physicalHead.entry))) == Some(prefix.canonicalHead)
    requires prefix.entries == prefix.canonicalHead.sequence + 1
    requires prefix.descriptor == StorageId(DescriptorLeaf(v1State, prefix.canonicalHead))
    requires DescriptorAt(prefix.descriptor) in store.leaves
    requires store.leaves[DescriptorAt(prefix.descriptor)] == prefix.descriptor.leaf
    ensures PrefixReadable(store, prefix)
  {
  }

  /** Without interference a good envelope is read exactly when it is short enough. */
  lemma {:induction false} ReadsGood(store: Store, envelope: Envelope, workBound: nat)
    requires EnvelopeGood(store, envelope)
    ensures (exists chain :: Serves(store, envelope, chain) && |chain| <= workBound)
      <==> |EnvelopeChain(envelope)| <= workBound
  {
    ServesLength(store, envelope);
  }

  class Writer {
    /** All stores so far, the present one last. */
    ghost var run: seq<Store>
    var store: Store
    /** How many exchanges of the state leaf were this writer's, and which step of the run the last was. */
    ghost var exchanges: nat
    ghost var lastExchange: nat
    /** How often a continuation of this writer was entered. */
    var entered: nat
    const alone: bool
    const writable: bool
    const workBound: nat

    ghost predicate Valid()
      reads `run, `store
    {
      IsRun(run) && store == run[|run| - 1]
    }

    constructor (store: Store, alone: bool, writable: bool, workBound: nat)
      requires Inv(store)
      ensures Valid() && run == [store] && exchanges == 0 && entered == 0
      ensures this.alone == alone && this.writable == writable && this.workBound == workBound
    {
      this.store, this.run, this.exchanges, this.lastExchange, this.entered := store, [store], 0, 0, 0;
      this.alone, this.writable, this.workBound := alone, writable, workBound;
    }

    /** The other writers take any steps; callers know nothing but that it was a run. */
    method Others()
      requires Valid()
      modifies `run, `store
      ensures Valid() && old(run) <= run
      ensures alone ==> run == old(run) && store == old(store)
    {
    }

    // -------------------------------------------------------------------------------------------
    // Port calls

    method StateBytes() returns (state: Option<StateLeaf>)
      requires Valid()
      modifies `run, `store
      ensures Valid() && old(run) <= run && (alone ==> store == old(store))
      ensures state == store.state && Selected(run, state)
    {
      Others();
      state := store.state;
      assert run[|run| - 1].state == state;
    }

    /** `put_immutable` of a content-addressed leaf. */
    method Put(path: Path, leaf: Leaf) returns (ok: bool)
      requires Valid() && Addresses(path, leaf)
      modifies `run, `store
      ensures Valid() && old(run) <= run
      ensures ok && path in store.leaves && store.leaves[path] == leaf
      ensures alone ==> store == old(store).(leaves := old(store).leaves[path := leaf])
    {
      Others();
      RunInv(run, |run| - 1);
      if path in store.leaves {
        AddressedOnce(store, path, leaf);
        assert store.leaves[path := leaf] == store.leaves;
        ok := store.leaves[path] == leaf;
      } else {
        var next := store.(leaves := store.leaves[path := leaf]);
        assert Takes(store, Publish(path, leaf), next);
        RunExtend(run, Publish(path, leaf), next);
        store, run := next, run + [next];
        ok := true;
      }
    }

    /** `reserve_namespace`: a token nobody has reserved before. */
    method ReserveNamespace() returns (namespace: nat)
      requires Valid()
      modifies `run, `store
      ensures Valid() && old(run) <= run
      ensures namespace in store.namespaces
      ensures alone ==> store == old(store).(namespaces := old(store).namespaces + {namespace})
    {
      Others();
      ghost var unused := FreshName(store.namespaces);
      assert unused !in store.namespaces;
      namespace :| namespace !in store.namespaces;
      var next := store.(namespaces := store.namespaces + {namespace});
      assert Takes(store, Reserve(namespace), next);
      RunExtend(run, Reserve(namespace), next);
      store, run := next, run + [next];
    }

    /** The linearizable compare-exchange of the state leaf. */
    method ExchangeState(expected: Option<StateLeaf>, replacement: Envelope) returns (exchanged: bool)
      requires Valid() && Selected(run, expected) && Justified(store, expected, V2(replacement))
      modifies `run, `store, `exchanges, `lastExchange
      ensures Valid() && old(run) <= run
      ensures exchanged ==>
        && |run| > |old(run)| && run[|run| - 2].state == expected && store.state == Some(V2(replacement))
        && exchanges == old(exchanges) + 1 && lastExchange == |run| - 2
      ensures !exchanged ==> exchanges == old(exchanges) && store.state != expected
      ensures alone ==> exchanged == (old(store).state == expected)
      ensures alone && exchanged ==> store == old(store).(state := Some(V2(replacement)))
      ensures alone && !exchanged ==> store == old(store)
    {
      ghost var before := run;
      Others();
      exchanged := store.state == expected;
      if exchanged {
        JustifiedNow(before, run, expected, replacement);
        var next := store.(state := Some(V2(replacement)));
        assert Takes(store, Exchange(V2(replacement)), next);
        RunExtend(run, Exchange(V2(replacement)), next);
        store, run, exchanges, lastExchange := next, run + [next], exchanges + 1, |run| - 1;
      }
    }

    /** A compare-exchange of the state leaf with itself: it only confirms. */
    method ConfirmState(expected: Option<StateLeaf>) returns (exchanged: bool)
      requires Valid()
      modifies `run, `store
      ensures Valid() && old(run) <= run && (alone ==> store == old(store))
      ensures exchanged == (store.state == expected)
    {
      Others();
      exchanged := store.state == expected;
    }

    // -------------------------------------------------------------------------------------------
    // Leases

    /** The last step of the run is this writer's and hands out this fence. */
    ghost predicate JustLeased(fence: nat)
      reads `run, `lastExchange
    {
      |run| >= 2 && lastExchange == |run| - 2 && LeasedLast(run, fence)
    }

    /** The verified v1 prefix, described by an immutable leaf. */
    method DescribePrefix(v1State: V1State) returns (r: Result<Prefix, JournalError>)
      requires Valid() && Selected(run, Some(V1(v1State))) && v1State.head.Some?
      modifies `run, `store
      ensures Valid() && old(run) <= run
      ensures r.Ok? ==> PrefixReadable(store, r.value) && r.value.physicalHead == v1State.head.value
      ensures r.Ok? <==> |ChainOf(Some(V1(v1State)))| <= workBound
      ensures r.Err? ==> r == Err(WorkBoundExceeded)
      ensures alone ==> store.state == old(store).state
    {
      hide PrefixReadable, V1Readable, V1Refused, Snapshot, Derives, IsRun;
      ghost var before := run;
      SelectedV1(run, v1State);
      var read := ReadV1(store, v1State, workBound);
      if read.Err? {
        return Err(read.error);
      }
      SnapshotHead(read.value, CanonV1(Some(v1State.head.value.entry)));
      var head := read.value.head;
      var leaf := DescriptorLeaf(v1State, head.value);
      var put := Put(DescriptorAt(StorageId(leaf)), leaf);
      if !put {
        return Err(ConflictingObject);
      }
      SelectedLonger(before, run, Some(V1(v1State)));
      SelectedV1(run, v1State);
      var prefix := Prefix(head.value.sequence + 1, v1State.head.value, head.value, StorageId(leaf));
      DescribesPrefix(store, v1State, prefix);
      return Ok(prefix);
    }

    /** `install_v2`: verify the v1 prefix, describe it, reserve a namespace, select both at once. */
    method InstallV2(observed: Option<StateLeaf>) returns (r: Result<Option<nat>, JournalError>)
      requires Valid() && Selected(run, observed) && (observed.Some? ==> observed.value.V1?)
      modifies this
      ensures Valid() && old(run) <= run && entered == old(entered)
      ensures r.Ok? && r.value.Some? ==> exchanges == old(exchanges) + 1 && JustLeased(r.value.value)
      ensures r.Err? || r.value.None? ==> exchanges == old(exchanges)
      ensures alone && old(store).state == observed == None ==> r == Ok(Some(1)) && FirstLease(store)
      ensures alone && old(store).state == observed ==> Leased(observed, store.state, r, workBound)
    {
      var prefix: Option<Prefix> := None;
      if observed.Some? && observed.value.v1State.head.Some? {
        var described := DescribePrefix(observed.value.v1State);
        if described.Err? {
          return Err(described.error);
        }
        prefix := Some(described.value);
      }
      SelectedLonger(old(run), run, observed);
      r := SelectV2(observed, prefix);
    }

    method SelectV2(observed: Option<StateLeaf>, prefix: Option<Prefix>) returns (r: Result<Option<nat>, JournalError>)
      requires Valid() && Selected(run, observed) && (observed.Some? ==> observed.value.V1?)
      requires DescribedIn(store, observed, prefix)
      modifies `run, `store, `exchanges, `lastExchange
      ensures Valid() && old(run) <= run
      ensures r.Ok? && r.value.Some? ==> exchanges == old(exchanges) + 1 && JustLeased(r.value.value)
      ensures r.Err? || r.value.None? ==> exchanges == old(exchanges)
      ensures alone && old(store).state == observed == None ==> r == Ok(Some(1)) && FirstLease(store)
      ensures alone && old(store).state == observed ==>
        if FenceOf(observed) == MAX_FENCE then r == Err(Backend) && store == old(store)
        else
          && r == Ok(Some(FenceOf(observed) + 1)) && store.state.Some? && store.state.value.V2?
          && FenceOf(store.state) == FenceOf(observed) + 1 && ChainOf(store.state) == ChainOf(observed)
    {
      hide Justified, DescribedIn, EnvelopeChain, ChainOf, IsRun, LeasedLast, FirstLease;
      var fence := FenceOf(observed);
      if fence == MAX_FENCE {
        return Err(Backend);
      }
      var namespace := ReserveNamespace();
      var head := if prefix.Some? then Some(prefix.value.canonicalHead) else None;
      var envelope := Envelope(fence + 1, namespace, prefix, head, None);
      SelectedLonger(old(run), run, observed);
      InstallReady(old(run), run, observed, prefix, envelope);
      var exchanged := ExchangeState(observed, envelope);
      if exchanged {
        InstalledLast(run, observed, fence + 1);
        if observed.None? {
          InstalledFirst(store, envelope);
        }
      }
      return Ok(if exchanged then Some(fence + 1) else None);
    }

    /** Without interference a lease is the next fence, up to the last one. */
    ghost predicate LeasedAlone(before: Store, r: Result<Option<nat>, JournalError>)
      requires before.state.Some? && before.state.value.V2?
      reads `store
    {
      var fence := FenceOf(before.state);
      if fence == MAX_FENCE then r == Err(Backend) && store == before
      else r == Ok(Some(fence + 1)) && store == Bumped(before)
    }

    /** Whether the selected envelope reads back: a lease is only granted on what does. */
    method ReadSelected(envelope: Envelope) returns (r: Result<StoredState, JournalError>)
      requires Valid() && Selected(run, Some(V2(envelope)))
      ensures r.Ok? <==> |EnvelopeChain(envelope)| <= workBound
      ensures r.Err? ==> r == Err(WorkBoundExceeded)
    {
      SelectedGood(run, envelope);
      ReadsGood(store, envelope, workBound);
      r := ReadV2(store, envelope, workBound);
    }

    /** The lease on a v2 state: only the fence moves. */
    method BumpFence(observed: Option<StateLeaf>) returns (r: Result<Option<nat>, JournalError>)
      requires Valid() && Selected(run, observed) && observed.Some? && observed.value.V2?
      modifies `run, `store, `exchanges, `lastExchange
      ensures Valid() && old(run) <= run
      ensures r.Ok? && r.value.Some? ==> exchanges == old(exchanges) + 1 && JustLeased(r.value.value)
      ensures r.Err? || r.value.None? ==> exchanges == old(exchanges)
      ensures alone && old(store).state == observed && ReadableV2(old(store), workBound) ==> LeasedAlone(old(store), r)
      ensures alone && old(store).state == observed ==> Leased(observed, store.state, r, workBound)
    {
      var envelope := observed.value.envelope;
      hide EnvelopeChain, IsRun, Justified, LeasedLast;
      var read := ReadSelected(envelope);
      if read.Err? {
        return Err(read.error);
      }
      if envelope.fence == MAX_FENCE {
        return Err(Backend);
      }
      BumpReady(store, envelope);
      var exchanged := ExchangeState(observed, envelope.(fence := envelope.fence + 1));
      if exchanged {
        BumpedLast(run, envelope);
      }
      return Ok(if exchanged then Some(envelope.fence + 1) else None);
    }

    /** `acquire_lease`: observe, verify, exchange; another writer's exchange makes it start over. */
    method AcquireLease(attempts: nat) returns (r: Result<nat, JournalError>)
      requires Valid()
      modifies this
      ensures Valid() && old(run) <= run && entered == old(entered)
      ensures r.Ok? ==> exchanges == old(exchanges) + 1 && JustLeased(r.value)
      ensures r.Err? ==> exchanges == old(exchanges)
      ensures !writable ==> r == Err(WriteRefused) && run == old(run) && store == old(store)
      ensures alone && writable && attempts > 0 && ReadableV2(old(store), workBound) ==>
        LeasedAlone(old(store), if r.Ok? then Ok(Some(r.value)) else Err(r.error))
      ensures alone && writable && attempts > 0 && old(store).state.None? ==> r == Ok(1) && FirstLease(store)
      ensures alone && writable && attempts > 0 ==>
        Leased(old(store).state, store.state, if r.Ok? then Ok(Some(r.value)) else Err(r.error), workBound)
    {
      if !writable {
        return Err(WriteRefused);
      }
      for attempt := 0 to attempts
        invariant Valid() && old(run) <= run && entered == old(entered) && exchanges == old(exchanges)
        invariant attempt > 0 ==> !alone
        invariant attempt == 0 ==> store == old(store)
      {
        var observed := StateBytes();
        var leased: Result<Option<nat>, JournalError>;
        if observed.None? || observed.value.V1? {
          leased := InstallV2(observed);
        } else {
          leased := BumpFence(observed);
        }
        if leased.Err? {
          return Err(leased.error);
        }
        if leased.value.Some? {
          return Ok(leased.value.value);
        }
      }
      return Err(Backend);
    }
  }

  /** A described prefix of a selected state stays readable. */
  lemma {:induction false} PrefixKept(before: seq<Store>, run: seq<Store>, observed: Option<StateLeaf>, prefix: Prefix)
    requires IsRun(run) && before != [] && before <= run
    requires Selected(run, observed) && observed.Some? && observed.value.V1?
    requires observed.value.v1State.head == Some(prefix.physicalHead)
    requires PrefixReadable(before[|before| - 1], prefix)
    ensures PrefixReadable(run[|run| - 1], prefix)
  {
    RunKeeps(run, |before| - 1, |run| - 1);
    SelectedServed(run, observed);
  }

  lemma {:induction false} SelectedLonger(run: seq<Store>, longer: seq<Store>, state: Option<StateLeaf>)
    requires run <= longer && Selected(run, state)
    ensures Selected(longer, state)
  {
    var i :| 0 <= i < |run| && run[i].state == state;
    assert longer[i].state == state;
  }
}
