/**
 * The host store: one `state` leaf, immutable content-addressed leaves, and the readers.
 *
 * A storage id wraps the leaf it addresses, so a location wraps the whole chain of leaves behind it.
 */
module HostStore {
  import opened Wrappers
  import opened JournalTypes
  import opened JournalLaws
  import opened MemoryBackend
  import opened ChainOrder

  // ---------------------------------------------------------------------------------------------
  // Leaves and states

  datatype V1Id =
    | V1Object(bytes: seq<nat>)
    | V1Hash(sequence: nat, previous: Option<V1Id>, kind: Symbol, payloads: seq<V1Id>)

  datatype V1Entry = V1Entry(id: V1Id, sequence: nat, previous: Option<V1Id>, kind: Symbol, payloads: seq<V1Id>)

  datatype V1Head = V1Head(sequence: nat, entry: V1Id)

  datatype V1State = V1State(fence: nat, head: Option<V1Head>)

  datatype Leaf =
    | ObjectLeaf(datum: Datum)
    | EntryLeaf(physical: PhysicalEntry)
    | DescriptorLeaf(v1State: V1State, canonicalHead: Head)

  datatype StorageId = StorageId(leaf: Leaf)

  datatype StoredRef = StoredRef(meaning: ContentId, storage: StorageId)

  datatype Location = Location(namespace: nat, sequence: nat, entry: ContentId, storage: StorageId)

  datatype PhysicalEntry = PhysicalEntry(entry: Entry, previous: Option<Location>, payloads: seq<StoredRef>)

  datatype Prefix = Prefix(entries: nat, physicalHead: V1Head, canonicalHead: Head, descriptor: StorageId)

  datatype Envelope = Envelope(
    fence: nat, namespace: nat, prefix: Option<Prefix>, head: Option<Head>, headLocation: Option<Location>)

  datatype StateLeaf = V1(v1State: V1State) | V2(envelope: Envelope)

  datatype Path = ObjectAt(ref: StoredRef) | EntryAt(location: Location) | DescriptorAt(id: StorageId)

  datatype Store = Store(
    state: Option<StateLeaf>,
    leaves: map<Path, Leaf>,
    namespaces: set<nat>,
    v1Entries: map<nat, V1Entry>,
    v1Objects: map<V1Id, seq<nat>>)

  function RefOf(datum: Datum): StoredRef {
    StoredRef(ContentId(datum), StorageId(ObjectLeaf(datum)))
  }

  // ---------------------------------------------------------------------------------------------
  // Semantic objects

  function LoadObject(store: Store, ref: StoredRef): Result<JournalObject, JournalError> {
    if ObjectAt(ref) !in store.leaves then Err(Backend)
    else
      var leaf := store.leaves[ObjectAt(ref)];
      if StorageId(leaf) != ref.storage || !leaf.ObjectLeaf? then Err(CorruptState)
      else if ContentId(leaf.datum) != ref.meaning then Err(CorruptObject(ref.meaning))
      else Ok(ObjectOf(leaf.datum))
  }

  /** The object leaves listed under one meaning. */
  function Listed(store: Store, meaning: ContentId): set<StoredRef> {
    set path | path in store.leaves && path.ObjectAt? && path.ref.meaning == meaning :: path.ref
  }

  function FindObject(store: Store, meaning: ContentId): Result<StoredRef, JournalError> {
    var files := Listed(store, meaning);
    if files == {} then Err(MissingSemanticObject(meaning))
    else if |files| != 1 then Err(CorruptState)
    else
      assert exists ref :: files == {ref} by { SingletonSet(files); }
      var ref :| ref in files;
      match LoadObject(store, ref)
      case Err(error) => Err(error)
      case Ok(_) => Ok(ref)
  }

  /** Why an object leaf is refused: it is missing, it is not the leaf its name tells, or it has another meaning. */
  lemma {:induction false} LoadObjectReason(store: Store, ref: StoredRef)
    ensures LoadObject(store, ref) ==
      if ObjectAt(ref) !in store.leaves then Err(Backend)
      else if !(ref.storage.leaf.ObjectLeaf? && store.leaves[ObjectAt(ref)] == ref.storage.leaf) then Err(CorruptState)
      else if ref == RefOf(ref.storage.leaf.datum) then Ok(ObjectOf(ref.storage.leaf.datum))
      else Err(CorruptObject(ref.meaning))
  {
  }

  /** Why an object is not found: no leaf under its meaning, more than one, or one that does not load. */
  lemma {:induction false} FindObjectReason(store: Store, meaning: ContentId)
    ensures FindObject(store, meaning) == Err(MissingSemanticObject(meaning)) <==> Listed(store, meaning) == {}
    ensures |Listed(store, meaning)| > 1 ==> FindObject(store, meaning) == Err(CorruptState)
    ensures forall ref :: Listed(store, meaning) == {ref} ==>
      var loaded := LoadObject(store, ref);
      FindObject(store, meaning) == if loaded.Ok? then Ok(ref) else Err(loaded.error)
  {
    var files := Listed(store, meaning);
    if |files| == 1 {
      SingletonSet(files);
      forall ref | ref in files
        ensures files == {ref} && LoadObject(store, ref) != Err(MissingSemanticObject(meaning))
      {
        assert |files - {ref}| == 0;
      }
    }
  }

  lemma {:induction false} SingletonSet<T>(s: set<T>)
    requires |s| == 1
    ensures exists x :: s == {x}
  {
    var x :| x in s;
    assert |s - {x}| == 0;
    assert s == {x};
  }

  /** The reference leads to the object leaf it names. */
  ghost predicate RefReadable(store: Store, ref: StoredRef) {
    && ref.storage.leaf.ObjectLeaf? && ref == RefOf(ref.storage.leaf.datum)
    && ObjectAt(ref) in store.leaves && store.leaves[ObjectAt(ref)] == ref.storage.leaf
  }

  // ---------------------------------------------------------------------------------------------
  // The v1 prefix

  function V1CanonicalId(e: V1Entry): V1Id {
    V1Hash(e.sequence, e.previous, e.kind, e.payloads)
  }

  /** The physical id the entry at position `n` must name. */
  ghost function V1Before(store: Store, n: nat): Option<V1Id> {
    if n == 0 then None else if n - 1 in store.v1Entries then Some(store.v1Entries[n - 1].id) else None
  }

  /** The payload's bytes are stored under their own id. */
  ghost predicate V1PayloadOk(store: Store, p: V1Id) {
    p in store.v1Objects && V1Object(store.v1Objects[p]) == p
  }

  ghost predicate V1EntryOk(store: Store, n: nat) {
    && n in store.v1Entries
    && var e := store.v1Entries[n];
    && e.sequence == n && e.previous == V1Before(store, n) && e.id == V1CanonicalId(e)
    && forall p :: p in e.payloads ==> V1PayloadOk(store, p)
  }

  ghost predicate V1Good(store: Store, n: nat) {
    forall i: nat :: i < n ==> V1EntryOk(store, i)
  }

  /** The semantic id of a v1 payload: the exact-bytes value of the same bytes. */
  function V1Meaning(payload: V1Id): ContentId {
    ContentId(ExactBytes(if payload.V1Object? then payload.bytes else []))
  }

  function V1Meanings(payloads: seq<V1Id>): seq<ContentId> {
    seq(|payloads|, i requires 0 <= i < |payloads| => V1Meaning(payloads[i]))
  }

  /** The canonical chain a v1 id stands for. */
  function CanonV1(id: Option<V1Id>): seq<Entry> {
    if id.None? || id.value.V1Object? then []
    else
      var h := id.value;
      var before := CanonV1(h.previous);
      before + [NewEntry(h.sequence, LastId(before), h.kind, V1Meanings(h.payloads))]
  }

  lemma {:induction false} CanonV1IsChain(store: Store, n: nat)
    requires V1Good(store, n)
    ensures IsChain(CanonV1(V1Before(store, n)))
    ensures |CanonV1(V1Before(store, n))| == n
  {
    if n > 0 {
      CanonV1IsChain(store, n - 1);
      assert V1EntryOk(store, n - 1);
      var before := CanonV1(V1Before(store, n - 1));
      ChainSnoc(before, CanonV1(V1Before(store, n))[n - 1]);
    }
  }

  /** The entry keeps the leaf's kind and, one by one, the bytes of its payloads. */
  ghost predicate Derives(store: Store, leaf: V1Entry, e: Entry) {
    && e.kind == leaf.kind && |e.payloads| == |leaf.payloads|
    && forall j :: 0 <= j < |leaf.payloads| ==>
         leaf.payloads[j] in store.v1Objects
         && e.payloads[j] == ContentId(ExactBytes(store.v1Objects[leaf.payloads[j]]))
  }

  lemma {:induction false} LeafDerives(store: Store, n: nat, e: Entry)
    requires V1EntryOk(store, n)
    requires e.kind == store.v1Entries[n].kind && e.payloads == V1Meanings(store.v1Entries[n].payloads)
    ensures Derives(store, store.v1Entries[n], e)
  {
    var leaf := store.v1Entries[n];
    forall j | 0 <= j < |leaf.payloads|
      ensures leaf.payloads[j] in store.v1Objects
        && V1Meaning(leaf.payloads[j]) == ContentId(ExactBytes(store.v1Objects[leaf.payloads[j]]))
    {
      assert leaf.payloads[j] in leaf.payloads;
    }
  }

  lemma {:induction false} CanonV1Snoc(store: Store, n: nat)
    requires V1Good(store, n + 1)
    ensures n in store.v1Entries
    ensures var before, leaf := CanonV1(V1Before(store, n)), store.v1Entries[n];
      && |before| == n
      && CanonV1(V1Before(store, n + 1)) == before + [NewEntry(n, LastId(before), leaf.kind, V1Meanings(leaf.payloads))]
  {
    assert V1EntryOk(store, n);
    CanonV1IsChain(store, n);
  }

  /** What the derived chain keeps of every leaf. */
  lemma {:induction false} CanonV1Derives(store: Store, n: nat, i: nat)
    requires V1Good(store, n) && i < n
    ensures i in store.v1Entries
    ensures var chain := CanonV1(V1Before(store, n)); |chain| == n && Derives(store, store.v1Entries[i], chain[i])
  {
    hide CanonV1, Derives;
    CanonV1Snoc(store, n - 1);
    if i < n - 1 {
      CanonV1Derives(store, n - 1, i);
    } else {
      assert V1EntryOk(store, i);
      LeafDerives(store, i, CanonV1(V1Before(store, n))[i]);
    }
  }

  /** A lawful state that stores exactly the payloads of its chain. */
  ghost predicate Snapshot(state: StoredState, chain: seq<Entry>) {
    && Lawful(state, chain)
    && state.objects.Keys == PayloadIds(chain)
  }

  lemma {:induction false} PayloadIdsMember(chain: seq<Entry>, p: ContentId)
    ensures p in PayloadIds(chain) <==> exists e :: e in chain && p in e.payloads
  {
    if chain != [] {
      PayloadIdsMember(chain[1..], p);
      assert forall e :: e in chain <==> e == chain[0] || e in chain[1..];
    }
  }

  lemma {:induction false} PayloadIdsConcat(a: seq<Entry>, b: seq<Entry>)
    ensures PayloadIds(a + b) == PayloadIds(a) + PayloadIds(b)
  {
    if a == [] {
      assert a + b == b;
    } else {
      assert (a + b)[1..] == a[1..] + b;
      PayloadIdsConcat(a[1..], b);
    }
  }

  /** The objects and datums for one more entry's payloads. */
  function AddPayloads(state: StoredState, meanings: seq<ContentId>): StoredState
    decreases |meanings|
  {
    if meanings == [] then state
    else
      var p := meanings[0];
      AddPayloads(state.(objects := state.objects[p := Project(p.meaning)], datums := state.datums[p := p.meaning]),
        meanings[1..])
  }

  lemma {:induction false} AddPayloadsStores(state: StoredState, meanings: seq<ContentId>)
    requires AllHeld(state.objects, state.datums)
    ensures var after := AddPayloads(state, meanings);
      && after.entries == state.entries && after.head == state.head
      && AllHeld(after.objects, after.datums)
      && (forall p :: p in after.objects <==> p in state.objects || p in meanings)
    decreases |meanings|
  {
    if meanings != [] {
      var p := meanings[0];
      var next := state.(objects := state.objects[p := Project(p.meaning)], datums := state.datums[p := p.meaning]);
      assert AllHeld(next.objects, next.datums) by {
        assert forall q :: q in state.objects ==> HeldIn(state.objects, state.datums, q);
      }
      AddPayloadsStores(next, meanings[1..]);
      assert forall q :: q in meanings <==> q == p || q in meanings[1..];
    }
  }

  /** A state whose objects are what their ids say, and exactly those of the chain. */
  ghost predicate ObjectsExact(state: StoredState, chain: seq<Entry>) {
    AllHeld(state.objects, state.datums) && state.objects.Keys == PayloadIds(chain)
  }

  lemma {:induction false} SnapshotIff(state: StoredState, chain: seq<Entry>)
    ensures Snapshot(state, chain) <==>
      && IsChain(chain) && state.entries == EntryMap(chain) && state.head == ChainHead(chain)
      && ObjectsExact(state, chain)
  {
    forall e, p | e in chain && p in e.payloads
      ensures p in PayloadIds(chain)
    {
      PayloadIdsMember(chain, p);
    }
  }

  /** Storing the payloads of one more entry, at either end of the chain. */
  lemma {:induction false} ObjectsExactAdd(state: StoredState, chain: seq<Entry>, e: Entry)
    requires ObjectsExact(state, chain)
    ensures ObjectsExact(AddPayloads(state, e.payloads), chain + [e])
    ensures ObjectsExact(AddPayloads(state, e.payloads), [e] + chain)
    ensures AddPayloads(state, e.payloads).entries == state.entries && AddPayloads(state, e.payloads).head == state.head
  {
    AddPayloadsStores(state, e.payloads);
    PayloadIdsConcat(chain, [e]);
    PayloadIdsConcat([e], chain);
    assert [e][1..] == [] && PayloadIds([e]) == set p | p in e.payloads;
  }

  lemma {:induction false} EntryMapSnoc(chain: seq<Entry>, e: Entry)
    ensures EntryMap(chain + [e]) == EntryMap(chain)[|chain| := e]
  {
  }

  // ---------------------------------------------------------------------------------------------
  // Reading the v1 prefix

  /** The v1 head names a good chain of leaves. */
  ghost predicate V1Readable(store: Store, head: V1Head) {
    V1Good(store, head.sequence + 1) && V1Before(store, head.sequence + 1) == Some(head.entry)
  }

  /** The first payload that is not there under its name, and how. */
  ghost predicate V1PayloadsFail(store: Store, payloads: seq<V1Id>, error: JournalError) {
    exists k :: 0 <= k < |payloads| && !V1PayloadOk(store, payloads[k])
      && (forall i :: 0 <= i < k ==> V1PayloadOk(store, payloads[i]))
      && error == if payloads[k] in store.v1Objects then CorruptV1Object else Backend
  }

  method LoadV1Payloads(store: Store, payloads: seq<V1Id>, before: StoredState)
    returns (r: Result<StoredState, JournalError>)
    ensures r.Ok? <==> forall p :: p in payloads ==> V1PayloadOk(store, p)
    ensures r.Ok? ==> r.value == AddPayloads(before, V1Meanings(payloads))
    ensures r.Err? ==> V1PayloadsFail(store, payloads, r.error)
  {
    var state := before;
    ghost var rest := V1Meanings(payloads);
    for k := 0 to |payloads|
      invariant rest == V1Meanings(payloads)[k..]
      invariant forall i :: 0 <= i < k ==> V1PayloadOk(store, payloads[i])
      invariant AddPayloads(state, rest) == AddPayloads(before, V1Meanings(payloads))
    {
      var id := payloads[k];
      if id !in store.v1Objects {
        assert !V1PayloadOk(store, payloads[k]);
        return Err(Backend);
      }
      var bytes := store.v1Objects[id];
      if V1Object(bytes) != id {
        assert !V1PayloadOk(store, payloads[k]);
        return Err(CorruptV1Object);
      }
      var item := ObjectOf(ExactBytes(bytes));
      state := state.(objects := state.objects[item.id := item.bytes], datums := state.datums[item.id := item.datum]);
      rest := rest[1..];
    }
    return Ok(state);
  }

  /** What the loop of `read_v1` has built from the first `n` leaves. */
  ghost predicate V1Built(store: Store, n: nat, previous: Option<V1Id>, chain: seq<Entry>, state: StoredState) {
    && V1Good(store, n) && previous == V1Before(store, n)
    && chain == CanonV1(previous) && IsChain(chain) && |chain| == n
    && state.entries == EntryMap(chain) && state.head == None && ObjectsExact(state, chain)
  }

  lemma {:induction false} V1BuiltNone(store: Store)
    ensures V1Built(store, 0, None, [], EMPTY_STATE)
  {
  }

  lemma {:induction false} V1ChainStep(store: Store, n: nat, physical: V1Entry, chain: seq<Entry>, entry: Entry)
    requires V1Good(store, n) && chain == CanonV1(V1Before(store, n)) && IsChain(chain) && |chain| == n
    requires V1EntryOk(store, n) && physical == store.v1Entries[n]
    requires entry == NewEntry(n, LastId(chain), physical.kind, V1Meanings(physical.payloads))
    ensures V1Good(store, n + 1) && V1Before(store, n + 1) == Some(physical.id)
    ensures CanonV1(Some(physical.id)) == chain + [entry] && IsChain(chain + [entry])
  {
    ChainSnoc(chain, entry);
  }

  lemma {:induction false} V1Step(
      store: Store, n: nat, previous: Option<V1Id>, chain: seq<Entry>, state: StoredState, physical: V1Entry,
      entry: Entry)
    requires V1Built(store, n, previous, chain, state)
    requires V1EntryOk(store, n) && physical == store.v1Entries[n]
    requires entry == NewEntry(n, LastId(chain), physical.kind, V1Meanings(physical.payloads))
    ensures var after := AddPayloads(state, entry.payloads);
      V1Built(store, n + 1, Some(physical.id), chain + [entry], after.(entries := after.entries[n := entry]))
  {
    V1ChainStep(store, n, physical, chain, entry);
    ObjectsExactAdd(state, chain, entry);
    EntryMapSnoc(chain, entry);
  }

  lemma {:induction false} BuiltDerives(
      store: Store, n: nat, previous: Option<V1Id>, chain: seq<Entry>, state: StoredState)
    requires V1Built(store, n, previous, chain, state)
    ensures forall i: nat :: i < n ==>
      i in state.entries && i in store.v1Entries && Derives(store, store.v1Entries[i], state.entries[i])
  {
    forall i: nat | i < n
      ensures i in state.entries && i in store.v1Entries && Derives(store, store.v1Entries[i], state.entries[i])
    {
      assert V1EntryOk(store, i);
      CanonV1Derives(store, n, i);
    }
  }

  /** The first thing wrong with the v1 leaf at position `n`. */
  ghost predicate V1Fails(store: Store, n: nat, error: JournalError) {
    if n !in store.v1Entries then error == Backend
    else
      var e := store.v1Entries[n];
      if e.sequence != n || e.previous != V1Before(store, n) then error == CorruptState
      else if e.id != V1CanonicalId(e) then error == CorruptEntry
      else V1PayloadsFail(store, e.payloads, error)
  }

  /** Why a v1 state is not read: no head, too long a chain, the first bad leaf, or a head that is not the last leaf. */
  ghost predicate V1Refused(store: Store, v1State: V1State, workBound: nat, error: JournalError) {
    if v1State.head.None? then error == CorruptState
    else if v1State.head.value.sequence + 1 > workBound then error == WorkBoundExceeded
    else if V1Good(store, v1State.head.value.sequence + 1) then
      !V1Readable(store, v1State.head.value) && error == CorruptState
    else exists n: nat :: n <= v1State.head.value.sequence && V1Good(store, n) && !V1EntryOk(store, n)
           && V1Fails(store, n, error)
  }

  /** `read_v1`: succeeds exactly on readable prefixes within the bound, with the canonical chain. */
  method ReadV1(store: Store, v1State: V1State, workBound: nat) returns (r: Result<StoredState, JournalError>)
    ensures r.Ok? <==>
      (v1State.head.Some? && V1Readable(store, v1State.head.value) && v1State.head.value.sequence + 1 <= workBound)
    ensures r.Ok? ==> Snapshot(r.value, CanonV1(Some(v1State.head.value.entry)))
    ensures r.Ok? ==> forall i: nat :: i <= v1State.head.value.sequence ==>
      i in r.value.entries && i in store.v1Entries && Derives(store, store.v1Entries[i], r.value.entries[i])
    ensures r.Err? ==> V1Refused(store, v1State, workBound, r.error)
    ensures v1State.head.Some? && V1Readable(store, v1State.head.value) && r.Err? ==> r == Err(WorkBoundExceeded)
  {
    hide CanonV1, ObjectsExact, IsChain, Snapshot;
    if v1State.head.None? {
      return Err(CorruptState);
    }
    var head := v1State.head.value;
    V1BuiltNone(store);
    var needed := head.sequence + 1;
    if needed > workBound {
      return Err(WorkBoundExceeded);
    }
    var state := EMPTY_STATE;
    var physicalPrevious: Option<V1Id> := None;
    var canonicalPrevious: Option<ContentId> := None;
    ghost var chain: seq<Entry> := [];
    for sequence := 0 to needed
      invariant V1Built(store, sequence, physicalPrevious, chain, state)
      invariant canonicalPrevious == LastId(chain)
    {
      if sequence !in store.v1Entries {
        assert !V1EntryOk(store, sequence);
        return Err(Backend);
      }
      var physical := store.v1Entries[sequence];
      if physical.sequence != sequence || physical.previous != physicalPrevious {
        assert !V1EntryOk(store, sequence);
        return Err(CorruptState);
      }
      if physical.id != V1CanonicalId(physical) {
        assert !V1EntryOk(store, sequence);
        return Err(CorruptEntry);
      }
      var loaded := LoadV1Payloads(store, physical.payloads, state);
      if loaded.Err? {
        assert !V1EntryOk(store, sequence);
        return loaded;
      }
      var entry := NewEntry(sequence, canonicalPrevious, physical.kind, V1Meanings(physical.payloads));
      V1Step(store, sequence, physicalPrevious, chain, state, physical, entry);
      physicalPrevious := Some(physical.id);
      canonicalPrevious := Some(entry.id);
      state := loaded.value.(entries := loaded.value.entries[sequence := entry]);
      chain := chain + [entry];
    }
    if physicalPrevious != Some(head.entry) {
      return Err(CorruptState);
    }
    BuiltIsSnapshot(state, chain);
    BuiltDerives(store, needed, physicalPrevious, chain, state);
    var entries := Values(state.entries);
    r := Verified(state.(head := ChainHead(entries)));
  }

  /** Every finished read is verified before it is returned. */
  method Verified(state: StoredState) returns (r: Result<StoredState, JournalError>)
    ensures r == if VerifyStateResult(state).Ok? then Ok(state) else Err(VerifyStateResult(state).error)
  {
    var verified := VerifyState(state);
    if verified.Err? {
      return Err(verified.error);
    }
    return Ok(state);
  }

  lemma {:induction false} BuiltIsSnapshot(built: StoredState, chain: seq<Entry>)
    requires IsChain(chain) && built.entries == EntryMap(chain) && ObjectsExact(built, chain)
    ensures Values(built.entries) == chain
    ensures Snapshot(built.(head := ChainHead(chain)), chain)
    ensures VerifyStateResult(built.(head := ChainHead(chain))).Ok?
  {
    ValuesOfChain(built.entries, chain, 0);
    assert chain[0..] == chain;
    var state := built.(head := ChainHead(chain));
    SnapshotIff(state, chain);
    LawfulVerifies(state, chain);
  }

  // ---------------------------------------------------------------------------------------------
  // Reading the selected envelope

  function PrefixChain(prefix: Option<Prefix>): seq<Entry> {
    if prefix.None? then [] else CanonV1(Some(prefix.value.physicalHead.entry))
  }

  /** The descriptor leaf and the v1 leaves behind it say what the prefix reference says. */
  ghost predicate PrefixReadable(store: Store, prefix: Prefix) {
    && DescriptorAt(prefix.descriptor) in store.leaves
    && var leaf := store.leaves[DescriptorAt(prefix.descriptor)];
    && leaf == prefix.descriptor.leaf && leaf.DescriptorLeaf?
    && leaf.v1State.head == Some(prefix.physicalHead) && leaf.canonicalHead == prefix.canonicalHead
    && V1Readable(store, prefix.physicalHead)
    && ChainHead(CanonV1(Some(prefix.physicalHead.entry))) == Some(prefix.canonicalHead)
    && prefix.entries == prefix.canonicalHead.sequence + 1
  }

  /** Why a prefix is not read: its descriptor, the v1 state described there, or the canonical head. */
  ghost predicate PrefixRefused(store: Store, prefix: Prefix, workBound: nat, error: JournalError) {
    if DescriptorAt(prefix.descriptor) !in store.leaves then error == Backend
    else
      var leaf := store.leaves[DescriptorAt(prefix.descriptor)];
      if leaf != prefix.descriptor.leaf || !leaf.DescriptorLeaf? || leaf.v1State.head != Some(prefix.physicalHead) then
        error == CorruptState
      else if V1Readable(store, prefix.physicalHead) && prefix.physicalHead.sequence + 1 <= workBound then
        !PrefixReadable(store, prefix) && error == CorruptState
      else V1Refused(store, leaf.v1State, workBound, error)
  }

  method ReadPrefix(store: Store, prefix: Prefix, workBound: nat) returns (r: Result<StoredState, JournalError>)
    ensures r.Ok? <==> PrefixReadable(store, prefix) && prefix.physicalHead.sequence + 1 <= workBound
    ensures r.Ok? ==> Snapshot(r.value, CanonV1(Some(prefix.physicalHead.entry)))
    ensures r.Err? ==> PrefixRefused(store, prefix, workBound, r.error)
    ensures PrefixReadable(store, prefix) && r.Err? ==> r == Err(WorkBoundExceeded)
  {
    if DescriptorAt(prefix.descriptor) !in store.leaves {
      return Err(Backend);
    }
    var leaf := store.leaves[DescriptorAt(prefix.descriptor)];
    if StorageId(leaf) != prefix.descriptor || !leaf.DescriptorLeaf? {
      return Err(CorruptState);
    }
    if leaf.v1State.head != Some(prefix.physicalHead) {
      return Err(CorruptState);
    }
    var state := ReadV1(store, leaf.v1State, workBound);
    if state.Err? {
      return state;
    }
    if leaf.canonicalHead != prefix.canonicalHead || state.value.head != Some(prefix.canonicalHead)
       || prefix.entries != prefix.canonicalHead.sequence + 1 {
      return Err(CorruptState);
    }
    return state;
  }

  /** The physical entry a location addresses is the one it wraps, and is canonical. */
  ghost predicate EntryReadable(store: Store, location: Location, namespace: nat) {
    && location.namespace == namespace
    && EntryAt(location) in store.leaves && store.leaves[EntryAt(location)] == location.storage.leaf
    && location.storage.leaf.EntryLeaf?
    && var physical := location.storage.leaf.physical;
    && physical.entry.id == location.entry && physical.entry.sequence == location.sequence
    && CanonicalId(physical.entry) == physical.entry.id
    && PayloadsReadable(store, physical)
  }

  ghost predicate PayloadsReadable(store: Store, physical: PhysicalEntry) {
    && |physical.payloads| == |physical.entry.payloads|
    && forall i :: 0 <= i < |physical.payloads| ==>
         physical.payloads[i].meaning == physical.entry.payloads[i] && RefReadable(store, physical.payloads[i])
  }

  /** All leaves behind the location are readable in one namespace. */
  ghost predicate Linked(store: Store, location: Option<Location>, namespace: nat) {
    location.None? ||
    (EntryReadable(store, location.value, namespace)
     && Linked(store, location.value.storage.leaf.physical.previous, namespace))
  }

  /** The entries behind a location, oldest first. */
  function Walk(location: Option<Location>): seq<Entry> {
    if location.None? || !location.value.storage.leaf.EntryLeaf? then []
    else
      var physical := location.value.storage.leaf.physical;
      Walk(physical.previous) + [physical.entry]
  }

  /** The semantic chain an envelope selects. */
  function EnvelopeChain(envelope: Envelope): seq<Entry> {
    PrefixChain(envelope.prefix) + Walk(envelope.headLocation)
  }

  /** The envelope selects a chain that the store can serve. */
  ghost predicate EnvelopeGood(store: Store, envelope: Envelope) {
    && envelope.namespace in store.namespaces
    && (envelope.prefix.Some? ==> PrefixReadable(store, envelope.prefix.value))
    && Linked(store, envelope.headLocation, envelope.namespace)
    && IsChain(EnvelopeChain(envelope))
    && envelope.head == ChainHead(EnvelopeChain(envelope))
  }

  /** Why an entry's payloads are not read: the first reference that does not lead to its payload, or their number. */
  ghost predicate PayloadsRefused(store: Store, physical: PhysicalEntry, error: JournalError) {
    var meanings, refs := physical.entry.payloads, physical.payloads;
    || (|meanings| != |refs| && error == CorruptState && PayloadsFit(store, physical, |meanings|))
    || exists k :: 0 <= k < |meanings| && k < |refs| && PayloadRefused(store, meanings[k], refs[k], error)
         && PayloadsFit(store, physical, k)
  }

  /** The references before the `k`-th, as far as there are any, lead to their payloads. */
  ghost predicate PayloadsFit(store: Store, physical: PhysicalEntry, k: nat)
    requires k <= |physical.entry.payloads|
  {
    forall i :: 0 <= i < k && i < |physical.payloads| ==>
      physical.payloads[i].meaning == physical.entry.payloads[i] && RefReadable(store, physical.payloads[i])
  }

  ghost predicate PayloadRefused(store: Store, meaning: ContentId, ref: StoredRef, error: JournalError) {
    if meaning != ref.meaning then error == CorruptState else LoadObject(store, ref) == Err(error)
  }

  method LoadPayloads(store: Store, physical: PhysicalEntry, before: StoredState)
    returns (r: Result<StoredState, JournalError>)
    ensures r.Ok? <==> PayloadsReadable(store, physical)
    ensures r.Ok? ==> r.value == AddPayloads(before, physical.entry.payloads)
    ensures r.Err? ==> PayloadsRefused(store, physical, r.error)
  {
    var state := before;
    var meanings, refs := physical.entry.payloads, physical.payloads;
    var n := if |meanings| <= |refs| then |meanings| else |refs|;
    ghost var rest := meanings;
    for k := 0 to n
      invariant rest == meanings[k..]
      invariant forall i :: 0 <= i < k ==> refs[i].meaning == meanings[i] && RefReadable(store, refs[i])
      invariant AddPayloads(state, rest) == AddPayloads(before, meanings)
    {
      if meanings[k] != refs[k].meaning {
        assert PayloadRefused(store, meanings[k], refs[k], CorruptState);
        return Err(CorruptState);
      }
      var item := LoadObject(store, refs[k]);
      if item.Err? {
        assert !RefReadable(store, refs[k]) && PayloadRefused(store, meanings[k], refs[k], item.error);
        return Err(item.error);
      }
      state := state.(objects := state.objects[item.value.id := item.value.bytes],
                      datums := state.datums[item.value.id := item.value.datum]);
      rest := rest[1..];
    }
    if |meanings| != |refs| {
      return Err(CorruptState);
    }
    return Ok(state);
  }

  /** What the backward walk has gathered: the rest of the chain is behind `location`. */
  ghost predicate Walked(
      store: Store, envelope: Envelope, location: Option<Location>, suffix: seq<PhysicalEntry>, walked: seq<Entry>,
      seen: set<Location>)
  {
    && Walk(envelope.headLocation) == Walk(location) + walked
    && (Linked(store, envelope.headLocation, envelope.namespace) <==> Linked(store, location, envelope.namespace))
    && |suffix| == |walked| && (forall i :: 0 <= i < |suffix| ==> suffix[i].entry == walked[|walked| - 1 - i])
    && (forall l :: l in seen ==> |Walk(Some(l))| > |Walk(location)|)
  }

  lemma {:induction false} WalkedStep(
      store: Store, envelope: Envelope, current: Location, suffix: seq<PhysicalEntry>, walked: seq<Entry>,
      seen: set<Location>)
    requires Walked(store, envelope, Some(current), suffix, walked, seen)
    requires EntryReadable(store, current, envelope.namespace)
    ensures var physical := current.storage.leaf.physical;
      Walked(store, envelope, physical.previous, suffix + [physical], [physical.entry] + walked, seen + {current})
  {
    var physical := current.storage.leaf.physical;
    assert Walk(Some(current)) == Walk(physical.previous) + [physical.entry];
    assert Walk(physical.previous) + ([physical.entry] + walked) == Walk(Some(current)) + walked;
  }

  lemma {:induction false} WalkedNothing(store: Store, envelope: Envelope)
    ensures Walked(store, envelope, envelope.headLocation, [], [], {})
  {
    assert Walk(envelope.headLocation) + [] == Walk(envelope.headLocation);
  }

  /** With a location left to read, the chain is longer than what was gathered, and the location is a new one. */
  lemma {:induction false} WalkedSome(
      store: Store, envelope: Envelope, current: Location, suffix: seq<PhysicalEntry>, walked: seq<Entry>,
      seen: set<Location>)
    requires Walked(store, envelope, Some(current), suffix, walked, seen)
    ensures Linked(store, envelope.headLocation, envelope.namespace)
      <==> Linked(store, Some(current), envelope.namespace)
    ensures Linked(store, envelope.headLocation, envelope.namespace) ==>
      envelope.headLocation.Some? && |Walk(envelope.headLocation)| > |suffix|
    ensures current !in seen
  {
    LinkedIsLong(store, Some(current), envelope.namespace);
  }

  /** With none left, everything behind the head was gathered. */
  lemma {:induction false} WalkedAll(
      store: Store, envelope: Envelope, suffix: seq<PhysicalEntry>, walked: seq<Entry>, seen: set<Location>)
    requires Walked(store, envelope, None, suffix, walked, seen)
    ensures Linked(store, envelope.headLocation, envelope.namespace) && Walk(envelope.headLocation) == walked
    ensures |suffix| == |walked| && (forall i :: 0 <= i < |suffix| ==> suffix[i].entry == walked[|walked| - 1 - i])
  {
    assert Walk(None) + walked == walked;
  }

  /** The location `n` leaves further back. */
  ghost function Back(location: Option<Location>, n: nat): Option<Location>
    decreases n
  {
    if n == 0 || location.None? || !location.value.storage.leaf.EntryLeaf? then location
    else Back(location.value.storage.leaf.physical.previous, n - 1)
  }

  lemma {:induction false} BackStep(location: Option<Location>, n: nat)
    ensures var here := Back(location, n);
      here.Some? && here.value.storage.leaf.EntryLeaf? ==>
        Back(location, n + 1) == here.value.storage.leaf.physical.previous
    decreases n
  {
    if n > 0 && location.Some? && location.value.storage.leaf.EntryLeaf? {
      BackStep(location.value.storage.leaf.physical.previous, n - 1);
    }
  }

  /** The `n` leaves from the head back are readable. */
  ghost predicate ReadBehind(store: Store, envelope: Envelope, n: nat) {
    forall m: nat :: m < n ==>
      var l := Back(envelope.headLocation, m); l.Some? && EntryReadable(store, l.value, envelope.namespace)
  }

  lemma {:induction false} ReadFurther(store: Store, envelope: Envelope, n: nat, here: Location)
    requires ReadBehind(store, envelope, n) && Back(envelope.headLocation, n) == Some(here)
    requires EntryReadable(store, here, envelope.namespace)
    ensures ReadBehind(store, envelope, n + 1)
    ensures Back(envelope.headLocation, n + 1) == here.storage.leaf.physical.previous
  {
    BackStep(envelope.headLocation, n);
  }

  lemma {:induction false} WalkBlocked(store: Store, here: Location, namespace: nat)
    ensures !EntryReadable(store, here, namespace) ==> !Linked(store, Some(here), namespace)
    ensures here.namespace != namespace ==> !EntryReadable(store, here, namespace)
  {
  }

  lemma {:induction false} StopsHere(store: Store, envelope: Envelope, prefixLength: nat, workBound: nat, n: nat,
      here: Location, error: JournalError)
    requires ReadBehind(store, envelope, n) && Back(envelope.headLocation, n) == Some(here)
    requires
      if here.namespace != envelope.namespace then error == CorruptState
      else if prefixLength + n >= workBound then error == WorkBoundExceeded
      else !EntryReadable(store, here, envelope.namespace) && EntryRefused(store, here, error)
    ensures WalkRefused(store, envelope, prefixLength, workBound, error)
  {
    assert StopsAt(store, envelope, prefixLength, workBound, n, error);
  }

  /** Why a walk stops: behind some readable leaves a location of another namespace, one too many, or a bad one. */
  ghost predicate WalkRefused(
      store: Store, envelope: Envelope, prefixLength: nat, workBound: nat, error: JournalError)
  {
    exists n: nat :: StopsAt(store, envelope, prefixLength, workBound, n, error)
  }

  ghost predicate StopsAt(
      store: Store, envelope: Envelope, prefixLength: nat, workBound: nat, n: nat, error: JournalError)
  {
    var here := Back(envelope.headLocation, n);
    && here.Some? && ReadBehind(store, envelope, n)
    && if here.value.namespace != envelope.namespace then error == CorruptState
       else if prefixLength + n >= workBound then error == WorkBoundExceeded
       else !EntryReadable(store, here.value, envelope.namespace) && EntryRefused(store, here.value, error)
  }

  /** The `location`/`suffix`/`seen` loop of `read_v2`. */
  method WalkBack(store: Store, envelope: Envelope, prefixLength: nat, before: StoredState, workBound: nat,
      ghost prefix: seq<Entry>)
    returns (r: Result<(StoredState, seq<PhysicalEntry>), JournalError>)
    requires ObjectsExact(before, prefix)
    ensures r.Ok? <==>
      (&& Linked(store, envelope.headLocation, envelope.namespace)
       && (envelope.headLocation.Some? ==> prefixLength + |Walk(envelope.headLocation)| <= workBound))
    ensures Linked(store, envelope.headLocation, envelope.namespace) && r.Err? ==> r == Err(WorkBoundExceeded)
    ensures r.Err? ==> WalkRefused(store, envelope, prefixLength, workBound, r.error)
    ensures r.Ok? ==>
      var (state, suffix) := r.value; var walked := Walk(envelope.headLocation);
      && state.entries == before.entries && state.head == before.head && ObjectsExact(state, walked + prefix)
      && |suffix| == |walked| && (forall i :: 0 <= i < |suffix| ==> suffix[i].entry == walked[|walked| - 1 - i])
  {
    var state := before;
    var location := envelope.headLocation;
    var suffix: seq<PhysicalEntry> := [];
    var seen: set<Location> := {};
    ghost var walked: seq<Entry> := [];
    assert walked + prefix == prefix;
    hide WalkRefused, EntryRefused, ReadBehind, Linked, EntryReadable, AddPayloads, Walked, Walk, ObjectsExact;
    WalkedNothing(store, envelope);
    while location.Some?
      invariant Walked(store, envelope, location, suffix, walked, seen)
      invariant location == Back(envelope.headLocation, |suffix|) && ReadBehind(store, envelope, |suffix|)
      invariant suffix != [] ==> prefixLength + |suffix| <= workBound
      invariant envelope.headLocation.Some? && suffix == [] ==> location.Some?
      invariant state.entries == before.entries && state.head == before.head && ObjectsExact(state, walked + prefix)
      decreases location
    {
      var current := location.value;
      assert location == Some(current);
      WalkBlocked(store, current, envelope.namespace);
      WalkedSome(store, envelope, current, suffix, walked, seen);
      if current.namespace != envelope.namespace || current in seen {
        StopsHere(store, envelope, prefixLength, workBound, |suffix|, current, CorruptState);
        return Err(CorruptState);
      }
      if prefixLength + |suffix| >= workBound {
        StopsHere(store, envelope, prefixLength, workBound, |suffix|, current, WorkBoundExceeded);
        return Err(WorkBoundExceeded);
      }
      var loaded := LoadEntry(store, current, envelope.namespace, state);
      if loaded.Err? {
        StopsHere(store, envelope, prefixLength, workBound, |suffix|, current, loaded.error);
        return Err(loaded.error);
      }
      ReadFurther(store, envelope, |suffix|, current);
      var physical := loaded.value.0;
      WalkedStep(store, envelope, current, suffix, walked, seen);
      WalkedObjects(state, walked, prefix, physical.entry);
      state := loaded.value.1;
      seen := seen + {current};
      location := physical.previous;
      suffix := suffix + [physical];
      walked := [physical.entry] + walked;
    }
    WalkedAll(store, envelope, suffix, walked, seen);
    return Ok((state, suffix));
  }

  lemma {:induction false} WalkedObjects(state: StoredState, walked: seq<Entry>, prefix: seq<Entry>, e: Entry)
    requires ObjectsExact(state, walked + prefix)
    ensures var after := AddPayloads(state, e.payloads);
      after.entries == state.entries && after.head == state.head && ObjectsExact(after, ([e] + walked) + prefix)
  {
    ObjectsExactAdd(state, walked + prefix, e);
    assert [e] + (walked + prefix) == ([e] + walked) + prefix;
  }

  lemma {:induction false} LinkedIsLong(store: Store, location: Option<Location>, namespace: nat)
    requires location.Some?
    ensures Linked(store, location, namespace) ==> |Walk(location)| >= 1
  {
  }

  /** Why an entry leaf is not read: it is missing, it is not the leaf or the entry it is named, or its payloads. */
  ghost predicate EntryRefused(store: Store, location: Location, error: JournalError) {
    if EntryAt(location) !in store.leaves then error == Backend
    else if store.leaves[EntryAt(location)] != location.storage.leaf || !location.storage.leaf.EntryLeaf? then
      error == CorruptState
    else
      var physical := location.storage.leaf.physical;
      if physical.entry.id != location.entry || physical.entry.sequence != location.sequence
         || CanonicalId(physical.entry) != physical.entry.id
      then error == CorruptEntry
      else !PayloadsReadable(store, physical) && PayloadsRefused(store, physical, error)
  }

  /** One leaf of the walk: loaded, decoded and checked, with its payloads. */
  method LoadEntry(store: Store, current: Location, ghost namespace: nat, before: StoredState)
    returns (r: Result<(PhysicalEntry, StoredState), JournalError>)
    requires current.namespace == namespace
    ensures r.Ok? <==> EntryReadable(store, current, namespace)
    ensures r.Ok? ==>
      r.value == (current.storage.leaf.physical, AddPayloads(before, current.storage.leaf.physical.entry.payloads))
    ensures r.Err? ==> EntryRefused(store, current, r.error)
  {
    if EntryAt(current) !in store.leaves {
      return Err(Backend);
    }
    var leaf := store.leaves[EntryAt(current)];
    if StorageId(leaf) != current.storage || !leaf.EntryLeaf? {
      return Err(CorruptState);
    }
    var physical := leaf.physical;
    if physical.entry.id != current.entry || physical.entry.sequence != current.sequence
       || CanonicalId(physical.entry) != physical.entry.id {
      return Err(CorruptEntry);
    }
    var loaded := LoadPayloads(store, physical, before);
    if loaded.Err? {
      return Err(loaded.error);
    }
    return Ok((physical, loaded.value));
  }

  /** The suffix goes in oldest first; exactly a taken sequence number is corruption. */
  method InsertSuffix(before: map<nat, Entry>, suffix: seq<PhysicalEntry>, ghost walked: seq<Entry>)
    returns (r: Option<map<nat, Entry>>)
    requires |suffix| == |walked| && (forall i :: 0 <= i < |suffix| ==> suffix[i].entry == walked[|walked| - 1 - i])
    ensures r.Some? <==> FreshSequences(before.Keys, walked)
    ensures r.Some? ==> Placed(before, walked, r.value)
  {
    hide FreshSequences, Placed;
    var entries: map<nat, Entry> := before;
    var k := |suffix|;
    PlacedNone(before);
    assert walked[..0] == [];
    while k > 0
      invariant 0 <= k <= |suffix|
      invariant FreshSequences(before.Keys, walked[..|suffix| - k])
      invariant Placed(before, walked[..|suffix| - k], entries)
    {
      k := k - 1;
      var entry := suffix[k].entry;
      ghost var m := |suffix| - 1 - k;
      assert walked[..m + 1] == walked[..m] + [entry];
      if entry.sequence in entries {
        TakenNotFresh(before, walked, m, entries);
        return None;
      }
      PlacedSnoc(before, walked[..m], entry, entries);
      entries := entries[entry.sequence := entry];
    }
    assert walked[..|suffix|] == walked;
    return Some(entries);
  }

  lemma {:induction false} TakenNotFresh(before: map<nat, Entry>, walked: seq<Entry>, m: nat, entries: map<nat, Entry>)
    requires m < |walked| && Placed(before, walked[..m], entries) && walked[m].sequence in entries
    ensures !FreshSequences(before.Keys, walked)
  {
    if walked[m].sequence !in before {
      var e :| e in walked[..m] && e.sequence == walked[m].sequence;
      var i :| 0 <= i < m && walked[..m][i] == e;
      assert walked[i].sequence == walked[m].sequence;
    }
  }

  lemma {:induction false} PlacedSnoc(before: map<nat, Entry>, front: seq<Entry>, e: Entry, entries: map<nat, Entry>)
    requires FreshSequences(before.Keys, front) && Placed(before, front, entries) && e.sequence !in entries
    ensures FreshSequences(before.Keys, front + [e])
    ensures Placed(before, front + [e], entries[e.sequence := e])
  {
    var whole := front + [e];
    assert forall x :: x in whole <==> x in front || x == e;
    forall i, j | 0 <= i < j < |whole|
      ensures whole[i].sequence != whole[j].sequence
    {
      assert whole[i] in front;
    }
  }

  /** The entries behind the envelope are those of this chain, which the envelope's head ends. */
  ghost predicate Selects(envelope: Envelope, chain: seq<Entry>) {
    IsChain(chain) && SameEntries(chain, EnvelopeChain(envelope)) && envelope.head == ChainHead(chain)
  }

  /** Every leaf behind the envelope is readable, and in some order the entries are this chain. */
  ghost predicate Serves(store: Store, envelope: Envelope, chain: seq<Entry>) {
    && envelope.namespace in store.namespaces
    && (envelope.prefix.Some? ==> PrefixReadable(store, envelope.prefix.value))
    && Linked(store, envelope.headLocation, envelope.namespace)
    && Selects(envelope, chain)
  }

  /**
   * Why an envelope is not read: its namespace, its prefix, the first leaf behind it that stops the walk, or else its
   * entries are no chain that the head ends.
   */
  ghost predicate ReadRefused(store: Store, envelope: Envelope, workBound: nat, error: JournalError) {
    if envelope.namespace !in store.namespaces then error == Backend
    else if envelope.prefix.Some? && !PrefixRead(store, envelope.prefix.value, workBound) then
      PrefixRefused(store, envelope.prefix.value, workBound, error)
    else if Linked(store, envelope.headLocation, envelope.namespace)
            && (envelope.headLocation.Some? ==> |EnvelopeChain(envelope)| <= workBound) then
      !(exists chain :: Selects(envelope, chain)) && error == CorruptState
    else WalkRefused(store, envelope, |PrefixChain(envelope.prefix)|, workBound, error)
  }

  ghost predicate PrefixRead(store: Store, prefix: Prefix, workBound: nat) {
    PrefixReadable(store, prefix) && prefix.physicalHead.sequence + 1 <= workBound
  }

  /**
   * `read_v2`: accepted are exactly the envelopes whose leaves, in whatever order they are linked, hold the entries
   * of a chain within the bound, and what is read is that chain with its payloads.
   */
  method ReadV2(store: Store, envelope: Envelope, workBound: nat) returns (r: Result<StoredState, JournalError>)
    ensures r.Ok? <==> exists chain :: Serves(store, envelope, chain) && |chain| <= workBound
    ensures forall chain :: Serves(store, envelope, chain) && |chain| <= workBound ==>
      r.Ok? && Snapshot(r.value, chain)
    ensures EnvelopeGood(store, envelope) && |EnvelopeChain(envelope)| <= workBound ==>
      r.Ok? && Snapshot(r.value, EnvelopeChain(envelope))
    ensures r.Ok? ==>
      && VerifyStateResult(r.value).Ok? && r.value.head == envelope.head
      && envelope.namespace in store.namespaces && Linked(store, envelope.headLocation, envelope.namespace)
      && (envelope.prefix.Some? ==> PrefixReadable(store, envelope.prefix.value))
      && |EnvelopeChain(envelope)| <= workBound
    ensures forall chain :: Serves(store, envelope, chain) && r.Err? ==> r == Err(WorkBoundExceeded)
    ensures EnvelopeGood(store, envelope) && r.Err? ==> r == Err(WorkBoundExceeded)
    ensures r.Err? ==> ReadRefused(store, envelope, workBound, r.error)
  {
    hide Selects, IsChain, Linked, PrefixReadable, PrefixRefused, WalkRefused, FreshSequences, Placed, ObjectsExact;
    ServesLength(store, envelope);
    if envelope.namespace !in store.namespaces {
      return Err(Backend);
    }
    var state := EMPTY_STATE;
    ghost var prefix := PrefixChain(envelope.prefix);
    if envelope.prefix.Some? {
      CanonLength(store, envelope.prefix.value);
      var read := ReadPrefix(store, envelope.prefix.value, workBound);
      if read.Err? {
        return read;
      }
      state := read.value;
    } else {
      EmptySnapshot();
    }
    assert Snapshot(state, prefix);
    SnapshotIff(state, prefix);
    EntryMapSize(prefix);
    var prefixLength := |state.entries|;
    var walk := WalkBack(store, envelope, prefixLength, state, workBound, prefix);
    if walk.Err? {
      return Err(walk.error);
    }
    ghost var walked := Walk(envelope.headLocation);
    var entries := InsertSuffix(state.entries, walk.value.1, walked);
    if entries.None? {
      SelectsFresh(envelope);
      return Err(CorruptState);
    }
    state := walk.value.0.(entries := entries.value, head := envelope.head);
    RebuiltIff(envelope, walk.value.0, state);
    RebuiltRefused(store, envelope, walk.value.0, state);
    WalkIsNamed(store, envelope);
    r := Verified(state);
    if r.Ok? && (|state.entries| > prefixLength) != envelope.headLocation.Some? {
      return Err(CorruptState);
    }
  }

  lemma {:induction false} EmptySnapshot()
    ensures Snapshot(EMPTY_STATE, [])
  {
    SnapshotIff(EMPTY_STATE, []);
  }

  lemma {:induction false} WalkIsNamed(store: Store, envelope: Envelope)
    requires Linked(store, envelope.headLocation, envelope.namespace)
    ensures |Walk(envelope.headLocation)| > 0 <==> envelope.headLocation.Some?
  {
    if envelope.headLocation.Some? {
      LinkedIsLong(store, envelope.headLocation, envelope.namespace);
    }
  }

  /** A served chain is as long as what the envelope links. */
  lemma {:induction false} ServesLength(store: Store, envelope: Envelope)
    ensures forall chain :: Serves(store, envelope, chain) ==> |chain| == |EnvelopeChain(envelope)|
    ensures EnvelopeGood(store, envelope) <==> Serves(store, envelope, EnvelopeChain(envelope))
  {
    forall chain | Serves(store, envelope, chain)
      ensures |chain| == |EnvelopeChain(envelope)|
    {
      assert |multiset(chain)| == |multiset(EnvelopeChain(envelope))|;
    }
  }

  /** No chain is selected when a sequence number is taken twice. */
  lemma {:induction false} SelectsFresh(envelope: Envelope)
    ensures (exists chain :: Selects(envelope, chain)) ==>
      FreshSequences(EntryMap(PrefixChain(envelope.prefix)).Keys, Walk(envelope.headLocation))
      || !IsChain(PrefixChain(envelope.prefix))
  {
    if chain :| Selects(envelope, chain) {
      var prefix, walked := PrefixChain(envelope.prefix), Walk(envelope.headLocation);
      FreshLikeChain(chain, prefix + walked);
      if IsChain(prefix) {
        FreshSuffix(prefix, walked);
      }
    }
  }

  /** What a readable prefix says about itself: how many entries it has, the last v1 leaf and the canonical head. */
  lemma {:induction false} PrefixNames(store: Store, prefix: Prefix)
    requires PrefixReadable(store, prefix)
    ensures var chain := PrefixChain(Some(prefix));
      && IsChain(chain) && prefix.entries == |chain| == prefix.physicalHead.sequence + 1
      && Some(prefix.canonicalHead) == ChainHead(chain)
      && prefix.descriptor.leaf == store.leaves[DescriptorAt(prefix.descriptor)]
  {
    CanonV1IsChain(store, prefix.physicalHead.sequence + 1);
  }

  /** Every location behind a readable one lies in the same namespace, and names its entry and its storage. */
  lemma {:induction false} LinkedNames(store: Store, location: Option<Location>, namespace: nat, n: nat)
    requires Linked(store, location, namespace) && Back(location, n).Some?
    ensures var here := Back(location, n).value;
      && here.namespace == namespace && here.storage.leaf.EntryLeaf?
      && here.entry == here.storage.leaf.physical.entry.id && here.sequence == here.storage.leaf.physical.entry.sequence
    decreases n
  {
    if n > 0 {
      LinkedNames(store, location.value.storage.leaf.physical.previous, namespace, n - 1);
    }
  }

  /** Readable leaves hold canonical entries. */
  lemma {:induction false} LinkedCanonical(store: Store, location: Option<Location>, namespace: nat)
    requires Linked(store, location, namespace)
    ensures forall e :: e in Walk(location) ==> CanonicalId(e) == e.id
  {
    if location.Some? {
      LinkedCanonical(store, location.value.storage.leaf.physical.previous, namespace);
    }
  }

  /** Canonical entries with all payloads held can only be out of order, or end another chain than the head says. */
  lemma {:induction false} OrderRefused(state: StoredState, entries: seq<Entry>, sequence: nat,
      prior: Option<ContentId>)
    requires forall e :: e in entries ==> CanonicalId(e) == e.id
    requires PayloadsHeld(state, entries)
    ensures var r := CheckEntries(state, entries, sequence, prior); r.Err? ==> r.error == CorruptState
  {
    if entries != [] {
      CheckPayloadsIffHeld(state, entries[0].payloads);
      OrderRefused(state, entries[1..], sequence + 1, Some(entries[0].id));
    }
  }

  /** What was put together from readable leaves is refused for nothing else. */
  lemma {:induction false} RebuiltRefused(store: Store, envelope: Envelope, walked: StoredState, state: StoredState)
    requires IsChain(PrefixChain(envelope.prefix)) && Linked(store, envelope.headLocation, envelope.namespace)
    requires FreshSequences(EntryMap(PrefixChain(envelope.prefix)).Keys, Walk(envelope.headLocation))
    requires Placed(EntryMap(PrefixChain(envelope.prefix)), Walk(envelope.headLocation), state.entries)
    requires ObjectsExact(walked, Walk(envelope.headLocation) + PrefixChain(envelope.prefix))
    requires state.objects == walked.objects && state.datums == walked.datums
    ensures VerifyStateResult(state).Err? ==> VerifyStateResult(state).error == CorruptState
  {
    var prefix, suffix := PrefixChain(envelope.prefix), Walk(envelope.headLocation);
    var values := Values(state.entries);
    PlacedWhole(prefix, suffix, state.entries);
    LinkedCanonical(store, envelope.headLocation, envelope.namespace);
    forall e | e in values
      ensures e in prefix + suffix && CanonicalId(e) == e.id
    {
      ValuesHave(state.entries, e);
      assert e in prefix || e in suffix;
    }
    forall e, p | e in values && p in e.payloads
      ensures Held(state, p)
    {
      assert e in suffix + prefix;
      PayloadIdsMember(suffix + prefix, p);
    }
    OrderRefused(state, values, 0, None);
  }

  /** What was put together verifies exactly when the envelope selects a chain, and then it is that chain. */
  lemma {:induction false} RebuiltIff(envelope: Envelope, walked: StoredState, state: StoredState)
    requires IsChain(PrefixChain(envelope.prefix))
    requires FreshSequences(EntryMap(PrefixChain(envelope.prefix)).Keys, Walk(envelope.headLocation))
    requires Placed(EntryMap(PrefixChain(envelope.prefix)), Walk(envelope.headLocation), state.entries)
    requires ObjectsExact(walked, Walk(envelope.headLocation) + PrefixChain(envelope.prefix))
    requires state.objects == walked.objects && state.datums == walked.datums && state.head == envelope.head
    ensures VerifyStateResult(state).Ok? <==> exists chain :: Selects(envelope, chain)
    ensures forall chain :: Selects(envelope, chain) ==>
      Snapshot(state, chain) && |state.entries| == |EnvelopeChain(envelope)|
  {
    var prefix, suffix := PrefixChain(envelope.prefix), Walk(envelope.headLocation);
    ObjectsExactSwap(walked, suffix, prefix);
    VerifyStateAccepts(state);
    PlacedWhole(prefix, suffix, state.entries);
    var values := Values(state.entries);
    if IsChain(values) {
      ValuesAreChain(state.entries);
      PlacedIsChainIff(prefix, suffix, state.entries, values);
    }
    assert VerifyStateResult(state).Ok? ==> Selects(envelope, values);
    forall chain | Selects(envelope, chain)
      ensures Snapshot(state, chain) && |state.entries| == |EnvelopeChain(envelope)| && VerifyStateResult(state).Ok?
    {
      PlacedIsChainIff(prefix, suffix, state.entries, chain);
      SelectedSnapshot(envelope, walked, state, chain);
    }
  }

  lemma {:induction false} SelectedSnapshot(
      envelope: Envelope, walked: StoredState, state: StoredState, chain: seq<Entry>)
    requires Selects(envelope, chain) && ObjectsExact(walked, EnvelopeChain(envelope))
    requires state.entries == EntryMap(chain) && state.head == envelope.head
    requires state.objects == walked.objects && state.datums == walked.datums
    ensures Snapshot(state, chain) && VerifyStateResult(state).Ok? && |state.entries| == |EnvelopeChain(envelope)|
  {
    SamePayloads(chain, EnvelopeChain(envelope));
    BuiltIsSnapshot(state, chain);
    assert state.(head := ChainHead(chain)) == state;
    EntryMapSize(chain);
    assert |multiset(chain)| == |multiset(EnvelopeChain(envelope))|;
  }

  lemma {:induction false} SamePayloads(a: seq<Entry>, b: seq<Entry>)
    requires SameEntries(a, b)
    ensures PayloadIds(a) == PayloadIds(b)
  {
    assert forall e :: e in a <==> e in multiset(a);
    assert forall e :: e in b <==> e in multiset(b);
    forall p
      ensures p in PayloadIds(a) <==> p in PayloadIds(b)
    {
      PayloadIdsMember(a, p);
      PayloadIdsMember(b, p);
    }
  }

  lemma {:induction false} ObjectsExactSwap(state: StoredState, a: seq<Entry>, b: seq<Entry>)
    requires ObjectsExact(state, a + b)
    ensures ObjectsExact(state, b + a)
  {
    PayloadIdsConcat(a, b);
    PayloadIdsConcat(b, a);
  }

  lemma {:induction false} CanonLength(store: Store, prefix: Prefix)
    ensures PrefixReadable(store, prefix) ==>
      |CanonV1(Some(prefix.physicalHead.entry))| == prefix.physicalHead.sequence + 1
  {
    if PrefixReadable(store, prefix) {
      CanonV1IsChain(store, prefix.physicalHead.sequence + 1);
    }
  }

  lemma {:induction false} EntryMapSize(chain: seq<Entry>)
    ensures |EntryMap(chain)| == |chain|
  {
    if chain == [] {
      assert EntryMap(chain) == map[];
    } else {
      var front := chain[..|chain| - 1];
      EntryMapSize(front);
      assert chain == front + [chain[|chain| - 1]];
      EntryMapSnoc(front, chain[|chain| - 1]);
      assert EntryMap(chain).Keys == EntryMap(front).Keys + {|front|};
    }
  }

  // ---------------------------------------------------------------------------------------------
  // What the reader does not ask

  /** The location of an entry without payloads, linked to the one below it. */
  function LinkedAt(entry: Entry, below: Option<Location>): Location {
    Location(0, entry.sequence, entry.id, StorageId(EntryLeaf(PhysicalEntry(entry, below, []))))
  }

  lemma {:induction false} LinkedOnce(store: Store, entry: Entry, below: Option<Location>)
    requires entry.id == CanonicalId(entry) && entry.payloads == []
    requires EntryAt(LinkedAt(entry, below)) in store.leaves
    requires store.leaves[EntryAt(LinkedAt(entry, below))] == LinkedAt(entry, below).storage.leaf
    ensures Linked(store, Some(LinkedAt(entry, below)), 0) <==> Linked(store, below, 0)
    ensures Walk(Some(LinkedAt(entry, below))) == Walk(below) + [entry]
  {
  }

  lemma {:induction false} PairIsChain(first: Entry, second: Entry)
    requires first == NewEntry(0, None, "kind", []) && second == NewEntry(1, Some(first.id), "kind", [])
    ensures IsChain([first, second]) && !IsChain([second, first]) && SameEntries([first, second], [second, first])
  {
    var chain := [first, second];
    assert chain[..0] == [] && chain[..1] == [first];
    assert multiset(chain) == multiset{first, second} == multiset([second, first]);
    assert [second, first][0].sequence == 1;
  }

  /** Two entries linked in the wrong order are read back in the right one: no order of the links is asked for. */
  lemma {:induction false} WrongOrderServed() returns (store: Store, envelope: Envelope, chain: seq<Entry>)
    ensures Serves(store, envelope, chain) && |chain| == 2 && EnvelopeChain(envelope) == [chain[1], chain[0]]
    ensures !EnvelopeGood(store, envelope)
  {
    hide IsChain, Linked, Walk, LinkedAt, NewEntry, CanonicalId, SameEntries, Serves, EnvelopeGood, EnvelopeChain;
    var first := NewEntry(0, None, "kind", []);
    var second := NewEntry(1, Some(first.id), "kind", []);
    var below := LinkedAt(second, None);
    var above := LinkedAt(first, Some(below));
    AtApart(first, second);
    store := Store(
      None, map[EntryAt(below) := below.storage.leaf, EntryAt(above) := above.storage.leaf], {0}, map[], map[]);
    envelope := Envelope(1, 0, None, Some(HeadOf(second)), Some(above));
    chain := [first, second];
    LinkedOnce(store, second, None);
    LinkedOnce(store, first, Some(below));
    NothingLinked(store);
    assert [] + [second] == [second] && [second] + [first] == [second, first];
    PairServed(store, envelope, first, second);
  }

  lemma {:induction false} PairServed(store: Store, envelope: Envelope, first: Entry, second: Entry)
    requires first == NewEntry(0, None, "kind", []) && second == NewEntry(1, Some(first.id), "kind", [])
    requires envelope.namespace in store.namespaces && envelope.prefix == None && envelope.head == Some(HeadOf(second))
    requires Linked(store, envelope.headLocation, envelope.namespace) && Walk(envelope.headLocation) == [second, first]
    ensures Serves(store, envelope, [first, second]) && EnvelopeChain(envelope) == [second, first]
    ensures !EnvelopeGood(store, envelope)
  {
    hide NewEntry, IsChain, Linked, Walk, SameEntries;
    assert [] + [second, first] == [second, first];
    PairIsChain(first, second);
  }

  lemma {:induction false} AtApart(first: Entry, second: Entry)
    requires first.sequence != second.sequence
    ensures LinkedAt(second, None) != LinkedAt(first, Some(LinkedAt(second, None)))
  {
  }

  lemma {:induction false} NothingLinked(store: Store)
    ensures Linked(store, None, 0) && Walk(None) == []
  {
  }
}
