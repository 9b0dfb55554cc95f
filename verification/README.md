# Verification of the facet merge, the fenced journal, its codecs and the stateful table indexes

This project models four components of the repository in Dafny and proves what they promise.

**Three-way line merge** (`Bytes`, `Scalars`, `Lines`, `LineDiff`, `LineMerge`, `LineRegion`, `Facet`, `FacetLaws`).
Lines, the longest-common-subsequence table with its greedy walk, the edit script, the conflict test, the
combination of two scripts and the splice. `Changes`, `CombineChanges`, `Splice`, `MergeLinewise` and `MergeFacet`
are the loops of the source; the rest says what they compute. The centre is `Diamond`: a merge without conflict is
each side's edits carried over to the other side.

**Fenced content journal** (`JournalTypes`, `JournalLaws`, `MemoryBackend`, `JournalReasons`, `ChainOrder`,
`HostStore`, `HostProtocol`, `HostWriter`, `HostAdmission`, `JournalTwin`). `JournalLaws` holds the state and batch
checks, `MemoryBackend` the reference backend, and `JournalReasons` what a refused caller is told. The host backend
is modelled three times over: the readers as methods on a store (`HostStore`), any number of writers as a step
relation on stores (`HostProtocol`), and one writer's code among arbitrary others (`HostWriter`, `HostAdmission`). A
writer's `Others` lets the store take any further run before each port call, so a method contract holds for every
interleaving, and a crash is a writer that takes no further step. `JournalTwin` puts both backends under one
abstract journal of a fence and a chain. Ids wrap what they identify, so that equal ids mean equal contents; the
compare-exchange of the state leaf is linearizable, as `crates/sim-storage-port/src/lib.rs:132-139` promises.

**Journal codecs** (`Order`, `Datums`, `DatumParsing`, `DatumCodec`, `DatumEncoding`, `DatumOrder`, `DatumOwnKey`,
`DatumBuffers`, `DatumObjects`, `NativeCodec`, `NativeEnvelope`, `NativeEntry`, `NativeLeaves`, `NativeExact`,
`NativeBuffers`, `EnvelopeShapes`, `Formats`). The datum codec, object leaves, and the native envelope, descriptor,
entry and path texts: byte forms and parsers as functions, encoders over a buffer and decoders over a cursor as
methods proved against them. `EnvelopeShapes` fits the envelope codec to the protocol, and `Formats` spells the
leaves out byte by byte. The kernel's canonical bytes are a parameter `key` of which only this is asked: two
canonical values have one key exactly when they are the same up to order. `OwnKeyIsGood` shows that this can be met.

**Stateful indexes** (`RelationDir`, `RelationLaws`, `RelationPaths`, `RelationRuns`, `LazyList`, `MountedDir`,
`MountReasons`). The relation of parent pointers as a directory tree under atomic plans, the lazily forced list with
its census of views, and the mounted namespace routed by longest prefix.

## What turned out otherwise than promised

Each has a concrete input and the exact condition under which the promise holds.

- Intended changes may lie outside the checked region (`FacetLaws.ChangesLeaveRegion`);
  `FacetLaws.ChangesKeepRegionIff` says when they stay in it.
- The host reader also accepts leaves that are linked out of sequence order (`HostStore.WrongOrderServed`), though
  no run of the protocol leaves such; `HostStore.ReadV2` has the exact condition.
- A payload that only the v1 prefix holds is accepted by `verify_batch` and refused by the host's `find_object`
  (`JournalTwin.PrefixPayloadDiffers`); `JournalTwin.HostPublish` has the exact condition of acceptance.
- The datum decoder accepts any order of a canonical value (`DatumOrder.SwappedFieldsAccepted`), and so does the
  entry decoder; `DatumOrder.AcceptedCanonicalIff` and `NativeExact.EntryLeafCanonicalIff` say which bytes are canonical.
- Symbol texts are ambiguous when a namespace holds a slash (`NativeCodec.QualifiedTextCollides`);
  `NativeCodec.SymbolTextBack` has the exact condition.
- `execute` does not check that the parent is a directory, so a stale view can insert under a value
  (`RelationRuns.StaleViewBreaksTree`); `RelationLaws.PlanKeepsTreeIff` has the exact condition.
- Names that share their name part hide one another (`RelationRuns.QualifiedHides`);
  `RelationLaws.StepIsChildIff` has the exact condition.
- A view opened below a mounted directory for the sake of a deeper mount need not resolve
  (`MountedDir.DeepMountUnresolved`), and a table mount whose value is also a directory opens below itself
  (`MountedDir.TableMountOpens`); `MountedDir.OpendirAgreesIff` has the exact condition.

## Model

| member | source | states |
|---|---|---|
| Lines.SplitLinesExact | crates/sim-artifact-facet/src/merge.rs:263-269 | splitting loses nothing: the lines concatenated are the text |
| Lines.SplitLinesWellFormed | crates/sim-artifact-facet/src/merge.rs:263-269 | every line but the last ends in its only newline, and none is empty |
| Lines.ConcatResplits | crates/sim-artifact-facet/src/merge.rs:245 | well-formed lines, concatenated and split again, are the same lines |
| Lines.SplitLinesUtf8 | crates/sim-artifact-facet/src/merge.rs:196-213 | lines of valid text are valid text, because a newline byte never lies inside a character |
| Scalars.Utf8Iff | crates/sim-artifact-facet/src/merge.rs:196-213 | text is valid exactly when it is the UTF-8 encoding (section 3 of RFC 3629) of a sequence of Unicode scalar values |
| LineDiff.LcsIsLongest | crates/sim-artifact-facet/src/merge.rs:284-294 | no common subsequence is longer than the number the table recurrence gives |
| LineDiff.LcsWitness | crates/sim-artifact-facet/src/merge.rs:295-307 | a common subsequence of that length exists, so the number is the longest length |
| LineDiff.TracebackIsOptimal | crates/sim-artifact-facet/src/merge.rs:295-307 | the greedy walk from any cell collects an increasing matching of equal lines with exactly as many pairs as the cell's length |
| LineDiff.MatchedLinesAreCommon | crates/sim-artifact-facet/src/merge.rs:295-308 | the matched lines are a subsequence of both sides |
| LineDiff.ScriptExact | crates/sim-artifact-facet/src/merge.rs:309-322 | applying the script to the base gives the side; changes are in order and separated by at least one kept base line |
| LineDiff.ScriptEmptyIffEqual | crates/sim-artifact-facet/src/merge.rs:309-322 | the script is empty exactly when the two sequences are equal |
| LineDiff.ScriptMinimal | crates/sim-artifact-facet/src/merge.rs:278-323 | no line of a change's replaced range reappears in its replacement, so nothing common is rewritten |
| LineDiff.Changes | crates/sim-artifact-facet/src/merge.rs:278-323 | the table, walk and script-building code returns the script, or nothing exactly when the table exceeds the cell budget; no u32 cell overflows |
| LineDiff.FillTable | crates/sim-artifact-facet/src/merge.rs:284-294 | the double loop leaves in every cell the longest-common length of the two suffixes |
| LineDiff.Walk | crates/sim-artifact-facet/src/merge.rs:295-308 | the cursor loop over the filled table collects the optimal matching and the final pair of ends |
| LineDiff.BuildScript | crates/sim-artifact-facet/src/merge.rs:309-322 | the loop over matches pushes exactly the changes between them |
| LineMerge.ApartIffOrdered | crates/sim-artifact-facet/src/merge.rs:344-351 | two proper changes do not overlap exactly when one lies before the other, insertions touching a range counted as overlap |
| LineMerge.ChainUnique | crates/sim-artifact-facet/src/merge.rs:340 | a sorted chain of changes is determined by its members |
| LineMerge.CombineChanges | crates/sim-artifact-facet/src/merge.rs:325-342 | refuses exactly when two unequal changes of the two scripts overlap; otherwise returns the ordered interleaving with shared changes once |
| LineMerge.InterleaveMembers | crates/sim-artifact-facet/src/merge.rs:325-342 | the combination has exactly the changes of both scripts |
| LineMerge.InterleaveIsChain | crates/sim-artifact-facet/src/merge.rs:325-342 | the combination is pairwise disjoint and sorted |
| LineMerge.InterleaveSymmetric | crates/sim-artifact-facet/src/merge.rs:325-342 | the combination does not depend on which script comes first |
| LineMerge.ConflictSymmetric | crates/sim-artifact-facet/src/merge.rs:325-351 | neither does the refusal |
| LineMerge.Diamond | crates/sim-artifact-facet/src/merge.rs:232-244 | applying the combination to the base is applying either side's remaining changes, shifted by the length offsets before them, to the other side |
| FacetLaws.RegionCheckIff | crates/sim-artifact-facet/src/merge.rs:138-169 | the region check passes exactly when, under a line range, both images are text of one mode and the intended lines are the base lines with the range replaced; anything else is out of region |
| Facet.Splice | crates/sim-artifact-facet/src/merge.rs:237-244 | the splice loop never slices backwards and computes the application of the changes |
| Facet.MergeLinewise | crates/sim-artifact-facet/src/merge.rs:171-249 | every branch of the bounded merge gives the outcome of the specification, conflict reasons in their order of precedence |
| Facet.MergeFacet | crates/sim-artifact-facet/src/merge.rs:96-136 | the code computes the facet outcome, whose every branch the laws in `FacetLaws` characterise: `FacetAnswersIff`, `FacetTransitions`, `ReasonIff`, `MergedIff` |
| FacetLaws.MergedLinesSymmetric | crates/sim-artifact-facet/src/merge.rs:222-244 | exchanging observed and intended gives the same conflict or the same merged lines |
| FacetLaws.LinewiseSymmetric | crates/sim-artifact-facet/src/merge.rs:171-261 | exchanging observed and intended gives the same outcome, mode and reason included, for all valid images and bounds |
| FacetLaws.MergedResplits | crates/sim-artifact-facet/src/merge.rs:237-245 | re-splitting the merged text gives the merged lines: a newline-less last line never lands in the middle |
| FacetLaws.MergedIsText | crates/sim-artifact-facet/src/merge.rs:245 | merging valid UTF-8 gives valid UTF-8 |
| FacetLaws.MergedLinesKnown | crates/sim-artifact-facet/src/merge.rs:237-244 | every merged line is a line of the base or of one side |
| FacetLaws.MergeIsRebase | crates/sim-artifact-facet/src/merge.rs:222-244 | the merge is the intended changes rebased onto the observed lines, and the observed changes rebased onto the intended lines |
| FacetLaws.OneSidedMerge | crates/sim-artifact-facet/src/merge.rs:222-244 | merging with an unchanged side gives the other side |
| FacetLaws.AgreeingMerge | crates/sim-artifact-facet/src/merge.rs:222-244 | merging two equal sides gives that side |
| FacetLaws.ShortcutsAgree | crates/sim-artifact-facet/src/merge.rs:106-135 | within bounds the linewise merge would decide the classified transitions as the shortcuts do |
| FacetLaws.MergedIff | crates/sim-artifact-facet/src/merge.rs:171-249 | the exact condition for a merged outcome, and the outcome |
| FacetLaws.ReasonIff | crates/sim-artifact-facet/src/merge.rs:171-225 | when nothing is merged the reason is the first that applies: presence, mode, text, work bound, overlap |
| FacetLaws.FacetAnswersIff | crates/sim-artifact-facet/src/merge.rs:96-169 | answered are exactly three valid images of the facet whose intended change replaces lines of the region only; else the first fault is named; an image left standing is valid |
| FacetLaws.AnsweredKeepsOutside | crates/sim-artifact-facet/src/merge.rs:138-169 | under a line range every answered intended image is the base with the range replaced, in the same mode |
| FacetLaws.FacetTransitions | crates/sim-artifact-facet/src/merge.rs:106-135 | which answer is given: nothing intended, already true, applied to an untouched image, or else what the policy says |
| FacetLaws.ValidIff | crates/sim-artifact-facet/src/image.rs:42-50 | bytes and permission bits come together, and no bits beyond rwxrwxrwx |
| FacetLaws.FacetIsLinewise | crates/sim-artifact-facet/src/merge.rs:106-135 | under a linewise policy within bounds the image left standing is the one the full merge of all three images leaves, whichever shortcut was taken |
| FacetLaws.FacetExact | crates/sim-artifact-facet/src/merge.rs:118-121 | under the exact policy an image is left standing exactly when at most one side changed anything or both made the same change |
| FacetLaws.FacetExchange | crates/sim-artifact-facet/src/merge.rs:96-136 | exchanging the observed and the intended image leaves the same image standing or gives the same reason, whatever policy and bounds |
| LineRegion.LcsSharedEnd | crates/sim-artifact-facet/src/merge.rs:284-294 | two texts with a common end: every table cell is larger by the length of that end |
| LineRegion.WalkThroughRegion | crates/sim-artifact-facet/src/merge.rs:295-307 | the walk through a rewritten region pairs what it would pair in the region alone, then goes on from its last pair |
| LineRegion.WalkBehindRegion | crates/sim-artifact-facet/src/merge.rs:300-305 | where the rest of the region shares no line, the tie rule drops base lines first, then side lines; the line behind the region is met in its place exactly when it does not occur among what is left |
| LineRegion.RegionKeptIff | crates/sim-artifact-facet/src/merge.rs:278-323 | a script of a rewritten region starts no change in front of it, and ends all in it exactly when the first line behind does not stray into what the last inner pair leaves over; for all sequences |
| FacetLaws.ChangesKeepRegionIff | crates/sim-artifact-facet/src/merge.rs:138-169 | the exact condition for the changes of an intended image that passes the region check to stay in the region |
| FacetLaws.ChangesLeaveRegion | crates/sim-artifact-facet/src/merge.rs:138-169 | an intended image can pass the region check while its change lies outside the region; the concrete images |
| JournalTypes.ChainDetermined | crates/sim-lib-journal/src/entry.rs:38-60 | since an entry's id covers the previous id, the last id determines the whole chain |
| JournalLaws.VerifyState | crates/sim-lib-journal/src/verify.rs:94-136 | the pass over the entries computes the first complaint, or head, entries and payload ids |
| JournalLaws.VerifyStateAccepts | crates/sim-lib-journal/src/verify.rs:94-136 | a state is accepted exactly when its entries are a gapless canonical chain, its payloads are held and the head names the chain |
| JournalLaws.VerifyBatch | crates/sim-lib-journal/src/verify.rs:51-92 | the object loop and the entry loop give the first complaint in source order |
| JournalLaws.VerifyBatchAccepts | crates/sim-lib-journal/src/verify.rs:51-92 | a batch is accepted exactly when objects are sound and agree, entries follow the expected head, payloads are available and no committed entry differs |
| JournalLaws.FollowsIffExtends | crates/sim-lib-journal/src/verify.rs:67-90 | following the head of a chain is the same as making a longer chain |
| JournalReasons.BatchReason | crates/sim-lib-journal/src/verify.rs:51-92 | a refused batch is told of its first unsound or conflicting object, or, when there is none, of the first entry that does not fit and the first check that entry fails |
| JournalReasons.StateReason | crates/sim-lib-journal/src/verify.rs:94-136 | a refused state is told of its first entry that does not fit, with the first payload that is not held, or else of its head |
| MemoryBackend.Memory.CommitAdmission | crates/sim-lib-journal/src/memory.rs:30-100 | fence, redelivery, conflict, insertion and head update of the in-memory commit, partial insertions on conflict included |
| MemoryBackend.Memory.AcquireLease | crates/sim-lib-journal/src/memory.rs:104-118 | the fence counts up by one and never past its last value |
| MemoryBackend.Memory.AdmitThen | crates/sim-lib-journal/src/memory.rs:132-147 | the continuation is invoked once for a new commit and never otherwise |
| MemoryBackend.Memory.PublishThen | crates/sim-lib-journal/src/admission.rs:43-76 | an empty batch, an unlawful state or a bad batch never reaches the backend |
| MemoryBackend.LawfulVerifies | crates/sim-lib-journal/src/verify.rs:94-136 | a lawful state is accepted and replays as its chain; that map keys equal sequence numbers is part of being lawful |
| MemoryBackend.PublishKeepsLaws | crates/sim-lib-journal/src/memory.rs:30-100 | publication on a lawful journal appends exactly the batch, or finds it committed and changes nothing, or is refused and changes nothing, with the exact condition of each; the journal stays lawful |
| JournalReasons.CommitReason | crates/sim-lib-journal/src/memory.rs:30-100 | every refusal of a commit, on any stored state and any admission, verified or not: stale lease, wrong head, conflicting delivery, conflicting object, empty batch |
| JournalReasons.CommitStores | crates/sim-lib-journal/src/memory.rs:63-100 | a new commit stores every object and every entry, keeps what was stored, and its head is the entry with the greatest number |
| JournalReasons.PublishReason | crates/sim-lib-journal/src/admission.rs:43-76 | the checks of a publication come in the order batch, state, entries, lease, head; a refusal stores nothing |
| HostStore.LoadObjectReason | crates/sim-lib-journal/src/host.rs:211-221 | an object reference loads exactly when the leaf it names is there and holds the value it means, and else which of this fails |
| HostStore.FindObjectReason | crates/sim-lib-journal/src/host.rs:177-209 | an object is not found exactly when no leaf is listed under its meaning; more than one leaf is corruption |
| HostStore.CanonV1IsChain | crates/sim-lib-journal/src/host.rs:240-264 | the entries derived from a good v1 prefix of n leaves are a canonical chain of length n |
| HostStore.CanonV1Derives | crates/sim-lib-journal/src/host.rs:240-264 | each derived entry keeps its leaf's kind, and its payloads are, one by one and in order, the meanings of the leaf's payload bytes |
| HostStore.ReadV1 | crates/sim-lib-journal/src/host.rs:223-283 | succeeds exactly on a readable prefix within the work bound, and then returns exactly the canonical chain, payloads and head, each entry with the kind and payloads of its leaf; else the first fault is named |
| HostStore.ReadPrefix | crates/sim-lib-journal/src/host.rs:285-303 | succeeds exactly when descriptor, v1 leaves and canonical head agree within the bound, and else names the first that does not |
| HostStore.PrefixNames | crates/sim-lib-journal/src/host.rs:290-300 | a readable prefix names the number of its entries, its last v1 leaf, its canonical head and its own descriptor |
| HostStore.WalkBack | crates/sim-lib-journal/src/host.rs:318-357 | the backward locator walk ends, succeeds exactly when all leaves behind the head are readable within the bound, and gathers exactly their entries and payloads; else it tells what stopped it, behind how many readable leaves |
| HostStore.LinkedNames | crates/sim-lib-journal/src/host.rs:322-340 | every location behind a readable head lies in the envelope's namespace and names the entry stored there |
| ChainOrder.PlacedIsChainIff | crates/sim-lib-journal/src/host.rs:358-367 | entries placed by sequence number on a chain hold a given chain exactly when prefix and placed entries together are its entries, in any order |
| ChainOrder.ValuesAreChain | crates/sim-lib-journal/src/verify.rs:94-136 | a map keyed by sequence numbers whose values in key order are a chain holds exactly that chain |
| HostStore.InsertSuffix | crates/sim-lib-journal/src/host.rs:358-367 | inserts every walked entry under its sequence number, and refuses exactly when one is taken |
| HostStore.ReadV2 | crates/sim-lib-journal/src/host.rs:305-375 | succeeds exactly on envelopes whose leaves are readable and, in whatever order they are linked, are the entries of a chain within the bound that the head ends; returns exactly that chain with its payloads, whatever orphan leaves there are; every refusal is told its reason |
| HostStore.WrongOrderServed | crates/sim-lib-journal/src/host.rs:318-371 | two entries linked in the wrong order are read back in the right one; the concrete leaves |
| HostProtocol.StepKeepsInv | crates/sim-lib-journal/src/host/admission.rs:66-158 | every step of any writer keeps the store invariant, only lengthens the committed chain, and moves the state strictly later or not at all |
| HostProtocol.RunServes | crates/sim-lib-journal/src/host.rs:305-375 | a state selected at any time of a run stays readable, with its whole chain, at every later time |
| HostProtocol.ChainsGrow | crates/sim-lib-journal/src/host/admission.rs:12-167 | over any run of any number of writers, crashing anywhere, committed chains are ordered by prefix, and a changed state has a higher fence or a longer chain |
| HostProtocol.OneEntryPerSequence | crates/sim-lib-journal/src/host/admission.rs:12-167 | no two different entries are ever committed at one sequence number |
| HostProtocol.RunChain | crates/sim-lib-journal/src/host/admission.rs:103-109 | every committed chain of a run is a journal chain whose head the envelope names |
| HostProtocol.NoAba | crates/sim-lib-journal/src/host/admission.rs:125-158 | a state that was left never comes back, so the compare-exchange cannot be fooled |
| HostProtocol.SelectedOnce | crates/sim-lib-journal/src/host.rs:409-433 | once v2 is selected, one namespace and one prefix stay selected |
| HostProtocol.OldWriterLocked | crates/sim-lib-journal/src/host.rs:420-431 | a writer holding captured v1 bytes can exchange nothing after the upgrade |
| HostProtocol.UpgradeKeepsChain | crates/sim-lib-journal/src/host.rs:377-434 | the upgrade exchange keeps the chain and hands out the next fence |
| HostProtocol.SnapshotUnique | crates/sim-lib-journal/src/host.rs:377-434 | two readings of one chain are equal in entries, payloads and head |
| HostProtocol.ReadAcrossUpgrade | crates/sim-lib-journal/src/host.rs:377-434 | reading before an upgrade and at any time after it with nothing more committed succeeds or fails alike, exactly by the bound, and returns the same state |
| HostProtocol.FencesIncrease | crates/sim-lib-journal/src/host.rs:438-479 | issued fences strictly increase over a run |
| HostProtocol.SupersededNeverCommits | crates/sim-lib-journal/src/host/admission.rs:33-35 | nothing commits under a fence that a later lease has superseded |
| HostProtocol.CommitAppends | crates/sim-lib-journal/src/host/admission.rs:103-158 | a commit appends a batch that is not empty and starts where the chain ended |
| HostProtocol.BatchCommitsOnce | crates/sim-lib-journal/src/host/admission.rs:36-65 | no batch commits twice in a run |
| HostProtocol.ReadOlder | crates/sim-lib-journal/src/host.rs:305-375 | a reader holding an older envelope and reading the leaves of any later time rebuilds exactly the older chain |
| HostProtocol.ReadStore | crates/sim-lib-journal/src/host.rs:481-494 | reading whatever good state the leaf holds succeeds exactly within the bound and gives the committed chain; it is refused for its length alone |
| HostWriter.FindObjectExact | crates/sim-lib-journal/src/host.rs:177-209 | in every reachable store an object is found exactly when its leaf is published, and is then sound |
| HostWriter.Writer.ExchangeState | crates/sim-lib-journal/src/host.rs:461-470 | under interference, an exchange justified when it was prepared is still justified when it succeeds |
| HostWriter.Writer.InstallV2 | crates/sim-lib-journal/src/host.rs:377-434 | a successful upgrade is one exchange that leases the next fence and keeps the chain; without interference it succeeds exactly when the journal is within the bound and the fence not the last, and else leaves the state leaf alone |
| HostWriter.Writer.AcquireLease | crates/sim-lib-journal/src/host.rs:438-479 | a lease is one exchange of this writer with a strictly higher fence and the same chain; without interference the exact condition of success, from an empty, a v1 or a v2 journal, and the error otherwise; an incapable binding is refused before anything is read |
| HostAdmission.PutObjects | crates/sim-lib-journal/src/host/admission.rs:67-71 | all objects are published and referenced exactly when all are sound |
| HostAdmission.ResolvePayloads | crates/sim-lib-journal/src/host/admission.rs:76-83 | every payload gets a readable reference from the batch or from the store; alone, exactly when each can be resolved |
| HostAdmission.PutEntries | crates/sim-lib-journal/src/host/admission.rs:73-101 | after the loop the last location leads through stored leaves that spell the observed chain followed by the batch |
| HostAdmission.AppendReady | crates/sim-lib-journal/src/host/admission.rs:103-111 | with the leaves stored, the prepared exchange appends exactly the batch |
| HostAdmission.AdmitWithAction | crates/sim-lib-journal/src/host/admission.rs:12-167 | under any interference it commits exactly the batch with its own last step and enters the continuation once, or finds it committed under the live fence, or fails without having moved the state; without interference the exact condition of success, and for every refusal the first thing in its way |
| HostAdmission.ContinuationOnce | crates/sim-lib-journal/src/host/admission.rs:112-166 | a continuation is entered only behind a commit, and over a whole run no two commits carry the same batch, so no batch enters a continuation twice |
| HostAdmission.Redeliver | crates/sim-lib-journal/src/host/admission.rs:36-65 | exact historical redelivery confirms the same envelope, returns its head and invokes nothing |
| HostAdmission.VerifyHistorical | crates/sim-lib-journal/src/host/admission.rs:37-45 | only the verified committed chain proves historical admission |
| JournalTwin.VerifiedAdmission | crates/sim-lib-journal/src/admission.rs:55-76 | what a batch must satisfy before it reaches the host, exactly, and the complaint of the committed chain's own reading otherwise |
| JournalTwin.HostPublish | crates/sim-lib-journal/src/admission.rs:43-53 | publication over the host: guarantees under interference, and the exact condition of acceptance without |
| JournalTwin.MemoryRefines | crates/sim-lib-journal/src/memory.rs:30-100 | on batches whose payloads travel, the memory backend is the abstract journal of a fence and a chain |
| JournalTwin.HostOffer | crates/sim-lib-journal/src/host/admission.rs:12-167 | so is the host backend |
| JournalTwin.TwinRun | crates/sim-lib-journal/src/admission.rs:43-53 | over every run of leases and publications whose payloads travel, both backends give the same outcomes, heads, continuations and final chain |
| JournalTwin.TwinStart | crates/sim-lib-journal/src/host.rs:438-449 | two empty journals, after their first lease, are the same abstract journal |
| JournalTwin.TwinReplay | crates/sim-lib-journal/src/verify.rs:94-136 | both then replay as the same verified chain under the same head |
| JournalTwin.PrefixPayloadDiffers | crates/sim-lib-journal/src/host.rs:177-190 | a payload that only the v1 prefix holds: batch verification on a lawful state of the chain and publication in memory accept, the host refuses; the concrete journal |
| Order.SortForgetsOrder | crates/sim-lib-journal/src/datum_codec.rs:59-77 | sorting by keys that tell members apart forgets the order they came in |
| Order.LexLeqIff | crates/sim-lib-journal/src/datum_codec.rs:59-77 | one key precedes another where it ends first or has the smaller byte at the first difference |
| DatumCodec.TextLeqIff | crates/sim-lib-journal/src/datum_codec.rs:119-124 | texts are ordered by their first different byte, a text before its extensions |
| DatumParsing.RoundTrip | crates/sim-lib-journal/src/datum_codec.rs:27-117 | for every value and every tail, parsing the value's bytes followed by the tail yields the value and leaves the tail |
| DatumParsing.ParseExact | crates/sim-lib-journal/src/datum_codec.rs:131-222 | the parser accepts only such bytes: what it consumed is the plain form of what it returned |
| DatumCodec.SymbolKeyOrder | crates/sim-lib-journal/src/datum_codec.rs:119-124 | field names without namespace come first, then by namespace, then by name, each bytewise; the key tells names apart |
| DatumCodec.NormalizeStable | crates/sim-lib-journal/src/datum_codec.rs:57-83 | the normal form of a canonical value is canonical, its own normal form, and has the same key |
| DatumEncoding.DecodeEncode | crates/sim-lib-journal/src/datum_codec.rs:5-25 | decoding an encoding gives the order-normalised value |
| DatumEncoding.EncodeSameIffSameMeaning | crates/sim-lib-journal/src/datum_codec.rs:5-12 | two canonical values encode equally exactly when they normalise equally, exactly when their keys are equal |
| DatumEncoding.EncodeForgetsOrder | crates/sim-lib-journal/src/datum_codec.rs:57-83 | permuting members, entries or fields does not change the encoding |
| DatumEncoding.NormalizeKeepsParts | crates/sim-lib-journal/src/datum_codec.rs:57-83 | normalising permutes the parts and normalises each, and does no more |
| DatumEncoding.DecodeExact | crates/sim-lib-journal/src/datum_codec.rs:14-25 | decoding accepts only canonical values in their own bytes, and nothing may follow |
| DatumEncoding.DecodeAnyOrder | crates/sim-lib-journal/src/datum_codec.rs:14-25 | the decoder does not ask for the canonical order: any order of a canonical value is accepted |
| DatumEncoding.CodecReasons | crates/sim-lib-journal/src/datum_codec.rs:5-25 | the encoder refuses exactly the values that are not canonical; bytes are corrupt exactly when they are no value's plain form, and refused as not canonical exactly when that value is not |
| DatumOrder.AcceptedIff | crates/sim-lib-journal/src/datum_codec.rs:14-25 | bytes decode to a value exactly when it is canonical and they are its plain form, its parts in any order |
| DatumOrder.NormalIffOrdered | crates/sim-lib-journal/src/datum_codec.rs:57-83 | normalising leaves a canonical value as it is exactly when its members, entries and fields are in key order at every depth |
| DatumOrder.AcceptedCanonicalIff | crates/sim-lib-journal/src/datum_codec.rs:14-25 | accepted bytes are the canonical encoding of what they state exactly when that is in key order at every depth |
| DatumOrder.SwappedFieldsAccepted | crates/sim-lib-journal/src/datum_codec.rs:14-25 | a node with swapped fields is accepted, and its bytes are not the canonical encoding; the concrete value |
| DatumOwnKey.OwnKeyIsGood | crates/sim-lib-journal/src/datum_codec.rs:60-70 | the encoding itself can serve as the sort key, so the assumption on the kernel's key can be met |
| DatumBuffers.Buffer.PutDatum | crates/sim-lib-journal/src/datum_codec.rs:27-86 | appends exactly the plain form of the normal form |
| DatumBuffers.Buffer.PutSymbol | crates/sim-lib-journal/src/datum_codec.rs:96-105 | appends the namespace tag, the namespace if any, and the name |
| DatumBuffers.EncodeDatum | crates/sim-lib-journal/src/datum_codec.rs:5-12 | the encoder computes the specified encoding or refuses a value that is not canonical |
| DatumBuffers.Cursor.ReadDatum | crates/sim-lib-journal/src/datum_codec.rs:181-215 | the cursor does what the parser says and stands at what is left |
| DatumBuffers.Cursor.ReadSymbol | crates/sim-lib-journal/src/datum_codec.rs:165-176 | as the parser says, both symbol tags and no other |
| DatumBuffers.Cursor.ReadItems | crates/sim-lib-journal/src/datum_codec.rs:177-180 | the counted loop reads exactly the counted elements |
| DatumBuffers.DecodeDatum | crates/sim-lib-journal/src/datum_codec.rs:14-25 | format, value, end of input, and canonical check, in that order |
| Formats.DatumLayout | crates/sim-lib-journal/src/datum_codec.rs:27-117 | the twelve tags and, byte for byte, what follows each of them |
| Formats.WordLayout | crates/sim-lib-journal/src/datum_codec.rs:113-117 | words and lengths are big-endian: the most significant byte first |
| DatumObjects.ExactBytesIff | crates/sim-lib-journal/src/object.rs:96-108 | a value carries exact bytes exactly when it is the tagged node of just these bytes |
| DatumObjects.ProjectionIs | crates/sim-lib-journal/src/object.rs:32-38 | an object's bytes are the exact bytes of a tagged value, and the encoding of any other |
| DatumObjects.StorageBytes | crates/sim-lib-journal/src/object.rs:65-71 | the grown buffer is the storage form of a canonical value; others are refused |
| DatumObjects.FromStorageBytes | crates/sim-lib-journal/src/object.rs:73-93 | returns an object exactly when the leaf stores one |
| DatumObjects.StorageRoundTrip | crates/sim-lib-journal/src/object.rs:65-93 | storing and loading keeps id and bytes and normalises the value |
| DatumObjects.OneLeafPerMeaning | crates/sim-lib-journal/src/host.rs:163-175 | objects have one id exactly when they have one storage form, so a directory never holds two files for one meaning |
| Formats.ObjectLayout | crates/sim-lib-journal/src/object.rs:65-71 | an object leaf byte for byte: tag, length, encoding |
| NativeCodec.SymbolTextBack | crates/sim-lib-journal/src/native_codec.rs:510-518 | a symbol's text parses back to it exactly when its namespace is not empty and has no slash and its name is not empty, or it is an accepted plain name without slash |
| NativeCodec.SymbolTextExact | crates/sim-lib-journal/src/native_codec.rs:510-518 | text that parses is the text of what it parses to |
| NativeCodec.QualifiedTextCollides | crates/sim-lib-journal/src/native_codec.rs:377-381 | two different symbols can have one text when a namespace holds a slash; the concrete pair |
| NativeCodec.HexBack | crates/sim-lib-journal/src/native_codec.rs:450-470 | decoding hexadecimal text gives the bytes back |
| NativeCodec.UnhexIff | crates/sim-lib-journal/src/native_codec.rs:454-470 | a text reads as bytes exactly when, but for letter case, it is their hexadecimal text |
| Formats.HexLayout | crates/sim-lib-journal/src/native_codec.rs:450-470 | file names spell each byte in two lower-case digits, the high one first; digits of either case are read |
| NativeCodec.IdKeyBack | crates/sim-lib-journal/src/native_codec.rs:429-448 | an id's file name parses back to it exactly when its algorithm symbol does |
| NativeCodec.IdKeyIff | crates/sim-lib-journal/src/native_codec.rs:429-448 | a file name is read as an id exactly when it is, but for letter case, the name of that id, whose digest has 32 bytes and whose algorithm its text tells |
| NativeEnvelope.Text32Back | crates/sim-lib-journal/src/native_codec.rs:505-508 | text comes back exactly when its length fits 32 bits |
| NativeEnvelope.EnvelopeBack | crates/sim-lib-journal/src/native_codec.rs:125-175 | an encoded envelope followed by anything reads back and leaves the rest |
| NativeEnvelope.EnvelopeExact | crates/sim-lib-journal/src/native_codec.rs:144-175 | bytes that parse as an envelope are that envelope's own bytes |
| NativeLeaves.EnvelopeCodec | crates/sim-lib-journal/src/native_codec.rs:125-175 | state bytes and the envelopes that are accepted correspond one to one; `EnvelopeShapes.EnvelopeBackIff` says which sound envelopes those are |
| NativeLeaves.EnvelopeInjective | crates/sim-lib-journal/src/native_codec.rs:125-142 | different sound envelopes have different bytes |
| NativeLeaves.EnvelopeAlone | crates/sim-lib-journal/src/native_codec.rs:163 | nothing may follow an encoded envelope |
| EnvelopeShapes.EnvelopeBackIff | crates/sim-lib-journal/src/native_codec.rs:144-175 | a sound envelope comes back from its bytes exactly when its head, if it has one, has a prefix or a location that leads to it |
| EnvelopeShapes.ExchangedComesBack | crates/sim-lib-journal/src/host.rs:409-479 | whatever a first lease, a later lease or a commit exchanges into the state leaf can be decoded again |
| EnvelopeShapes.UpgradedComesBack | crates/sim-lib-journal/src/host.rs:409-433 | so in particular the first envelope of an upgraded journal with entries: prefix and head, and no location |
| EnvelopeShapes.RunComesBack | crates/sim-lib-journal/src/host.rs:481-494 | over every run of any writers, the current v2 state can be decoded from its bytes |
| EnvelopeShapes.LostHeadRefused | crates/sim-lib-journal/src/native_codec.rs:164-166 | an envelope with a head, no prefix and no location selects no chain in any store, and its bytes are refused |
| EnvelopeShapes.FencesFit | crates/sim-lib-journal/src/host.rs:404-408 | the last fence that a lease can hand out is the last that can be encoded |
| Formats.EnvelopeLayout | crates/sim-lib-journal/src/native_codec.rs:125-142 | the state leaf byte for byte: tag, fence, namespace, and three optional parts, whose own bytes `PrefixLayout`, `HeadLayout` and `LocationLayout` spell out |
| Formats.IdLayout | crates/sim-lib-journal/src/native_codec.rs:500-508 | an id is its algorithm's text, measured in four bytes, and its digest |
| Formats.IdOkIff | crates/sim-lib-journal/src/native_codec.rs:567-574 | the ids that can be read back: 32 bytes of digest, and an algorithm that its short, valid text tells |
| NativeLeaves.DescriptorCodec | crates/sim-lib-journal/src/native_codec.rs:177-195 | descriptor bytes correspond one to one to captured state and canonical head |
| Formats.DescriptorLayout | crates/sim-lib-journal/src/native_codec.rs:177-183 | the descriptor byte for byte: tag, captured state with its length, canonical head |
| NativeLeaves.EntryCodec | crates/sim-lib-journal/src/native_codec.rs:197-235 | an entry leaf gives back the entry with its id, link and references, although its fields were re-sorted, and nothing may follow it |
| Formats.EntryLayout | crates/sim-lib-journal/src/native_codec.rs:197-210 | the entry leaf byte for byte: tag, value with its length, link, and counted references |
| NativeEntry.EntrySurvives | crates/sim-lib-journal/src/native_codec.rs:237-291 | an entry is recovered from the normal form of its value, id check included |
| NativeEntry.DecimalBack | crates/sim-lib-journal/src/native_codec.rs:252-267 | a decimal sequence number parses back to itself |
| NativeEntry.ParseU64Iff | crates/sim-lib-journal/src/native_codec.rs:252-267 | a text parses as a number exactly when it is its decimal digits, with any zeros and perhaps a plus sign in front, within 64 bits |
| Formats.DecimalLayout | crates/sim-lib-journal/src/native_codec.rs:252-267 | sequence numbers are written digit by digit, with no zero in front |
| Formats.EntryTags | crates/sim-lib-journal/src/native_codec.rs:237-267 | the tag of an entry's value and the domain of its sequence number, as texts |
| Formats.EntryFieldNames | crates/sim-lib-journal/src/entry.rs:38-60 | the names of an entry value's fields, as texts and in order |
| Formats.EntryValues | crates/sim-lib-journal/src/entry.rs:38-80 | what those fields hold: the decimal number, nothing or the id before, the kind, and the payload ids in order |
| Formats.ValueTags | crates/sim-lib-journal/src/native_codec.rs:293-297 | the tags of id values and of exact-byte values, as texts |
| Formats.FieldNames | crates/sim-lib-journal/src/native_codec.rs:297-303 | the field names of id values and of exact-byte values, as texts |
| NativeEntry.IdBackNormal | crates/sim-lib-journal/src/native_codec.rs:293-314 | an id is recovered from its value whatever the order of its fields |
| NativeExact.RecheckAgrees | crates/sim-lib-journal/src/native_codec.rs:237-291 | once the fields state an entry, the id computed again always agrees: that recheck never refuses |
| NativeExact.EntryFromDatumIff | crates/sim-lib-journal/src/native_codec.rs:237-291 | a value is accepted as an entry exactly when it is canonical and has the normal form of the entry's own value, in any order of its fields |
| NativeExact.EntryLeafIff | crates/sim-lib-journal/src/native_codec.rs:212-235 | the bytes read as an entry are exactly the leaves that spell some such value, followed by the entry's links and nothing else |
| NativeExact.EntryLeafCanonicalIff | crates/sim-lib-journal/src/native_codec.rs:197-235 | of all leaves of an entry exactly the one in key order is what the encoder writes |
| NativeBuffers.EncodeEnvelope | crates/sim-lib-journal/src/native_codec.rs:125-142 | the step-by-step encoder computes the specified bytes |
| NativeBuffers.DecodeEnvelope | crates/sim-lib-journal/src/native_codec.rs:144-175 | the step-by-step decoder accepts exactly the bytes of sound envelopes whose head is led to, as `EnvelopeShapes.EnvelopeBackIff` has it |
| NativeBuffers.EncodeDescriptor | crates/sim-lib-journal/src/native_codec.rs:177-183 | computes the specified bytes |
| NativeBuffers.DecodeDescriptor | crates/sim-lib-journal/src/native_codec.rs:185-195 | accepts exactly the specified bytes |
| NativeBuffers.EncodeV2Entry | crates/sim-lib-journal/src/native_codec.rs:197-210 | computes the specified bytes |
| NativeBuffers.DecodeV2Entry | crates/sim-lib-journal/src/native_codec.rs:212-235 | the step-by-step decoder accepts the bytes that `NativeExact.EntryLeafIff` characterises, any field order included |
| RelationDir.ResolveId | crates/sim-table-relation/src/backend.rs:169-182 | the loop follows the first row by id under each parent whose name part matches |
| RelationDir.Relation.Execute | crates/sim-table-relation/src/backend.rs:189-320 | a copy is edited, the head exchanged, and only then the state replaced; what the caller is told is the subject of `RelationRuns.StaleIff` and `RelationRuns.StepAlike` |
| RelationDir.Relation.Get | crates/sim-table-relation/src/backend.rs:350-367 | nil for an absent key, refusal for a directory or another codec, else the decoded value |
| RelationDir.RemoveLeaves | crates/sim-table-relation/src/backend.rs:285-296 | the loop of clear removes exactly the direct value children |
| RelationLaws.PlanKeepsTreeIff | crates/sim-table-relation/src/backend.rs:189-297 | a plan keeps the tree exactly when it does not insert under a value row |
| RelationLaws.PathsApart | crates/sim-table-relation/src/backend.rs:169-182 | in a tree two paths without empty segments never lead to one row, whatever the names |
| RelationLaws.StepIsChildIff | crates/sim-table-relation/src/backend.rs:169-188 | resolving a segment finds the row that looking a child up finds exactly when no older sibling shares the name part |
| RelationPaths.RefusedAlike | crates/sim-table-relation/src/backend.rs:202-297 | a plan on a name that is resolved as it is looked up is refused exactly when, and as, the nested directory refuses it; what a delete returns is what the directory held |
| RelationPaths.UpdatedAlike | crates/sim-table-relation/src/backend.rs:202-297 | after such a plan that uncovers no hidden sibling, every path holds what the nested directory holds after the same update |
| RelationPaths.ResolveInserted | crates/sim-table-relation/src/backend.rs:217-231 | inserting a row changes what one path resolves to and no other |
| RelationPaths.ResolveWithout | crates/sim-table-relation/src/backend.rs:285-296 | removing childless rows removes exactly the paths that led to them |
| RelationRuns.RunKeepsTree | crates/sim-table-relation/src/backend.rs:169-320 | every run whose insertions are asked for at directories keeps a tree |
| RelationRuns.HeadStep | crates/sim-table-relation/src/backend.rs:298-319 | a head in step is never stale and stays in step; one out of step refuses every change |
| RelationRuns.StaleIff | crates/sim-table-relation/src/backend.rs:298-319 | a stale head is reported exactly when the relation is attached, the head is out of step and the plan would change something; a refusal changes nothing, a change publishes its generation, and an unattached slot is never touched |
| RelationRuns.HeadFollows | crates/sim-table-relation/src/backend.rs:298-319 | over every run the head equals the generation exactly if it did at the start; otherwise nothing ever changes |
| RelationRuns.OpenedFollows | crates/sim-table-relation/src/backend.rs:97-126 | an opened relation keeps head and generation equal over every run exactly when the slot was empty |
| RelationRuns.GetReadsAt | crates/sim-table-relation/src/backend.rs:350-367 | a key reads as what the nested directory holds there, if it is resolved as it is looked up |
| RelationRuns.GetMissing | crates/sim-table-relation/src/backend.rs:350-367 | reading under a missing path is refused; a key that names no row reads as nothing |
| RelationRuns.RootStays | crates/sim-table-relation/src/backend.rs:184-188 | the empty name finds the root itself, and no plan inserts, replaces or removes it |
| RelationRuns.GetAfterSet | crates/sim-table-relation/src/backend.rs:350-372 | what was set is read back, whatever the name and whatever hides it |
| RelationRuns.StepAlike | crates/sim-table-relation/src/backend.rs:189-320 | one plan whose name shares its part with no sibling is one step of the nested directory, and the reply is the nested directory's: its refusal, the value a delete removed, or nothing; only a lost head exchange intervenes, and is told when there was something to do |
| RelationRuns.RunAlike | crates/sim-table-relation/src/backend.rs:189-320 | over every run of such plans the rows spell what the nested directory becomes under the same updates, and all replies are the nested directory's |
| RelationRuns.OpenedSpells | crates/sim-table-relation/src/backend.rs:97-115 | an opened relation spells the empty directory |
| RelationRuns.StaleViewBreaksTree | crates/sim-table-relation/src/backend.rs:201-231 | a view of a directory that was removed and whose name now holds a value inserts a row under that value; the concrete run |
| RelationRuns.QualifiedHides | crates/sim-table-relation/src/backend.rs:169-188 | two siblings may share a name part, and then only the older is ever resolved; the concrete plans |
| LazyList.DeliveredAround | crates/sim-list-lazy/src/iter.rs:26-60 | what precedes a failure is delivered; what follows it only if the driver keeps its place |
| LazyList.IterState.FillTo | crates/sim-list-lazy/src/iter.rs:105-113 | forces only the end of the buffer, each element once and none beyond what is needed; an infallible source never fails |
| LazyList.IterState.Register | crates/sim-list-lazy/src/iter.rs:116-118 | the census counts one more view, and the buffer still starts at the first view |
| LazyList.IterState.Unregister | crates/sim-list-lazy/src/iter.rs:122-140 | the census counts one view less, and the buffer then starts at the first view left, with no index below zero |
| LazyList.IterState.constructor | crates/sim-list-lazy/src/iter.rs:186-191 | for an infallible source the elements that views read are exactly the values of the source |
| LazyList.IterState.Car | crates/sim-list-lazy/src/iter.rs:323-332 | a view at offset s reads element s of everything the list delivers, whatever other views did, forcing at most one element past it |
| LazyList.IterState.Cdr | crates/sim-list-lazy/src/iter.rs:334-344 | a further view one past this one, exactly when there is an element here, forcing at most one element past the view |
| LazyList.IterState.IsEmpty | crates/sim-list-lazy/src/iter.rs:317-321 | exact, forcing at most one element past the view |
| LazyList.IterState.Clone | crates/sim-list-lazy/src/iter.rs:226-230 | one more view at the same offset, and nothing forced |
| LazyList.IterState.LenCmp | crates/sim-list-lazy/src/iter.rs:350-360 | less, equal or greater exactly as the remaining length compares with n, forcing no further than offset s + n + 1, saturation included |
| LazyList.IterState.Get | crates/sim-list-lazy/src/iter.rs:362-380 | the element at s + index, forcing no further than that element and leaving no view behind |
| MountedDir.Traverse | crates/sim-table-mount/src/routing.rs:39-53 | the loop opens one segment after another and stops at the first absence or failure |
| MountedDir.TraversedSnoc | crates/sim-table-mount/src/routing.rs:39-53 | traversing one segment more is opening it in what was reached |
| MountReasons.AsksIff | crates/sim-table-mount/src/routing.rs:39-53 | a traversal ends at a node exactly when every node on a way to it opens the next |
| MountReasons.TraversedIff | crates/sim-table-mount/src/routing.rs:39-53 | it stops without a node exactly at a name that is not there, and fails exactly at a node that is no directory or fails to open the name |
| MountedDir.LongestMount | crates/sim-table-mount/src/routing.rs:55-64 | the maximum by length over the mounts above the path |
| MountedDir.LongestIs | crates/sim-table-mount/src/routing.rs:55-64 | the longest length is that of a mount above the path, and none above it is longer |
| MountedDir.Namespace.InsertMount | crates/sim-table-mount/src/mount_dir.rs:125-176 | accepted exactly when the root holds nothing there, as `MountedDir.RootHoldsIff` has it, and the mount table leaves room; every refusal names its reason; no mount ever lies strictly below a table mount |
| MountedDir.RootHoldsIff | crates/sim-table-mount/src/mount_dir.rs:203-221 | the root holds something at a path exactly when the parent opens, or fails to open, the last name or has it as a key; nothing where the way ends early; an error exactly when the way fails or the parent is no directory or no table |
| MountedDir.MountShadowsNothing | crates/sim-table-mount/src/mount_dir.rs:125-176 | an accepted mount shadows no opening and no key of the root |
| MountedDir.KeyNotShadowed | crates/sim-table-mount/src/mount_dir.rs:135-141 | a mount over a key of the root table is refused, and so is one over a directory that fails to open; the concrete world |
| MountedDir.Namespace.Unmount | crates/sim-table-mount/src/mount_dir.rs:96-103 | removes exactly the mount at the path |
| MountedDir.Namespace.ResolveCurrent | crates/sim-table-mount/src/mount_dir.rs:188-201 | inside the longest mount, or else in the root; only root paths become virtual |
| MountedDir.Namespace.Opendir | crates/sim-table-mount/src/mount_dir.rs:466-499 | mounts first, then the backing directory |
| MountedDir.Namespace.DirectMountChildren | crates/sim-table-mount/src/mount_dir.rs:223-238 | the names under which mounts lie, table mounts told apart, whatever order the mounts come in |
| MountedDir.ResolveStep | crates/sim-table-mount/src/mount_dir.rs:188-201 | resolving a path one unmounted segment longer is opening that segment in the resolution of the shorter path |
| MountedDir.ResolvesIff | crates/sim-table-mount/src/routing.rs:21-64 | a path resolves to a node exactly when the longest mount prefix, or the root, leads to it |
| MountReasons.ResolveReason | crates/sim-table-mount/src/routing.rs:21-64 | why a path does not resolve, exactly: read off the longest mount above it, or off the root when there is none |
| MountReasons.OpendirReason | crates/sim-table-mount/src/mount_dir.rs:466-499 | why opendir fails, exactly: a table mount of that name, an unresolved view, or the node that backs it |
| MountedDir.WalkIsLongestPrefix | crates/sim-table-mount/src/mount_dir.rs:466-499 | where every step is answered faithfully, opendir opens all steps to a path exactly when every path on the way resolves, and the last view is then the node the longest mount prefix leads to |
| MountedDir.OpendirAgreesIff | crates/sim-table-mount/src/mount_dir.rs:466-499 | under any lawful mounts, opendir opens exactly the paths that resolve, exactly when it is faithful: the condition reads off the mounts and the shorter path |
| MountedDir.OpendirOfMount | crates/sim-table-mount/src/mount_dir.rs:470-481 | a directory mount opens, and its view is backed by the mounted value |
| MountedDir.DeepMountUnresolved | crates/sim-table-mount/src/routing.rs:31-35 | inside a mounted directory a deeper mount opens a view that does not resolve; the concrete mounts, both accepted |
| MountedDir.TableMountOpens | crates/sim-table-mount/src/mount_dir.rs:466-499 | a table that is also a directory opens below its mount, though nothing resolves there; the concrete mount, accepted |

## Left out

- HostWriter.Writer.AcquireLease: takes a budget of attempts where the source loops until it wins, because other writers may win for ever.
- HostStore.ReadV2: reads all leaves of one store at once, because leaves are immutable; `HostProtocol.RunServes` and `HostProtocol.ReadOlder` cover leaves read later.
- HostStore.WalkBack: the descriptor, namespace and entry bytes are compared as values; the byte forms are the subject of the codec modules.
- HostWriter.Writer.ReserveNamespace: yields any fresh token; clock, process id, counter and the bound of 128 tries are not modelled.
- HostAdmission.AdmitWithAction: a port error after a successful exchange, failpoint hooks and the guarded-exchange capability check are not modelled; the layout is taken as created.
- MemoryBackend.Memory.CommitAdmission: sequence numbers are unbounded, so overflow of a 64-bit sequence is not modelled; the fence bound is.
- JournalTwin.TwinRun: compares acceptance, heads and replay, not which error a refusal carries, because the backends differ there by design.
- DatumBuffers.Cursor.ReadEntries: reserving capacity for a hostile count is not modelled, only the elements read.
- DatumBuffers.DecodeDatum: all complaints about malformed bytes are one error; the source tells them apart by text.
- NativeBuffers.DecodeV2Entry: likewise, malformed bytes and corrupt entries are one refusal.
- RelationDir.Relation.Execute: the generation is unbounded, the head table answers every exchange, and capability checks are left out.
- LazyList.IterState.Get: `for_each` has the same loop and is not modelled separately.
- MountedDir.Namespace.Opendir: backing directories answer from one snapshot; `set`, `del`, `keys`, `entries`, `clear`, `mkdir` and `rmdir` forward to the resolved node and are not modelled.
- The v1 writer is only a step of the protocol: it may store leaves past the committed prefix and exchange v1 states as the retained format allows.
- `put_datum`, `get_datum` and the rebuilt index: they only publish or find one object leaf, which the store model has.
- SHA-256, HMAC, encryption and the kernel's `content_id` and `canonical_bytes`, which are not part of this repository.
- Facet identity hashing, path validation and the types that keep base, observed and intended images apart; a facet number stands for them.
- Mutex poisoning, thread scheduling and allocation failure; runtime wiring such as factories, manifests and capabilities; the other table and list crates, whose updates are shallow.
