# Verification of pokapali's document core

A Dafny model of the parts of pokapali whose correctness is hardest to see from the code, with proofs of
what they promise. `dafny verify dfyconfig.toml` checks everything.

| files | models |
|---|---|
| `Monoids`, `FingerTree`, `FoldArray`, `Concat`, `Split` | the 2-3 finger tree of `packages/finger-tree`: cached monoidal measures, both ends, arrays, concatenation, splitting |
| `TreeObjects`, `ConcatObjects`, `SplitObjects`, `View` | the same trees as heap objects, and the view fold memoised on object identity (`packages/document/src/view.ts`) |
| `Chain`, `ChainHistory` | the chain reducer (`packages/core/src/reducers.ts`), and what every field of its state remembers of the facts |
| `Interpreter`, `InterpreterEffects`, `InterpreterLoop`, `InterpreterProgress` | the fetch and retry protocol as a state machine over every interleaving, what each fact does in it, the event loop that refines it, and that it comes to rest |
| `SnapshotChain`, `SnapshotAwaits` | peers pushing and applying snapshots over one content-addressed store, as atomic calls and across their awaits, and `walkChain` |
| `Sideband`, `Ingest`, `IngestEffects`, `Orchestrator`, `IngestAwaits` | the bounded quarantine and the snapshot ingress, as calls that run to completion and across their awaits |
| `PublishQueue` | the latest-wins publish queue and the effective sequence |
| `AsyncUtils`, `Pipeline` | the async queue, `merge` and `scan`, and the three composed |
| `Base64Url`, `Capability`, `FragmentTheorems`, `FragmentReading`, `FragmentRoundTrip` | the capability fragment codec |
| `Options` | optional values |

How the model is set up:

- Pure TypeScript functions are Dafny functions on values, and theorems about them are lemmas. Code that
  updates state is a class or a loop, proved equal to a function of the old state; what the source promises is
  then proved of that function over all runs.
- Monoid laws, hash injectivity, the behaviour of UTF-8 and of the key import are hypotheses of the theorems.
  They are never assumed by the code.
- Time, network, storage and user callbacks are steps or parameters: a fetch may be answered, and a timer may
  fire, at any moment after it was started. Promises that settle together may be seen in any order.
- The TypeScript type of a measure is a predicate on the Dafny type, `Measured.has`; the monoid laws are asked
  of its values only. A record of monoids is lawful in that sense, so every tree theorem applies to it.
- An element of a finger tree carries its nesting in its constructors, as the TypeScript erases the types and
  tracks a depth. A cached value of a view is never `undefined`, so a cache hit is a key in the table.
- A CID is its string form, so two CID objects for the same content are the same value.
- Labels, channel names and passwords of a capability are sequences of UTF-16 code units, as JavaScript
  strings are; every other string is a Dafny string.

Results that differ from a first reading of the code or of its comments:

- `SnapshotAwaits`: "a block follows its parent by one" is false of overlapping calls on one codec. The
  block pushed after a push follows its parent exactly when, between the begin and the commit of that push,
  the codec committed no other push and adopted no remote block that is not older
  (`SnapshotAwaits.NextBlockLinkedIffQuiet`). Two overlapping pushes are enough to break it, with nothing
  remote involved (`SnapshotAwaits.OverlapBreaksLink`); `publish` does not prevent them
  (`packages/core/src/create-doc.ts:1255-1293`). Runs of calls that do not overlap never break it.
- `Interpreter`: one unanswered fetch per CID holds for all runs exactly when the prefetch depth is zero
  (`Interpreter.SingleFlightIffNoPrefetch`).
- `Ingest`: over all runs of calls that run to completion, the apply callback of a CID fires at most once
  exactly when neither it nor the clock read after it ever throws, or the CID has no valid, readable block
  at all (`Ingest.AtMostOnceIffNoThrow`). After either throw the CID is not remembered as placed, so another
  offer of the block can fire it again; after a clock that throws it can even return twice.
- `IngestAwaits`: two offers of one block that overlap between the gates and the end both fire the callback,
  with nothing throwing: the set of placed CIDs does not prevent the race it is there for
  (`packages/core/src/ingest-snapshot.ts:381-387`). Over all interleavings the callback fires at most once
  exactly when offers that apply it do not overlap and nothing throws (`IngestAwaits.AtMostOnceIffApart`).
- `Ingest`: a block placed by a rescan is never applied by a later ingest, although a comment expects that
  (`packages/core/src/ingest-snapshot.ts:490-496`).
- `Chain`: `maxSeq` is the largest known sequence until a tip advances to a CID that the chain does not know
  with a sequence above all others; that is the only fact that breaks it.
- `Capability`: a capability round-trips exactly when text decoding undoes text encoding on its password and
  on each channel label. That fails for a password that begins with a byte order mark, and for any string
  with a lone surrogate; of two channels whose names read the same afterwards, the last in label order
  prevails.

## Model

| member | source | states |
|---|---|---|
| Monoids.CombineLawful | packages/finger-tree/src/monoid.ts:22-41 | a record of monoids under any keys satisfies the laws on its records exactly when every component does on its own values |
| Monoids.CombineFold | packages/finger-tree/src/monoid.ts:22-41 | folding with a record of monoids gives the record of the component folds |
| FingerTree.MeasureTreeIsFold | packages/finger-tree/src/tree.ts:34-43 | the measure read in constant time from a valid tree is the fold of all its leaves |
| FingerTree.MkNode3Ok | packages/finger-tree/src/node.ts:13-24 | a node made of three valid elements caches the fold of its leaves, one level up |
| FingerTree.MkDeepOk | packages/finger-tree/src/tree.ts:47-62 | the smart constructor caches the true fold of prefix, middle and suffix |
| FingerTree.ConsCorrect | packages/finger-tree/src/tree.ts:66-105 | cons keeps a tree valid at every nesting depth and puts exactly the new leaves in front, through every overflow |
| FingerTree.SnocCorrect | packages/finger-tree/src/tree.ts:111-150 | snoc does the same at the back |
| FingerTree.ViewlCorrect | packages/finger-tree/src/tree.ts:156-198 | viewl is undefined exactly on the empty tree, and otherwise head and tail are valid and rejoin to the tree; the head is what head() reads |
| FingerTree.DeepLCorrect | packages/finger-tree/src/tree.ts:180-197 | refilling an empty prefix from the middle, or promoting the suffix, loses and reorders nothing |
| FingerTree.ViewrCorrect | packages/finger-tree/src/tree.ts:201-243 | viewr is undefined exactly on the empty tree, and otherwise init and last are valid and rejoin to the tree |
| FingerTree.DeepRCorrect | packages/finger-tree/src/tree.ts:225-242 | the mirror image of refilling, at the suffix |
| FingerTree.DigitToTreeCorrect | packages/finger-tree/src/tree.ts:276-287 | a digit standing alone becomes a valid tree with the same leaves |
| FingerTree.ViewlInvertsCons | packages/finger-tree/src/tree.ts:66-198 | viewl after cons gives back the very element and the same remaining leaves |
| FingerTree.ViewrInvertsSnoc | packages/finger-tree/src/tree.ts:111-243 | viewr after snoc gives back the very element and the same remaining leaves |
| FingerTree.LogarithmicDepth | packages/finger-tree/src/types.ts:51-60 | a tree with L nested deep levels has at least 2^(L+1) - 2 leaves |
| FingerTree.EndsNestLogarithmically | packages/finger-tree/src/tree.ts:66-243 | the calls of cons, snoc, viewl and viewr nest at most log2(n + 2) deep in a tree of n leaves |
| FoldArray.PushElement | packages/finger-tree/src/fold.ts:41-50 | the walk appends exactly the leaves of an element, in order, at any depth |
| FoldArray.PushDigitElements | packages/finger-tree/src/fold.ts:52-60 | the walk appends exactly the leaves of a digit |
| FoldArray.PushTree | packages/finger-tree/src/fold.ts:22-39 | the walk appends exactly the leaves of a tree, and leaves what was there |
| FoldArray.ToArray | packages/finger-tree/src/fold.ts:13-17 | toArray lists the leaves left to right |
| FoldArray.FromArray | packages/finger-tree/src/fold.ts:65-75 | the loop builds the tree that repeated snoc specifies |
| FoldArray.FromArrayRoundTrip | packages/finger-tree/src/fold.ts:13-75 | a tree built from an array is valid, lists that array again and measures its fold |
| FoldArray.Foldl | packages/finger-tree/src/fold.ts:96-107 | foldl is the left fold of the leaves |
| FoldArray.Foldr | packages/finger-tree/src/fold.ts:80-91 | foldr is the right fold of the leaves |
| FoldArray.FoldrIsList | packages/finger-tree/src/fold.ts:80-91 | the right fold with the list constructor gives the list back, so it visits every element once and in order |
| FoldArray.FoldlIsMeasure | packages/finger-tree/src/fold.ts:96-107 | folding a valid tree from the left with the append of a lawful monoid gives the measure cached in its root |
| Concat.ConsAllByLoop | packages/finger-tree/src/concat.ts:32-38 | the backwards loop puts the whole array in front in order |
| Concat.SnocAllByLoop | packages/finger-tree/src/concat.ts:41-47 | the forwards loop puts the whole array behind in order |
| Concat.NodesCorrect | packages/finger-tree/src/concat.ts:95-108 | packing two or more elements keeps their flattening and lifts each by one level with true caches |
| Concat.App3Correct | packages/finger-tree/src/concat.ts:25-90 | app3 terminates and yields a valid tree of left, middle and right in order, at every depth |
| Concat.ConcatCorrect | packages/finger-tree/src/concat.ts:13-19 | concat joins the two sequences, and its measure is the append of their measures |
| Split.SplitIndexCorrect | packages/finger-tree/src/split.ts:150-174 | if p holds after the whole array, the cut is where it first holds, and the pieces rejoin |
| Split.SplitDigitArrByLoop | packages/finger-tree/src/split.ts:150-174 | the loop finds that cut, and falls through exactly when p holds after no element |
| Split.FallThroughUnreachable | packages/finger-tree/src/split.ts:168-173 | whenever p holds of everything accumulated some element is a hit, so the fallback is never taken |
| Split.SplitTreeCorrect | packages/finger-tree/src/split.ts:65-133 | splitTree at any depth and accumulator never throws and returns valid parts that rejoin, cut where p turns true |
| Split.SplitCorrect | packages/finger-tree/src/split.ts:17-37 | split is undefined exactly when the tree is empty or p is false of its measure; otherwise p is true with the value counted and, given p(empty) false, false before it |
| Split.SplitAtFirst | packages/finger-tree/src/split.ts:17-49 | for monotone p the left part is the longest prefix of which p is false |
| Split.TakeDrop | packages/finger-tree/src/split.ts:39-61 | takeUntil and dropUntil cut a tree in two valid parts that rejoin |
| Split.SplitNestsLogarithmically | packages/finger-tree/src/split.ts:65-133 | the calls of splitTree, with the viewl and viewr below them, nest at most log2(n + 2) deep |
| TreeObjects.ConsObj | packages/finger-tree/src/tree.ts:66-94 | cons on heap objects allocates an object graph denoting cons of the value |
| TreeObjects.SnocObj | packages/finger-tree/src/tree.ts:111-135 | snoc on heap objects allocates an object graph denoting snoc of the value |
| TreeObjects.ViewlObj | packages/finger-tree/src/tree.ts:156-176 | viewl on heap objects denotes viewl of the value |
| TreeObjects.ViewrObj | packages/finger-tree/src/tree.ts:201-221 | viewr on heap objects denotes viewr of the value |
| ConcatObjects.App3Obj | packages/finger-tree/src/concat.ts:25-90 | app3 on heap objects denotes app3 of the value |
| ConcatObjects.ConcatObj | packages/finger-tree/src/concat.ts:13-19 | concat on heap objects denotes concat of the value |
| SplitObjects.SplitTreeObj | packages/finger-tree/src/split.ts:65-133 | splitTree on heap objects denotes splitTree of the value |
| SplitObjects.SplitObj | packages/finger-tree/src/split.ts:28-37 | split on heap objects denotes split of the value |
| View.SeedSound | packages/document/src/view.ts:162-171 | seeding keeps a cache sound exactly when the seeded value is the node's own fold |
| View.WalkElement | packages/document/src/view.ts:264-302 | from any sound cache an element folds to the fold of its leaves, and the cache stays sound and only grows; a node is in it afterwards, and one that was in it already changes nothing |
| View.WalkDigit | packages/document/src/view.ts:304-340 | the same for a digit, including the pairwise grouping of a four |
| View.WalkTree | packages/document/src/view.ts:234-262 | the same for a tree: a deep tree is in the cache afterwards, and one that was in it already changes nothing |
| View.FoldTree | packages/document/src/view.ts:196-206 | foldTree of any valid tree is the left-to-right fold of its leaves |
| View.FoldTreeAt | packages/document/src/view.ts:208-228 | foldTree at position n is the fold of the first min(n, length) epochs, for every integer n, through split and the shared cache |
| View.CutLength | packages/document/src/view.ts:220-227 | if each epoch counts one, the cut at a position leaves exactly that many epochs |
| View.FoldVersions | packages/document/src/view.ts:140-172 | one cache shared over any sequence of trees gives each its own fold |
| Chain.ScanNewest | packages/core/src/reducers.ts:83-95 | the scan loop finds the entry that the full scan specifies |
| Chain.ScanIsNewest | packages/core/src/reducers.ts:78-95 | the scan finds the fetched entry of highest seq, absent as zero, earliest discovered on ties, or none if nothing is fetched |
| Chain.NewestAlwaysCurrent | packages/core/src/reducers.ts:83-284 | after any sequence of facts the cached newestFetched is that entry |
| Chain.MaxSeqKept | packages/core/src/reducers.ts:97-260 | maxSeq never decreases and bounds every entry's seq |
| Chain.ExactUnlessTipFromNowhere | packages/core/src/reducers.ts:246-260 | maxSeq stays exact across a fact exactly when the fact is not a tip with an undiscovered CID and a seq above all others |
| Chain.ExactIffNoTipFromNowhere | packages/core/src/reducers.ts:97-260 | over any run maxSeq is exact in every state exactly when no fact is such a tip in the state it meets |
| Chain.HistoryKept | packages/core/src/reducers.ts:97-284 | over any run entries are never removed or reordered, known seqs never change, and maxSeq grows |
| Chain.PrevAlwaysClosed | packages/core/src/reducers.ts:173-224 | over any run every recorded prev is itself an entry |
| Chain.SeqsAlwaysReal | packages/core/src/reducers.ts:97-260 | over any run of truthful facts about a linked store every seq, also an inferred one, is the block's real seq |
| ChainHistory.EntriesAreHistory | packages/core/src/reducers.ts:97-284 | over any run the chain knows exactly the CIDs that were discovered or named as parent by a fetched block of a known CID, and each field of an entry is a function of the facts: the seq is the first one stated or inferred for it, absent exactly when there is none, and prev is that of its last fetched block |
| ChainHistory.TipIsLastAdvanced | packages/core/src/reducers.ts:246-260 | over any run the tip is the CID of the last tip-advanced fact, and no application is recorded as pending |
| ChainHistory.MaxSeqIsHighest | packages/core/src/reducers.ts:97-260 | over any run maxSeq is the highest of zero, the seqs of the entries and the seqs that tips counted for |
| ChainHistory.FetchedBlockTeachesSeqs | packages/core/src/reducers.ts:173-224 | a CID without seq whose fetched block carries seq 5 and a parent: seq 5, seq 4 for the parent, maxSeq 5 |
| Interpreter.ReduceIsChainStep | packages/core/src/reducers.ts:97-260 | what one fact can do to the status and attempt count of each entry |
| Interpreter.DispatchVisitsCandidate | packages/core/src/interpreter.ts:264-306 | the fetch loop over all entries acts on at most one, determined by the fact |
| Interpreter.InvRun | packages/core/src/interpreter.ts:249-340 | the invariants of the fetch protocol hold after every run with prefetching off |
| Interpreter.SingleFlight | packages/core/src/interpreter.ts:98-143 | in every reachable state at most one fetch per CID is unanswered |
| Interpreter.DispatchBound | packages/core/src/interpreter.ts:308-329 | a CID is dispatched at most three times, and three more for each rediscovery of its failed entry |
| Interpreter.QuiescentIsSettled | packages/core/src/interpreter.ts:264-340 | once queue, fetches and timers are empty, every entry is fetched, applied, failed with retries used up, or skipped by policy |
| Interpreter.AutoFetchSeenThrough | packages/core/src/interpreter.ts:79-92 | a CID first known through an auto-fetched source, or as a parent found by the chain walk, is never passed over: at quiescence it is fetched, applied or out of retries |
| Interpreter.DispatchesAreFetches | packages/core/src/interpreter.ts:98-143 | over any run, prefetching or not, the dispatch counts add up to the fetches ever opened |
| Interpreter.PrefetchDispatchesTwice | packages/core/src/interpreter.ts:407-432 | a three-step run in which the prefetch walk opens a second fetch for a CID |
| Interpreter.SingleFlightIffNoPrefetch | packages/core/src/interpreter.ts:407-432 | one unanswered fetch per CID over all runs holds exactly for prefetch depth zero |
| InterpreterEffects.AppliesExactlyNewest | packages/core/src/interpreter.ts:363-405 | in every run, prefetching or not, a consumed fact that makes the newest fetched entry fetched, with its block local and another tip, starts the application of that CID; every other fact starts none |
| InterpreterEffects.SettlementFeedsBackTip | packages/core/src/interpreter.ts:384-405 | in every run an application that succeeds feeds back exactly one tip-advanced fact with its CID and seq, a refused one nothing, and neither does anything else |
| InterpreterEffects.TipIsAdopted | packages/core/src/interpreter.ts:261-262 | in every run consuming a tip-advanced fact makes its CID the tip |
| InterpreterEffects.FactDoesExactly | packages/core/src/interpreter.ts:264-361 | in every run what a consumed fact, other than a tip with prefetching on, feeds back, opens, arms, cancels and skips, and nothing else: the one entry that became unknown is fetched, locally or over the network, if its sources allow it |
| InterpreterEffects.EligibleIsFetchable | packages/core/src/interpreter.ts:79-92 | an entry is fetched for any of five sources, or from the cache index if it has the highest seq |
| InterpreterEffects.TipFetchesAncestors | packages/core/src/interpreter.ts:407-432 | in every run a consumed tip opens one fetch for each ancestor within the prefetch depth that is unknown and not local, nearest first, and cancels the retry of its CID |
| InterpreterEffects.NetworkBlockIsApplied | packages/core/src/interpreter.ts:98-405 | the run in which a discovered CID is fetched over the network, applied and made the tip |
| InterpreterProgress.OwnStepsAreBounded | packages/core/src/interpreter.ts:249-405 | from any reachable state, with prefetching off and a finite store, the interpreter's own steps are bounded in number by a measure of the state |
| InterpreterProgress.ComesToRest | packages/core/src/interpreter.ts:249-405 | from any reachable state its own steps alone can lead to rest |
| InterpreterProgress.StuckIffAtRest | packages/core/src/interpreter.ts:249-405 | no step of its own is enabled exactly when nothing is queued, open, armed or awaited |
| InterpreterProgress.StuckIsSettled | packages/core/src/interpreter.ts:264-340 | where it can go no further every entry is fetched, applied, failed with retries used up, or skipped by policy |
| InterpreterLoop.Loop.ConsumeFeedback | packages/core/src/interpreter.ts:261-262 | consuming the head of the feedback queue is one step of the run theorems |
| InterpreterLoop.Loop.StartFetch | packages/core/src/interpreter.ts:98-110 | dispatching announces the fetch, opens it and captures the attempt count |
| InterpreterLoop.Loop.Consume | packages/core/src/interpreter.ts:261-432 | the loop body for one fact, up to its end or to the awaited application of the newest fetched block, is the step that the run theorems are about |
| InterpreterLoop.Loop.SettleApply | packages/core/src/interpreter.ts:363-432 | when the application settles, a success queues one tip-advanced fact and the loop body runs to its end |
| InterpreterLoop.Loop.WalkParents | packages/core/src/interpreter.ts:414-432 | the prefetch loop is the bounded walk along parent links |
| InterpreterLoop.Loop.SettleFetch | packages/core/src/interpreter.ts:110-142 | a settled fetch feeds back exactly one answer, a failure with the next attempt number |
| InterpreterLoop.Loop.FireTimer | packages/core/src/interpreter.ts:318-325 | a firing timer disarms itself and feeds back one reset |
| SnapshotChain.SnapshotCodec.Push | packages/core/src/snapshot-codec.ts:65-100 | push stores a block on the codec's prev and seq and moves both to it |
| SnapshotChain.SnapshotCodec.CommitPush | packages/core/src/snapshot-codec.ts:85-99 | a push after its awaits stores the block it began with but advances the seq it finds |
| SnapshotChain.SnapshotCodec.ApplyRemote | packages/core/src/snapshot-codec.ts:102-130 | one applyRemote is the application of the run theorems: adopted if not older, remembered as the last, skipped if it is the last or missing, without effect when decryption throws |
| SnapshotChain.RunOk | packages/core/src/snapshot-codec.ts:56-130 | with any number of peers and any interleaving of atomic calls, every stored block has seq 1 without parent and its parent's plus one with one |
| SnapshotChain.StoreIsLinked | packages/core/src/reducers.ts:191-197 | such a store meets the assumption under which the reducer infers seqs |
| SnapshotChain.PeerRemembers | packages/core/src/snapshot-codec.ts:65-186 | over any run of atomic calls a codec remembers the CID of the last block that it pushed or applied, and the clock it pushed with or was set to last |
| SnapshotChain.ApplyGoesBy | packages/core/src/snapshot-codec.ts:102-130 | after any run: applying that CID, or a missing one, is skipped and changes nothing; any other stored block that decrypts is applied, is then the last, and becomes what the codec pushes on exactly if it is not older |
| SnapshotChain.StoreIsPushes | packages/core/src/snapshot-codec.ts:65-100 | after any run the store holds exactly the pushed blocks, each with its payload and the prev and seq its codec had |
| SnapshotAwaits.PeerRemembers | packages/core/src/snapshot-codec.ts:65-130 | over every interleaving of begins and ends a codec remembers the CID of the push committed or application completed last, in the order of their ends |
| SnapshotAwaits.BeginSkipsLast | packages/core/src/snapshot-codec.ts:102-106 | an application is skipped at its begin exactly for that CID |
| SnapshotAwaits.StoreIsCommits | packages/core/src/snapshot-codec.ts:65-100 | after every interleaving the store holds exactly the committed blocks |
| SnapshotAwaits.EndedPushIsOver | packages/core/src/snapshot-codec.ts:65-100 | over every interleaving a push that was committed or has thrown is never open again, so it stores at most one block and none after a throw |
| SnapshotAwaits.LinkedIffNoneSkewed | packages/core/src/snapshot-codec.ts:65-130 | over every interleaving of begins and ends of calls: all stored blocks are linked exactly when no push was committed that began while the last move of its codec was a disturbed push |
| SnapshotAwaits.NextBlockLinkedIffQuiet | packages/core/src/snapshot-codec.ts:72-126 | after any run: the block pushed after a push follows its parent exactly when, while that push was under way, its codec committed no other push and adopted no block that is not older |
| SnapshotAwaits.UndisturbedIsLinked | packages/core/src/snapshot-codec.ts:56-130 | if no push of a run is disturbed so, every stored block and every peer's next block is linked |
| SnapshotAwaits.OverlapBreaksLink | packages/core/src/create-doc.ts:1255-1293 | a run of two overlapping pushes of one codec, after which the third block does not follow its parent |
| SnapshotAwaits.RemoteDuringPushBreaksLink | packages/core/src/snapshot-codec.ts:72-126 | a run with a remote block applied during a push, after which the next block does not follow its parent |
| SnapshotAwaits.AtomicIsUndisturbed | packages/core/src/snapshot-codec.ts:56-130 | a run of atomic calls is an undisturbed run of begins and ends with the same store and peers |
| SnapshotChain.WalkChain | packages/blocks/src/index.ts:265-293 | on any store the walk yields the chain in order and ends justified: complete exactly at a block without parent, a cycle exactly when a CID repeats, the depth error after maxDepth blocks |
| SnapshotChain.WalkPublished | packages/blocks/src/index.ts:265-293 | from a published block of seq s the walk yields s down to 1 if s is within the limit, else stops with the depth error; never a cycle |
| SnapshotAwaits.WalkUndisturbed | packages/blocks/src/index.ts:265-293 | the same from a block of any undisturbed run of overlapping calls |
| Sideband.TrimmedIsLongest | packages/core/src/ingest-snapshot.ts:213-223 | evicting from the front keeps the longest suffix of at most maxEntries entries and maxBytes bytes |
| Sideband.PendingSideband.Add | packages/core/src/ingest-snapshot.ts:207-224 | after add both caps hold and totalBytes is the sum of held sizes; evictions are exactly what was cut, once each in insertion order |
| Sideband.PendingSideband.Remove | packages/core/src/ingest-snapshot.ts:225-230 | remove takes out the one entry and its bytes |
| Ingest.EvictionsReported | packages/core/src/ingest-snapshot.ts:398-417 | each eviction is reported once, in order, as pending-overflow under the context its block arrived with |
| Ingest.RescanLeavesUnplaceable | packages/core/src/ingest-snapshot.ts:575-623 | a rescan leaves, in order, exactly the held entries that are neither placed nor applied and that are unreadable or whose parent is no entry, in the chain state of their own attempt |
| IngestEffects.OfferDoes | packages/core/src/ingest-snapshot.ts:440-573 | one offer, field by field, from the bytes, the state and the chain state it reads: what is placed, stored, applied, held back and under which context, for every outcome of the four gates and the try block |
| IngestEffects.OfferReports | packages/core/src/ingest-snapshot.ts:530-573 | an offer records its outcome once under its own context, after one overflow record for each block it evicted |
| IngestEffects.UnknownParentIsDeferred | packages/core/src/ingest-snapshot.ts:478-490 | a genuine block, neither placed nor applied, whose parent is not an entry is recorded as deferred, its bytes are stored, and its callback does not fire |
| IngestEffects.RescanDoes | packages/core/src/ingest-snapshot.ts:575-623 | one rescan: one record per held block in order, placed exactly where the parent is known to the chain state of its attempt, stored unless rejected, nothing applied |
| IngestEffects.PlacedWasPlaceable | packages/core/src/ingest-snapshot.ts:124-131 | over any run whatever is placed was offered, or retried, as a genuine block without parent or with a parent among the entries of the chain state read there |
| Ingest.RunKeeps | packages/core/src/ingest-snapshot.ts:381-623 | over any run sideband and contexts hold the same CIDs |
| Ingest.ReturnsAtMostOnce | packages/core/src/ingest-snapshot.ts:460-528 | over any run in which the clock does not throw after it, a CID's apply callback returns at most once and leaves the CID placed |
| Ingest.ReturnsOnceIffClockHolds | packages/core/src/ingest-snapshot.ts:498-526 | over all runs the callback of a CID returns at most once exactly when the clock never throws after it, or no valid readable block of the CID exists |
| Ingest.AtMostOnceIffNoThrow | packages/core/src/ingest-snapshot.ts:440-528 | over all runs of calls that run to completion the callback of a CID fires at most once exactly when neither it nor the clock throws, or no valid readable block of the CID exists |
| Ingest.ClockRunReturnsTwice | packages/core/src/ingest-snapshot.ts:498-524 | a run of two offers of one block, the clock throwing, in which the callback returns twice and never throws |
| IngestAwaits.AtMostOnceIffApart | packages/core/src/ingest-snapshot.ts:440-528 | over all interleavings the callback of a CID fires at most once exactly when neither it nor the clock throws and offers that apply it do not overlap, or no valid readable block of the CID exists |
| IngestAwaits.OverlapFiresTwice | packages/core/src/create-doc.ts:713-720 | a run of two overlapping offers of one block, nothing throwing, in which the callback fires twice |
| IngestAwaits.WholeAttempt | packages/core/src/ingest-snapshot.ts:440-528 | an attempt whose turns follow one another is the attempt of a call that runs to completion |
| IngestAwaits.WholeRetry | packages/core/src/ingest-snapshot.ts:575-623 | a pending block that a rescan places is the attempt of a rescan that runs to completion, which applies nothing |
| Ingest.ThrowingRunFiresTwice | packages/core/src/ingest-snapshot.ts:498-524 | a run of two offers of one block, the callback throwing, in which it fires twice |
| Ingest.ThrowingCallbackFiresAgain | packages/core/src/ingest-snapshot.ts:498-524 | in any state, a callback that throws fires again when the block is offered again |
| Ingest.PlacedIsFinal | packages/core/src/ingest-snapshot.ts:460-528 | once placed, by an ingest or a rescan, a CID's callback never fires again |
| Orchestrator.IngestSnapshotApi.PassGates | packages/core/src/ingest-snapshot.ts:448-490 | the gates in order, and the resolver write of a block that is valid and no duplicate |
| Orchestrator.IngestSnapshotApi.ApplyEagerly | packages/core/src/ingest-snapshot.ts:498-524 | the try block: the apply, skipped for the CID applied last, then the clock; what each failure leaves behind |
| Orchestrator.IngestSnapshotApi.Attempt | packages/core/src/ingest-snapshot.ts:440-528 | the gates in place, in order, with the resolver write and the eager apply |
| Orchestrator.IngestSnapshotApi.IngestSnapshot | packages/core/src/ingest-snapshot.ts:530-573 | one ingest is one step of the run theorems and keeps the two tables in step |
| Orchestrator.IngestSnapshotApi.RescanPending | packages/core/src/ingest-snapshot.ts:575-623 | one rescan, reading the chain state anew for each item, is one step of the run theorems and keeps the two tables in step |
| PublishQueue.SinglePublish | packages/core/src/ipns-helpers.ts:15-70 | over all interleavings at most one publish per key is in flight |
| PublishQueue.PublishesFollowEnqueues | packages/core/src/ipns-helpers.ts:29-70 | the publishes of a key are a subsequence of its enqueues |
| PublishQueue.SubsequencePlaces | packages/core/src/ipns-helpers.ts:37-44 | what subsequence means: the elements sit at increasing places of the enqueues |
| PublishQueue.QuiescentPublishedLast | packages/core/src/ipns-helpers.ts:46-62 | when nothing is in flight for a key its entry is gone and the last enqueued is the last attempted |
| PublishQueue.KeyDrains | packages/core/src/ipns-helpers.ts:46-62 | from every reachable state at most two settlements leave a key idle, its entry gone and its last publication attempted last |
| PublishQueue.InFlightIsLastStarted | packages/core/src/ipns-helpers.ts:29-70 | over all interleavings the publish in flight for a key is the one started last for it |
| PublishQueue.PublishQueues.EnqueuePublish | packages/core/src/ipns-helpers.ts:29-70 | an enqueue starts at once when idle and otherwise replaces what waits |
| PublishQueue.PublishQueues.Settled | packages/core/src/ipns-helpers.ts:46-62 | a settled publish starts what waits, or removes the queue entry |
| PublishQueue.EffectiveSeqIsLeast | packages/core/src/ipns-helpers.ts:123-142 | the effective sequence is the least one not below the clock sum and above a known existing record |
| PublishQueue.PublishedSeqsIncrease | packages/core/src/ipns-helpers.ts:123-142 | when each lookup finds the record before, published sequences strictly increase whatever the clock sums do |
| AsyncUtils.QueueNeverLoses | packages/core/src/async-utils.ts:20-59 | over any run deliveries are the accepted values in order, a waiting consumer has nothing to receive, and a finished one received everything |
| AsyncUtils.AcceptedIsPushed | packages/core/src/async-utils.ts:49-54 | the accepted values are exactly those pushed before the abort |
| AsyncUtils.GoingOnDelivers | packages/core/src/async-utils.ts:34-45 | in every reachable state a request, or the resumption of a woken generator, delivers exactly the next accepted value if there is one; with none left it finishes after an abort and waits otherwise |
| AsyncUtils.WakingSteps | packages/core/src/async-utils.ts:25-54 | in every reachable state a push or an abort wakes a waiting generator, accepts the value unless aborted, and delivers nothing |
| AsyncUtils.AbortedQueueDrains | packages/core/src/async-utils.ts:25-45 | after an abort, from every reachable state, one request more than there are values left finishes the queue with everything accepted delivered |
| AsyncUtils.AsyncQueue.PushValue | packages/core/src/async-utils.ts:50-54 | a push buffers and wakes a waiting consumer, or is ignored after the abort |
| AsyncUtils.AsyncQueue.OnAbort | packages/core/src/async-utils.ts:25-32 | the abort closes the queue and wakes a waiting consumer |
| AsyncUtils.AsyncQueue.RequestNext | packages/core/src/async-utils.ts:34-45 | a request to an idle generator is the step that the run theorems deliver the next value by |
| AsyncUtils.AsyncQueue.ResumeAfterWake | packages/core/src/async-utils.ts:34-45 | the resumption of a woken generator is that step too, its resolver cleared |
| AsyncUtils.MergeShuffles | packages/core/src/async-utils.ts:68-99 | merge of any sources, finite or not, emits an order-preserving shuffle, at most one item ahead per source; it is complete when no request is open, and only a rejection stops it before |
| AsyncUtils.RaceAdds | packages/core/src/async-utils.ts:87-98 | over any run the source that wins a race adds its next item and nothing else to the output and is asked again, or is dropped at its end, or ends the merge; no other source changes anything |
| AsyncUtils.Merge.OnRace | packages/core/src/async-utils.ts:87-98 | the winner of a race is yielded and requested again, dropped when it has ended, or ends the merge by rejecting |
| AsyncUtils.Scan | packages/core/src/async-utils.ts:109-120 | the n-th output is the left fold over the first n facts, and each next is the following prev |
| AsyncUtils.ScanIsRun | packages/core/src/async-utils.ts:109-120 | scanning with the chain reducer yields the states of the reducer's runs |
| Pipeline.QueueReachesMerge | packages/core/src/async-utils.ts:20-99 | with the queue as a source of merge: what merge emits from it is a prefix of what was pushed before the abort, all of it once the queue has ended, and the queue runs at most one value ahead |
| Pipeline.PipelineDrains | packages/core/src/async-utils.ts:20-99 | after an abort, from every reachable state in which the queue is not dropped, its requests and races alone emit everything pushed before the abort, in order, and then drop it |
| Pipeline.PushesTakeEffect | packages/core/src/async-utils.ts:49-54 | whatever merge is doing every push before the abort is accepted; merge holds back nothing but requests |
| Pipeline.FoldPipeline | packages/core/src/async-utils.ts:20-120 | the n-th state is the fold of the first n merged facts, and the facts folded from the queue are the first pushed to it, in order |
| Base64Url.RoundTrip | packages/crypto/src/index.ts:12-18 | unpadded base64url decodes to the bytes it encodes, for every length, in ceil(4n/3) characters |
| Base64Url.EncodeShape | packages/crypto/src/index.ts:12-18 | the encoding is the six-bit groups in the URL-safe alphabet without padding |
| Base64Url.AlphabetInOrder | packages/crypto/src/index.ts:12-18 | the character of each six-bit group is the one in its place in the URL-safe alphabet |
| Base64Url.TestVectors | packages/crypto/src/index.ts:12-18 | RFC 4648 vectors without padding, and the two replaced characters |
| Base64Url.DecodeOfSextets | packages/capability/src/index.ts:304-309 | re-padding and mapping back recovers the bytes from any such string of admissible length |
| Capability.FillBuffer | packages/capability/src/index.ts:98-126 | the buffer loop fills the precomputed length exactly with the printed entries, or throws on the first too long |
| Capability.ParseBuffer | packages/capability/src/index.ts:142-231 | the parsing loop is the recursive parser, with its errors and their offsets |
| FragmentTheorems.ParsePrinted | packages/capability/src/index.ts:163-224 | parsing reads back exactly the printed entries |
| FragmentTheorems.PrintedParse | packages/capability/src/index.ts:163-224 | whatever parses was printed: the format has no second spelling |
| FragmentTheorems.DecodeIsParseThenFold | packages/capability/src/index.ts:159-224 | decoding is parsing and then adding the entries in order, cut short or not |
| FragmentReading.DecodesTo | packages/capability/src/index.ts:139-231 | every buffer of version 0: a read key that does not import is reported if it comes before the cut, otherwise the cut with its offset; a whole buffer gives the last value under each label, and channel keys exactly if there is a channel label |
| FragmentReading.LastOfIsLast | packages/capability/src/index.ts:206-224 | of entries with the same label the last one counts |
| FragmentTheorems.CutParse | packages/capability/src/index.ts:163-205 | a non-empty prefix parses exactly at an entry boundary, to just the earlier entries |
| FragmentTheorems.CutDecode | packages/capability/src/index.ts:139-231 | of an accepted buffer a cut is accepted exactly at an entry boundary, with the keys of the earlier entries |
| FragmentTheorems.UnknownEntriesIgnored | packages/capability/src/index.ts:220-224 | inserting whole entries with unknown labels anywhere leaves the decoded keys unchanged |
| FragmentTheorems.SortCorrect | packages/capability/src/index.ts:96-96 | sorting permutes the entries into strictly increasing order of their labels' code units |
| FragmentTheorems.SortedUnique | packages/capability/src/index.ts:96-96 | the sorted sequence is determined by its members |
| FragmentRoundTrip.OrderIndependent | packages/capability/src/index.ts:89-96 | the fragment does not depend on the order in which the channel map is iterated |
| FragmentRoundTrip.DecodeOfEncode | packages/capability/src/index.ts:71-231 | encoding succeeds exactly when every label and value fits 255 bytes, and decoding then returns the capability with its password and channel names transcoded |
| FragmentRoundTrip.WireBytes | packages/capability/src/index.ts:71-126 | the fragment byte by byte: version 0, then a, i, k, n: with each channel name, and r, each label and value after its length byte |
| FragmentRoundTrip.Refusals | packages/capability/src/index.ts:139-205 | an empty buffer, a version other than 0 and a first entry cut short are refused with the offset that is reported |
| FragmentRoundTrip.FragmentRoundTrips | packages/capability/src/index.ts:71-231 | decode after encode is the capability, empty password and channel map normalised to absent, exactly when the password and every channel label survive UTF-8 |
| FragmentRoundTrip.MarkIsLost | packages/capability/src/index.ts:89-219 | with a decoder that drops a leading byte order mark, a password that begins with one comes back without it |
| FragmentRoundTrip.SurrogatesCollide | packages/capability/src/index.ts:89-222 | with an encoder that replaces lone surrogates, two channels named by them come back as one, with the key of the later |

## Left out

- Cryptography, dag-cbor and UTF-8 internals: hashes are injective parameters, validation and key import are predicates, text conversion is a pair of functions.
- The lazy `iterate` generators of the finger tree: they visit leaves in the order of `toArray`.
- `View.create`, `Status` and the history summary: records, and an instance of a product monoid; the view theorems ask only that each epoch counts one.
- Garbage collection of weak cache entries: it only removes entries, which keeps a cache sound.
- What `applySnapshot` does, and an unexpected error from it, which ends the loop: the application may settle at any moment or never, with a sequence or a refusal.
- Announcing, gossip decay, guarantee requery, epoch lifecycle and the other reducers: they do not touch the fetch protocol or the chain state.
- Retry delays: a timer may fire at any time once armed. Aborting the interpreter, which clears all timers, is not a step.
- NaN, infinities and fractional sequence numbers: sequence numbers are integers.
- Orchestrator.IngestSnapshotApi.IngestSnapshot: a call runs to completion. Overlapping offers are modelled by `IngestAwaits`, without the quarantine. CID parse failures in a rescan cannot arise from stored CID strings.
- Sideband.PendingSideband.Add, Orchestrator.IngestSnapshotApi.Evict: `onEvict` and `onIngestOutcome` do not throw. A throw from either would end the eviction loop early, and one from `onEvict` would leave a context without its entry.
- Throws of `getState` and `resolver.put`: they come before anything is applied. A block just put is found by the resolver.
- The decoded-version cache of `loadVersion`, and the fetch coalescer of the blocks package: lookups and set moves with nothing hard to state.
- `buildUrl` and `parseUrl`: string slicing around the fragment.
- A channel named `__proto__`, which a JavaScript record does not store as an own key: channel maps are maps.
- Capability.FillBuffer: a read key stands for its exported raw bytes.
