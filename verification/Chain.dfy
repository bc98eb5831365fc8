/**
 * The chain reducer: packages/core/src/reducers.ts and the state of packages/core/src/facts.ts.
 */
module Chain {
  import opened Options

  // A CID is used through its string form, as the map keys are.
  type Cid = string

  datatype Source = Gossipsub | Ipns | HttpTip | Reannounce | ChainWalk | PinnerIndex | FromCache | Catalog

  /** What decodeBlock reads from a block; all fields are absent when the block is malformed. */
  datatype Metadata = Metadata(prev: Option<Cid>, seqNo: Option<int>, snapshotTs: Option<int>)

  datatype Fact =
    | CidDiscovered(cid: Cid, source: Source, block: Option<Metadata>, seqNo: Option<int>, snapshotTs: Option<int>)
    | BlockFetchStarted(cid: Cid, ts: int)
    | BlockFetched(cid: Cid, meta: Metadata)
    | BlockFetchFailed(cid: Cid, attempt: int, error: string)
    | BlockRetryReset(cid: Cid)
    | TipAdvanced(cid: Cid, tipSeq: int)
    | AckReceived(cid: Cid, peerId: string)
    | GuaranteeReceived(cid: Cid, peerId: string, guaranteeUntil: int, retainUntil: int)
    | Other  // every fact that reduceChain returns its state for

  datatype Status = Unknown | Fetching | Fetched | Applied | Failed

  datatype Entry = Entry(
    cid: Cid, seqNo: Option<int>, ts: Option<int>, prev: Option<Cid>, via: set<Source>, status: Status,
    fetchAttempt: int, fetchStartedAt: Option<int>, lastError: Option<string>,
    guarantees: map<string, (int, int)>, ackedBy: set<string>)

  /** A JavaScript Map from CID to entry: the keys are listed in insertion order. */
  datatype RawEntries = Entries(keys: seq<Cid>, table: map<Cid, Entry>)

  ghost predicate Coherent(m: RawEntries) {
    && (forall k :: k in m.keys <==> k in m.table)
    && (forall i, j | 0 <= i < j < |m.keys| :: m.keys[i] != m.keys[j])
    && (forall k | k in m.table :: m.table[k].cid == k)
  }

  type EntryMap = m: RawEntries | Coherent(m) witness Entries([], map[])

  datatype ChainState = ChainState(
    entries: EntryMap, tip: Option<Cid>, applying: Option<Cid>, newestFetched: Option<Cid>, maxSeq: int)

  const INITIAL_CHAIN: ChainState := ChainState(Entries([], map[]), None, None, None, 0)

  // ---- Helpers ----

  function MapSet(m: EntryMap, k: Cid, e: Entry): EntryMap
    requires e.cid == k
  {
    Entries(if k in m.table then m.keys else m.keys + [k], m.table[k := e])
  }

  function Lookup(s: ChainState, c: Cid): Option<Entry> {
    if c in s.entries.table then Some(s.entries.table[c]) else None
  }

  function RaiseTo(max: int, seqNo: Option<int>): int {
    if seqNo.Some? && seqNo.value > max then seqNo.value else max
  }

  function SeqOrZero(e: Entry): int {
    if e.seqNo.Some? then e.seqNo.value else 0
  }

  /** What the scan of withNewestFetched holds after the first n entries. */
  function NewestOf(m: EntryMap, n: nat): (best: Option<Cid>)
    requires n <= |m.keys|
    ensures best.Some? ==> best.value in m.table
  {
    if n == 0 then None else
    var best := NewestOf(m, n - 1);
    var e := m.table[m.keys[n - 1]];
    if e.status == Fetched && (best.None? || SeqOrZero(e) > SeqOrZero(m.table[best.value])) then Some(e.cid) else best
  }

  /** The scan by its loop over the entries. */
  method ScanNewest(m: EntryMap) returns (best: Option<Cid>)
    ensures best == NewestOf(m, |m.keys|)
  {
    best := None;
    var bestSeq := 0;
    for i := 0 to |m.keys|
      invariant best == NewestOf(m, i)
      invariant best.Some? ==> bestSeq == SeqOrZero(m.table[best.value])
    {
      var e := m.table[m.keys[i]];
      if e.status == Fetched && (best.None? || SeqOrZero(e) > bestSeq) {
        best, bestSeq := Some(e.cid), SeqOrZero(e);
      }
    }
  }

  function WithNewestFetched(s: ChainState): ChainState {
    s.(newestFetched := NewestOf(s.entries, |s.entries.keys|))
  }

  function UpdateEntry(s: ChainState, c: Cid, f: Entry -> Entry): ChainState
    requires c in s.entries.table ==> f(s.entries.table[c]).cid == c
  {
    if c in s.entries.table then s.(entries := MapSet(s.entries, c, f(s.entries.table[c]))) else s
  }

  function FreshEntry(c: Cid, seqNo: Option<int>, ts: Option<int>, source: Source, status: Status): Entry {
    Entry(c, seqNo, ts, None, {source}, status, 0, None, None, map[], {})
  }

  // ---- The reducer ----

  function ReduceDiscovered(s: ChainState, f: Fact): ChainState
    requires f.CidDiscovered?
  {
    if f.cid in s.entries.table then
      var e := s.entries.table[f.cid];
      if e.status == Failed then
        WithNewestFetched(s.(entries := MapSet(s.entries, f.cid,
          e.(status := Unknown, fetchAttempt := 0, lastError := None, via := e.via + {f.source}))))
      else
        var status := if f.block.Some? then Fetched else e.status;
        var changed :=
          || status != e.status || f.source !in e.via
          || (f.seqNo.Some? && e.seqNo.None?) || (f.snapshotTs.Some? && e.ts.None?);
        if !changed then s else
        WithNewestFetched(s.(
          maxSeq := RaiseTo(s.maxSeq, e.seqNo.Or(f.seqNo)),
          entries := MapSet(s.entries, f.cid,
            e.(via := e.via + {f.source}, seqNo := e.seqNo.Or(f.seqNo), ts := e.ts.Or(f.snapshotTs), status := status))))
    else
      WithNewestFetched(s.(
        maxSeq := RaiseTo(s.maxSeq, f.seqNo),
        entries := MapSet(s.entries, f.cid,
          FreshEntry(f.cid, f.seqNo, f.snapshotTs, f.source, if f.block.Some? then Fetched else Unknown))))
  }

  /** The seq inferred for a parent: one less than its child's, when the child's is known and positive. */
  function InferredSeq(childSeq: Option<int>): Option<int> {
    if childSeq.Some? && childSeq.value > 0 then Some(childSeq.value - 1) else None
  }

  function ReduceFetched(s: ChainState, f: Fact): ChainState
    requires f.BlockFetched?
  {
    if f.cid !in s.entries.table then s else
    var e := s.entries.table[f.cid];
    var seqNo := e.seqNo.Or(f.meta.seqNo);
    var next := s.(
      maxSeq := RaiseTo(s.maxSeq, seqNo),
      entries := MapSet(s.entries, f.cid,
        e.(status := Fetched, prev := f.meta.prev, seqNo := seqNo, ts := e.ts.Or(f.meta.snapshotTs))));
    WithNewestFetched(
      if f.meta.prev.Some? && f.meta.prev.value !in next.entries.table then
        var p := f.meta.prev.value;
        var inferred := InferredSeq(seqNo);
        next.(
          maxSeq := RaiseTo(next.maxSeq, inferred),
          entries := MapSet(next.entries, p, FreshEntry(p, inferred, None, ChainWalk, Unknown)))
      else next)
  }

  function ReduceChain(s: ChainState, f: Fact): ChainState {
    match f
    case CidDiscovered(_, _, _, _, _) => ReduceDiscovered(s, f)
    case BlockFetchStarted(c, ts) =>
      UpdateEntry(s, c, (e: Entry) =>
        if e.status == Fetched || e.status == Applied then e else e.(status := Fetching, fetchStartedAt := Some(ts)))
    case BlockFetched(_, _) => ReduceFetched(s, f)
    case BlockFetchFailed(c, attempt, error) =>
      WithNewestFetched(UpdateEntry(s, c, (e: Entry) =>
        e.(status := Failed, fetchAttempt := attempt, lastError := Some(error))))
    case BlockRetryReset(c) =>
      if c !in s.entries.table || s.entries.table[c].status != Failed then s
      else UpdateEntry(s, c, (e: Entry) => e.(status := Unknown))
    case TipAdvanced(c, seqNo) =>
      var tipSeq := if c in s.entries.table then s.entries.table[c].seqNo.Or(Some(seqNo)) else Some(seqNo);
      WithNewestFetched(
        UpdateEntry(s, c, (e: Entry) => e.(status := Applied, seqNo := e.seqNo.Or(Some(seqNo))))
          .(tip := Some(c), applying := None, maxSeq := RaiseTo(s.maxSeq, tipSeq)))
    case AckReceived(c, peer) =>
      UpdateEntry(s, c, (e: Entry) => e.(ackedBy := e.ackedBy + {peer}))
    case GuaranteeReceived(c, peer, until, retain) =>
      UpdateEntry(s, c, (e: Entry) => e.(guarantees := e.guarantees[peer := (until, retain)]))
    case Other => s
  }

  /** The state after a sequence of facts, from the initial state. */
  function Run(facts: seq<Fact>): ChainState {
    if facts == [] then INITIAL_CHAIN else ReduceChain(Run(facts[..|facts| - 1]), facts[|facts| - 1])
  }

  // ---- What one fact does to the status and the attempt count of one entry ----

  function NewStatus(st: Status, f: Fact, k: Cid): Status {
    match f
    case CidDiscovered(c, _, block, _, _) =>
      if c != k then st else if st == Failed then Unknown else if block.Some? then Fetched else st
    case BlockFetchStarted(c, _) => if c != k || st == Fetched || st == Applied then st else Fetching
    case BlockFetched(c, _) => if c == k then Fetched else st
    case BlockFetchFailed(c, _, _) => if c == k then Failed else st
    case BlockRetryReset(c) => if c == k && st == Failed then Unknown else st
    case TipAdvanced(c, _) => if c == k then Applied else st
    case _ => st
  }

  function NewAttempt(st: Status, attempt: int, f: Fact, k: Cid): int {
    if f.CidDiscovered? && f.cid == k && st == Failed then 0
    else if f.BlockFetchFailed? && f.cid == k then f.attempt
    else attempt
  }

  // ---- The cached pointer is the full scan ----

  /**
   * c is the fetched entry of highest seq, an absent seq counting as zero, the earliest discovered among
   * equals; it is absent exactly when nothing is fetched.
   */
  ghost predicate IsNewest(m: EntryMap, c: Option<Cid>) {
    if c.None? then forall i | 0 <= i < |m.keys| :: m.table[m.keys[i]].status != Fetched
    else exists i | 0 <= i < |m.keys| :: m.keys[i] == c.value && BestAt(m, i, |m.keys|)
  }

  ghost predicate BestAt(m: EntryMap, i: nat, n: nat)
    requires i < |m.keys| && n <= |m.keys|
  {
    && m.table[m.keys[i]].status == Fetched
    && forall j | 0 <= j < n && m.table[m.keys[j]].status == Fetched ::
         && SeqOrZero(m.table[m.keys[j]]) <= SeqOrZero(m.table[m.keys[i]])
         && (j < i ==> SeqOrZero(m.table[m.keys[j]]) < SeqOrZero(m.table[m.keys[i]]))
  }

  lemma KeyAt(m: EntryMap, i: nat)
    requires i < |m.keys|
    ensures m.keys[i] in m.table && m.table[m.keys[i]].cid == m.keys[i]
  {
  }

  lemma {:induction false} ScanIndex(m: EntryMap, n: nat) returns (i: nat)
    requires n <= |m.keys|
    ensures NewestOf(m, n).None? ==> forall j | 0 <= j < n :: m.table[m.keys[j]].status != Fetched
    ensures NewestOf(m, n).Some? ==> i < n && m.keys[i] == NewestOf(m, n).value && BestAt(m, i, n)
  {
    hide Coherent;
    if n == 0 {
      i := 0;
    } else {
      KeyAt(m, n - 1);
      i := ScanIndex(m, n - 1);
      var best, e := NewestOf(m, n - 1), m.table[m.keys[n - 1]];
      if e.status == Fetched && (best.None? || SeqOrZero(e) > SeqOrZero(m.table[best.value])) {
        i := n - 1;
      }
    }
  }

  lemma ScanIsNewest(m: EntryMap)
    ensures IsNewest(m, NewestOf(m, |m.keys|))
  {
    var i := ScanIndex(m, |m.keys|);
  }

  /** The scan depends on nothing but which entries are fetched and their seqs. */
  lemma {:induction false} ScanFrame(m: EntryMap, m': EntryMap, n: nat)
    requires m.keys == m'.keys && n <= |m.keys|
    requires forall k | k in m.table :: && k in m'.table
                                        && (m.table[k].status == Fetched <==> m'.table[k].status == Fetched)
                                        && m.table[k].seqNo == m'.table[k].seqNo
    ensures NewestOf(m, n) == NewestOf(m', n)
  {
    hide Coherent;
    if n > 0 {
      KeyAt(m, n - 1);
      KeyAt(m', n - 1);
      ScanFrame(m, m', n - 1);
    }
  }

  lemma NewestKept(s: ChainState, f: Fact)
    requires s.newestFetched == NewestOf(s.entries, |s.entries.keys|)
    ensures ReduceChain(s, f).newestFetched == NewestOf(ReduceChain(s, f).entries, |ReduceChain(s, f).entries.keys|)
  {
    hide Coherent, NewestOf;
    match f
    case BlockFetchStarted(_, _) => ScanFrame(s.entries, ReduceChain(s, f).entries, |s.entries.keys|);
    case BlockRetryReset(_) => ScanFrame(s.entries, ReduceChain(s, f).entries, |s.entries.keys|);
    case AckReceived(_, _) => ScanFrame(s.entries, ReduceChain(s, f).entries, |s.entries.keys|);
    case GuaranteeReceived(_, _, _, _) => ScanFrame(s.entries, ReduceChain(s, f).entries, |s.entries.keys|);
    case _ =>
  }

  /** After any sequence of facts the cached pointer names the newest fetched entry, or none if there is none. */
  lemma {:induction false} NewestAlwaysCurrent(facts: seq<Fact>)
    ensures Run(facts).newestFetched == NewestOf(Run(facts).entries, |Run(facts).entries.keys|)
    ensures IsNewest(Run(facts).entries, Run(facts).newestFetched)
  {
    hide NewestOf, IsNewest, ReduceChain;
    if facts != [] {
      NewestAlwaysCurrent(facts[..|facts| - 1]);
      NewestKept(Run(facts[..|facts| - 1]), facts[|facts| - 1]);
    } else {
      NothingScanned();
    }
    ScanIsNewest(Run(facts).entries);
  }

  lemma NothingScanned()
    ensures INITIAL_CHAIN.newestFetched == NewestOf(INITIAL_CHAIN.entries, |INITIAL_CHAIN.entries.keys|)
  {
  }

  // ---- maxSeq ----

  ghost predicate Bounded(s: ChainState) {
    s.maxSeq >= 0 && forall k | k in s.entries.table :: RaiseTo(s.maxSeq, s.entries.table[k].seqNo) == s.maxSeq
  }

  /** maxSeq is the largest known seq, or zero when none is positive. */
  ghost predicate Exact(s: ChainState) {
    && Bounded(s)
    && (s.maxSeq == 0 || exists k | k in s.entries.table :: s.entries.table[k].seqNo == Some(s.maxSeq))
  }

  lemma MaxSeqKept(s: ChainState, f: Fact)
    requires Bounded(s)
    ensures Bounded(ReduceChain(s, f)) && ReduceChain(s, f).maxSeq >= s.maxSeq
  {
    hide Coherent, NewestOf, ReduceDiscovered, ReduceFetched;
    match f
    case CidDiscovered(_, _, _, _, _) => MaxSeqKeptByDiscovery(s, f);
    case BlockFetched(_, _) => MaxSeqKeptByFetch(s, f);
    case _ =>
  }

  lemma MaxSeqKeptByDiscovery(s: ChainState, f: Fact)
    requires Bounded(s) && f.CidDiscovered?
    ensures Bounded(ReduceDiscovered(s, f)) && ReduceDiscovered(s, f).maxSeq >= s.maxSeq
  {
    hide Coherent, NewestOf;
  }

  lemma MaxSeqKeptByFetch(s: ChainState, f: Fact)
    requires Bounded(s) && f.BlockFetched?
    ensures Bounded(ReduceFetched(s, f)) && ReduceFetched(s, f).maxSeq >= s.maxSeq
  {
    hide Coherent, NewestOf;
  }

  /** A tip-advanced fact whose CID is unknown to the chain and whose seq is above everything seen. */
  predicate TipFromNowhere(s: ChainState, f: Fact) {
    f.TipAdvanced? && f.cid !in s.entries.table && f.tipSeq > s.maxSeq
  }

  /** maxSeq stays exact across a fact exactly when the fact is not such a tip. */
  lemma ExactUnlessTipFromNowhere(s: ChainState, f: Fact)
    requires Exact(s)
    ensures Exact(ReduceChain(s, f)) <==> !TipFromNowhere(s, f)
  {
    hide Coherent, NewestOf;
    var s' := ReduceChain(s, f);
    MaxSeqKept(s, f);
    SeqsKept(s, f);
    if !TipFromNowhere(s, f) {
      if s'.maxSeq == s.maxSeq {
        if s.maxSeq != 0 {
          var k :| k in s.entries.table && s.entries.table[k].seqNo == Some(s.maxSeq);
          assert k in s'.entries.table && s'.entries.table[k].seqNo == Some(s'.maxSeq);
        }
      } else {
        assert f.CidDiscovered? || f.BlockFetched? || f.TipAdvanced?;
        assert f.cid in s'.entries.table && s'.entries.table[f.cid].seqNo == Some(s'.maxSeq);
      }
    }
  }

  /** maxSeq is exact in every state of the run. */
  ghost predicate AlwaysExact(facts: seq<Fact>) {
    forall n: nat | n <= |facts| :: Exact(Run(facts[..n]))
  }

  /** No fact, in the state it meets, advances the tip to an unknown CID above everything seen. */
  ghost predicate NoTipFromNowhere(facts: seq<Fact>) {
    forall n: nat | n < |facts| :: !TipFromNowhere(Run(facts[..n]), facts[n])
  }

  lemma AlwaysExactSnoc(facts: seq<Fact>, f: Fact)
    ensures AlwaysExact(facts + [f]) <==> AlwaysExact(facts) && Exact(Run(facts + [f]))
  {
    hide Run, Exact;
    forall n: nat | n <= |facts| ensures (facts + [f])[..n] == facts[..n] {
    }
    assert (facts + [f])[..|facts| + 1] == facts + [f];
  }

  lemma NoTipSnoc(facts: seq<Fact>, f: Fact)
    ensures NoTipFromNowhere(facts + [f]) <==> NoTipFromNowhere(facts) && !TipFromNowhere(Run(facts), f)
  {
    hide Run, TipFromNowhere;
    forall n: nat | n <= |facts| ensures (facts + [f])[..n] == facts[..n] {
    }
    assert facts[..|facts|] == facts && (facts + [f])[|facts|] == f;
    assert forall n: nat | n < |facts| :: (facts + [f])[n] == facts[n];
  }

  /** Over any run: maxSeq is exact throughout exactly when no tip ever comes from nowhere. */
  lemma {:induction false} ExactIffNoTipFromNowhere(facts: seq<Fact>)
    ensures AlwaysExact(facts) <==> NoTipFromNowhere(facts)
  {
    hide Exact, TipFromNowhere, ReduceChain, AlwaysExact, NoTipFromNowhere;
    if facts == [] {
      NothingIsExact();
    } else {
      var before, f := facts[..|facts| - 1], facts[|facts| - 1];
      assert before + [f] == facts;
      ExactIffNoTipFromNowhere(before);
      AlwaysExactSnoc(before, f);
      NoTipSnoc(before, f);
      if AlwaysExact(before) {
        AlwaysExactNow(before);
        ExactUnlessTipFromNowhere(Run(before), f);
      }
    }
  }

  lemma NothingIsExact()
    ensures AlwaysExact([]) && NoTipFromNowhere([])
  {
    var nothing: seq<Fact> := [];
    assert nothing[..0] == [];
  }

  lemma AlwaysExactNow(facts: seq<Fact>)
    requires AlwaysExact(facts)
    ensures Exact(Run(facts))
  {
    assert facts[..|facts|] == facts;
  }

  // ---- What no fact ever undoes ----

  /** Entries are never removed or reordered, and a known seq never changes. */
  ghost predicate Extends(s: ChainState, s': ChainState) {
    && s.entries.keys <= s'.entries.keys
    && forall k | k in s.entries.table :: k in s'.entries.table
         && (s.entries.table[k].seqNo.Some? ==> s'.entries.table[k].seqNo == s.entries.table[k].seqNo)
  }

  lemma SeqsKept(s: ChainState, f: Fact)
    ensures Extends(s, ReduceChain(s, f))
  {
    hide Coherent, NewestOf, ReduceDiscovered, ReduceFetched;
    match f
    case CidDiscovered(_, _, _, _, _) => SeqsKeptByDiscovery(s, f);
    case BlockFetched(_, _) => SeqsKeptByFetch(s, f);
    case _ =>
  }

  lemma SeqsKeptByDiscovery(s: ChainState, f: Fact)
    requires f.CidDiscovered?
    ensures Extends(s, ReduceDiscovered(s, f))
  {
    hide Coherent, NewestOf;
  }

  lemma SeqsKeptByFetch(s: ChainState, f: Fact)
    requires f.BlockFetched?
    ensures Extends(s, ReduceFetched(s, f))
  {
    hide Coherent, NewestOf;
  }

  /** Over any run, from any point on. */
  lemma {:induction false} HistoryKept(facts: seq<Fact>, n: nat)
    requires n <= |facts|
    ensures Extends(Run(facts[..n]), Run(facts))
    ensures Run(facts[..n]).maxSeq <= Run(facts).maxSeq
    ensures Bounded(Run(facts))
    decreases |facts|
  {
    hide ReduceChain;
    var k := |facts| - 1;
    if facts == [] {
      assert facts[..n] == facts;
    } else if n == |facts| {
      HistoryKept(facts[..k], k);
      MaxSeqKept(Run(facts[..k]), facts[k]);
      assert facts[..n] == facts;
    } else {
      HistoryKept(facts[..k], n);
      assert facts[..k][..n] == facts[..n];
      SeqsKept(Run(facts[..k]), facts[k]);
      MaxSeqKept(Run(facts[..k]), facts[k]);
    }
  }

  // ---- Truthful facts ----

  datatype StoredBlock = StoredBlock(prev: Option<Cid>, seqNo: int)
  type Store = map<Cid, StoredBlock>

  /** Each block that has a parent follows it: the parent is stored and its seq is one less. */
  ghost predicate Linked(store: Store) {
    forall c | c in store && store[c].prev.Some? ::
      store[c].prev.value in store && store[c].seqNo == store[store[c].prev.value].seqNo + 1
  }

  ghost predicate RealSeq(store: Store, c: Cid, seqNo: Option<int>) {
    seqNo.Some? ==> c in store && store[c].seqNo == seqNo.value
  }

  /** What a fact says about a block is what the store holds; it may say less. */
  ghost predicate Truthful(store: Store, f: Fact) {
    match f
    case CidDiscovered(c, _, _, seqNo, _) => RealSeq(store, c, seqNo)
    case BlockFetched(c, meta) =>
      RealSeq(store, c, meta.seqNo) && (meta.prev.Some? ==> c in store && store[c].prev == meta.prev)
    case TipAdvanced(c, seqNo) => RealSeq(store, c, Some(seqNo))
    case _ => true
  }

  ghost predicate AllReal(store: Store, s: ChainState) {
    forall k | k in s.entries.table :: RealSeq(store, k, s.entries.table[k].seqNo)
  }

  /** Every recorded parent is itself an entry. */
  ghost predicate PrevClosed(s: ChainState) {
    forall k | k in s.entries.table && s.entries.table[k].prev.Some? :: s.entries.table[k].prev.value in s.entries.table
  }

  lemma RealKept(store: Store, s: ChainState, f: Fact)
    requires Linked(store) && AllReal(store, s) && Truthful(store, f)
    ensures AllReal(store, ReduceChain(s, f))
  {
    hide Coherent, NewestOf, ReduceDiscovered, ReduceFetched;
    match f
    case CidDiscovered(_, _, _, _, _) => RealKeptByDiscovery(store, s, f);
    case BlockFetched(_, _) => RealKeptByFetch(store, s, f);
    case _ =>
  }

  lemma RealKeptByDiscovery(store: Store, s: ChainState, f: Fact)
    requires AllReal(store, s) && Truthful(store, f) && f.CidDiscovered?
    ensures AllReal(store, ReduceDiscovered(s, f))
  {
    hide Coherent, NewestOf;
  }

  lemma RealKeptByFetch(store: Store, s: ChainState, f: Fact)
    requires Linked(store) && AllReal(store, s) && Truthful(store, f) && f.BlockFetched?
    ensures AllReal(store, ReduceFetched(s, f))
  {
    hide Coherent, NewestOf;
  }

  lemma PrevClosedKept(s: ChainState, f: Fact)
    requires PrevClosed(s)
    ensures PrevClosed(ReduceChain(s, f))
  {
    hide Coherent, NewestOf, ReduceDiscovered;
    if f.CidDiscovered? {
      PrevClosedKeptByDiscovery(s, f);
    }
  }

  lemma PrevClosedKeptByDiscovery(s: ChainState, f: Fact)
    requires PrevClosed(s) && f.CidDiscovered?
    ensures PrevClosed(ReduceDiscovered(s, f))
  {
    hide Coherent, NewestOf;
  }

  lemma {:induction false} PrevAlwaysClosed(facts: seq<Fact>)
    ensures PrevClosed(Run(facts))
  {
    hide ReduceChain;
    if facts != [] {
      PrevAlwaysClosed(facts[..|facts| - 1]);
      PrevClosedKept(Run(facts[..|facts| - 1]), facts[|facts| - 1]);
    }
  }

  /** Over any run of truthful facts, every seq the chain knows or has inferred is the block's real seq. */
  lemma {:induction false} SeqsAlwaysReal(store: Store, facts: seq<Fact>)
    requires Linked(store)
    requires forall i | 0 <= i < |facts| :: Truthful(store, facts[i])
    ensures AllReal(store, Run(facts))
  {
    hide ReduceChain, Truthful;
    if facts != [] {
      SeqsAlwaysReal(store, facts[..|facts| - 1]);
      RealKept(store, Run(facts[..|facts| - 1]), facts[|facts| - 1]);
    }
  }
}
