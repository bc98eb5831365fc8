/**
 * What the chain state remembers, told from the list of facts alone: for each CID whether it is known, and
 * for each field of its entry the facts that determine it (packages/core/src/reducers.ts).
 */
module ChainHistory {
  import opened Options
  import opened Chain

  function Before(facts: seq<Fact>): seq<Fact>
    requires facts != []
  {
    facts[..|facts| - 1]
  }

  function Last(facts: seq<Fact>): Fact
    requires facts != []
  {
    facts[|facts| - 1]
  }

  // ---- Which CIDs are known ----

  /** The fact is a fetched block of a known CID that names c as its parent. */
  predicate NamesParent(facts: seq<Fact>, f: Fact, c: Cid)
    decreases |facts|, 1
  {
    f.BlockFetched? && f.meta.prev == Some(c) && KnownTo(facts, f.cid)
  }

  /** A CID is known once it has been discovered, or named as the parent of a fetched block of a known CID. */
  predicate KnownTo(facts: seq<Fact>, c: Cid)
    decreases |facts|, 0
  {
    facts != [] && (KnownTo(Before(facts), c) || Introduces(Before(facts), Last(facts), c))
  }

  predicate Introduces(facts: seq<Fact>, f: Fact, c: Cid)
    decreases |facts|, 2
  {
    (f.CidDiscovered? && f.cid == c) || NamesParent(facts, f, c)
  }

  // ---- Status, attempts ----

  function StatusOf(facts: seq<Fact>, c: Cid): Status {
    if facts == [] then Unknown else
    var f := Last(facts);
    if KnownTo(Before(facts), c) then NewStatus(StatusOf(Before(facts), c), f, c)
    else if f.CidDiscovered? && f.cid == c && f.block.Some? then Fetched
    else Unknown
  }

  function AttemptsOf(facts: seq<Fact>, c: Cid): int {
    if facts == [] || !KnownTo(Before(facts), c) then 0
    else NewAttempt(StatusOf(Before(facts), c), AttemptsOf(Before(facts), c), Last(facts), c)
  }

  // ---- Seq: the first one stated or inferred ----

  /** The seq that a fact states for a known CID; rediscovering a failed CID states none. */
  function StatedSeq(f: Fact, c: Cid, st: Status): Option<int> {
    match f
    case CidDiscovered(k, _, _, seqNo, _) => if k == c && st != Failed then seqNo else None
    case BlockFetched(k, meta) => if k == c then meta.seqNo else None
    case TipAdvanced(k, seqNo) => if k == c then Some(seqNo) else None
    case _ => None
  }

  /** One less than a positive seq of the child whose block introduces the CID. */
  function InferredFrom(child: Option<int>): Option<int> {
    match child
    case Some(n) => if n > 0 then Some(n - 1) else None
    case None => None
  }

  function SeqOf(facts: seq<Fact>, c: Cid): Option<int> {
    if facts == [] then None else
    var f := Last(facts);
    if KnownTo(Before(facts), c) then SeqOf(Before(facts), c).Or(StatedSeq(f, c, StatusOf(Before(facts), c)))
    else if f.CidDiscovered? && f.cid == c then f.seqNo
    else if NamesParent(Before(facts), f, c) then InferredFrom(SeqOf(Before(facts), f.cid).Or(f.meta.seqNo))
    else None
  }

  // ---- Timestamp: the first one stated ----

  function StatedTs(f: Fact, c: Cid, st: Status): Option<int> {
    match f
    case CidDiscovered(k, _, _, _, ts) => if k == c && st != Failed then ts else None
    case BlockFetched(k, meta) => if k == c then meta.snapshotTs else None
    case _ => None
  }

  function TsOf(facts: seq<Fact>, c: Cid): Option<int> {
    if facts == [] then None else
    var f := Last(facts);
    if KnownTo(Before(facts), c) then TsOf(Before(facts), c).Or(StatedTs(f, c, StatusOf(Before(facts), c)))
    else if f.CidDiscovered? && f.cid == c then f.snapshotTs
    else None
  }

  // ---- Parent: that of the last fetched block ----

  function PrevOf(facts: seq<Fact>, c: Cid): Option<Cid> {
    if facts == [] || !KnownTo(Before(facts), c) then None
    else if Last(facts).BlockFetched? && Last(facts).cid == c then Last(facts).meta.prev
    else PrevOf(Before(facts), c)
  }

  // ---- Sources: every one that discovered it, and the chain walk if that found it first ----

  function SourcesOf(facts: seq<Fact>, c: Cid): set<Source> {
    if facts == [] then {} else
    var f := Last(facts);
    if f.CidDiscovered? && f.cid == c then SourcesOf(Before(facts), c) + {f.source}
    else if !KnownTo(Before(facts), c) && NamesParent(Before(facts), f, c) then {ChainWalk}
    else SourcesOf(Before(facts), c)
  }

  // ---- Fetch bookkeeping, acknowledgements, guarantees ----

  function StartedOf(facts: seq<Fact>, c: Cid): Option<int> {
    if facts == [] || !KnownTo(Before(facts), c) then None else
    var f, st := Last(facts), StatusOf(Before(facts), c);
    if f.BlockFetchStarted? && f.cid == c && st != Fetched && st != Applied then Some(f.ts)
    else StartedOf(Before(facts), c)
  }

  function ErrorOf(facts: seq<Fact>, c: Cid): Option<string> {
    if facts == [] || !KnownTo(Before(facts), c) then None else
    var f := Last(facts);
    if f.BlockFetchFailed? && f.cid == c then Some(f.error)
    else if f.CidDiscovered? && f.cid == c && StatusOf(Before(facts), c) == Failed then None
    else ErrorOf(Before(facts), c)
  }

  function AckedOf(facts: seq<Fact>, c: Cid): set<string> {
    if facts == [] || !KnownTo(Before(facts), c) then {} else
    var f, acked := Last(facts), AckedOf(Before(facts), c);
    if f.AckReceived? && f.cid == c then acked + {f.peerId} else acked
  }

  function GuaranteesOf(facts: seq<Fact>, c: Cid): map<string, (int, int)> {
    if facts == [] || !KnownTo(Before(facts), c) then map[] else
    var f, g := Last(facts), GuaranteesOf(Before(facts), c);
    if f.GuaranteeReceived? && f.cid == c then g[f.peerId := (f.guaranteeUntil, f.retainUntil)] else g
  }

  function TipOf(facts: seq<Fact>): Option<Cid> {
    if facts == [] then None
    else if Last(facts).TipAdvanced? then Some(Last(facts).cid)
    else TipOf(Before(facts))
  }

  /** The whole entry of a CID, from the facts. */
  function EntryOf(facts: seq<Fact>, c: Cid): Entry {
    Entry(c, SeqOf(facts, c), TsOf(facts, c), PrevOf(facts, c), SourcesOf(facts, c), StatusOf(facts, c),
          AttemptsOf(facts, c), StartedOf(facts, c), ErrorOf(facts, c), GuaranteesOf(facts, c), AckedOf(facts, c))
  }

  // ---- One fact, one entry ----

  /** A known entry after one fact. */
  function NextEntry(e: Entry, f: Fact): Entry {
    var c := e.cid;
    var revived := f.CidDiscovered? && f.cid == c && e.status == Failed;
    Entry(c,
          e.seqNo.Or(StatedSeq(f, c, e.status)),
          e.ts.Or(StatedTs(f, c, e.status)),
          if f.BlockFetched? && f.cid == c then f.meta.prev else e.prev,
          if f.CidDiscovered? && f.cid == c then e.via + {f.source} else e.via,
          NewStatus(e.status, f, c),
          NewAttempt(e.status, e.fetchAttempt, f, c),
          if f.BlockFetchStarted? && f.cid == c && e.status != Fetched && e.status != Applied then Some(f.ts)
          else e.fetchStartedAt,
          if f.BlockFetchFailed? && f.cid == c then Some(f.error) else if revived then None else e.lastError,
          if f.GuaranteeReceived? && f.cid == c then e.guarantees[f.peerId := (f.guaranteeUntil, f.retainUntil)]
          else e.guarantees,
          e.ackedBy + (if f.AckReceived? && f.cid == c then {f.peerId} else {}))
  }

  lemma KnownEntryAfter(s: ChainState, f: Fact, c: Cid)
    requires c in s.entries.table && s.entries.table[c].cid == c
    ensures c in ReduceChain(s, f).entries.table
    ensures ReduceChain(s, f).entries.table[c] == NextEntry(s.entries.table[c], f)
  {
    hide Coherent, NewestOf, ReduceDiscovered, ReduceFetched, NextEntry;
    match f
    case CidDiscovered(_, _, _, _, _) => KnownEntryDiscovered(s, f, c);
    case BlockFetched(_, _) => KnownEntryFetched(s, f, c);
    case _ => KnownEntryOther(s, f, c);
  }

  lemma KnownEntryOther(s: ChainState, f: Fact, c: Cid)
    requires c in s.entries.table && s.entries.table[c].cid == c && !f.CidDiscovered? && !f.BlockFetched?
    ensures c in ReduceChain(s, f).entries.table
    ensures ReduceChain(s, f).entries.table[c] == NextEntry(s.entries.table[c], f)
  {
    hide Coherent, NewestOf, ReduceDiscovered, ReduceFetched;
  }

  lemma KnownEntryDiscovered(s: ChainState, f: Fact, c: Cid)
    requires c in s.entries.table && s.entries.table[c].cid == c && f.CidDiscovered?
    ensures c in ReduceDiscovered(s, f).entries.table
    ensures ReduceDiscovered(s, f).entries.table[c] == NextEntry(s.entries.table[c], f)
  {
    hide Coherent, NewestOf;
    if f.cid == c && f.source in s.entries.table[c].via {
      assert s.entries.table[c].via + {f.source} == s.entries.table[c].via;
    }
  }

  lemma KnownEntryFetched(s: ChainState, f: Fact, c: Cid)
    requires c in s.entries.table && s.entries.table[c].cid == c && f.BlockFetched?
    ensures c in ReduceFetched(s, f).entries.table
    ensures ReduceFetched(s, f).entries.table[c] == NextEntry(s.entries.table[c], f)
  {
    hide Coherent, NewestOf;
  }

  /** What a fact introduces. */
  lemma NewEntryAfter(s: ChainState, f: Fact, c: Cid)
    requires c !in s.entries.table
    ensures c in ReduceChain(s, f).entries.table
        <==> (f.CidDiscovered? && f.cid == c) || (f.BlockFetched? && f.meta.prev == Some(c) && f.cid in s.entries.table)
    ensures c in ReduceChain(s, f).entries.table ==>
      ReduceChain(s, f).entries.table[c]
        == if f.CidDiscovered?
           then Entry(c, f.seqNo, f.snapshotTs, None, {f.source}, if f.block.Some? then Fetched else Unknown,
                      0, None, None, map[], {})
           else Entry(c, InferredFrom(s.entries.table[f.cid].seqNo.Or(f.meta.seqNo)), None, None, {ChainWalk}, Unknown,
                      0, None, None, map[], {})
  {
    hide Coherent, NewestOf;
  }

  // ---- The reducer's memory is the history ----

  lemma EntryOfKnown(facts: seq<Fact>, c: Cid)
    requires facts != [] && KnownTo(Before(facts), c)
    ensures EntryOf(facts, c) == NextEntry(EntryOf(Before(facts), c), Last(facts))
  {
    hide KnownTo;
    SourcesKnown(facts, c);
  }

  lemma SourcesKnown(facts: seq<Fact>, c: Cid)
    requires facts != [] && KnownTo(Before(facts), c)
    ensures SourcesOf(facts, c)
         == SourcesOf(Before(facts), c)
            + (if Last(facts).CidDiscovered? && Last(facts).cid == c then {Last(facts).source} else {})
  {
  }

  lemma EntryOfNew(facts: seq<Fact>, c: Cid)
    requires facts != [] && !KnownTo(Before(facts), c) && SourcesOf(Before(facts), c) == {}
    requires Introduces(Before(facts), Last(facts), c)
    ensures var f := Last(facts);
      EntryOf(facts, c)
        == if f.CidDiscovered?
           then Entry(c, f.seqNo, f.snapshotTs, None, {f.source}, if f.block.Some? then Fetched else Unknown,
                      0, None, None, map[], {})
           else Entry(c, InferredFrom(SeqOf(Before(facts), f.cid).Or(f.meta.seqNo)), None, None, {ChainWalk}, Unknown,
                      0, None, None, map[], {})
  {
    hide KnownTo;
  }

  lemma {:induction false} UnknownHasNoSources(facts: seq<Fact>, c: Cid)
    requires !KnownTo(facts, c)
    ensures SourcesOf(facts, c) == {}
  {
    if facts != [] {
      UnknownHasNoSources(Before(facts), c);
    }
  }

  /** Over any run the chain knows exactly the CIDs that the facts make known, and every entry is its history. */
  lemma {:induction false} EntriesAreHistory(facts: seq<Fact>, c: Cid)
    ensures c in Run(facts).entries.table <==> KnownTo(facts, c)
    ensures c in Run(facts).entries.table ==> Run(facts).entries.table[c] == EntryOf(facts, c)
    decreases |facts|
  {
    hide ReduceChain, EntryOf, NextEntry, NewestOf;
    if facts != [] {
      var before, f := Before(facts), Last(facts);
      var s := Run(before);
      EntriesAreHistory(before, c);
      if c in s.entries.table {
        KnownEntryAfter(s, f, c);
        EntryOfKnown(facts, c);
      } else {
        if f.BlockFetched? {
          EntriesAreHistory(before, f.cid);
        }
        NewEntryAfter(s, f, c);
        UnknownHasNoSources(before, c);
        assert KnownTo(facts, c) <==> KnownTo(before, c) || Introduces(before, f, c);
        assert NamesParent(before, f, c) <==> f.BlockFetched? && f.meta.prev == Some(c) && KnownTo(before, f.cid);
        if Introduces(before, f, c) {
          EntryOfNew(facts, c);
          if f.BlockFetched? {
            EntrySeq(before, f.cid);
          }
        }
      }
    }
  }

  lemma EntrySeq(facts: seq<Fact>, c: Cid)
    ensures EntryOf(facts, c).seqNo == SeqOf(facts, c)
  {
  }

  // ---- The state around the entries ----

  /** The tip is the CID of the last tip-advanced fact, and no application is ever recorded as pending. */
  lemma {:induction false} TipIsLastAdvanced(facts: seq<Fact>)
    ensures Run(facts).tip == TipOf(facts) && Run(facts).applying == None
  {
    hide Coherent, NewestOf;
    if facts != [] {
      TipIsLastAdvanced(Before(facts));
    }
  }

  /** The seq that a tip-advanced fact counts for: that of the entry if it has one. */
  function TipSeq(facts: seq<Fact>, f: Fact): int
    requires f.TipAdvanced?
  {
    if KnownTo(facts, f.cid) && SeqOf(facts, f.cid).Some? then SeqOf(facts, f.cid).value else f.tipSeq
  }

  ghost predicate IsTipSeq(facts: seq<Fact>, n: nat, q: int) {
    n < |facts| && facts[n].TipAdvanced? && TipSeq(facts[..n], facts[n]) == q
  }

  ghost predicate HasSeq(facts: seq<Fact>, c: Cid, q: int) {
    KnownTo(facts, c) && SeqOf(facts, c) == Some(q)
  }

  /** maxSeq is the highest of zero, the seqs of the entries and the seqs that tips have counted for. */
  lemma {:induction false} MaxSeqIsHighest(facts: seq<Fact>)
    ensures var m := Run(facts).maxSeq;
      && m >= 0
      && (forall c | KnownTo(facts, c) && SeqOf(facts, c).Some? :: SeqOf(facts, c).value <= m)
      && (forall n: nat, q | IsTipSeq(facts, n, q) :: q <= m)
      && (m == 0 || (exists c :: HasSeq(facts, c, m)) || exists n: nat :: IsTipSeq(facts, n, m))
  {
    hide ReduceChain, KnownTo, SeqOf, NewestOf;
    if facts == [] {
      NothingKnown();
    } else {
      var before, f := Before(facts), Last(facts);
      var s, s' := Run(before), Run(facts);
      MaxSeqIsHighest(before);
      HistoryKept(facts, |before|);
      forall c ensures c in s'.entries.table <==> KnownTo(facts, c)
               ensures c in s'.entries.table ==> s'.entries.table[c].seqNo == SeqOf(facts, c)
      {
        EntriesAreHistory(facts, c);
      }
      forall c ensures c in s.entries.table <==> KnownTo(before, c)
               ensures c in s.entries.table ==> s.entries.table[c].seqNo == SeqOf(before, c)
      {
        EntriesAreHistory(before, c);
      }
      HighestBounds(facts, s, s');
      HighestReached(facts, s, s');
    }
  }

  lemma NothingKnown()
    ensures forall c :: !KnownTo([], c)
  {
  }

  lemma HighestBounds(facts: seq<Fact>, s: ChainState, s': ChainState)
    requires facts != [] && s == Run(Before(facts)) && s' == Run(facts) && Bounded(s') && s.maxSeq <= s'.maxSeq
    requires forall c :: c in s'.entries.table <==> KnownTo(facts, c)
    requires forall c | c in s'.entries.table :: s'.entries.table[c].seqNo == SeqOf(facts, c)
    requires forall c :: c in s.entries.table <==> KnownTo(Before(facts), c)
    requires forall c | c in s.entries.table :: s.entries.table[c].seqNo == SeqOf(Before(facts), c)
    requires forall n: nat, q | IsTipSeq(Before(facts), n, q) :: q <= s.maxSeq
    ensures forall c | KnownTo(facts, c) && SeqOf(facts, c).Some? :: SeqOf(facts, c).value <= s'.maxSeq
    ensures forall n: nat, q | IsTipSeq(facts, n, q) :: q <= s'.maxSeq
  {
    hide KnownTo, SeqOf, NewestOf, Coherent, Run;
    assert s' == ReduceChain(s, Last(facts)) by { RunLast(facts); }
    var before := Before(facts);
    forall n: nat, q | IsTipSeq(facts, n, q) ensures q <= s'.maxSeq {
      if n < |before| {
        assert facts[..n] == before[..n] && IsTipSeq(before, n, q);
      } else {
        assert facts[..n] == before;
      }
    }
  }

  lemma RunLast(facts: seq<Fact>)
    requires facts != []
    ensures Run(facts) == ReduceChain(Run(Before(facts)), Last(facts))
  {
  }

  lemma HighestReached(facts: seq<Fact>, s: ChainState, s': ChainState)
    requires facts != [] && s == Run(Before(facts)) && s' == Run(facts) && s.maxSeq <= s'.maxSeq
    requires forall c :: c in s'.entries.table <==> KnownTo(facts, c)
    requires forall c | c in s'.entries.table :: s'.entries.table[c].seqNo == SeqOf(facts, c)
    requires forall c :: c in s.entries.table <==> KnownTo(Before(facts), c)
    requires forall c | c in s.entries.table :: s.entries.table[c].seqNo == SeqOf(Before(facts), c)
    requires var m := s.maxSeq;
      || m == 0 || (exists c :: HasSeq(Before(facts), c, m))
      || exists n: nat :: IsTipSeq(Before(facts), n, m)
    ensures var m := s'.maxSeq;
      m == 0 || (exists c :: HasSeq(facts, c, m)) || exists n: nat :: IsTipSeq(facts, n, m)
  {
    hide KnownTo, SeqOf, NewestOf, Coherent, Run;
    var before, f, m := Before(facts), Last(facts), s'.maxSeq;
    assert s' == ReduceChain(s, f) by { RunLast(facts); }
    if m == s.maxSeq {
      SeqsKept(s, f);
      if c :| HasSeq(before, c, m) {
        assert c in s.entries.table;
        assert HasSeq(facts, c, m);
      }
      if n: nat :| IsTipSeq(before, n, m) {
        assert facts[..n] == before[..n] && IsTipSeq(facts, n, m);
      }
    } else if f.TipAdvanced? {
      assert facts[..|before|] == before;
      assert IsTipSeq(facts, |before|, m);
    } else {
      Raised(s, f);
      assert HasSeq(facts, f.cid, m);
    }
  }

  /** A fact other than a tip raises maxSeq to the seq of the entry it is about. */
  lemma Raised(s: ChainState, f: Fact)
    requires !f.TipAdvanced? && ReduceChain(s, f).maxSeq > s.maxSeq
    ensures f.CidDiscovered? || f.BlockFetched?
    ensures f.cid in ReduceChain(s, f).entries.table
    ensures ReduceChain(s, f).entries.table[f.cid].seqNo == Some(ReduceChain(s, f).maxSeq)
  {
    hide Coherent, NewestOf;
  }

  /** After the concrete facts of a slow discovery: the seq of a fetched block, and the one inferred from it. */
  lemma FetchedBlockTeachesSeqs()
    ensures var facts := [CidDiscovered("a", Ipns, None, None, None), BlockFetched("a", Metadata(Some("b"), Some(5), None))];
      var s := Run(facts);
      && "a" in s.entries.table && s.entries.table["a"].seqNo == Some(5)
      && "b" in s.entries.table && s.entries.table["b"].seqNo == Some(4)
      && s.maxSeq == 5
  {
    hide NewestOf, Coherent;
    var first, second := CidDiscovered("a", Ipns, None, None, None), BlockFetched("a", Metadata(Some("b"), Some(5), None));
    var facts := [first, second];
    assert Before(facts) == [first] && Before([first]) == [];
    RunLast(facts);
    RunLast([first]);
    assert "a" != "b" by { assert "a"[0] != "b"[0]; }
  }
}
