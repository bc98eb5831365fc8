/**
 * What an offer and a rescan do, field by field, told from the bytes, the state and the chain state that
 * they read (packages/core/src/ingest-snapshot.ts).
 */
module IngestEffects {
  import opened Options
  import opened Sideband
  import opened Ingest
  import Chain

  /** The bytes are those of the CID, and signed. */
  predicate Genuine(cid: Cid, data: Bytes, env: Env) {
    env.hash(data) == cid && env.valid(data)
  }

  /** The CID has been placed here, or applied by the chain. */
  predicate Settled(s: IngestState, cid: Cid, chain: Chain.ChainState) {
    cid in s.placed || (cid in chain.entries.table && chain.entries.table[cid].status == Chain.Applied)
  }

  /** The block comes to applyRemote, which does not skip it. */
  predicate Applying(s: IngestState, cid: Cid, data: Bytes, chain: Chain.ChainState, env: Env) {
    && Genuine(cid, data, env) && !Settled(s, cid, chain) && ParentKnown(data, chain, env)
    && s.lastApplied != Some(cid)
  }

  /** The outcome of an offer, gate by gate. */
  function Verdict(
    s: IngestState, cid: Cid, data: Bytes, chain: Chain.ChainState, env: Env, mode: ApplyMode): Outcome
  {
    if env.hash(data) != cid then Rejected(CidMismatch)
    else if !env.valid(data) then Rejected(InvalidSignature)
    else if Settled(s, cid, chain) then Rejected(Duplicate)
    else if !ParentKnown(data, chain, env) then Deferred
    else if s.lastApplied == Some(cid) then (if mode == ClockThrows then Rejected(InvalidSignature) else Placed)
    else if mode == Applies then Placed
    else Rejected(InvalidSignature)
  }

  lemma AttemptDoes(
    s: IngestState, cid: Cid, data: Bytes, chain: Chain.ChainState, env: Env, mode: ApplyMode)
    ensures AttemptOutcome(s, cid, data, true, chain, env, mode) == Verdict(s, cid, data, chain, env, mode)
    ensures var s', v := AttemptState(s, cid, data, true, chain, env, mode), Verdict(s, cid, data, chain, env, mode);
      var fires := Applying(s, cid, data, chain, env);
      s' == s.(
        placed := if v == Placed then s.placed + {cid} else s.placed,
        blocks := if Genuine(cid, data, env) && !Settled(s, cid, chain) then s.blocks[cid := data] else s.blocks,
        lastApplied := if fires && (mode == Applies || mode == ClockThrows) then Some(cid) else s.lastApplied,
        completed := if fires && (mode == Applies || mode == ClockThrows) then s.completed + multiset{cid} else s.completed,
        threw := if fires && mode == CallbackThrows then s.threw + multiset{cid} else s.threw)
  {
  }

  /** The block entering the quarantine, and what that evicts. */
  ghost function Entering(s: IngestState, cid: Cid, data: Bytes, caps: Caps): (seq<Held>, seq<Held>) {
    var all := s.pending + [Held(cid, data)];
    var kept := Trimmed(all, caps.maxEntries, caps.maxBytes);
    TrimmedIsLongest(all, caps.maxEntries, caps.maxBytes);
    (all[..|all| - |kept|], kept)
  }

  lemma EnteringSplits(s: IngestState, cid: Cid, data: Bytes, caps: Caps)
    ensures Entering(s, cid, data, caps).0 + Entering(s, cid, data, caps).1 == s.pending + [Held(cid, data)]
  {
    var all := s.pending + [Held(cid, data)];
    TrimmedIsLongest(all, caps.maxEntries, caps.maxBytes);
  }

  /** A block that is deferred enters the quarantine under its context, and what it evicts is reported. */
  lemma QuarantineDoes(s: IngestState, cid: Cid, data: Bytes, context: Context, env: Env, caps: Caps)
    requires TablesOk(s, env) && !Has(s.pending, cid) && env.hash(data) == cid && env.valid(data)
    ensures var q, (evicted, kept) := Quarantine(s, cid, data, context, caps), Entering(s, cid, data, caps);
      var contexts := s.contexts[cid := context];
      && q.pending == kept
      && (forall h | h in evicted :: h.cid in contexts)
      && q.outcomes == s.outcomes + Overflows(evicted, contexts)
      && (forall c | c in q.contexts :: c in contexts && q.contexts[c] == contexts[c])
      && (forall c :: c in q.contexts <==> Has(kept, c))
      && q == s.(pending := q.pending, contexts := q.contexts, outcomes := q.outcomes)
  {
    hide Trimmed, Has, Distinct, TablesOk, Overflows;
    var (evicted, kept) := Entering(s, cid, data, caps);
    EnteringSplits(s, cid, data, caps);
    var contexts := s.contexts[cid := context];
    var t := s.(contexts := contexts, pending := kept);
    QuarantineKeepsTables(s, cid, data, context, env, caps);
    TablesSay(s, env);
    EvictedAreHeld(s.pending, Held(cid, data), evicted, kept, contexts);
    EvictionsReported(t, evicted);
    EvictAllDrops(t, evicted);
    EvictAllFrame(t, evicted);
    assert Quarantine(s, cid, data, context, caps) == EvictAll(t, evicted);
    TablesSay(Quarantine(s, cid, data, context, caps), env);
  }

  lemma TablesSay(s: IngestState, env: Env)
    requires TablesOk(s, env)
    ensures Distinct(s.pending) && forall c :: c in s.contexts <==> Has(s.pending, c)
  {
  }

  lemma {:induction false} EvictAllFrame(s: IngestState, evicted: seq<Held>)
    ensures var e := EvictAll(s, evicted); e == s.(contexts := e.contexts, outcomes := e.outcomes)
  {
    if evicted != [] {
      EvictAllFrame(s, evicted[..|evicted| - 1]);
    }
  }

  lemma EvictedAreHeld(
    pending: seq<Held>, h: Held, evicted: seq<Held>, kept: seq<Held>, contexts: map<Cid, Context>)
    requires Distinct(pending) && !Has(pending, h.cid) && evicted + kept == pending + [h]
    requires h.cid in contexts && forall c | Has(pending, c) :: c in contexts
    ensures Distinct(evicted) && forall x | x in evicted :: x.cid in contexts
  {
    DistinctSnoc(pending, h);
    SplitHas(evicted, kept);
    forall x | x in evicted ensures x.cid in contexts {
      var i :| 0 <= i < |evicted| && evicted[i] == x;
      assert (evicted + kept)[i] == x;
      if i < |pending| {
        assert pending[i].cid == x.cid;
      }
    }
  }

  /**
   * One offer, in full. Bytes that are genuine and new are stored even when the block has to wait. A placed
   * block leaves the quarantine; a deferred one is held in it under its own context, unless it was already
   * held, and evicts the oldest.
   */
  lemma OfferDoes(
    s: IngestState, cid: Cid, data: Bytes, context: Context, chain: Chain.ChainState, env: Env, mode: ApplyMode,
    caps: Caps)
    requires TablesOk(s, env)
    ensures var s', v := IngestStep(s, cid, data, context, chain, env, mode, caps), Verdict(s, cid, data, chain, env, mode);
      var fires := Applying(s, cid, data, chain, env);
      && s'.placed == (if v == Placed then s.placed + {cid} else s.placed)
      && s'.blocks == (if Genuine(cid, data, env) && !Settled(s, cid, chain) then s.blocks[cid := data] else s.blocks)
      && s'.lastApplied == (if fires && (mode == Applies || mode == ClockThrows) then Some(cid) else s.lastApplied)
      && s'.completed == (if fires && (mode == Applies || mode == ClockThrows) then s.completed + multiset{cid} else s.completed)
      && s'.threw == (if fires && mode == CallbackThrows then s.threw + multiset{cid} else s.threw)
      && s'.pending == (if v == Placed then Without(s.pending, cid)
                        else if v == Deferred && !Has(s.pending, cid) then Entering(s, cid, data, caps).1
                        else s.pending)
      && (v == Deferred && Has(s'.pending, cid) ==> cid in s'.contexts && s'.contexts[cid] == context)
      && (forall c | c != cid && Has(s'.pending, c) :: c in s.contexts && c in s'.contexts && s'.contexts[c] == s.contexts[c])
  {
    hide AttemptState, AttemptOutcome, Quarantine, Trimmed, Without, TablesOk, Has, Distinct, Verdict, Overflows, Entering,
         Applying, Genuine, Settled;
    AttemptDoes(s, cid, data, chain, env, mode);
    var s1, v := AttemptState(s, cid, data, true, chain, env, mode), Verdict(s, cid, data, chain, env, mode);
    TablesFrame(s, s1, env);
    TablesSay(s, env);
    IngestKeepsTables(s, cid, data, context, chain, env, mode, caps);
    TablesSay(IngestStep(s, cid, data, context, chain, env, mode, caps), env);
    SameEntering(s, s1, cid, data, caps);
    if v == Placed {
      if !Has(s.pending, cid) {
        WithoutAbsent(s.pending, cid);
      }
    } else if v == Deferred {
      DeferredIsGenuine(s, cid, data, chain, env, mode);
      if !Has(s.pending, cid) {
        QuarantineDoes(s1, cid, data, context, env, caps);
      } else {
        QuarantineHeld(s1, cid, data, context, caps);
      }
    }
  }

  /** An offer records its verdict, once, under its own context, after an overflow record for each eviction. */
  lemma OfferReports(
    s: IngestState, cid: Cid, data: Bytes, context: Context, chain: Chain.ChainState, env: Env, mode: ApplyMode,
    caps: Caps)
    requires TablesOk(s, env)
    ensures var v, evicted := Verdict(s, cid, data, chain, env, mode), Entering(s, cid, data, caps).0;
      var out := IngestStep(s, cid, data, context, chain, env, mode, caps).outcomes;
      if v == Deferred && !Has(s.pending, cid)
      then (forall h | h in evicted :: h.cid in s.contexts[cid := context])
           && out == s.outcomes + Overflows(evicted, s.contexts[cid := context]) + [Record(cid, v, context, false)]
      else out == s.outcomes + [Record(cid, v, context, false)]
  {
    hide AttemptState, AttemptOutcome, Quarantine, Trimmed, Without, TablesOk, Has, Distinct, Verdict, Overflows, Entering;
    AttemptDoes(s, cid, data, chain, env, mode);
    var s1, v := AttemptState(s, cid, data, true, chain, env, mode), Verdict(s, cid, data, chain, env, mode);
    TablesFrame(s, s1, env);
    SameEntering(s, s1, cid, data, caps);
    if v == Deferred {
      DeferredIsGenuine(s, cid, data, chain, env, mode);
      if !Has(s.pending, cid) {
        QuarantineDoes(s1, cid, data, context, env, caps);
      } else {
        QuarantineHeld(s1, cid, data, context, caps);
      }
    }
  }

  lemma SameEntering(s: IngestState, t: IngestState, cid: Cid, data: Bytes, caps: Caps)
    requires s.pending == t.pending
    ensures Entering(s, cid, data, caps) == Entering(t, cid, data, caps)
  {
  }

  lemma QuarantineHeld(s: IngestState, cid: Cid, data: Bytes, context: Context, caps: Caps)
    requires Has(s.pending, cid)
    ensures Quarantine(s, cid, data, context, caps) == s.(contexts := s.contexts[cid := context])
  {
  }

  lemma DeferredIsGenuine(
    s: IngestState, cid: Cid, data: Bytes, chain: Chain.ChainState, env: Env, mode: ApplyMode)
    requires Verdict(s, cid, data, chain, env, mode) == Deferred
    ensures env.hash(data) == cid && env.valid(data)
  {
  }

  /** A genuine block, neither placed nor applied, whose parent is unknown: deferred, stored, and not applied. */
  lemma UnknownParentIsDeferred(
    s: IngestState, cid: Cid, data: Bytes, context: Context, chain: Chain.ChainState, env: Env, mode: ApplyMode,
    caps: Caps, parent: Cid)
    requires TablesOk(s, env) && Genuine(cid, data, env) && !Settled(s, cid, chain)
    requires env.decode(data) == Decoded(Some(parent)) && parent !in chain.entries.table
    ensures var s' := IngestStep(s, cid, data, context, chain, env, mode, caps);
      && |s'.outcomes| > 0 && s'.outcomes[|s'.outcomes| - 1] == Record(cid, Deferred, context, false)
      && Fired(s', cid) == Fired(s, cid) && s'.placed == s.placed
      && cid in s'.blocks && s'.blocks[cid] == data
  {
    hide IngestStep, TablesOk, Entering, Overflows, Has, Without;
    OfferDoes(s, cid, data, context, chain, env, mode, caps);
    OfferReports(s, cid, data, context, chain, env, mode, caps);
  }

  // ---- A rescan, in full ----

  function RescanVerdict(s: IngestState, h: Held, chain: Chain.ChainState, env: Env): Outcome {
    if Settled(s, h.cid, chain) then Rejected(Duplicate)
    else if ParentKnown(h.data, chain, env) then Placed
    else Deferred
  }

  ghost function RescanRecord(s: IngestState, h: Held, chain: Chain.ChainState, env: Env): Record
    requires h.cid in s.contexts
  {
    Record(h.cid, RescanVerdict(s, h, chain, env), s.contexts[h.cid], true)
  }

  /** What a rescan has done to everything but the quarantine after its first n items. */
  ghost predicate RescanDid(s: IngestState, r: IngestState, n: nat, chains: Chains, env: Env)
    requires n <= |s.pending| && forall h | h in s.pending :: h.cid in s.contexts
  {
    && r.outcomes == s.outcomes + seq(n, i requires 0 <= i < n =>
         (assert s.pending[i] in s.pending; RescanRecord(s, s.pending[i], chains(i), env)))
    && (forall c :: c in r.placed <==> c in s.placed || exists i | 0 <= i < n ::
          s.pending[i].cid == c && RescanVerdict(s, s.pending[i], chains(i), env) == Placed)
    && (forall i | 0 <= i < n && !RescanVerdict(s, s.pending[i], chains(i), env).Rejected? ::
          s.pending[i].cid in r.blocks && r.blocks[s.pending[i].cid] == s.pending[i].data)
    && r.lastApplied == s.lastApplied && r.completed == s.completed && r.threw == s.threw
    && (forall i | n <= i < |s.pending| ::
          s.pending[i].cid in r.contexts && r.contexts[s.pending[i].cid] == s.contexts[s.pending[i].cid])
  }

  lemma RescanItemDoes(r: IngestState, h: Held, chain: Chain.ChainState, env: Env)
    requires h.cid in r.contexts && Genuine(h.cid, h.data, env)
    ensures var r', v := RescanItem(r, h, chain, env), RescanVerdict(r, h, chain, env);
      && r'.outcomes == r.outcomes + [Record(h.cid, v, r.contexts[h.cid], true)]
      && r'.placed == (if v == Placed then r.placed + {h.cid} else r.placed)
      && r'.blocks == (if v.Rejected? then r.blocks else r.blocks[h.cid := h.data])
      && r'.contexts == (if v == Deferred then r.contexts else r.contexts - {h.cid})
      && r'.lastApplied == r.lastApplied && r'.completed == r.completed && r'.threw == r.threw
  {
    hide Without;
  }

  lemma SameVerdict(s: IngestState, r: IngestState, h: Held, chain: Chain.ChainState, env: Env)
    requires h.cid in r.placed <==> h.cid in s.placed
    ensures RescanVerdict(s, h, chain, env) == RescanVerdict(r, h, chain, env)
  {
  }

  lemma RescanDidNext(s: IngestState, r: IngestState, n: nat, chains: Chains, env: Env)
    requires n < |s.pending| && Distinct(s.pending)
    requires forall h | h in s.pending :: h.cid in s.contexts && Genuine(h.cid, h.data, env)
    requires RescanDid(s, r, n, chains, env)
    ensures RescanDid(s, RescanItem(r, s.pending[n], chains(n), env), n + 1, chains, env)
  {
    hide RescanItem, RescanVerdict, Genuine;
    var h := s.pending[n];
    assert h in s.pending;
    LaterCids(s.pending, n);
    EarlierCids(s.pending, n);
    SameVerdict(s, r, h, chains(n), env);
    RescanItemDoes(r, h, chains(n), env);
    var r' := RescanItem(r, h, chains(n), env);
    forall c ensures c in r'.placed <==> c in s.placed || exists i | 0 <= i < n + 1 ::
      s.pending[i].cid == c && RescanVerdict(s, s.pending[i], chains(i), env) == Placed
    {
      if i :| 0 <= i < n && s.pending[i].cid == c && RescanVerdict(s, s.pending[i], chains(i), env) == Placed {
        assert c in r.placed;
      }
    }
  }

  lemma EarlierCids(xs: seq<Held>, n: nat)
    requires Distinct(xs) && n < |xs|
    ensures forall j | 0 <= j < n :: xs[j].cid != xs[n].cid
  {
  }

  lemma {:induction false} RescanFirstDoes(s: IngestState, n: nat, chains: Chains, env: Env)
    requires n <= |s.pending| && Distinct(s.pending)
    requires forall h | h in s.pending :: h.cid in s.contexts && Genuine(h.cid, h.data, env)
    ensures RescanDid(s, RescanFirst(s, s.pending, n, chains, env), n, chains, env)
    decreases n
  {
    hide RescanDid, RescanItem, Distinct, Genuine;
    if n == 0 {
      RescanDidNothing(s, chains, env);
      RescanNone(s, s.pending, chains, env);
    } else {
      RescanFirstDoes(s, n - 1, chains, env);
      RescanNext(s, s.pending, n - 1, chains, env);
      RescanDidNext(s, RescanFirst(s, s.pending, n - 1, chains, env), n - 1, chains, env);
    }
  }

  lemma RescanDidNothing(s: IngestState, chains: Chains, env: Env)
    requires forall h | h in s.pending :: h.cid in s.contexts
    ensures RescanDid(s, s, 0, chains, env)
  {
    forall i | 0 <= i < |s.pending| ensures s.pending[i].cid in s.contexts {
      assert s.pending[i] in s.pending;
    }
  }

  /**
   * A rescan retries every held block once, in order, in the chain state of its own attempt, and records
   * each under the context it arrived with. It places exactly those whose parent is known, applies none,
   * and leaves exactly the deferred ones.
   */
  lemma RescanDoes(s: IngestState, chains: Chains, env: Env)
    requires TablesOk(s, env)
    ensures forall h | h in s.pending :: h.cid in s.contexts
    ensures RescanDid(s, RescanStep(s, chains, env), |s.pending|, chains, env)
    ensures RescanStep(s, chains, env).pending == Staying(s, s.pending, chains, env)
  {
    hide RescanDid, RescanFirst, Staying;
    forall h | h in s.pending ensures h.cid in s.contexts && Genuine(h.cid, h.data, env) {
      HasIsMember(s.pending, h.cid);
    }
    RescanFirstDoes(s, |s.pending|, chains, env);
    RescanLeavesUnplaceable(s, chains, env);
  }

  // ---- Over all runs ----

  /** The step offers these bytes, or retries them from quarantine, and reads this chain state. */
  ghost predicate Offered(ops: seq<Op>, n: nat, env: Env, caps: Caps, c: Cid, data: Bytes, chain: Chain.ChainState)
    requires n < |ops|
  {
    match ops[n]
    case IngestOp(cid, d, _, ch, _) => cid == c && d == data && ch == chain
    case RescanOp(chains) =>
      var held := Run(ops[..n], env, caps).pending;
      exists i | 0 <= i < |held| :: held[i] == Held(c, data) && chains(i) == chain
    case PublishedOp(_) => false
  }

  /** Some step of the run offered a genuine block of c whose parent was known then. */
  ghost predicate WasPlaceable(ops: seq<Op>, env: Env, caps: Caps, c: Cid) {
    exists n, data, chain | 0 <= n < |ops| ::
      Offered(ops, n, env, caps, c, data, chain) && Genuine(c, data, env) && ParentKnown(data, chain, env)
  }

  lemma WasPlaceableKept(ops: seq<Op>, n: nat, env: Env, caps: Caps, c: Cid)
    requires n <= |ops| && WasPlaceable(ops[..n], env, caps, c)
    ensures WasPlaceable(ops, env, caps, c)
  {
    hide Run, Genuine, ParentKnown;
    var k, data, chain :| 0 <= k < n && Offered(ops[..n], k, env, caps, c, data, chain) && Genuine(c, data, env)
                          && ParentKnown(data, chain, env);
    assert ops[..n][..k] == ops[..k];
    assert Offered(ops, k, env, caps, c, data, chain);
  }

  /** Whatever is placed had a genuine block offered, or retried, in a chain state that knew its parent. */
  lemma {:induction false} PlacedWasPlaceable(ops: seq<Op>, env: Env, caps: Caps, c: Cid)
    requires c in Run(ops, env, caps).placed
    ensures WasPlaceable(ops, env, caps, c)
  {
    hide IngestStep, RescanStep, TablesOk, Verdict, WasPlaceable;
    var n := |ops| - 1;
    var s := Run(ops[..n], env, caps);
    RunKeeps(ops[..n], env, caps);
    if c in s.placed {
      PlacedWasPlaceable(ops[..n], env, caps, c);
      WasPlaceableKept(ops, n, env, caps, c);
    } else {
      match ops[n]
      case IngestOp(cid, data, context, chain, mode) =>
        OfferDoes(s, cid, data, context, chain, env, mode, caps);
        OfferedNow(ops, n, env, caps, c, data, chain);
      case RescanOp(chains) =>
        RescanDoes(s, chains, env);
        var i :| 0 <= i < |s.pending| && s.pending[i].cid == c && RescanVerdict(s, s.pending[i], chains(i), env) == Placed;
        assert s.pending[i] in s.pending;
        HeldIsGenuine(s, s.pending[i], env);
        RetriedNow(ops, n, env, caps, i);
      case PublishedOp(_) =>
    }
  }

  lemma HeldIsGenuine(s: IngestState, h: Held, env: Env)
    requires TablesOk(s, env) && h in s.pending
    ensures Genuine(h.cid, h.data, env)
  {
  }

  lemma OfferedNow(ops: seq<Op>, n: nat, env: Env, caps: Caps, c: Cid, data: Bytes, chain: Chain.ChainState)
    requires n < |ops| && ops[n].IngestOp? && ops[n].cid == c && ops[n].data == data && ops[n].chain == chain
    requires Verdict(Run(ops[..n], env, caps), c, data, chain, env, ops[n].mode) == Placed
    ensures WasPlaceable(ops, env, caps, c)
  {
    hide Run;
    assert Offered(ops, n, env, caps, c, data, chain);
  }

  lemma RetriedNow(ops: seq<Op>, n: nat, env: Env, caps: Caps, i: nat)
    requires n < |ops| && ops[n].RescanOp? && i < |Run(ops[..n], env, caps).pending|
    requires var s := Run(ops[..n], env, caps);
      && Genuine(s.pending[i].cid, s.pending[i].data, env)
      && RescanVerdict(s, s.pending[i], ops[n].chains(i), env) == Placed
    ensures WasPlaceable(ops, env, caps, Run(ops[..n], env, caps).pending[i].cid)
  {
    hide Run;
    var h := Run(ops[..n], env, caps).pending[i];
    assert Offered(ops, n, env, caps, h.cid, h.data, ops[n].chains(i));
  }
}
