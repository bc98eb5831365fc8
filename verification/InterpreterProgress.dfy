/**
 * The fetch protocol comes to rest. With prefetching off and a finite store, the interpreter's own steps
 * (consuming feedback, answered fetches, fired timers, settled applications) are bounded in number from
 * any reachable state, and where none is left everything is settled.
 */
module InterpreterProgress {
  import opened Options
  import opened Chain
  import opened Interpreter

  // ---- Steps ----

  /** The step is one of the interpreter's own and does something. */
  predicate Enabled(s: IState, step: Step) {
    match step
    case Feedback(_, _) => s.queue != [] && s.awaiting.None?
    case External(_, _, _) => false
    case Answer(id, _, _) => id in s.inflight
    case Fire(c) => c in s.timers
    case Settle(_, _, _) => s.awaiting.Some?
  }

  predicate MetaWithin(meta: Metadata, cids: set<Cid>) {
    meta.prev.Some? ==> meta.prev.value in cids
  }

  /** The blocks that the step reads name parents in cids only. */
  ghost predicate Within(step: Step, cids: set<Cid>) {
    match step
    case Feedback(local, _) => forall k | k in local :: MetaWithin(local[k], cids)
    case Answer(_, block, _) => block.Some? ==> MetaWithin(block.value, cids)
    case _ => true
  }

  // ---- Measure ----

  // What a token can still lead to: a fetched block to an application and its tip, a failure to a timer,
  // that to a reset, and that to a block found locally. A dispatch is paid for by the dispatch budget.

  function Weight(f: Fact): nat {
    match f
    case BlockFetched(_, _) => 3
    case BlockFetchFailed(_, _, _) => 6
    case BlockRetryReset(_) => 4
    case _ => 1
  }

  function QueueWeight(q: seq<Fact>): nat {
    if q == [] then 0 else Weight(q[0]) + QueueWeight(q[1..])
  }

  lemma {:induction false} QueueWeightSnoc(q: seq<Fact>, f: Fact)
    ensures QueueWeight(q + [f]) == QueueWeight(q) + Weight(f)
  {
    if q == [] {
      assert q + [f] == [f] && [f][1..] == [];
    } else {
      QueueWeightSnoc(q[1..], f);
      assert (q + [f])[1..] == q[1..] + [f];
    }
  }

  /** Dispatches that the retry policy still allows for the CIDs of the universe. */
  function Budget(s: IState, cids: set<Cid>): int {
    MAX_INTERPRETER_RETRIES * (|cids| + |s.revived|) - |s.dispatched|
  }

  function Potential(s: IState, cids: set<Cid>): int {
    8 * Budget(s, cids) + 3 * |cids - s.chain.entries.table.Keys| + 7 * |s.inflight| + 5 * |s.timers|
    + QueueWeight(s.queue) + (if s.awaiting.Some? then 2 else 0)
  }

  // ---- What reachable states keep ----

  predicate Own(f: Fact) {
    f.BlockFetchStarted? || f.BlockFetched? || f.BlockFetchFailed? || f.BlockRetryReset? || f.TipAdvanced?
  }

  /** The universe covers the entries and every parent that the queue will make known. */
  ghost predicate Covers(cids: set<Cid>, s: IState) {
    && s.chain.entries.table.Keys <= cids
    && (forall f | f in s.queue && f.BlockFetched? :: MetaWithin(f.meta, cids))
  }

  ghost predicate Steady(s: IState) {
    && s.prefetchDepth == 0
    && (forall f | f in s.queue :: Own(f))
    && s.chain.newestFetched == NewestOf(s.chain.entries, |s.chain.entries.keys|)
    && (forall id | id in s.inflight :: id < s.nextId)
  }

  // ---- One fact ----

  /** Only a fetched block, or a discovery, makes the newest fetched entry newly fetched. */
  lemma OnlyFetchesApply(prev: ChainState, f: Fact, local: map<Cid, Metadata>)
    requires Own(f) && prev.newestFetched == NewestOf(prev.entries, |prev.entries.keys|)
    requires ToApply(prev, ReduceChain(prev, f), local).Some?
    ensures f.BlockFetched?
  {
    hide ReduceChain, Coherent, NewestOf;
    var next := ReduceChain(prev, f);
    var k := next.newestFetched.value;
    NewestKept(prev, f);
    NewestIsFetched(next.entries);
    ReduceIsChainStep(prev, f);
    assert EntryStep(prev, next, f, k);
  }

  lemma NewestIsFetched(m: EntryMap)
    ensures NewestOf(m, |m.keys|).Some? ==> m.table[NewestOf(m, |m.keys|).value].status == Fetched
  {
    hide Coherent, NewestOf;
    var i := ScanIndex(m, |m.keys|);
  }

  /** What the fetch loop may act on: the entry a reset has made unknown again, or a parent not known before. */
  lemma CandidateIsNew(prev: ChainState, f: Fact, k: Cid)
    requires Own(f) && JustUnknown(prev, ReduceChain(prev, f), k)
    ensures f.BlockRetryReset? || (f.BlockFetched? && f.meta.prev == Some(k) && k !in prev.entries.table)
  {
    hide ReduceChain, Coherent;
    ReduceIsChainStep(prev, f);
    assert EntryStep(prev, ReduceChain(prev, f), f, k);
  }

  lemma EntriesWithin(prev: ChainState, f: Fact, cids: set<Cid>)
    requires Own(f) && prev.entries.table.Keys <= cids && (f.BlockFetched? ==> MetaWithin(f.meta, cids))
    ensures prev.entries.table.Keys <= ReduceChain(prev, f).entries.table.Keys <= cids
  {
    hide ReduceChain, Coherent;
    ReduceIsChainStep(prev, f);
    var next := ReduceChain(prev, f);
    forall k | k in next.entries.table ensures k in cids {
      assert EntryStep(prev, next, f, k);
    }
  }

  lemma Subset<T>(a: set<T>, b: set<T>)
    requires a <= b
    ensures |a| <= |b| && (a != b ==> |a| < |b|)
  {
    assert b == a + (b - a);
    if a != b {
      var x :| x in b - a;
    }
  }

  ghost predicate SomethingNew(prev: ChainState, next: ChainState) {
    exists k :: JustUnknown(prev, next, k)
  }

  /** Visiting the candidate is paid for by the dispatch budget, or by the entry that it visits. */
  lemma VisitPays(a: IState, prev: ChainState, f: Fact, local: map<Cid, Metadata>, now: int, cids: set<Cid>)
    requires a.chain == ReduceChain(prev, f) && forall id | id in a.inflight :: id < a.nextId
    ensures var b := VisitCandidate(a, prev, f, local, now);
      8 * Budget(b, cids) + 7 * |b.inflight| + QueueWeight(b.queue)
        <= 8 * Budget(a, cids) + 7 * |a.inflight| + QueueWeight(a.queue)
             + (if SomethingNew(prev, a.chain) then 3 else 0)
  {
    hide ReduceChain, Coherent, Eligible, JustUnknown;
    var k := Candidate(f);
    if k.Some? && k.value in a.chain.entries.table && JustUnknown(prev, a.chain, k.value) {
      if k.value in local {
        QueueWeightSnoc(a.queue, BlockFetched(k.value, local[k.value]));
      }
      QueueWeightSnoc(a.queue, BlockFetchStarted(k.value, now));
      assert a.nextId !in a.inflight;
    }
  }

  lemma VisitKeeps(a: IState, prev: ChainState, f: Fact, local: map<Cid, Metadata>, now: int)
    requires forall id | id in a.inflight :: id < a.nextId
    ensures var b := VisitCandidate(a, prev, f, local, now);
      && b.chain == a.chain && b.timers == a.timers && b.awaiting == a.awaiting && b.revived == a.revived
      && (forall id | id in b.inflight :: id < b.nextId)
      && b.prefetchDepth == a.prefetchDepth
      && (forall g | g in b.queue ::
            g in a.queue || (Own(g) && (g.BlockFetched? ==> g.cid in local && g.meta == local[g.cid])))
  {
    hide ReduceChain, Coherent, Eligible, JustUnknown;
  }

  lemma EffectsPay(b: IState, f: Fact)
    ensures var c := DecodeInline(CancelRetry(ScheduleRetry(b, f), f), f);
      && c == b.(timers := c.timers, queue := c.queue)
      && |c.timers| <= |b.timers| + (if f.BlockFetchFailed? then 1 else 0)
      && (Own(f) ==> c.queue == b.queue)
      && (forall g | g in c.queue :: g in b.queue || g.BlockFetched?)
  {
    hide Coherent;
    var c := DecodeInline(CancelRetry(ScheduleRetry(b, f), f), f);
    if f.BlockFetched? || f.TipAdvanced? {
      Subset(c.timers, b.timers);
    }
  }

  /** What one fact leaves, in terms of the state after its visit. */
  lemma FactShape(s: IState, f: Fact, local: map<Cid, Metadata>, now: int)
    requires Steady(s)
    ensures var a := Reduced(s, f);
      var b, r := VisitCandidate(a, s.chain, f, local, now), Process(s, f, local, now);
      && r.chain == ReduceChain(s.chain, f) && r.prefetchDepth == 0
      && r.inflight == b.inflight && r.nextId == b.nextId && r.dispatched == b.dispatched && r.revived == a.revived
      && (forall id | id in r.inflight :: id < r.nextId)
      && |r.timers| <= |s.timers| + (if f.BlockFetchFailed? then 1 else 0)
      && (Own(f) ==> r.queue == b.queue)
      && (forall g | g in r.queue :: g in b.queue || g.BlockFetched?)
      && (r.awaiting == s.awaiting || r.awaiting == None || ToApply(s.chain, a.chain, local).Some?)
  {
    hide ReduceChain, Coherent, NewestOf, VisitCandidate, ToApply, DispatchTo, ScheduleRetry, CancelRetry,
         DecodeInline, Revives, Own;
    DispatchVisitsCandidate(s, f, local, now);
    VisitKeeps(Reduced(s, f), s.chain, f, local, now);
    EffectsPay(VisitCandidate(Reduced(s, f), s.chain, f, local, now), f);
  }

  /** A newly known parent uses up one CID of the universe. */
  lemma BirthPays(prev: ChainState, f: Fact, cids: set<Cid>)
    requires Own(f) && prev.entries.table.Keys <= cids && (f.BlockFetched? ==> MetaWithin(f.meta, cids))
    ensures var next := ReduceChain(prev, f);
      && |cids - next.entries.table.Keys| <= |cids - prev.entries.table.Keys|
      && (SomethingNew(prev, next) && !f.BlockRetryReset? ==>
            |cids - next.entries.table.Keys| < |cids - prev.entries.table.Keys|)
  {
    hide ReduceChain, Coherent;
    var next := ReduceChain(prev, f);
    EntriesWithin(prev, f, cids);
    Subset(cids - next.entries.table.Keys, cids - prev.entries.table.Keys);
    if k :| JustUnknown(prev, next, k) && !f.BlockRetryReset? {
      CandidateIsNew(prev, f, k);
      assert k in (cids - prev.entries.table.Keys) && k !in (cids - next.entries.table.Keys);
    }
  }

  /** The dispatch budget, the open fetches and the queue, together. */
  function Traffic(s: IState, cids: set<Cid>): int {
    8 * Budget(s, cids) + 7 * |s.inflight| + QueueWeight(s.queue)
  }

  lemma TrafficPays(s: IState, f: Fact, local: map<Cid, Metadata>, now: int, cids: set<Cid>)
    requires Steady(s) && Own(f)
    ensures Traffic(Process(s, f, local, now), cids)
         <= Traffic(s, cids) + (if SomethingNew(s.chain, ReduceChain(s.chain, f)) then 3 else 0)
  {
    hide ReduceChain, Coherent, NewestOf, VisitCandidate, ToApply, QueueWeight, JustUnknown, Process, Revives, Budget,
         Own;
    var a := Reduced(s, f);
    FactShape(s, f, local, now);
    OwnRevivesNothing(s, f);
    SameBudget(s, a, cids);
    VisitPays(a, s.chain, f, local, now, cids);
    VisitKeeps(a, s.chain, f, local, now);
    SameBudget(VisitCandidate(a, s.chain, f, local, now), Process(s, f, local, now), cids);
  }

  lemma FactPays(s: IState, f: Fact, local: map<Cid, Metadata>, now: int, cids: set<Cid>)
    requires Steady(s) && Own(f) && s.awaiting.None? && s.chain.entries.table.Keys <= cids
    requires f.BlockFetched? ==> MetaWithin(f.meta, cids)
    ensures Potential(Process(s, f, local, now), cids) < Potential(s, cids) + Weight(f)
  {
    hide ReduceChain, Coherent, NewestOf, VisitCandidate, ToApply, QueueWeight, JustUnknown, Process, Revives, Budget,
         MetaWithin;
    FactShape(s, f, local, now);
    TrafficPays(s, f, local, now, cids);
    BirthPays(s.chain, f, cids);
    if ToApply(s.chain, ReduceChain(s.chain, f), local).Some? {
      OnlyFetchesApply(s.chain, f, local);
    }
    NothingNew(s.chain, f);
    hide Steady, Covers;
  }

  lemma OwnRevivesNothing(s: IState, f: Fact)
    requires Own(f)
    ensures !Revives(s.chain, f)
  {
  }

  lemma SameBudget(s: IState, t: IState, cids: set<Cid>)
    requires s.revived == t.revived && s.dispatched == t.dispatched
    ensures Budget(s, cids) == Budget(t, cids)
  {
  }

  /** Facts that are neither resets nor fetched blocks make nothing unknown. */
  lemma NothingNew(prev: ChainState, f: Fact)
    requires Own(f)
    ensures SomethingNew(prev, ReduceChain(prev, f)) ==> f.BlockRetryReset? || f.BlockFetched?
  {
    hide ReduceChain, Coherent, JustUnknown;
    if k :| JustUnknown(prev, ReduceChain(prev, f), k) {
      CandidateIsNew(prev, f, k);
    }
  }

  lemma FactKeepsSteady(s: IState, f: Fact, local: map<Cid, Metadata>, now: int)
    requires Steady(s)
    ensures Steady(Process(s, f, local, now))
  {
    hide ReduceChain, Coherent, NewestOf, VisitCandidate, ToApply, Process;
    FactShape(s, f, local, now);
    VisitKeeps(Reduced(s, f), s.chain, f, local, now);
    NewestKept(s.chain, f);
  }

  lemma FactKeepsCovers(s: IState, f: Fact, local: map<Cid, Metadata>, now: int, cids: set<Cid>)
    requires Steady(s) && Own(f) && Covers(cids, s) && (f.BlockFetched? ==> MetaWithin(f.meta, cids))
    requires forall k | k in local :: MetaWithin(local[k], cids)
    ensures Covers(cids, Process(s, f, local, now))
  {
    hide ReduceChain, Coherent, NewestOf, VisitCandidate, ToApply, Process, MetaWithin, Own;
    FactShape(s, f, local, now);
    VisitKeeps(Reduced(s, f), s.chain, f, local, now);
    EntriesWithin(s.chain, f, cids);
  }

  // ---- One step ----

  lemma StepKeepsSteady(s: IState, step: Step)
    requires Steady(s)
    ensures Steady(Apply(s, step))
  {
    hide Process, NewestOf, Prefetch;
    match step
    case Feedback(local, now) =>
      if s.queue != [] {
        FactKeepsSteady(s.(queue := s.queue[1..]), s.queue[0], local, now);
      }
    case External(f, local, now) => FactKeepsSteady(s, f, local, now);
    case Settle(_, _, _) => NoPrefetch(s, step);
    case _ =>
  }

  lemma NoPrefetch(s: IState, step: Step)
    requires step.Settle? && s.awaiting.Some? ==> s.prefetchDepth == 0
    ensures step.Settle? && s.awaiting.Some? ==> Apply(s, step) == Settled(s, step.tipSeq)
  {
  }

  lemma {:induction false} SteadyRun(steps: seq<Step>)
    ensures Steady(Exec(0, steps))
  {
    hide Steady, Apply;
    if steps == [] {
      InitIsSteady();
    } else {
      SteadyRun(steps[..|steps| - 1]);
      StepKeepsSteady(Exec(0, steps[..|steps| - 1]), steps[|steps| - 1]);
    }
  }

  lemma InitIsSteady()
    ensures Steady(Init(0))
  {
    NothingScanned();
  }

  lemma StepPays(s: IState, step: Step, cids: set<Cid>)
    requires Steady(s) && Covers(cids, s) && Enabled(s, step) && Within(step, cids)
    ensures Potential(Apply(s, step), cids) < Potential(s, cids)
    ensures Covers(cids, Apply(s, step))
  {
    hide Process, Prefetch, Potential, Covers, Steady;
    match step
    case Feedback(local, now) => FeedbackPays(s, local, now, cids);
    case Answer(id, block, error) => AnswerPays(s, id, block, error, cids);
    case Fire(c) => FirePays(s, c, cids);
    case Settle(tipSeq, _, _) =>
      SteadyDepth(s);
      NoPrefetch(s, step);
      SettlePays(s, tipSeq, cids);
  }

  lemma SteadyDepth(s: IState)
    requires Steady(s)
    ensures s.prefetchDepth == 0
  {
  }

  /** Appending one fact adds its weight, whatever tokens are taken away for it. */
  lemma PushedPays(s: IState, t: IState, f: Fact, cids: set<Cid>)
    requires Covers(cids, s) && t.queue == s.queue + [f] && (f.BlockFetched? ==> MetaWithin(f.meta, cids))
    requires t.chain == s.chain && t.revived == s.revived && t.dispatched == s.dispatched
    ensures Covers(cids, t)
    ensures Potential(t, cids) - Potential(s, cids) == Weight(f) + 7 * (|t.inflight| - |s.inflight|)
      + 5 * (|t.timers| - |s.timers|) + (if t.awaiting.Some? then 2 else 0) - (if s.awaiting.Some? then 2 else 0)
  {
    hide Weight, QueueWeight, Budget, MetaWithin;
    SameBudget(s, t, cids);
    QueueWeightSnoc(s.queue, f);
  }

  lemma AnswerPays(s: IState, id: nat, block: Option<Metadata>, error: string, cids: set<Cid>)
    requires Covers(cids, s) && id in s.inflight && (block.Some? ==> MetaWithin(block.value, cids))
    ensures var t := Apply(s, Answer(id, block, error)); Potential(t, cids) < Potential(s, cids) && Covers(cids, t)
  {
    hide Potential, Covers, MetaWithin;
    var t := Apply(s, Answer(id, block, error));
    PushedPays(s, t, t.queue[|s.queue|], cids);
    assert s.inflight == t.inflight[id := s.inflight[id]];
  }

  lemma FirePays(s: IState, c: Cid, cids: set<Cid>)
    requires Covers(cids, s) && c in s.timers
    ensures var t := Apply(s, Fire(c)); Potential(t, cids) < Potential(s, cids) && Covers(cids, t)
  {
    hide Potential, Covers, MetaWithin;
    PushedPays(s, Apply(s, Fire(c)), BlockRetryReset(c), cids);
  }

  lemma SettlePays(s: IState, tipSeq: Option<int>, cids: set<Cid>)
    requires Covers(cids, s) && s.awaiting.Some?
    ensures Potential(Settled(s, tipSeq), cids) < Potential(s, cids) && Covers(cids, Settled(s, tipSeq))
  {
    hide QueueWeight, Budget, MetaWithin;
    if tipSeq.Some? {
      PushedPays(s, Settled(s, tipSeq), TipAdvanced(s.awaiting.value.tip, tipSeq.value), cids);
    } else {
      SameBudget(s, Settled(s, tipSeq), cids);
    }
  }

  lemma FeedbackPays(s: IState, local: map<Cid, Metadata>, now: int, cids: set<Cid>)
    requires Steady(s) && Covers(cids, s) && s.queue != [] && s.awaiting.None?
    requires forall k | k in local :: MetaWithin(local[k], cids)
    ensures var t := Process(s.(queue := s.queue[1..]), s.queue[0], local, now);
      Potential(t, cids) < Potential(s, cids) && Covers(cids, t)
  {
    hide Process, NewestOf, Own, MetaWithin, Potential;
    var f, rest := s.queue[0], s.(queue := s.queue[1..]);
    assert f in s.queue;
    Popped(s, cids);
    FactPays(rest, f, local, now, cids);
    FactKeepsCovers(rest, f, local, now, cids);
  }

  lemma Popped(s: IState, cids: set<Cid>)
    requires s.queue != []
    ensures Potential(s, cids) == Potential(s.(queue := s.queue[1..]), cids) + Weight(s.queue[0])
  {
    SameBudget(s, s.(queue := s.queue[1..]), cids);
  }

  // ---- Runs ----

  /** Every step of later is enabled where it is taken, and reads only blocks whose parents are in cids. */
  ghost predicate Advances(before: seq<Step>, later: seq<Step>, cids: set<Cid>) {
    forall n | 0 <= n < |later| :: Enabled(Exec(0, before + later[..n]), later[n]) && Within(later[n], cids)
  }

  lemma {:induction false} RunPays(before: seq<Step>, later: seq<Step>, cids: set<Cid>)
    requires Covers(cids, Exec(0, before)) && Advances(before, later, cids)
    ensures Covers(cids, Exec(0, before + later))
    ensures Potential(Exec(0, before + later), cids) + |later| <= Potential(Exec(0, before), cids)
    decreases |later|
  {
    hide Covers, Potential, Apply, Enabled, Within, Steady;
    if later == [] {
      assert before + later == before;
    } else {
      var n := |later| - 1;
      AdvancesPrefix(before, later, n, cids);
      RunPays(before, later[..n], cids);
      assert (before + later)[..|before + later| - 1] == before + later[..n];
      SteadyRun(before + later[..n]);
      assert Enabled(Exec(0, before + later[..n]), later[n]) && Within(later[n], cids);
      StepPays(Exec(0, before + later[..n]), later[n], cids);
    }
  }

  lemma AdvancesPrefix(before: seq<Step>, later: seq<Step>, n: nat, cids: set<Cid>)
    requires n <= |later| && Advances(before, later, cids)
    ensures Advances(before, later[..n], cids)
  {
    hide Exec, Enabled, Within;
    forall k | 0 <= k < n
      ensures Enabled(Exec(0, before + later[..n][..k]), later[..n][k]) && Within(later[..n][k], cids)
    {
      assert later[..n][..k] == later[..k];
    }
  }

  /** The retry policy never overdraws the dispatch budget. */
  lemma BudgetIsNat(steps: seq<Step>, cids: set<Cid>)
    requires Exec(0, steps).chain.entries.table.Keys <= cids
    ensures Budget(Exec(0, steps), cids) >= 0
  {
    hide Exec, Single, SettledAt, Resets, Allowance;
    var s := Exec(0, steps);
    InvRun(steps);
    forall c ensures s.dispatched[c] <= 3 * s.revived[c] + (if c in cids then 3 else 0) {
      assert BudgetAt(s, c);
      DispatchBound(steps, c);
    }
    ThriceBounded(s.dispatched, cids, s.revived);
  }

  lemma ThriceBounded(d: multiset<Cid>, cids: set<Cid>, r: multiset<Cid>)
    requires forall c :: d[c] <= 3 * r[c] + (if c in cids then 3 else 0)
    ensures |d| <= 3 * (|cids| + |r|)
  {
    var u := multiset(cids) + r;
    assert |u| == |cids| + |r|;
    var bound := u + u + u;
    var rest := bound - d;
    assert bound == d + rest;
    assert |d + rest| == |d| + |rest|;
  }

  /** What a state names: its entries, and the parents in its queue. */
  ghost function Named(s: IState): set<Cid> {
    s.chain.entries.table.Keys + set f | f in s.queue && f.BlockFetched? && f.meta.prev.Some? :: f.meta.prev.value
  }

  lemma NamedCovers(s: IState, store: set<Cid>)
    ensures Covers(Named(s) + store, s)
  {
  }

  /**
   * From any reachable state, with prefetching off and blocks whose parents come from a finite store, the
   * interpreter takes at most this many steps of its own before a fact from outside is needed.
   */
  lemma OwnStepsAreBounded(before: seq<Step>, later: seq<Step>, store: set<Cid>)
    requires Advances(before, later, Named(Exec(0, before)) + store)
    ensures |later| <= Potential(Exec(0, before), Named(Exec(0, before)) + store)
  {
    hide Exec, Covers, Advances, Budget, QueueWeight;
    var cids := Named(Exec(0, before)) + store;
    NamedCovers(Exec(0, before), store);
    RunPays(before, later, cids);
    CoversEntries(cids, Exec(0, before + later));
    BudgetIsNat(before + later, cids);
  }

  lemma CoversEntries(cids: set<Cid>, s: IState)
    requires Covers(cids, s)
    ensures s.chain.entries.table.Keys <= cids
  {
  }

  // ---- Rest ----

  predicate AtRest(s: IState) {
    s.queue == [] && s.inflight == map[] && s.timers == {} && s.awaiting.None?
  }

  /** A step of the interpreter's own is enabled exactly when something is queued, open, armed or awaited. */
  lemma StuckIffAtRest(s: IState)
    ensures (forall step :: !Enabled(s, step)) <==> AtRest(s)
  {
    if s.awaiting.Some? {
      assert Enabled(s, Settle(None, map[], 0));
    } else if s.queue != [] {
      assert Enabled(s, Feedback(map[], 0));
    }
    if s.inflight != map[] {
      var id :| id in s.inflight;
      assert Enabled(s, Answer(id, None, ""));
    }
    if s.timers != {} {
      var c :| c in s.timers;
      assert Enabled(s, Fire(c));
    }
  }

  /** It does get there: some continuation of every run, by its own steps alone, comes to rest. */
  lemma {:induction false} ComesToRest(before: seq<Step>, cids: set<Cid>) returns (later: seq<Step>)
    requires Covers(cids, Exec(0, before))
    ensures Advances(before, later, cids) && AtRest(Exec(0, before + later))
    decreases Potential(Exec(0, before), cids)
  {
    hide Exec, Covers, Apply, Potential, Steady;
    var s := Exec(0, before);
    later := [];
    assert before + [] == before;
    if !AtRest(s) {
      StuckIffAtRest(s);
      var step := AnyStep(s);
      CoversEntries(cids, s);
      BudgetIsNat(before, cids);
      PotentialIsNat(s, cids);
      var next := before + [step];
      ExecNext(before, step);
      SteadyRun(before);
      StepPays(s, step, cids);
      var rest := ComesToRest(next, cids);
      later := [step] + rest;
      AdvancesCons(before, step, rest, cids);
    }
  }

  lemma AnyStep(s: IState) returns (step: Step)
    requires !AtRest(s)
    ensures Enabled(s, step) && forall cids :: Within(step, cids)
  {
    if s.awaiting.Some? {
      step := Settle(None, map[], 0);
    } else if s.queue != [] {
      step := Feedback(map[], 0);
    } else if s.inflight != map[] {
      var id :| id in s.inflight;
      step := Answer(id, None, "");
    } else {
      var c :| c in s.timers;
      step := Fire(c);
    }
  }

  lemma PotentialIsNat(s: IState, cids: set<Cid>)
    requires Budget(s, cids) >= 0
    ensures Potential(s, cids) >= 0
  {
  }

  lemma ExecNext(before: seq<Step>, step: Step)
    ensures Exec(0, before + [step]) == Apply(Exec(0, before), step)
  {
    assert (before + [step])[..|before|] == before;
  }

  lemma AdvancesCons(before: seq<Step>, step: Step, rest: seq<Step>, cids: set<Cid>)
    requires Enabled(Exec(0, before), step) && Within(step, cids) && Advances(before + [step], rest, cids)
    ensures Advances(before, [step] + rest, cids)
    ensures before + ([step] + rest) == before + [step] + rest
  {
    hide Exec, Enabled, Within;
    var later := [step] + rest;
    forall n | 0 <= n < |later| ensures Enabled(Exec(0, before + later[..n]), later[n]) && Within(later[n], cids) {
      if n == 0 {
        assert before + later[..0] == before;
      } else {
        assert before + later[..n] == before + [step] + rest[..n - 1];
        assert later[n] == rest[n - 1];
      }
    }
  }

  /**
   * However the interpreter goes on by itself, where it can go no further every entry is fetched, applied,
   * failed with its retries used up, or was skipped by policy. OwnStepsAreBounded says
   * that it gets there whichever steps it takes.
   */
  lemma StuckIsSettled(before: seq<Step>, later: seq<Step>, c: Cid)
    requires forall step :: !Enabled(Exec(0, before + later), step)
    requires c in Exec(0, before + later).chain.entries.table
    ensures var s := Exec(0, before + later); var e := s.chain.entries.table[c];
      || e.status == Fetched || e.status == Applied
      || (e.status == Failed && e.fetchAttempt >= MAX_INTERPRETER_RETRIES)
      || (e.status == Unknown && c in s.skipped)
  {
    hide Exec, Enabled;
    StuckIffAtRest(Exec(0, before + later));
    QuiescentIsSettled(before + later, c);
  }
}
