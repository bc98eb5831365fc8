/**
 * What consuming one fact does, effect by effect, told from the chain before and after it: which block is
 * fetched, which retry timer is armed or cancelled, what is fed back, which block is applied, and which
 * parents are prefetched (packages/core/src/interpreter.ts).
 */
module InterpreterEffects {
  import opened Options
  import opened Chain
  import opened Interpreter
  import InterpreterProgress

  ghost predicate StatusIn(chain: ChainState, c: Cid, st: Status) {
    c in chain.entries.table && chain.entries.table[c].status == st
  }

  /** Between the two chains the entry of c has come to have this status. */
  ghost predicate Became(prev: ChainState, next: ChainState, c: Cid, st: Status) {
    StatusIn(next, c, st) && !StatusIn(prev, c, st)
  }

  // ---- Fetching ----

  /** The entry was found by a tip-candidate source, or it is the newest of the cached ones. */
  ghost predicate Fetchable(chain: ChainState, e: Entry) {
    || Gossipsub in e.via || Ipns in e.via || HttpTip in e.via || Reannounce in e.via || ChainWalk in e.via
    || (FromCache in e.via && e.seqNo.Some? && e.seqNo.value == chain.maxSeq)
  }

  lemma EligibleIsFetchable(chain: ChainState, e: Entry)
    ensures Eligible(chain, e) <==> Fetchable(chain, e)
  {
    if ShouldAutoFetch(e) {
      var src :| src in e.via * AUTO_FETCH_SOURCES;
    }
    forall src | src in e.via && src in AUTO_FETCH_SOURCES ensures ShouldAutoFetch(e) {
      assert src in e.via * AUTO_FETCH_SOURCES;
    }
  }

  /** What the fetch loop feeds back for an entry that has just become unknown. */
  function FetchFeedback(next: ChainState, k: Cid, fetchable: bool, local: map<Cid, Metadata>, now: int): seq<Fact> {
    if !fetchable then [] else if k in local then [BlockFetched(k, local[k])] else [BlockFetchStarted(k, now)]
  }

  /** An inline block that names a parent, or carries a timestamp other than zero, is fed back as fetched. */
  function InlineFeedback(f: Fact): seq<Fact> {
    match f
    case CidDiscovered(c, _, Some(meta), _, _) =>
      if meta.prev.Some? || (meta.snapshotTs.Some? && meta.snapshotTs.value != 0) then [BlockFetched(c, meta)] else []
    case _ => []
  }

  function TimersAfter(timers: set<Cid>, next: ChainState, f: Fact): set<Cid> {
    match f
    case BlockFetchFailed(c, _, _) =>
      if c in next.entries.table && next.entries.table[c].fetchAttempt < 3 then timers + {c} else timers
    case BlockFetched(c, _) => timers - {c}
    case TipAdvanced(c, _) => timers - {c}
    case _ => timers
  }

  /** The state up to the application: the first half of the loop body. */
  ghost function Half(s: IState, f: Fact, local: map<Cid, Metadata>, now: int): IState {
    DecodeInline(CancelRetry(ScheduleRetry(VisitCandidate(Reduced(s, f), s.chain, f, local, now), f), f), f)
  }

  /** At most one entry becomes unknown, and it is the candidate of the fact. */
  lemma OnlyCandidateBecomes(s: IState, f: Fact, k: Cid)
    requires Became(s.chain, ReduceChain(s.chain, f), k, Unknown)
    ensures Candidate(f) == Some(k) && JustUnknown(s.chain, ReduceChain(s.chain, f), k)
  {
    hide ReduceChain, Coherent;
    ReduceIsChainStep(s.chain, f);
    if Candidate(f) != Some(k) {
      NotCandidate(s.chain, ReduceChain(s.chain, f), f, k);
    }
  }

  lemma HalfWhenFound(s: IState, f: Fact, local: map<Cid, Metadata>, now: int, k: Cid)
    requires Became(s.chain, ReduceChain(s.chain, f), k, Unknown)
    ensures var next := ReduceChain(s.chain, f); var e := next.entries.table[k];
      var h, fetch := Half(s, f, local, now), Fetchable(next, e);
      && h.queue == s.queue + FetchFeedback(next, k, fetch, local, now) + InlineFeedback(f)
      && h.inflight == (if fetch && k !in local then s.inflight[s.nextId := Pending(k, e.fetchAttempt)] else s.inflight)
      && h.nextId == (if fetch && k !in local then s.nextId + 1 else s.nextId)
      && (k in h.skipped <==> !fetch)
      && h.dispatched == (if fetch && k !in local then s.dispatched + multiset{k} else s.dispatched)
  {
    hide ReduceChain, Coherent, Eligible, Fetchable, ScheduleRetry, CancelRetry, Revives;
    OnlyCandidateBecomes(s, f, k);
    EligibleIsFetchable(ReduceChain(s.chain, f), ReduceChain(s.chain, f).entries.table[k]);
    TimersOnly(VisitCandidate(Reduced(s, f), s.chain, f, local, now), f);
  }

  lemma TimersOnly(b: IState, f: Fact)
    ensures var c := CancelRetry(ScheduleRetry(b, f), f);
      c == b.(timers := c.timers) && c.timers == TimersAfter(b.timers, b.chain, f)
  {
    hide Coherent;
  }

  lemma HalfOtherwise(s: IState, f: Fact, local: map<Cid, Metadata>, now: int)
    requires forall k :: !Became(s.chain, ReduceChain(s.chain, f), k, Unknown)
    ensures var h := Half(s, f, local, now);
      && h.queue == s.queue + InlineFeedback(f)
      && h.inflight == s.inflight && h.nextId == s.nextId && h.skipped == s.skipped && h.dispatched == s.dispatched
  {
    hide ReduceChain, Coherent, Eligible, ScheduleRetry, CancelRetry, Revives;
    var k := Candidate(f);
    if k.Some? {
      assert !Became(s.chain, ReduceChain(s.chain, f), k.value, Unknown);
    }
    TimersOnly(VisitCandidate(Reduced(s, f), s.chain, f, local, now), f);
  }

  lemma HalfTimers(s: IState, f: Fact, local: map<Cid, Metadata>, now: int)
    ensures var h := Half(s, f, local, now);
      && h.timers == TimersAfter(s.timers, ReduceChain(s.chain, f), f)
      && h.chain == ReduceChain(s.chain, f) && h.awaiting == s.awaiting && h.prefetchDepth == s.prefetchDepth
  {
    hide ReduceChain, Coherent, Eligible, ScheduleRetry, CancelRetry, Revives;
    TimersOnly(VisitCandidate(Reduced(s, f), s.chain, f, local, now), f);
  }

  // ---- Applying ----

  /** The entry of the newest fetched block has just become fetched, its block is local, it is not the tip. */
  ghost predicate Applicable(prev: ChainState, next: ChainState, local: map<Cid, Metadata>, c: Cid) {
    next.newestFetched == Some(c) && next.tip != Some(c) && c in local && Became(prev, next, c, Fetched)
  }

  lemma ToApplyIsApplicable(prev: ChainState, f: Fact, local: map<Cid, Metadata>, c: Cid)
    requires prev.newestFetched == NewestOf(prev.entries, |prev.entries.keys|) && prev.applying.None?
    ensures ToApply(prev, ReduceChain(prev, f), local) == Some(c) <==> Applicable(prev, ReduceChain(prev, f), local, c)
  {
    NeverApplying(prev, f);
    hide ReduceChain, Coherent, NewestOf;
    var next := ReduceChain(prev, f);
    NewestKept(prev, f);
    InterpreterProgress.NewestIsFetched(next.entries);
  }

  lemma NeverApplying(prev: ChainState, f: Fact)
    requires prev.applying.None?
    ensures ReduceChain(prev, f).applying.None?
  {
    hide Coherent, NewestOf;
  }

  lemma ProcessHalf(s: IState, f: Fact, local: map<Cid, Metadata>, now: int)
    ensures Process(s, f, local, now)
         == var tip := ToApply(s.chain, ReduceChain(s.chain, f), local);
            if tip.Some? then Half(s, f, local, now).(awaiting := Some(Await(tip.value, f)))
            else PrefetchAfter(Half(s, f, local, now), f, local, now)
  {
    hide ReduceChain, Coherent, ToApply, PrefetchAfter, ScheduleRetry, CancelRetry, DecodeInline, VisitCandidate;
    DispatchVisitsCandidate(s, f, local, now);
  }

  lemma {:induction false} NothingApplying(depth: nat, steps: seq<Step>)
    ensures var chain := Exec(depth, steps).chain;
      chain.applying.None? && chain.newestFetched == NewestOf(chain.entries, |chain.entries.keys|)
  {
    hide Process, PrefetchAfter, NewestOf, Coherent, ReduceChain;
    if steps == [] {
      NothingScanned();
    } else {
      var s, step := Exec(depth, steps[..|steps| - 1]), steps[|steps| - 1];
      NothingApplying(depth, steps[..|steps| - 1]);
      if (step.Feedback? && s.queue != [] && s.awaiting.None?) || (step.External? && !Internal(step.fact) && s.awaiting.None?) {
        var t := if step.Feedback? then s.(queue := s.queue[1..]) else s;
        var f := if step.Feedback? then s.queue[0] else step.fact;
        ProcessChain(t, f, step.local, step.now);
        NewestKept(s.chain, f);
        NeverApplying(s.chain, f);
      }
      if step.Settle? && s.awaiting.Some? {
        PrefetchAfterSkipsNothing(Settled(s, step.tipSeq), s.awaiting.value.fact, step.local, step.now);
      }
    }
  }

  /** The state from which a step consumes its fact. */
  function Popped(s: IState, step: Step): IState {
    if step.Feedback? && s.queue != [] then s.(queue := s.queue[1..]) else s
  }

  function LocalOf(step: Step): map<Cid, Metadata> {
    match step
    case Feedback(local, _) => local
    case External(_, local, _) => local
    case Settle(_, local, _) => local
    case _ => map[]
  }

  lemma ConsumeIsProcess(s: IState, step: Step)
    requires Consumed(s, step).Some?
    ensures Apply(s, step) == Process(Popped(s, step), Consumed(s, step).value, LocalOf(step), step.now)
    ensures s.awaiting.None? && Popped(s, step).chain == s.chain && Popped(s, step).awaiting.None?
  {
  }

  /**
   * In every run, prefetching or not: a consumed fact that makes the newest fetched entry fetched, with its
   * block local and another tip, starts its application; no other fact starts one.
   */
  lemma AppliesExactlyNewest(depth: nat, steps: seq<Step>, step: Step)
    requires Consumed(Exec(depth, steps), step).Some?
    ensures var s, s' := Exec(depth, steps), Exec(depth, steps + [step]);
      && s'.chain == ReduceChain(s.chain, Consumed(s, step).value)
      && (forall c :: Applicable(s.chain, s'.chain, LocalOf(step), c) ==>
            s'.awaiting == Some(Await(c, Consumed(s, step).value)))
      && ((forall c :: !Applicable(s.chain, s'.chain, LocalOf(step), c)) ==> s'.awaiting.None?)
  {
    hide Process, Applicable, ToApply, ReduceChain, Exec, Apply, NewestOf, Half, PrefetchAfter;
    var s := Exec(depth, steps);
    ExecNext(depth, steps, step);
    ConsumeIsProcess(s, step);
    var t, f, local := Popped(s, step), Consumed(s, step).value, LocalOf(step);
    NothingApplying(depth, steps);
    ProcessChain(t, f, local, step.now);
    ProcessHalf(t, f, local, step.now);
    HalfTimers(t, f, local, step.now);
    PrefetchAwaitsNothing(Half(t, f, local, step.now), f, local, step.now);
    forall c ensures ToApply(s.chain, ReduceChain(s.chain, f), local) == Some(c)
                 <==> Applicable(s.chain, ReduceChain(s.chain, f), local, c)
    {
      ToApplyIsApplicable(s.chain, f, local, c);
    }
  }

  lemma ExecNext(depth: nat, steps: seq<Step>, step: Step)
    ensures Exec(depth, steps + [step]) == Apply(Exec(depth, steps), step)
  {
    assert (steps + [step])[..|steps|] == steps;
  }

  lemma {:induction false} PrefetchOnlyFetches(s: IState, walk: Cid, remaining: nat, local: map<Cid, Metadata>, now: int)
    ensures var r := Prefetch(s, walk, remaining, local, now);
      r.awaiting == s.awaiting && r.timers == s.timers && r.chain == s.chain && r.revived == s.revived
      && r.prefetchDepth == s.prefetchDepth
    decreases remaining
  {
    hide Coherent;
    if remaining > 0 && walk in s.chain.entries.table && s.chain.entries.table[walk].prev.Some? {
      var p := s.chain.entries.table[walk].prev.value;
      if p in s.chain.entries.table && s.chain.entries.table[p].status == Unknown && p !in local {
        PrefetchOnlyFetches(DispatchFetch(s, p, s.chain.entries.table[p], now), p, remaining - 1, local, now);
      } else {
        PrefetchOnlyFetches(s, p, remaining - 1, local, now);
      }
    }
  }

  lemma PrefetchAwaitsNothing(s: IState, f: Fact, local: map<Cid, Metadata>, now: int)
    ensures var r := PrefetchAfter(s, f, local, now); r.awaiting == s.awaiting && r.timers == s.timers
  {
    hide Prefetch;
    if f.TipAdvanced? {
      PrefetchOnlyFetches(s, f.cid, s.prefetchDepth, local, now);
    }
  }

  /** An application never starts on a tip, so no prefetch waits behind it. */
  lemma {:induction false} NoTipWaits(depth: nat, steps: seq<Step>)
    ensures var s := Exec(depth, steps); s.awaiting.Some? ==> !s.awaiting.value.fact.TipAdvanced?
  {
    hide Exec, Process, Apply, ReduceChain, NewestOf, Applicable, Became, PrefetchAfter;
    if steps == [] {
      InitWaitsForNothing(depth);
    } else {
      var before, step := steps[..|steps| - 1], steps[|steps| - 1];
      var s := Exec(depth, before);
      assert before + [step] == steps;
      ExecNext(depth, before, step);
      NoTipWaits(depth, before);
      if Consumed(s, step).Some? {
        AppliesExactlyNewest(depth, before, step);
        forall c ensures Consumed(s, step).value.TipAdvanced? ==>
          !Applicable(s.chain, Exec(depth, steps).chain, LocalOf(step), c)
        {
          if Consumed(s, step).value.TipAdvanced? {
            TipOnlyApplies(s.chain, Consumed(s, step).value, c);
            ApplicableBecame(s.chain, Exec(depth, steps).chain, LocalOf(step), c);
          }
        }
        OnlyThatFactWaits(depth, before, step);
      } else {
        OthersKeepWaiting(s, step);
      }
    }
  }

  lemma InitWaitsForNothing(depth: nat)
    ensures Exec(depth, []).awaiting.None?
  {
  }

  lemma ApplicableBecame(prev: ChainState, next: ChainState, local: map<Cid, Metadata>, c: Cid)
    ensures Applicable(prev, next, local, c) ==> Became(prev, next, c, Fetched)
  {
  }

  lemma OnlyThatFactWaits(depth: nat, steps: seq<Step>, step: Step)
    requires Consumed(Exec(depth, steps), step).Some?
    ensures var s' := Exec(depth, steps + [step]);
      s'.awaiting.Some? ==> s'.awaiting.value.fact == Consumed(Exec(depth, steps), step).value
  {
    hide Exec, Process, Apply, ReduceChain, NewestOf, ToApply, Half, PrefetchAfter;
    var s := Exec(depth, steps);
    ExecNext(depth, steps, step);
    ConsumeIsProcess(s, step);
    var t, f, local := Popped(s, step), Consumed(s, step).value, LocalOf(step);
    ProcessHalf(t, f, local, step.now);
    HalfTimers(t, f, local, step.now);
    PrefetchAwaitsNothing(Half(t, f, local, step.now), f, local, step.now);
  }

  lemma OthersKeepWaiting(s: IState, step: Step)
    requires Consumed(s, step).None?
    ensures Apply(s, step).awaiting == s.awaiting || Apply(s, step).awaiting.None?
  {
    hide Process, PrefetchAfter;
    if step.Settle? && s.awaiting.Some? {
      PrefetchAwaitsNothing(Settled(s, step.tipSeq), s.awaiting.value.fact, step.local, step.now);
    }
  }

  /**
   * In every run, prefetching or not, a settled application feeds back exactly one tip-advanced fact, of the
   * CID and the seq that it applied, or nothing if it was refused; and it does nothing else.
   */
  lemma SettlementFeedsBackTip(depth: nat, steps: seq<Step>, tipSeq: Option<int>, local: map<Cid, Metadata>, now: int)
    requires Exec(depth, steps).awaiting.Some?
    ensures var s, s' := Exec(depth, steps), Exec(depth, steps + [Settle(tipSeq, local, now)]);
      s' == s.(awaiting := None,
               queue := s.queue + match tipSeq case Some(q) => [TipAdvanced(s.awaiting.value.tip, q)] case None => [])
  {
    hide Exec, Prefetch;
    ExecNext(depth, steps, Settle(tipSeq, local, now));
    NoTipWaits(depth, steps);
    assert Exec(depth, steps).queue + [] == Exec(depth, steps).queue;
  }

  /** A fetch that is answered feeds back its block, or its failure under the next attempt number. */
  lemma AnswerFeedsBack(s: IState, id: nat, block: Option<Metadata>, error: string)
    requires id in s.inflight
    ensures Apply(s, Answer(id, block, error))
         == s.(inflight := s.inflight - {id},
               queue := s.queue + match block
                 case Some(meta) => [BlockFetched(s.inflight[id].cid, meta)]
                 case None => [BlockFetchFailed(s.inflight[id].cid, s.inflight[id].attempt + 1, error)])
  {
  }

  lemma TimerFeedsBack(s: IState, c: Cid)
    requires c in s.timers
    ensures Apply(s, Fire(c)) == s.(timers := s.timers - {c}, queue := s.queue + [BlockRetryReset(c)])
  {
  }

  lemma WaitsUntilSettled(s: IState, step: Step)
    requires s.awaiting.Some? && !step.Settle?
    ensures Apply(s, step).awaiting == s.awaiting && Apply(s, step).chain == s.chain
  {
  }

  /** Consuming a tip-advanced fact, whoever sent it, makes its CID the tip. */
  lemma TipIsAdopted(depth: nat, steps: seq<Step>, step: Step)
    requires Consumed(Exec(depth, steps), step).Some? && Consumed(Exec(depth, steps), step).value.TipAdvanced?
    ensures Exec(depth, steps + [step]).chain.tip == Some(Consumed(Exec(depth, steps), step).value.cid)
  {
    hide Exec, Process, Apply, NewestOf, Coherent;
    var s := Exec(depth, steps);
    ExecNext(depth, steps, step);
    ConsumeIsProcess(s, step);
    ProcessChain(Popped(s, step), Consumed(s, step).value, LocalOf(step), step.now);
  }

  // ---- Everything a fact does but prefetching ----

  /**
   * In every run, a consumed fact, other than a tip where prefetching is on, feeds back, opens, arms and
   * skips exactly this. An entry that has become unknown and is fetchable is fetched, from the local store
   * if it is there and else over the network, with the attempt count it has; one that is not fetchable is
   * skipped. A failure below three attempts arms the timer of its CID, a fetched block or a tip cancels it.
   */
  lemma FactDoesExactly(depth: nat, steps: seq<Step>, step: Step, k: Cid)
    requires Consumed(Exec(depth, steps), step).Some?
    requires depth > 0 ==> !Consumed(Exec(depth, steps), step).value.TipAdvanced?
    ensures var s, s' := Popped(Exec(depth, steps), step), Exec(depth, steps + [step]);
      var f := Consumed(Exec(depth, steps), step).value;
      && s'.timers == TimersAfter(s.timers, s'.chain, f)
      && (Became(s.chain, s'.chain, k, Unknown) ==>
            var e := s'.chain.entries.table[k];
            var fetch := Fetchable(s'.chain, e);
            && s'.queue == s.queue + FetchFeedback(s'.chain, k, fetch, LocalOf(step), step.now) + InlineFeedback(f)
            && s'.inflight == (if fetch && k !in LocalOf(step) then s.inflight[s.nextId := Pending(k, e.fetchAttempt)]
                               else s.inflight)
            && (k in s'.skipped <==> !fetch))
      && ((forall c :: !Became(s.chain, s'.chain, c, Unknown)) ==>
            s'.queue == s.queue + InlineFeedback(f) && s'.inflight == s.inflight && s'.skipped == s.skipped)
  {
    hide Process, ToApply, ReduceChain, Exec, Apply, NewestOf, Half, Prefetch, TimersAfter, FetchFeedback, InlineFeedback,
         Fetchable, Became;
    var s := Exec(depth, steps);
    ExecNext(depth, steps, step);
    ConsumeIsProcess(s, step);
    var t, f, local := Popped(s, step), Consumed(s, step).value, LocalOf(step);
    DepthIs(depth, steps);
    ProcessChain(t, f, local, step.now);
    ProcessHalf(t, f, local, step.now);
    HalfTimers(t, f, local, step.now);
    PrefetchOff(Half(t, f, local, step.now), f, local, step.now);
    if Became(s.chain, ReduceChain(s.chain, f), k, Unknown) {
      BecameKnown(s.chain, ReduceChain(s.chain, f), k);
      HalfWhenFound(t, f, local, step.now, k);
    }
    if forall c :: !Became(s.chain, ReduceChain(s.chain, f), c, Unknown) {
      HalfOtherwise(t, f, local, step.now);
    }
  }

  lemma BecameKnown(prev: ChainState, next: ChainState, k: Cid)
    requires Became(prev, next, k, Unknown)
    ensures k in next.entries.table
  {
  }

  lemma PrefetchOff(s: IState, f: Fact, local: map<Cid, Metadata>, now: int)
    requires s.prefetchDepth == 0 || !f.TipAdvanced?
    ensures PrefetchAfter(s, f, local, now) == s
  {
  }

  // ---- Prefetching ----

  /** The j-th ancestor of c along recorded parents; none once a link is missing. */
  function Ancestor(chain: ChainState, c: Cid, j: nat): Option<Cid>
    decreases j
  {
    if j == 0 then Some(c)
    else if c !in chain.entries.table || chain.entries.table[c].prev.None? then None
    else Ancestor(chain, chain.entries.table[c].prev.value, j - 1)
  }

  /** The ancestors within reach that are unknown and not local, nearest first. */
  function ToPrefetch(chain: ChainState, c: Cid, reach: nat, local: map<Cid, Metadata>): seq<Cid> {
    if reach == 0 then [] else
    var front, a := ToPrefetch(chain, c, reach - 1, local), Ancestor(chain, c, reach);
    if a.Some? && a.value in chain.entries.table && chain.entries.table[a.value].status == Unknown && a.value !in local
    then front + [a.value] else front
  }

  lemma {:induction false} ToPrefetchFirst(chain: ChainState, c: Cid, reach: nat, local: map<Cid, Metadata>)
    requires c in chain.entries.table && chain.entries.table[c].prev.Some?
    ensures var p := chain.entries.table[c].prev.value;
      ToPrefetch(chain, c, reach + 1, local)
        == (if p in chain.entries.table && chain.entries.table[p].status == Unknown && p !in local then [p] else [])
           + ToPrefetch(chain, p, reach, local)
    decreases reach
  {
    hide Coherent;
    var p := chain.entries.table[c].prev.value;
    assert Ancestor(chain, c, reach + 1) == Ancestor(chain, p, reach);
    if reach == 0 {
      assert ToPrefetch(chain, c, 0, local) == [];
      assert Ancestor(chain, p, 0) == Some(p);
    } else {
      ToPrefetchFirst(chain, c, reach - 1, local);
    }
  }

  lemma {:induction false} NoAncestors(chain: ChainState, c: Cid, reach: nat, local: map<Cid, Metadata>)
    requires c !in chain.entries.table || chain.entries.table[c].prev.None?
    ensures ToPrefetch(chain, c, reach, local) == []
  {
    hide Coherent;
    if reach > 0 {
      NoAncestors(chain, c, reach - 1, local);
    }
  }

  /** r is s with exactly one fetch opened and announced for each of cs, with the attempt count of its entry. */
  ghost predicate Fetches(s: IState, r: IState, cs: seq<Cid>, now: int) {
    && r.nextId == s.nextId + |cs|
    && r.queue == s.queue + seq(|cs|, i requires 0 <= i < |cs| => BlockFetchStarted(cs[i], now))
    && (forall i | 0 <= i < |cs| :: cs[i] in s.chain.entries.table && s.nextId + i in r.inflight
          && r.inflight[s.nextId + i] == Pending(cs[i], s.chain.entries.table[cs[i]].fetchAttempt))
    && (forall id: nat | id < s.nextId || id >= r.nextId :: (id in r.inflight <==> id in s.inflight)
          && (id in s.inflight ==> r.inflight[id] == s.inflight[id]))
  }

  lemma FetchesFirst(s: IState, r: IState, p: Cid, rest: seq<Cid>, now: int)
    requires p in s.chain.entries.table
    requires Fetches(DispatchFetch(s, p, s.chain.entries.table[p], now), r, rest, now)
    ensures Fetches(s, r, [p] + rest, now)
  {
    hide Coherent;
    var t, cs := DispatchFetch(s, p, s.chain.entries.table[p], now), [p] + rest;
    FirstStarted(s.queue, p, rest, cs, now);
    forall i | 0 <= i < |cs|
      ensures cs[i] in s.chain.entries.table && s.nextId + i in r.inflight
      ensures r.inflight[s.nextId + i] == Pending(cs[i], s.chain.entries.table[cs[i]].fetchAttempt)
    {
      if i == 0 {
        assert s.nextId < t.nextId && s.nextId in t.inflight;
      } else {
        assert cs[i] == rest[i - 1] && s.nextId + i == t.nextId + (i - 1);
      }
    }
  }

  lemma FirstStarted(q: seq<Fact>, p: Cid, rest: seq<Cid>, cs: seq<Cid>, now: int)
    requires cs == [p] + rest
    ensures q + [BlockFetchStarted(p, now)] + seq(|rest|, i requires 0 <= i < |rest| => BlockFetchStarted(rest[i], now))
         == q + seq(|cs|, i requires 0 <= i < |cs| => BlockFetchStarted(cs[i], now))
  {
  }

  lemma FetchesNothing(s: IState, now: int)
    ensures Fetches(s, s, [], now)
  {
  }

  /** The walk fetches exactly those ancestors. */
  lemma {:induction false} PrefetchFetchesAncestors(
    s: IState, walk: Cid, reach: nat, local: map<Cid, Metadata>, now: int)
    ensures Fetches(s, Prefetch(s, walk, reach, local, now), ToPrefetch(s.chain, walk, reach, local), now)
    decreases reach
  {
    hide Coherent, Fetches;
    if reach == 0 || walk !in s.chain.entries.table || s.chain.entries.table[walk].prev.None? {
      if reach > 0 {
        NoAncestors(s.chain, walk, reach, local);
      }
      FetchesNothing(s, now);
    } else {
      var p := s.chain.entries.table[walk].prev.value;
      var rest := ToPrefetch(s.chain, p, reach - 1, local);
      ToPrefetchFirst(s.chain, walk, reach - 1, local);
      if p in s.chain.entries.table && s.chain.entries.table[p].status == Unknown && p !in local {
        var t := DispatchFetch(s, p, s.chain.entries.table[p], now);
        PrefetchFetchesAncestors(t, p, reach - 1, local, now);
        FetchesFirst(s, Prefetch(t, p, reach - 1, local, now), p, rest, now);
      } else {
        PrefetchFetchesAncestors(s, p, reach - 1, local, now);
        assert [] + rest == rest;
      }
    }
  }

  /** A tip makes nothing unknown and nothing fetched. */
  lemma TipOnlyApplies(prev: ChainState, f: Fact, c: Cid)
    requires f.TipAdvanced?
    ensures !Became(prev, ReduceChain(prev, f), c, Unknown) && !Became(prev, ReduceChain(prev, f), c, Fetched)
  {
    hide ReduceChain, Coherent;
    ReduceIsChainStep(prev, f);
    if c in ReduceChain(prev, f).entries.table {
      assert EntryStep(prev, ReduceChain(prev, f), f, c);
    }
  }

  /** In every run, a consumed tip fetches exactly the ancestors of its CID within the prefetch depth. */
  lemma TipFetchesAncestors(depth: nat, steps: seq<Step>, step: Step)
    requires Consumed(Exec(depth, steps), step).Some? && Consumed(Exec(depth, steps), step).value.TipAdvanced?
    ensures var s, s' := Popped(Exec(depth, steps), step), Exec(depth, steps + [step]);
      var f := Consumed(Exec(depth, steps), step).value;
      && s'.chain == ReduceChain(s.chain, f)
      && Fetches(s.(chain := s'.chain), s', ToPrefetch(s'.chain, f.cid, depth, LocalOf(step)), step.now)
      && s'.timers == s.timers - {f.cid} && s'.awaiting.None?
  {
    hide Process, ToApply, ReduceChain, Exec, Apply, NewestOf, Half, Prefetch, Fetches, Became, Coherent;
    var s := Exec(depth, steps);
    ExecNext(depth, steps, step);
    ConsumeIsProcess(s, step);
    var t, f, local, now := Popped(s, step), Consumed(s, step).value, LocalOf(step), step.now;
    DepthIs(depth, steps);
    NothingApplying(depth, steps);
    ProcessChain(t, f, local, now);
    ProcessHalf(t, f, local, now);
    HalfTimers(t, f, local, now);
    forall c ensures !Became(t.chain, ReduceChain(t.chain, f), c, Unknown)
             ensures !Became(t.chain, ReduceChain(t.chain, f), c, Fetched)
    {
      TipOnlyApplies(t.chain, f, c);
    }
    HalfOtherwise(t, f, local, now);
    var c := ToApply(t.chain, ReduceChain(t.chain, f), local);
    if c.Some? {
      ToApplyIsApplicable(t.chain, f, local, c.value);
    }
    var h := Half(t, f, local, now);
    PrefetchFetchesAncestors(h, f.cid, depth, local, now);
    PrefetchOnlyFetches(h, f.cid, depth, local, now);
    FetchesFrame(h, t.(chain := h.chain), Prefetch(h, f.cid, depth, local, now),
                 ToPrefetch(h.chain, f.cid, depth, local), now);
  }

  lemma FetchesFrame(s: IState, t: IState, r: IState, cs: seq<Cid>, now: int)
    requires Fetches(s, r, cs, now)
    requires s.chain == t.chain && s.queue == t.queue && s.inflight == t.inflight && s.nextId == t.nextId
    ensures Fetches(t, r, cs, now)
  {
  }

  lemma {:induction false} DepthIs(depth: nat, steps: seq<Step>)
    ensures Exec(depth, steps).prefetchDepth == depth
  {
    hide Process, PrefetchAfter, Coherent;
    if steps != [] {
      var s, step := Exec(depth, steps[..|steps| - 1]), steps[|steps| - 1];
      DepthIs(depth, steps[..|steps| - 1]);
      if Consumed(s, step).Some? {
        ConsumeIsProcess(s, step);
        ProcessDepth(Popped(s, step), Consumed(s, step).value, LocalOf(step), step.now);
      } else if step.Settle? && s.awaiting.Some? {
        PrefetchDepth(Settled(s, step.tipSeq), s.awaiting.value.fact, step.local, step.now);
      }
    }
  }

  lemma PrefetchDepth(s: IState, f: Fact, local: map<Cid, Metadata>, now: int)
    ensures PrefetchAfter(s, f, local, now).prefetchDepth == s.prefetchDepth
  {
    hide Prefetch;
    if f.TipAdvanced? {
      PrefetchOnlyFetches(s, f.cid, s.prefetchDepth, local, now);
    }
  }

  lemma ProcessDepth(s: IState, f: Fact, local: map<Cid, Metadata>, now: int)
    ensures Process(s, f, local, now).prefetchDepth == s.prefetchDepth
  {
    hide Process, ToApply, ReduceChain, NewestOf, Half, PrefetchAfter;
    ProcessHalf(s, f, local, now);
    HalfTimers(s, f, local, now);
    PrefetchDepth(Half(s, f, local, now), f, local, now);
  }

  // ---- A block fetched over the network is applied ----

  /** A gossiped CID is fetched, its block arrives, and is applied. */
  function NetworkRun(meta: Metadata): seq<Step> {
    [External(CidDiscovered("a", Gossipsub, None, Some(1), None), map[], 0),
     Feedback(map[], 0),
     Answer(0, Some(meta), ""),
     Feedback(map["a" := meta], 0)]
  }

  lemma NetworkBlockIsApplied(meta: Metadata)
    requires meta.prev.None?
    ensures var s := Exec(0, NetworkRun(meta)); s.awaiting == Some(Await("a", BlockFetched("a", meta)))
  {
    hide Exec, Process, NewestOf, Coherent;
    var run := NetworkRun(meta);
    assert run[..0] == [] && run[..4] == run;
    ExecStep(0, run, 0);
    ExecStep(0, run, 1);
    ExecStep(0, run, 2);
    ExecStep(0, run, 3);
    Nothing();
    var s0, s1, s2, s3 := Init(0), Exec(0, run[..1]), Exec(0, run[..2]), Exec(0, run[..3]);
    GossipArrives(s0, s1);
    FetchAnnounced(s1, s2);
    assert s3.queue == [BlockFetched("a", meta)];
    BlockArrives(run[..3], s3, meta);
    assert run[..3] + [run[3]] == run;
  }

  lemma Nothing()
    ensures Exec(0, []) == Init(0)
  {
  }

  lemma GossipArrives(s: IState, s': IState)
    requires s == Init(0) && s' == Process(s, CidDiscovered("a", Gossipsub, None, Some(1), None), map[], 0)
    ensures s'.queue == [BlockFetchStarted("a", 0)] && s'.inflight == map[0 := Pending("a", 0)] && s'.awaiting.None?
    ensures s'.chain == ReduceChain(INITIAL_CHAIN, CidDiscovered("a", Gossipsub, None, Some(1), None))
  {
    hide DispatchTo, NewestOf, Coherent;
    var f := CidDiscovered("a", Gossipsub, None, Some(1), None);
    DispatchVisitsCandidate(s, f, map[], 0);
    var e := s'.chain.entries.table["a"];
    assert Gossipsub in e.via * AUTO_FETCH_SOURCES;
  }

  lemma FetchAnnounced(s: IState, s': IState)
    requires s.queue == [BlockFetchStarted("a", 0)] && s.awaiting.None? && s' == Apply(s, Feedback(map[], 0))
    requires s.chain.entries.table.Keys == {"a"} && s.chain.entries.table["a"].status == Unknown
    requires s.chain.tip.None? && s.inflight == map[0 := Pending("a", 0)]
    ensures s'.queue == [] && s'.inflight == s.inflight && s'.awaiting.None? && s'.chain.tip.None?
    ensures s'.chain.entries.table.Keys == {"a"} && s'.chain.entries.table["a"].status == Fetching
  {
    hide DispatchTo, NewestOf, Coherent;
    var t, f := s.(queue := s.queue[1..]), s.queue[0];
    DispatchVisitsCandidate(t, f, map[], 0);
  }

  lemma BlockArrives(steps: seq<Step>, s: IState, meta: Metadata)
    requires s == Exec(0, steps) && s.queue == [BlockFetched("a", meta)] && s.awaiting.None? && s.chain.tip.None?
    requires s.chain.entries.table.Keys == {"a"} && s.chain.entries.table["a"].status == Fetching && meta.prev.None?
    ensures Exec(0, steps + [Feedback(map["a" := meta], 0)]).awaiting == Some(Await("a", BlockFetched("a", meta)))
  {
    hide Exec, Process, Applicable;
    var step := Feedback(map["a" := meta], 0);
    AppliesExactlyNewest(0, steps, step);
    NothingApplying(0, steps + [step]);
    var next := Exec(0, steps + [step]).chain;
    OnlyEntryFetched(s.chain, next, meta);
    OnlyFetchedIsNewest(next);
    assert Applicable(s.chain, next, LocalOf(step), "a") by { ApplicableA(s.chain, next, meta); }
  }

  lemma OnlyEntryFetched(prev: ChainState, next: ChainState, meta: Metadata)
    requires prev.entries.table.Keys == {"a"} && prev.tip.None? && meta.prev.None?
    requires next == ReduceChain(prev, BlockFetched("a", meta))
    ensures next.entries.table.Keys == {"a"} && next.entries.table["a"].status == Fetched && next.tip.None?
  {
    hide NewestOf, Coherent;
  }

  lemma OnlyFetchedIsNewest(chain: ChainState)
    requires chain.entries.table.Keys == {"a"} && chain.entries.table["a"].status == Fetched
    requires chain.newestFetched == NewestOf(chain.entries, |chain.entries.keys|)
    ensures chain.newestFetched == Some("a")
  {
    hide NewestOf;
    ScanIsNewest(chain.entries);
    assert "a" in chain.entries.keys;
    if chain.newestFetched.Some? {
      assert chain.newestFetched.value in chain.entries.table;
    }
  }

  lemma ApplicableA(prev: ChainState, next: ChainState, meta: Metadata)
    requires prev.entries.table.Keys == {"a"} && prev.entries.table["a"].status == Fetching
    requires next.entries.table.Keys == {"a"} && next.entries.table["a"].status == Fetched && next.tip.None?
    requires next.newestFetched == Some("a")
    ensures Applicable(prev, next, map["a" := meta], "a")
  {
  }
}
