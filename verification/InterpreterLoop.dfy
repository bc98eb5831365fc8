/**
 * The interpreter as it is written: a loop body that updates the queue, the timer table and the set of
 * open fetches in place (packages/core/src/interpreter.ts). Each method refines one step of Interpreter,
 * so what Interpreter proves of every run holds of every sequence of these calls.
 */
module InterpreterLoop {
  import opened Options
  import opened Chain
  import opened Interpreter

  class Loop {
    var chain: ChainState
    var queue: seq<Fact>
    var inflight: map<nat, Pending>
    var nextId: nat
    var timers: set<Cid>
    var awaiting: Option<Await>
    const prefetchDepth: nat
    ghost var dispatched: multiset<Cid>
    ghost var revived: multiset<Cid>
    ghost var skipped: set<Cid>

    ghost function State(): IState
      reads this
    {
      IState(chain, queue, inflight, nextId, timers, awaiting, prefetchDepth, dispatched, revived, skipped)
    }

    constructor (depth: nat)
      ensures State() == Init(depth)
    {
      chain, queue, inflight, nextId, timers, awaiting, prefetchDepth := INITIAL_CHAIN, [], map[], 0, {}, None, depth;
      dispatched, revived, skipped := multiset{}, multiset{}, {};
    }

    /** Announces the fetch, opens it, and remembers the attempt count it was opened with. */
    method StartFetch(c: Cid, e: Entry, now: int)
      modifies this
      ensures State() == DispatchFetch(old(State()), c, e, now)
    {
      queue := queue + [BlockFetchStarted(c, now)];
      inflight := inflight[nextId := Pending(c, e.fetchAttempt)];
      nextId := nextId + 1;
      dispatched := dispatched + multiset{c};
      skipped := skipped - {c};
    }

    /** The fetch loop over all entries. */
    method FetchNewlyUnknown(prev: ChainState, local: map<Cid, Metadata>, now: int)
      modifies this
      ensures State() == DispatchTo(old(State()), prev, local, now, |old(chain).entries.keys|)
    {
      hide Eligible, Coherent;
      ghost var a := State();
      var keys := chain.entries.keys;
      for i := 0 to |keys|
        invariant chain == a.chain
        invariant State() == DispatchTo(a, prev, local, now, i)
      {
        KeyAt(chain.entries, i);
        var e := chain.entries.table[keys[i]];
        if e.status != Unknown {
          continue;
        }
        if keys[i] in prev.entries.table && prev.entries.table[keys[i]].status == Unknown {
          continue;
        }
        if !Eligible(chain, e) {
          skipped := skipped + {keys[i]};
          continue;
        }
        if keys[i] in local {
          queue := queue + [BlockFetched(keys[i], local[keys[i]])];
          skipped := skipped - {keys[i]};
          continue;
        }
        StartFetch(keys[i], e, now);
      }
    }

    /** Retry timers and inline blocks. */
    method UpdateRetries(f: Fact)
      modifies this
      ensures State() == DecodeInline(CancelRetry(ScheduleRetry(old(State()), f), f), f)
    {
      hide Coherent;
      if f.BlockFetchFailed? && f.cid in chain.entries.table
         && chain.entries.table[f.cid].fetchAttempt < MAX_INTERPRETER_RETRIES
      {
        if f.cid !in timers {
          timers := timers + {f.cid};
        }
      }
      assert timers == ScheduleRetry(old(State()), f).timers;
      if f.BlockFetched? || f.TipAdvanced? {
        timers := timers - {f.cid};
      }
      if f.CidDiscovered? && f.block.Some? {
        if f.block.value.prev.Some? || Truthy(f.block.value.snapshotTs) {
          queue := queue + [BlockFetched(f.cid, f.block.value)];
        }
      }
    }

    /** The newest fetched block, if it is to be applied now. */
    method NewestToApply(prev: ChainState, local: map<Cid, Metadata>) returns (tip: Option<Cid>)
      ensures tip == ToApply(prev, chain, local)
    {
      tip := chain.newestFetched;
      if tip.Some? && chain.applying.None? && tip != chain.tip {
        if tip.value !in prev.entries.table || prev.entries.table[tip.value].status != Fetched {
          if tip.value in local {
            return;
          }
        }
      }
      tip := None;
    }

    /** The body of the event loop for one fact, up to its end or to the awaited application of a block. */
    method Consume(f: Fact, local: map<Cid, Metadata>, now: int)
      modifies this
      ensures State() == Process(old(State()), f, local, now)
    {
      hide ReduceChain, DispatchTo, ScheduleRetry, CancelRetry, DecodeInline, Coherent, NewestOf, Prefetch, ToApply;
      var prev := chain;
      if Revives(chain, f) {
        revived := revived + multiset{f.cid};
      }
      chain := ReduceChain(chain, f);
      assert State() == Reduced(old(State()), f);
      FetchNewlyUnknown(prev, local, now);
      UpdateRetries(f);
      EffectsKeepChain(old(State()), f, local, now);
      var tip := NewestToApply(prev, local);
      if tip.Some? {
        awaiting := Some(Await(tip.value, f));
        return;
      }
      if f.TipAdvanced? {
        WalkParents(f.cid, local, now);
      }
    }

    /** The awaited application settles, and the loop body runs to its end. */
    method SettleApply(tipSeq: Option<int>, local: map<Cid, Metadata>, now: int)
      requires awaiting.Some?
      modifies this
      ensures State() == Apply(old(State()), Settle(tipSeq, local, now))
    {
      hide Prefetch, Coherent, NewestOf, Process;
      var tip, f := awaiting.value.tip, awaiting.value.fact;
      awaiting := None;
      if tipSeq.Some? {
        queue := queue + [TipAdvanced(tip, tipSeq.value)];
      }
      assert State() == Settled(old(State()), tipSeq);
      if f.TipAdvanced? {
        WalkParents(f.cid, local, now);
      }
    }

    method WalkParents(tip: Cid, local: map<Cid, Metadata>, now: int)
      modifies this
      ensures State() == Prefetch(old(State()), tip, prefetchDepth, local, now)
    {
      hide Coherent;
      var walk, remaining := tip, prefetchDepth;
      while remaining > 0
        invariant Prefetch(State(), walk, remaining, local, now) == Prefetch(old(State()), tip, prefetchDepth, local, now)
      {
        if walk !in chain.entries.table || chain.entries.table[walk].prev.None? {
          break;
        }
        var p := chain.entries.table[walk].prev.value;
        if p in chain.entries.table && chain.entries.table[p].status == Unknown && p !in local {
          StartFetch(p, chain.entries.table[p], now);
        }
        walk, remaining := p, remaining - 1;
      }
    }

    /** Consumes the fact at the head of the feedback queue. */
    method ConsumeFeedback(local: map<Cid, Metadata>, now: int)
      requires queue != [] && awaiting.None?
      modifies this
      ensures State() == Apply(old(State()), Feedback(local, now))
    {
      hide Process;
      var f := queue[0];
      queue := queue[1..];
      Consume(f, local, now);
    }

    /** The promise of a fetch settles: a block, nothing, or an error. */
    method SettleFetch(id: nat, block: Option<Metadata>, error: string)
      requires id in inflight
      modifies this
      ensures State() == Apply(old(State()), Answer(id, block, error))
    {
      var p := inflight[id];
      inflight := inflight - {id};
      if block.Some? {
        queue := queue + [BlockFetched(p.cid, block.value)];
      } else {
        queue := queue + [BlockFetchFailed(p.cid, p.attempt + 1, error)];
      }
    }

    /** A retry timer fires. */
    method FireTimer(c: Cid)
      requires c in timers
      modifies this
      ensures State() == Apply(old(State()), Fire(c))
    {
      timers := timers - {c};
      queue := queue + [BlockRetryReset(c)];
    }
  }
}
