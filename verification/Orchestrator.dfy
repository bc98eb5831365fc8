/**
 * The orchestrator as it is written: tables updated in place, with the sideband as an object of its own
 * (packages/core/src/ingest-snapshot.ts). Each method refines one step of Ingest.
 */
module Orchestrator {
  import opened Options
  import opened Sideband
  import opened Ingest
  import Chain

  class IngestSnapshotApi {
    const sideband: PendingSideband
    const env: Env
    var pendingContexts: map<Cid, Context>
    var placedCids: set<Cid>
    var blocks: map<Cid, Bytes>
    var lastAppliedCid: Option<Cid>
    var outcomes: seq<Record>
    ghost var completed: multiset<Cid>
    ghost var threw: multiset<Cid>

    ghost function State(): IngestState
      reads this, sideband
    {
      IngestState(sideband.pending, pendingContexts, placedCids, blocks, lastAppliedCid, outcomes, completed, threw)
    }

    ghost function CapsOf(): Caps {
      Caps(sideband.maxEntries, sideband.maxBytes)
    }

    ghost predicate Valid()
      reads this, sideband
    {
      sideband.Valid() && TablesOk(State(), env)
    }

    constructor (env: Env, maxEntries: nat, maxBytes: nat)
      ensures Valid() && State() == EMPTY && fresh(sideband)
      ensures this.env == env && CapsOf() == Caps(maxEntries, maxBytes)
    {
      this.env := env;
      sideband := new PendingSideband(maxEntries, maxBytes);
      pendingContexts, placedCids, blocks, lastAppliedCid, outcomes := map[], {}, map[], None, [];
      completed, threw := multiset{}, multiset{};
    }

    /** The try block: applyRemote, unless it skips the CID applied last, and then the clock. */
    method ApplyEagerly(cid: Cid, mode: ApplyMode) returns (ok: bool)
      modifies this
      ensures ok == EagerOk(old(State()), cid, mode)
      ensures State() == EagerState(old(State()), cid, mode)
    {
      if lastAppliedCid != Some(cid) {
        if mode == DecryptFails {
          return false;
        }
        if mode == CallbackThrows {
          threw := threw + multiset{cid};
          return false;
        }
        completed := completed + multiset{cid};
        lastAppliedCid := Some(cid);
      }
      return mode != ClockThrows;
    }

    /** Gates 1 to 4, and the resolver write of a block that passes the first three. */
    method PassGates(cid: Cid, data: Bytes, chain: Chain.ChainState) returns (g: Outcome)
      modifies this
      ensures g == Gates(placedCids, cid, data, chain, env)
      ensures State() == if g.Rejected? then old(State()) else old(State()).(blocks := old(blocks)[cid := data])
    {
      hide IsPlaceable, IsApplied;
      if env.hash(data) != cid {
        return Rejected(CidMismatch);
      }
      if !env.valid(data) {
        return Rejected(InvalidSignature);
      }
      if cid in placedCids {
        return Rejected(Duplicate);
      }
      if IsApplied(cid, chain) {
        return Rejected(Duplicate);
      }
      blocks := blocks[cid := data];
      return if IsPlaceable(data, chain, env) then Placed else Deferred;
    }

    method Attempt(cid: Cid, data: Bytes, eager: bool, chain: Chain.ChainState, mode: ApplyMode)
      returns (outcome: Outcome)
      modifies this
      ensures outcome == AttemptOutcome(old(State()), cid, data, eager, chain, env, mode)
      ensures State() == AttemptState(old(State()), cid, data, eager, chain, env, mode)
    {
      hide Gates, EagerState;
      outcome := PassGates(cid, data, chain);
      if outcome != Placed {
        return;
      }
      if eager {
        var applied := ApplyEagerly(cid, mode);
        if !applied {
          return Rejected(InvalidSignature);
        }
      }
      placedCids := placedCids + {cid};
    }

    method IngestSnapshot(cid: Cid, data: Bytes, context: Context, chain: Chain.ChainState, mode: ApplyMode)
      returns (outcome: Outcome)
      requires Valid()
      modifies this, sideband
      ensures Valid()
      ensures outcome == AttemptOutcome(old(State()), cid, data, true, chain, env, mode)
      ensures State() == IngestStep(old(State()), cid, data, context, chain, env, mode, CapsOf())
    {
      hide TablesOk, Without, Trimmed, Has, AttemptOutcome, AttemptState, Fits, Total, Distinct;
      ghost var before := State();
      IngestKeepsTables(before, cid, data, context, chain, env, mode, CapsOf());
      AttemptKeepsTables(before, cid, data, true, chain, env, mode);
      outcome := Attempt(cid, data, true, chain, mode);
      ghost var s1 := State();
      match outcome {
        case Placed =>
          var at := sideband.IndexOf(cid);
          if at >= 0 {
            sideband.Remove(cid);
            pendingContexts := pendingContexts - {cid};
          }
        case Deferred =>
          pendingContexts := pendingContexts[cid := context];
          var evicted := sideband.Add(cid, data);
          ghost var all := s1.pending + [Held(cid, data)];
          assert !Has(s1.pending, cid) ==> evicted == all[..|all| - |sideband.pending|];
          Evict(evicted);
        case Rejected(_) =>
      }
      outcomes := outcomes + [Record(cid, outcome, context, false)];
    }

    /** The eviction callbacks, in the order of the evictions. */
    method Evict(evicted: seq<Held>)
      modifies this
      ensures State() == EvictAll(old(State()), evicted)
    {
      assert evicted[..0] == [];
      for i := 0 to |evicted|
        invariant State() == EvictAll(old(State()), evicted[..i])
      {
        assert evicted[..i + 1][..i] == evicted[..i];
        var cid := evicted[i].cid;
        var context := if cid in pendingContexts then pendingContexts[cid] else Context(false, None);
        pendingContexts := pendingContexts - {cid};
        outcomes := outcomes + [Record(cid, Rejected(PendingOverflow), context, false)];
      }
      assert evicted[..|evicted|] == evicted;
    }

    /** chains(i) is the chain state that the i-th attempt reads. */
    method RescanPending(chains: Chains)
      requires Valid()
      modifies this, sideband
      ensures Valid()
      ensures State() == RescanStep(old(State()), chains, env)
    {
      hide TablesOk, Without, Has, AttemptOutcome, AttemptState, Fits, Total, Distinct, RescanFirst;
      ghost var before := State();
      RescanNone(before, sideband.pending, chains, env);
      var items := sideband.pending;
      for i := 0 to |items|
        invariant Valid()
        invariant State() == RescanFirst(before, items, i, chains, env)
      {
        ghost var s := State();
        var h, chain := items[i], chains(i);
        RescanItemKeepsTables(s, h, chain, env);
        RescanNext(before, items, i, chains, env);
        if h.cid !in pendingContexts {
          continue;
        }
        var context := pendingContexts[h.cid];
        AttemptKeepsTables(s, h.cid, h.data, false, chain, env, Applies);
        var outcome := Attempt(h.cid, h.data, false, chain, Applies);
        if outcome != Deferred {
          sideband.Remove(h.cid);
          pendingContexts := pendingContexts - {h.cid};
        }
        outcomes := outcomes + [Record(h.cid, outcome, context, true)];
      }
    }
  }
}
