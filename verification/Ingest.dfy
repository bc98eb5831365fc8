/**
 * The snapshot ingress orchestrator: createIngestSnapshot of packages/core/src/ingest-snapshot.ts, each
 * call run to completion.
 */
module Ingest {
  import opened Options
  import opened Sideband
  import Chain

  datatype Context = Context(local: bool, peerId: Option<string>)
  datatype Reason = InvalidSignature | CidMismatch | Duplicate | PendingOverflow
  datatype Outcome = Placed | Deferred | Rejected(reason: Reason)
  datatype Record = Record(cid: Cid, outcome: Outcome, context: Context, fromRescan: bool)

  datatype Decoded = Undecodable | Decoded(prev: Option<Cid>)

  /** Content hashing, signature checking and decoding: deterministic functions of the bytes. */
  datatype Env = Env(hash: Bytes -> Cid, valid: Bytes -> bool, decode: Bytes -> Decoded)

  /**
   * How the eager apply goes: decryption may fail, the apply callback may throw, and so may the clock that
   * is read once applyRemote has returned.
   */
  datatype ApplyMode = Applies | DecryptFails | CallbackThrows | ClockThrows

  /**
   * The orchestrator's state. The last two are histories: how often the document-apply callback of a CID
   * has returned, and how often it has thrown.
   */
  datatype IngestState = IngestState(
    pending: seq<Held>, contexts: map<Cid, Context>, placed: set<Cid>, blocks: map<Cid, Bytes>,
    lastApplied: Option<Cid>, outcomes: seq<Record>, completed: multiset<Cid>, threw: multiset<Cid>)

  datatype Caps = Caps(maxEntries: nat, maxBytes: nat)

  const EMPTY: IngestState := IngestState([], map[], {}, map[], None, [], multiset{}, multiset{})

  predicate IsPlaceable(data: Bytes, chain: Chain.ChainState, env: Env) {
    match env.decode(data)
    case Undecodable => false
    case Decoded(prev) => prev.None? || prev.value in chain.entries.table
  }

  predicate IsApplied(cid: Cid, chain: Chain.ChainState) {
    cid in chain.entries.table && chain.entries.table[cid].status == Chain.Applied
  }

  /** Gates 1 to 4: Placed means that the block may be placed. */
  function Gates(placed: set<Cid>, cid: Cid, data: Bytes, chain: Chain.ChainState, env: Env): Outcome {
    if env.hash(data) != cid then Rejected(CidMismatch)
    else if !env.valid(data) then Rejected(InvalidSignature)
    else if cid in placed || IsApplied(cid, chain) then Rejected(Duplicate)
    else if !IsPlaceable(data, chain, env) then Deferred
    else Placed
  }

  // ---- One attempt ----

  /** The try block completes: applyRemote returns, having applied or skipped the block, and so does the clock. */
  predicate EagerOk(s: IngestState, cid: Cid, mode: ApplyMode) {
    if s.lastApplied == Some(cid) then mode != ClockThrows else mode == Applies
  }

  /** What the try block leaves behind, whether or not it completes. */
  function EagerState(s: IngestState, cid: Cid, mode: ApplyMode): IngestState {
    if s.lastApplied == Some(cid) then s else
    match mode
    case DecryptFails => s
    case CallbackThrows => s.(threw := s.threw + multiset{cid})
    case _ => s.(lastApplied := Some(cid), completed := s.completed + multiset{cid})
  }

  function AttemptOutcome(
    s: IngestState, cid: Cid, data: Bytes, eager: bool, chain: Chain.ChainState, env: Env, mode: ApplyMode): Outcome
  {
    var g := Gates(s.placed, cid, data, chain, env);
    if g == Placed && eager && !EagerOk(s, cid, mode) then Rejected(InvalidSignature) else g
  }

  function AttemptState(
    s: IngestState, cid: Cid, data: Bytes, eager: bool, chain: Chain.ChainState, env: Env, mode: ApplyMode): IngestState
  {
    match Gates(s.placed, cid, data, chain, env)
    case Rejected(_) => s
    case Deferred => s.(blocks := s.blocks[cid := data])
    case Placed =>
      var s' := s.(blocks := s.blocks[cid := data]);
      var t := if eager then EagerState(s', cid, mode) else s';
      if !eager || EagerOk(s, cid, mode) then t.(placed := t.placed + {cid}) else t
  }

  // ---- ingestSnapshot ----

  function ContextOf(s: IngestState, cid: Cid): Context {
    if cid in s.contexts then s.contexts[cid] else Context(false, None)
  }

  /** The onEvict callback: drop the context, then report the overflow. */
  function EvictOne(s: IngestState, h: Held): IngestState {
    s.(contexts := s.contexts - {h.cid},
       outcomes := s.outcomes + [Record(h.cid, Rejected(PendingOverflow), ContextOf(s, h.cid), false)])
  }

  function EvictAll(s: IngestState, evicted: seq<Held>): IngestState {
    if evicted == [] then s else EvictOne(EvictAll(s, evicted[..|evicted| - 1]), evicted[|evicted| - 1])
  }

  ghost function Quarantine(s: IngestState, cid: Cid, data: Bytes, context: Context, caps: Caps): IngestState {
    var s' := s.(contexts := s.contexts[cid := context]);
    if Has(s.pending, cid) then s' else
    var all := s.pending + [Held(cid, data)];
    var kept := Trimmed(all, caps.maxEntries, caps.maxBytes);
    TrimmedIsLongest(all, caps.maxEntries, caps.maxBytes);
    EvictAll(s'.(pending := kept), all[..|all| - |kept|])
  }

  ghost function Release(s: IngestState, cid: Cid): IngestState {
    s.(pending := Without(s.pending, cid), contexts := s.contexts - {cid})
  }

  ghost function IngestStep(
    s: IngestState, cid: Cid, data: Bytes, context: Context, chain: Chain.ChainState, env: Env, mode: ApplyMode,
    caps: Caps): IngestState
  {
    var outcome := AttemptOutcome(s, cid, data, true, chain, env, mode);
    var s1 := AttemptState(s, cid, data, true, chain, env, mode);
    var s2 := match outcome
      case Placed => if Has(s1.pending, cid) then Release(s1, cid) else s1
      case Deferred => Quarantine(s1, cid, data, context, caps)
      case Rejected(_) => s1;
    s2.(outcomes := s2.outcomes + [Record(cid, outcome, context, false)])
  }

  // ---- rescanPending ----

  ghost function RescanItem(s: IngestState, h: Held, chain: Chain.ChainState, env: Env): IngestState {
    if h.cid !in s.contexts then s else
    var outcome := AttemptOutcome(s, h.cid, h.data, false, chain, env, Applies);
    var s1 := AttemptState(s, h.cid, h.data, false, chain, env, Applies);
    var s2 := if outcome == Deferred then s1 else Release(s1, h.cid);
    s2.(outcomes := s2.outcomes + [Record(h.cid, outcome, s.contexts[h.cid], true)])
  }

  /** The chain state is read anew for each item: chains(i) is what the i-th attempt reads. */
  type Chains = nat -> Chain.ChainState

  ghost function RescanFirst(s: IngestState, items: seq<Held>, n: nat, chains: Chains, env: Env): IngestState
    requires n <= |items|
  {
    if n == 0 then s else RescanItem(RescanFirst(s, items, n - 1, chains, env), items[n - 1], chains(n - 1), env)
  }

  lemma RescanNone(s: IngestState, items: seq<Held>, chains: Chains, env: Env)
    ensures RescanFirst(s, items, 0, chains, env) == s
  {
  }

  lemma RescanNext(s: IngestState, items: seq<Held>, n: nat, chains: Chains, env: Env)
    requires n < |items|
    ensures RescanFirst(s, items, n + 1, chains, env)
         == RescanItem(RescanFirst(s, items, n, chains, env), items[n], chains(n), env)
  {
  }

  ghost function RescanStep(s: IngestState, chains: Chains, env: Env): IngestState {
    RescanFirst(s, s.pending, |s.pending|, chains, env)
  }

  // ---- Runs ----

  datatype Op =
    | IngestOp(cid: Cid, data: Bytes, context: Context, chain: Chain.ChainState, mode: ApplyMode)
    | RescanOp(chains: Chains)
    | PublishedOp(cid: Cid)  // a local push sets the codec's last applied CID

  ghost function Step(s: IngestState, op: Op, env: Env, caps: Caps): IngestState {
    match op
    case IngestOp(cid, data, context, chain, mode) => IngestStep(s, cid, data, context, chain, env, mode, caps)
    case RescanOp(chains) => RescanStep(s, chains, env)
    case PublishedOp(cid) => s.(lastApplied := Some(cid))
  }

  ghost function Run(ops: seq<Op>, env: Env, caps: Caps): IngestState {
    if ops == [] then EMPTY else Step(Run(ops[..|ops| - 1], env, caps), ops[|ops| - 1], env, caps)
  }

  /** The two tables hold the same CIDs, and held blocks have passed the first two gates. */
  ghost predicate TablesOk(s: IngestState, env: Env) {
    && Distinct(s.pending)
    && (forall c :: c in s.contexts <==> Has(s.pending, c))
    && (forall h | h in s.pending :: env.hash(h.data) == h.cid && env.valid(h.data))
  }

  /** If the callback of c has returned, it has returned once and c is placed. */
  ghost predicate AppliedOnce(s: IngestState, c: Cid) {
    s.completed[c] <= 1 && (s.completed[c] == 1 ==> c in s.placed)
  }

  // ---- Proofs about the tables ----

  lemma AttemptKeepsTables(
    s: IngestState, cid: Cid, data: Bytes, eager: bool, chain: Chain.ChainState, env: Env, mode: ApplyMode)
    ensures var s' := AttemptState(s, cid, data, eager, chain, env, mode);
      s'.pending == s.pending && s'.contexts == s.contexts && s'.outcomes == s.outcomes
  {
  }

  lemma ReleaseKeepsTables(s: IngestState, cid: Cid, env: Env)
    requires TablesOk(s, env)
    ensures TablesOk(Release(s, cid), env)
  {
    hide Without;
    WithoutProps(s.pending, cid);
    var kept := Without(s.pending, cid);
    forall c ensures c in s.contexts - {cid} <==> Has(kept, c) {
      HasIsMember(s.pending, c);
      HasIsMember(kept, c);
    }
  }

  lemma HasIsMember(xs: seq<Held>, c: Cid)
    ensures Has(xs, c) <==> exists h :: h in xs && h.cid == c
  {
    if Has(xs, c) {
      var i :| 0 <= i < |xs| && xs[i].cid == c;
      assert xs[i] in xs;
    }
  }

  lemma {:induction false} EvictAllDrops(s: IngestState, evicted: seq<Held>)
    ensures EvictAll(s, evicted).pending == s.pending && EvictAll(s, evicted).placed == s.placed
    ensures EvictAll(s, evicted).completed == s.completed && EvictAll(s, evicted).threw == s.threw
    ensures forall c :: c in EvictAll(s, evicted).contexts <==> c in s.contexts && !Has(evicted, c)
  {
    if evicted != [] {
      var n := |evicted| - 1;
      EvictAllDrops(s, evicted[..n]);
      forall c ensures Has(evicted, c) <==> Has(evicted[..n], c) || evicted[n].cid == c {
        assert forall i | 0 <= i < n :: evicted[i] == evicted[..n][i];
      }
    }
  }

  /** One overflow record per eviction, in order, under the context its block arrived with. */
  function Overflows(evicted: seq<Held>, contexts: map<Cid, Context>): seq<Record>
    requires forall h | h in evicted :: h.cid in contexts
  {
    seq(|evicted|, i requires 0 <= i < |evicted| =>
      Record(evicted[i].cid, Rejected(PendingOverflow), contexts[evicted[i].cid], false))
  }

  lemma OverflowsSnoc(evicted: seq<Held>, h: Held, contexts: map<Cid, Context>)
    requires forall x | x in evicted + [h] :: x.cid in contexts
    ensures forall x | x in evicted :: x.cid in contexts
    ensures Overflows(evicted + [h], contexts)
         == Overflows(evicted, contexts) + [Record(h.cid, Rejected(PendingOverflow), contexts[h.cid], false)]
  {
    assert forall x | x in evicted :: x in evicted + [h];
    assert h in evicted + [h];
  }

  /** Each eviction is reported once, in order, under the context its block arrived with. */
  lemma {:induction false} EvictionsReported(s: IngestState, evicted: seq<Held>)
    requires Distinct(evicted) && forall h | h in evicted :: h.cid in s.contexts
    ensures EvictAll(s, evicted).outcomes == s.outcomes + Overflows(evicted, s.contexts)
    ensures forall c :: c in EvictAll(s, evicted).contexts ==>
      c in s.contexts && EvictAll(s, evicted).contexts[c] == s.contexts[c]
  {
    if evicted != [] {
      var n := |evicted| - 1;
      var front, last := evicted[..n], evicted[n];
      assert evicted == front + [last] && last in evicted;
      OverflowsSnoc(front, last, s.contexts);
      EvictionsReported(s, front);
      EvictAllDrops(s, front);
      assert !Has(front, last.cid);
      hide Overflows, EvictOne, Has, Distinct;
      EvictedRecord(EvictAll(s, front), last);
      assert EvictAll(s, evicted) == EvictOne(EvictAll(s, front), last);
    }
  }

  lemma EvictedRecord(s: IngestState, h: Held)
    requires h.cid in s.contexts
    ensures EvictOne(s, h).outcomes
         == s.outcomes + [Record(h.cid, Rejected(PendingOverflow), s.contexts[h.cid], false)]
    ensures EvictOne(s, h).contexts == s.contexts - {h.cid}
  {
  }

  lemma QuarantineKeepsTables(s: IngestState, cid: Cid, data: Bytes, context: Context, env: Env, caps: Caps)
    requires TablesOk(s, env) && env.hash(data) == cid && env.valid(data)
    ensures TablesOk(Quarantine(s, cid, data, context, caps), env)
    ensures Quarantine(s, cid, data, context, caps).placed == s.placed
    ensures Quarantine(s, cid, data, context, caps).completed == s.completed
    ensures Quarantine(s, cid, data, context, caps).threw == s.threw
  {
    hide EvictAll, Trimmed, Has, Distinct;
    if !Has(s.pending, cid) {
      var h := Held(cid, data);
      var all := s.pending + [h];
      TrimmedIsLongest(all, caps.maxEntries, caps.maxBytes);
      var kept := Trimmed(all, caps.maxEntries, caps.maxBytes);
      var evicted := all[..|all| - |kept|];
      EvictAllDrops(s.(contexts := s.contexts[cid := context], pending := kept), evicted);
      assert all == evicted + kept;
      EvictionSplit(s.pending, h, evicted, kept);
    }
  }

  lemma EvictionSplit(pending: seq<Held>, h: Held, evicted: seq<Held>, kept: seq<Held>)
    requires Distinct(pending) && !Has(pending, h.cid) && pending + [h] == evicted + kept
    ensures Distinct(kept)
    ensures forall c :: Has(kept, c) <==> (Has(pending, c) || c == h.cid) && !Has(evicted, c)
    ensures forall x | x in kept :: x in pending || x == h
  {
    SplitHas(pending, [h]);
    SplitHas(evicted, kept);
    assert [h][0].cid == h.cid;
    DistinctSnoc(pending, h);
    forall x | x in kept ensures x in pending || x == h {
      assert x in evicted + kept;
    }
  }

  lemma SplitHas(xs: seq<Held>, ys: seq<Held>)
    ensures forall c :: Has(xs + ys, c) <==> Has(xs, c) || Has(ys, c)
    ensures Distinct(xs + ys) ==> Distinct(xs) && Distinct(ys) && forall c :: !(Has(xs, c) && Has(ys, c))
  {
    var zs := xs + ys;
    assert forall i | 0 <= i < |xs| :: zs[i] == xs[i];
    assert forall i | 0 <= i < |ys| :: zs[|xs| + i] == ys[i];
  }

  lemma IngestKeepsTables(
    s: IngestState, cid: Cid, data: Bytes, context: Context, chain: Chain.ChainState, env: Env, mode: ApplyMode,
    caps: Caps)
    requires TablesOk(s, env)
    ensures TablesOk(IngestStep(s, cid, data, context, chain, env, mode, caps), env)
  {
    hide Quarantine, Release, AttemptState, TablesOk, Has;
    AttemptKeepsTables(s, cid, data, true, chain, env, mode);
    var s1 := AttemptState(s, cid, data, true, chain, env, mode);
    TablesFrame(s, s1, env);
    var outcome := AttemptOutcome(s, cid, data, true, chain, env, mode);
    ReleaseKeepsTables(s1, cid, env);
    var s2 := match outcome
      case Placed => if Has(s1.pending, cid) then Release(s1, cid) else s1
      case Deferred => Quarantine(s1, cid, data, context, caps)
      case Rejected(_) => s1;
    if outcome == Deferred {
      QuarantineKeepsTables(s1, cid, data, context, env, caps);
    }
    TablesFrame(s2, IngestStep(s, cid, data, context, chain, env, mode, caps), env);
  }

  lemma TablesFrame(s: IngestState, s': IngestState, env: Env)
    requires TablesOk(s, env) && s.pending == s'.pending && s.contexts == s'.contexts
    ensures TablesOk(s', env)
  {
  }

  lemma RescanItemKeepsTables(s: IngestState, h: Held, chain: Chain.ChainState, env: Env)
    requires TablesOk(s, env)
    ensures TablesOk(RescanItem(s, h, chain, env), env)
  {
    hide Release, AttemptState, AttemptOutcome, TablesOk;
    if h.cid in s.contexts {
      AttemptKeepsTables(s, h.cid, h.data, false, chain, env, Applies);
      var s1 := AttemptState(s, h.cid, h.data, false, chain, env, Applies);
      TablesFrame(s, s1, env);
      ReleaseKeepsTables(s1, h.cid, env);
      var s2 := if AttemptOutcome(s, h.cid, h.data, false, chain, env, Applies) == Deferred then s1 else Release(s1, h.cid);
      TablesFrame(s2, RescanItem(s, h, chain, env), env);
    }
  }

  // ---- What a rescan leaves ----

  /** The block decodes, and has no parent or one among the entries of the chain. */
  predicate ParentKnown(data: Bytes, chain: Chain.ChainState, env: Env) {
    var decoded := env.decode(data);
    decoded.Decoded? && (decoded.prev.Some? ==> decoded.prev.value in chain.entries.table)
  }

  /** A held block stays in quarantine exactly when it is neither placed nor applied and its parent is unknown. */
  predicate Stays(s: IngestState, h: Held, chain: Chain.ChainState, env: Env) {
    && h.cid !in s.placed
    && !(h.cid in chain.entries.table && chain.entries.table[h.cid].status == Chain.Applied)
    && !ParentKnown(h.data, chain, env)
  }

  ghost function Staying(s: IngestState, xs: seq<Held>, chains: Chains, env: Env): seq<Held> {
    if xs == [] then []
    else Staying(s, xs[..|xs| - 1], chains, env) + (if Stays(s, xs[|xs| - 1], chains(|xs| - 1), env) then [xs[|xs| - 1]] else [])
  }

  lemma {:induction false} RescanProgress(s: IngestState, n: nat, chains: Chains, env: Env)
    requires TablesOk(s, env) && n <= |s.pending|
    ensures var r := RescanFirst(s, s.pending, n, chains, env);
      && TablesOk(r, env)
      && r.pending == Staying(s, s.pending[..n], chains, env) + s.pending[n..]
      && (forall j | n <= j < |s.pending| :: s.pending[j].cid in r.placed <==> s.pending[j].cid in s.placed)
      && s.placed <= r.placed && r.completed == s.completed && r.threw == s.threw
    decreases n
  {
    hide TablesOk, Staying, RescanItem;
    if n == 0 {
      StayingNothing(s, s.pending[..0], chains, env);
    } else {
      RescanProgress(s, n - 1, chains, env);
      var r := RescanFirst(s, s.pending, n - 1, chains, env);
      RescanItemKeepsTables(r, s.pending[n - 1], chains(n - 1), env);
      RescanOne(s, r, n - 1, chains, env);
    }
  }

  lemma StayingNothing(s: IngestState, xs: seq<Held>, chains: Chains, env: Env)
    requires xs == []
    ensures Staying(s, xs, chains, env) == []
  {
  }

  lemma StayingNext(s: IngestState, xs: seq<Held>, n: nat, chains: Chains, env: Env)
    requires n < |xs|
    ensures Staying(s, xs[..n + 1], chains, env)
         == Staying(s, xs[..n], chains, env) + (if Stays(s, xs[n], chains(n), env) then [xs[n]] else [])
  {
    assert xs[..n + 1][..n] == xs[..n];
  }

  lemma RescanOne(s: IngestState, r: IngestState, n: nat, chains: Chains, env: Env)
    requires TablesOk(s, env) && TablesOk(r, env) && n < |s.pending|
    requires r.pending == Staying(s, s.pending[..n], chains, env) + s.pending[n..]
    requires forall j | n <= j < |s.pending| :: s.pending[j].cid in r.placed <==> s.pending[j].cid in s.placed
    ensures var r' := RescanItem(r, s.pending[n], chains(n), env);
      && r'.pending == Staying(s, s.pending[..n + 1], chains, env) + s.pending[n + 1..]
      && (forall j | n < j < |s.pending| :: s.pending[j].cid in r'.placed <==> s.pending[j].cid in s.placed)
      && r.placed <= r'.placed && r'.completed == r.completed && r'.threw == r.threw
  {
    hide Staying, Has, Without, Distinct;
    var h := s.pending[n];
    var kept := Staying(s, s.pending[..n], chains, env);
    CutAt(r.pending, kept, s.pending, n);
    assert h in s.pending;
    StayingNext(s, s.pending, n, chains, env);
    if !Stays(s, h, chains(n), env) {
      assert kept + [] == kept;
    }
    LaterCids(s.pending, n);
  }

  /** Removing the first unprocessed entry, or moving it to the processed part. */
  lemma CutAt(whole: seq<Held>, kept: seq<Held>, xs: seq<Held>, n: nat)
    requires n < |xs| && whole == kept + xs[n..] && Distinct(whole)
    ensures Has(whole, xs[n].cid)
    ensures Without(whole, xs[n].cid) == kept + xs[n + 1..]
    ensures kept + [xs[n]] + xs[n + 1..] == whole
  {
    hide Without;
    var at := |kept|;
    assert whole[at] == xs[n];
    WithoutAt(whole, at);
    assert whole[..at] == kept && whole[at + 1..] == xs[n + 1..];
  }

  lemma LaterCids(xs: seq<Held>, n: nat)
    requires Distinct(xs) && n < |xs|
    ensures forall j | n < j < |xs| :: xs[j].cid != xs[n].cid
  {
  }

  /**
   * rescanPending leaves exactly the entries that were held and, in the chain state of their own attempt,
   * still cannot be placed, in their order.
   */
  lemma RescanLeavesUnplaceable(s: IngestState, chains: Chains, env: Env)
    requires TablesOk(s, env)
    ensures RescanStep(s, chains, env).pending == Staying(s, s.pending, chains, env)
    ensures TablesOk(RescanStep(s, chains, env), env)
    ensures RescanStep(s, chains, env).completed == s.completed && RescanStep(s, chains, env).threw == s.threw
    ensures s.placed <= RescanStep(s, chains, env).placed
  {
    hide TablesOk, Staying, RescanFirst;
    RescanProgress(s, |s.pending|, chains, env);
    assert s.pending[..|s.pending|] == s.pending && s.pending[|s.pending|..] == [];
  }

  // ---- Applying at most once ----

  lemma IngestHistory(
    s: IngestState, cid: Cid, data: Bytes, context: Context, chain: Chain.ChainState, env: Env, mode: ApplyMode,
    caps: Caps)
    requires TablesOk(s, env)
    ensures var s' := IngestStep(s, cid, data, context, chain, env, mode, caps);
      var a := AttemptState(s, cid, data, true, chain, env, mode);
      s'.placed == a.placed && s'.completed == a.completed && s'.threw == a.threw
  {
    hide Quarantine, AttemptState, TablesOk, Has;
    AttemptKeepsTables(s, cid, data, true, chain, env, mode);
    var s1 := AttemptState(s, cid, data, true, chain, env, mode);
    TablesFrame(s, s1, env);
    if AttemptOutcome(s, cid, data, true, chain, env, mode) == Deferred {
      QuarantineKeepsTables(s1, cid, data, context, env, caps);
    }
  }

  /** What one step may do to the two histories. */
  lemma StepKeeps(s: IngestState, op: Op, env: Env, caps: Caps)
    requires TablesOk(s, env)
    ensures TablesOk(Step(s, op, env, caps), env)
    ensures s.placed <= Step(s, op, env, caps).placed
    ensures forall c | !(op.IngestOp? && op.cid == c && c !in s.placed) ::
      Step(s, op, env, caps).completed[c] == s.completed[c] && Step(s, op, env, caps).threw[c] == s.threw[c]
    ensures forall c | op.IngestOp? && op.cid == c ::
      && s.threw[c] <= Step(s, op, env, caps).threw[c] <= s.threw[c] + (if op.mode == CallbackThrows then 1 else 0)
      && s.completed[c] <= Step(s, op, env, caps).completed[c] <= s.completed[c] + 1
      && (Step(s, op, env, caps).completed[c] > s.completed[c] ==>
            op.mode == ClockThrows || (op.mode == Applies && c in Step(s, op, env, caps).placed))
  {
    hide IngestStep, RescanStep, TablesOk;
    match op
    case IngestOp(cid, data, context, chain, mode) =>
      IngestKeepsTables(s, cid, data, context, chain, env, mode, caps);
      IngestHistory(s, cid, data, context, chain, env, mode, caps);
    case RescanOp(chains) => RescanLeavesUnplaceable(s, chains, env);
    case PublishedOp(cid) => TablesFrame(s, Step(s, op, env, caps), env);
  }

  /** Over any run sideband and contexts hold the same CIDs. */
  lemma {:induction false} RunKeeps(ops: seq<Op>, env: Env, caps: Caps)
    ensures TablesOk(Run(ops, env, caps), env)
  {
    hide TablesOk, Step;
    if ops == [] {
      EmptyOk(env);
    } else {
      RunKeeps(ops[..|ops| - 1], env, caps);
      StepKeeps(Run(ops[..|ops| - 1], env, caps), ops[|ops| - 1], env, caps);
    }
  }

  lemma EmptyOk(env: Env)
    ensures TablesOk(EMPTY, env)
  {
  }

  /** How often the document-apply callback of a CID has fired. */
  ghost function Fired(s: IngestState, c: Cid): nat {
    s.completed[c] + s.threw[c]
  }

  /** Every offer of c in the run ends, if it comes to applying the block, in one of these ways. */
  ghost predicate ModesOf(ops: seq<Op>, c: Cid, modes: set<ApplyMode>) {
    forall i | 0 <= i < |ops| && ops[i].IngestOp? && ops[i].cid == c :: ops[i].mode in modes
  }

  /** A callback returns at most once, and leaves its CID placed, over any run in which the clock does not throw. */
  lemma {:induction false} ReturnsAtMostOnce(ops: seq<Op>, env: Env, caps: Caps, c: Cid, modes: set<ApplyMode>)
    requires ModesOf(ops, c, modes) && ClockThrows !in modes
    ensures AppliedOnce(Run(ops, env, caps), c)
    ensures CallbackThrows !in modes ==> Run(ops, env, caps).threw[c] == 0
  {
    hide TablesOk, Step;
    if ops != [] {
      var n := |ops| - 1;
      ReturnsAtMostOnce(ops[..n], env, caps, c, modes);
      RunKeeps(ops[..n], env, caps);
      StepKeeps(Run(ops[..n], env, caps), ops[n], env, caps);
    }
  }

  /** A callback that throws is not remembered: the same block, offered again, fires it again. */
  lemma ThrowingCallbackFiresAgain(
    s: IngestState, cid: Cid, data: Bytes, context: Context, chain: Chain.ChainState, env: Env, caps: Caps,
    again: ApplyMode)
    requires TablesOk(s, env) && Gates(s.placed, cid, data, chain, env) == Placed && s.lastApplied != Some(cid)
    requires again != DecryptFails
    ensures var s1 := IngestStep(s, cid, data, context, chain, env, CallbackThrows, caps);
      var s2 := IngestStep(s1, cid, data, context, chain, env, again, caps);
      Fired(s1, cid) == Fired(s, cid) + 1 && Fired(s2, cid) == Fired(s, cid) + 2
  {
    hide TablesOk, Quarantine, Release, Has;
    IngestHistory(s, cid, data, context, chain, env, CallbackThrows, caps);
    var s1 := IngestStep(s, cid, data, context, chain, env, CallbackThrows, caps);
    IngestKeepsTables(s, cid, data, context, chain, env, CallbackThrows, caps);
    IngestHistory(s1, cid, data, context, chain, env, again, caps);
  }

  /** A clock that throws is not remembered either, once another block has been applied. */
  lemma ThrowingClockFiresAgain(
    s: IngestState, cid: Cid, data: Bytes, context: Context, chain: Chain.ChainState, env: Env, caps: Caps,
    other: Cid, again: ApplyMode)
    requires TablesOk(s, env) && Gates(s.placed, cid, data, chain, env) == Placed && s.lastApplied != Some(cid)
    requires other != cid && again in {Applies, ClockThrows}
    ensures var s1 := IngestStep(s, cid, data, context, chain, env, ClockThrows, caps);
      var s2 := Step(s1, PublishedOp(other), env, caps);
      var s3 := IngestStep(s2, cid, data, context, chain, env, again, caps);
      s3.completed[cid] == s.completed[cid] + 2 && s3.threw == s.threw
  {
    hide TablesOk, Quarantine, Release, Has;
    IngestHistory(s, cid, data, context, chain, env, ClockThrows, caps);
    var s1 := IngestStep(s, cid, data, context, chain, env, ClockThrows, caps);
    IngestKeepsTables(s, cid, data, context, chain, env, ClockThrows, caps);
    var s2 := Step(s1, PublishedOp(other), env, caps);
    TablesFrame(s1, s2, env);
    IngestHistory(s2, cid, data, context, chain, env, again, caps);
  }

  /** The bytes are a valid, readable block of c: only such a block can ever pass the gates. */
  predicate Admissible(env: Env, c: Cid, data: Bytes) {
    env.hash(data) == c && env.valid(data) && env.decode(data).Decoded?
  }

  /** A chain that knows the parent of an admissible block and has not applied the block itself. */
  function BridgingChain(env: Env, data: Bytes): Chain.ChainState {
    match env.decode(data)
    case Decoded(Some(parent)) => Chain.Run([Chain.CidDiscovered(parent, Chain.Gossipsub, None, None, None)])
    case _ => Chain.INITIAL_CHAIN
  }

  lemma BridgingChainPlaces(env: Env, c: Cid, data: Bytes)
    requires Admissible(env, c, data)
    ensures Gates({}, c, data, BridgingChain(env, data), env) == Placed
  {
    hide Chain.NewestOf, Chain.Coherent;
    var decoded := env.decode(data);
    if decoded.prev.Some? {
      var fact := Chain.CidDiscovered(decoded.prev.value, Chain.Gossipsub, None, None, None);
      assert [fact][..0] == [];
      assert Chain.Run([fact]) == Chain.ReduceChain(Chain.INITIAL_CHAIN, fact);
    }
  }

  function Offer(env: Env, c: Cid, data: Bytes, mode: ApplyMode): Op {
    IngestOp(c, data, Context(true, None), BridgingChain(env, data), mode)
  }

  /** Two offers of one block, both with a throwing callback. */
  function ThrowingRun(env: Env, c: Cid, data: Bytes): seq<Op> {
    [Offer(env, c, data, CallbackThrows), Offer(env, c, data, CallbackThrows)]
  }

  /** Two offers of one block, both with a throwing clock, and a local push in between. */
  function ClockRun(env: Env, c: Cid, data: Bytes): seq<Op> {
    [Offer(env, c, data, ClockThrows), PublishedOp(c + "'"), Offer(env, c, data, ClockThrows)]
  }

  lemma RunStep(ops: seq<Op>, n: nat, env: Env, caps: Caps)
    requires n < |ops|
    ensures Run(ops[..n + 1], env, caps) == Step(Run(ops[..n], env, caps), ops[n], env, caps)
  {
    assert ops[..n + 1][..n] == ops[..n];
  }

  lemma ThrowingRunFiresTwice(env: Env, caps: Caps, c: Cid, data: Bytes)
    requires Admissible(env, c, data)
    ensures Fired(Run(ThrowingRun(env, c, data), env, caps), c) == 2
  {
    hide IngestStep, TablesOk, BridgingChain, Gates;
    var ops := ThrowingRun(env, c, data);
    assert ops[..0] == [] && ops[..2] == ops;
    RunStep(ops, 0, env, caps);
    RunStep(ops, 1, env, caps);
    EmptyOk(env);
    BridgingChainPlaces(env, c, data);
    ThrowingCallbackFiresAgain(
      EMPTY, c, data, Context(true, None), BridgingChain(env, data), env, caps, CallbackThrows);
  }

  /** The callback returns twice although it never throws. */
  lemma ClockRunReturnsTwice(env: Env, caps: Caps, c: Cid, data: Bytes)
    requires Admissible(env, c, data)
    ensures Run(ClockRun(env, c, data), env, caps).completed[c] == 2
    ensures Run(ClockRun(env, c, data), env, caps).threw[c] == 0
  {
    hide IngestStep, TablesOk, BridgingChain, Gates;
    var ops := ClockRun(env, c, data);
    assert ops[..0] == [] && ops[..3] == ops;
    assert |c + "'"| == |c| + 1;
    RunStep(ops, 0, env, caps);
    RunStep(ops, 1, env, caps);
    RunStep(ops, 2, env, caps);
    EmptyOk(env);
    BridgingChainPlaces(env, c, data);
    ThrowingClockFiresAgain(
      EMPTY, c, data, Context(true, None), BridgingChain(env, data), env, caps, c + "'", ClockThrows);
  }

  /** A CID that has no admissible block never fires. */
  lemma {:induction false} InadmissibleNeverFires(ops: seq<Op>, env: Env, caps: Caps, c: Cid)
    requires forall data :: !Admissible(env, c, data)
    ensures Fired(Run(ops, env, caps), c) == 0
  {
    hide IngestStep, RescanStep, TablesOk;
    if ops != [] {
      var n := |ops| - 1;
      var s := Run(ops[..n], env, caps);
      InadmissibleNeverFires(ops[..n], env, caps, c);
      RunKeeps(ops[..n], env, caps);
      match ops[n]
      case IngestOp(cid, data, context, chain, mode) =>
        IngestHistory(s, cid, data, context, chain, env, mode, caps);
        assert !Admissible(env, c, data);
      case RescanOp(chains) => RescanLeavesUnplaceable(s, chains, env);
      case PublishedOp(_) =>
    }
  }

  /**
   * The exact condition, over all runs of calls that run to completion and whose offers of c may go in the
   * given ways: the callback of c fires at most once in every one of them exactly when neither it nor the
   * clock ever throws, or c has no block that could be placed.
   */
  lemma AtMostOnceIffNoThrow(env: Env, caps: Caps, c: Cid, modes: set<ApplyMode>)
    ensures (forall ops | ModesOf(ops, c, modes) :: Fired(Run(ops, env, caps), c) <= 1)
        <==> modes * {CallbackThrows, ClockThrows} == {} || forall data :: !Admissible(env, c, data)
  {
    hide Run, Admissible;
    if forall data :: !Admissible(env, c, data) {
      forall ops ensures Fired(Run(ops, env, caps), c) <= 1 {
        InadmissibleNeverFires(ops, env, caps, c);
      }
    } else {
      var data :| Admissible(env, c, data);
      if CallbackThrows in modes {
        assert CallbackThrows in modes * {CallbackThrows, ClockThrows};
        ThrowingRunFiresTwice(env, caps, c, data);
        assert ModesOf(ThrowingRun(env, c, data), c, modes);
      } else if ClockThrows in modes {
        assert ClockThrows in modes * {CallbackThrows, ClockThrows};
        ClockRunReturnsTwice(env, caps, c, data);
        assert ModesOf(ClockRun(env, c, data), c, modes);
      } else {
        forall ops | ModesOf(ops, c, modes) ensures Fired(Run(ops, env, caps), c) <= 1 {
          ReturnsAtMostOnce(ops, env, caps, c, modes);
        }
      }
    }
  }

  /** The same for returning: a callback returns at most once exactly when the clock never throws after it. */
  lemma ReturnsOnceIffClockHolds(env: Env, caps: Caps, c: Cid, modes: set<ApplyMode>)
    ensures (forall ops | ModesOf(ops, c, modes) :: Run(ops, env, caps).completed[c] <= 1)
        <==> ClockThrows !in modes || forall data :: !Admissible(env, c, data)
  {
    hide Run, Admissible;
    if ClockThrows !in modes {
      forall ops | ModesOf(ops, c, modes) ensures Run(ops, env, caps).completed[c] <= 1 {
        ReturnsAtMostOnce(ops, env, caps, c, modes);
      }
    } else if data :| Admissible(env, c, data) {
      ClockRunReturnsTwice(env, caps, c, data);
      assert ModesOf(ClockRun(env, c, data), c, modes);
    } else {
      forall ops ensures Run(ops, env, caps).completed[c] <= 1 {
        InadmissibleNeverFires(ops, env, caps, c);
      }
    }
  }

  /**
   * A block that a rescan places is never applied by this orchestrator: from then on every attempt finds
   * it placed. (The comment at the eager-apply branch expects a later attempt to apply it.)
   */
  lemma {:induction false} PlacedIsFinal(before: seq<Op>, later: seq<Op>, env: Env, caps: Caps, c: Cid)
    requires c in Run(before, env, caps).placed
    ensures c in Run(before + later, env, caps).placed
    ensures Fired(Run(before + later, env, caps), c) == Fired(Run(before, env, caps), c)
    decreases |later|
  {
    hide TablesOk, Step;
    if later == [] {
      assert before + later == before;
    } else {
      var n := |later| - 1;
      PlacedIsFinal(before, later[..n], env, caps, c);
      assert (before + later)[..|before + later| - 1] == before + later[..n];
      RunKeeps(before + later[..n], env, caps);
      StepKeeps(Run(before + later[..n], env, caps), later[n], env, caps);
    }
  }
}
