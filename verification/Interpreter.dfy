/**
 * The effect interpreter's fetch and retry protocol: packages/core/src/interpreter.ts.
 *
 * The interpreter consumes facts one at a time, reduces each into the chain state, and turns the change
 * into effects: fetches, retry timers, and further facts pushed onto a FIFO feedback queue. Between two
 * facts the environment may answer an outstanding fetch, let a timer fire, or supply facts of its own
 * (discoveries, blocks, tips, acknowledgements). Applying the newest block is awaited in the middle of a
 * fact; meanwhile no other fact is consumed. A run is any interleaving of these steps.
 */
module Interpreter {
  import opened Options
  import opened Chain

  const MAX_INTERPRETER_RETRIES := 3

  /** An unanswered fetchBlock promise, with the attempt count captured when it was dispatched. */
  datatype Pending = Pending(cid: Cid, attempt: int)

  /** An awaited applySnapshot of a block, in the middle of consuming a fact. */
  datatype Await = Await(tip: Cid, fact: Fact)

  /**
   * The interpreter's state, and three histories that only the theorems read: how often each CID was
   * dispatched, how often its failed entry was rediscovered, and which unknown entries the fetch policy
   * turned down.
   */
  datatype IState = IState(
    chain: ChainState, queue: seq<Fact>, inflight: map<nat, Pending>, nextId: nat, timers: set<Cid>,
    awaiting: Option<Await>, prefetchDepth: nat, dispatched: multiset<Cid>, revived: multiset<Cid>, skipped: set<Cid>)

  function Init(prefetchDepth: nat): IState {
    IState(INITIAL_CHAIN, [], map[], 0, {}, None, prefetchDepth, multiset{}, multiset{}, {})
  }

  // ---- Fetch policy ----

  const AUTO_FETCH_SOURCES: set<Source> := {Gossipsub, Ipns, HttpTip, Reannounce, ChainWalk}

  predicate ShouldAutoFetch(e: Entry) {
    e.via * AUTO_FETCH_SOURCES != {}
  }

  predicate Eligible(next: ChainState, e: Entry) {
    ShouldAutoFetch(e) || (FromCache in e.via && e.seqNo == Some(next.maxSeq))
  }

  predicate JustUnknown(prev: ChainState, next: ChainState, k: Cid) {
    && k in next.entries.table && next.entries.table[k].status == Unknown
    && !(k in prev.entries.table && prev.entries.table[k].status == Unknown)
  }

  // ---- Effects of one fact ----

  function DispatchFetch(s: IState, c: Cid, e: Entry, now: int): IState {
    s.(queue := s.queue + [BlockFetchStarted(c, now)],
       inflight := s.inflight[s.nextId := Pending(c, e.fetchAttempt)],
       nextId := s.nextId + 1,
       dispatched := s.dispatched + multiset{c},
       skipped := s.skipped - {c})
  }

  /** The body of the fetch loop for the entry k; local is what getBlock finds without fetching. */
  function Visit(s: IState, prev: ChainState, k: Cid, local: map<Cid, Metadata>, now: int): IState
    requires k in s.chain.entries.table
  {
    var e := s.chain.entries.table[k];
    if !JustUnknown(prev, s.chain, k) then s
    else if !Eligible(s.chain, e) then s.(skipped := s.skipped + {k})
    else if k in local then s.(queue := s.queue + [BlockFetched(k, local[k])], skipped := s.skipped - {k})
    else DispatchFetch(s, k, e, now)
  }

  /** The fetch loop over the first n entries of the new chain. */
  function DispatchTo(s: IState, prev: ChainState, local: map<Cid, Metadata>, now: int, n: nat): (r: IState)
    requires n <= |s.chain.entries.keys|
    ensures r.chain == s.chain
  {
    if n == 0 then s
    else Visit(DispatchTo(s, prev, local, now, n - 1), prev, s.chain.entries.keys[n - 1], local, now)
  }

  function ScheduleRetry(s: IState, f: Fact): IState {
    if f.BlockFetchFailed? && f.cid in s.chain.entries.table
       && s.chain.entries.table[f.cid].fetchAttempt < MAX_INTERPRETER_RETRIES
    then s.(timers := s.timers + {f.cid}) else s
  }

  function CancelRetry(s: IState, f: Fact): IState {
    if f.BlockFetched? || f.TipAdvanced? then s.(timers := s.timers - {f.cid}) else s
  }

  /** A timestamp counts as present unless it is zero. */
  predicate Truthy(ts: Option<int>) {
    ts.Some? && ts.value != 0
  }

  function DecodeInline(s: IState, f: Fact): IState {
    if f.CidDiscovered? && f.block.Some? && (f.block.value.prev.Some? || Truthy(f.block.value.snapshotTs))
    then s.(queue := s.queue + [BlockFetched(f.cid, f.block.value)]) else s
  }

  /** The newest fetched block, if it is local, is not the tip, and its entry has just become fetched. */
  function ToApply(prev: ChainState, next: ChainState, local: map<Cid, Metadata>): Option<Cid> {
    var c := next.newestFetched;
    if c.Some? && next.applying.None? && c != next.tip && c.value in local
       && !(c.value in prev.entries.table && prev.entries.table[c.value].status == Fetched)
    then c else None
  }

  /** The prefetch walk along parent links from a new tip. */
  function Prefetch(s: IState, walk: Cid, remaining: nat, local: map<Cid, Metadata>, now: int): IState
    decreases remaining
  {
    if remaining == 0 || walk !in s.chain.entries.table || s.chain.entries.table[walk].prev.None? then s else
    var p := s.chain.entries.table[walk].prev.value;
    var s' :=
      if p in s.chain.entries.table && s.chain.entries.table[p].status == Unknown && p !in local
      then DispatchFetch(s, p, s.chain.entries.table[p], now) else s;
    Prefetch(s', p, remaining - 1, local, now)
  }

  predicate Revives(prev: ChainState, f: Fact) {
    f.CidDiscovered? && f.cid in prev.entries.table && prev.entries.table[f.cid].status == Failed
  }

  function Reduced(s: IState, f: Fact): IState {
    s.(chain := ReduceChain(s.chain, f),
       revived := if Revives(s.chain, f) then s.revived + multiset{f.cid} else s.revived)
  }

  function Process(s: IState, f: Fact, local: map<Cid, Metadata>, now: int): IState {
    var a := Reduced(s, f);
    var b := DispatchTo(a, s.chain, local, now, |a.chain.entries.keys|);
    var c := DecodeInline(CancelRetry(ScheduleRetry(b, f), f), f);
    var tip := ToApply(s.chain, a.chain, local);
    if tip.Some? then c.(awaiting := Some(Await(tip.value, f))) else PrefetchAfter(c, f, local, now)
  }

  /** The end of the loop body, after the application if there was one. */
  function PrefetchAfter(s: IState, f: Fact, local: map<Cid, Metadata>, now: int): IState {
    if f.TipAdvanced? then Prefetch(s, f.cid, s.prefetchDepth, local, now) else s
  }

  // ---- Steps ----

  /** Facts that only the interpreter itself produces. */
  predicate Internal(f: Fact) {
    f.BlockFetchStarted? || f.BlockFetchFailed? || f.BlockRetryReset?
  }

  datatype Step =
    | Feedback(local: map<Cid, Metadata>, now: int)           // consume the head of the feedback queue
    | External(fact: Fact, local: map<Cid, Metadata>, now: int)  // consume a fact from another source
    | Answer(id: nat, block: Option<Metadata>, error: string)  // a fetch resolves, or fails with an error
    | Fire(cid: Cid)                                           // a retry timer fires
    | Settle(tipSeq: Option<int>, local: map<Cid, Metadata>, now: int)  // the application succeeds, or is refused

  /** One step; a step that is not enabled changes nothing. */
  function Apply(s: IState, step: Step): IState {
    match step
    case Feedback(local, now) =>
      if s.queue == [] || s.awaiting.Some? then s else Process(s.(queue := s.queue[1..]), s.queue[0], local, now)
    case External(f, local, now) =>
      if Internal(f) || s.awaiting.Some? then s else Process(s, f, local, now)
    case Answer(id, block, error) =>
      if id !in s.inflight then s else
      var p := s.inflight[id];
      s.(inflight := s.inflight - {id},
         queue := s.queue + [if block.Some? then BlockFetched(p.cid, block.value)
                             else BlockFetchFailed(p.cid, p.attempt + 1, error)])
    case Fire(c) =>
      if c !in s.timers then s
      else s.(timers := s.timers - {c}, queue := s.queue + [BlockRetryReset(c)])
    case Settle(tipSeq, local, now) =>
      if s.awaiting.None? then s else PrefetchAfter(Settled(s, tipSeq), s.awaiting.value.fact, local, now)
  }

  function Settled(s: IState, tipSeq: Option<int>): IState
    requires s.awaiting.Some?
  {
    s.(awaiting := None,
       queue := if tipSeq.Some? then s.queue + [TipAdvanced(s.awaiting.value.tip, tipSeq.value)] else s.queue)
  }

  function Exec(depth: nat, steps: seq<Step>): IState {
    if steps == [] then Init(depth) else Apply(Exec(depth, steps[..|steps| - 1]), steps[|steps| - 1])
  }

  // ---- What one fact does to one entry ----

  ghost predicate EntryStep(prev: ChainState, next: ChainState, f: Fact, k: Cid)
    requires k in next.entries.table
  {
    var e := next.entries.table[k];
    if k in prev.entries.table then
      var p := prev.entries.table[k];
      e.status == NewStatus(p.status, f, k) && e.fetchAttempt == NewAttempt(p.status, p.fetchAttempt, f, k)
    else
      && e.fetchAttempt == 0
      && ((f.CidDiscovered? && f.cid == k && e.status == if f.block.Some? then Fetched else Unknown)
          || (f.BlockFetched? && f.meta.prev == Some(k) && f.cid != k && e.status == Unknown))
  }

  ghost predicate ChainStep(prev: ChainState, next: ChainState, f: Fact) {
    && (forall k | k in prev.entries.table :: k in next.entries.table)
    && (forall k | k in next.entries.table :: EntryStep(prev, next, f, k))
  }

  lemma ReduceIsChainStep(prev: ChainState, f: Fact)
    ensures ChainStep(prev, ReduceChain(prev, f), f)
  {
    hide Coherent, NewestOf, ReduceDiscovered, ReduceFetched;
    match f
    case CidDiscovered(_, _, _, _, _) => DiscoveryIsChainStep(prev, f);
    case BlockFetched(_, _) => FetchIsChainStep(prev, f);
    case _ =>
  }

  lemma DiscoveryIsChainStep(prev: ChainState, f: Fact)
    requires f.CidDiscovered?
    ensures ChainStep(prev, ReduceDiscovered(prev, f), f)
  {
    hide Coherent, NewestOf;
  }

  lemma FetchIsChainStep(prev: ChainState, f: Fact)
    requires f.BlockFetched?
    ensures ChainStep(prev, ReduceFetched(prev, f), f)
  {
    hide Coherent, NewestOf;
  }

  /** The only entry a fact can turn unknown. */
  function Candidate(f: Fact): Option<Cid> {
    match f
    case CidDiscovered(c, _, _, _, _) => Some(c)
    case BlockRetryReset(c) => Some(c)
    case BlockFetched(_, meta) => meta.prev
    case _ => None
  }

  function VisitCandidate(a: IState, prev: ChainState, f: Fact, local: map<Cid, Metadata>, now: int): IState {
    var k := Candidate(f);
    if k.Some? && k.value in a.chain.entries.table then Visit(a, prev, k.value, local, now) else a
  }

  lemma {:induction false} LoopVisitsCandidate(
    a: IState, prev: ChainState, f: Fact, local: map<Cid, Metadata>, now: int, n: nat)
    requires ChainStep(prev, a.chain, f) && n <= |a.chain.entries.keys|
    ensures DispatchTo(a, prev, local, now, n)
         == if Candidate(f).Some? && Candidate(f).value in a.chain.entries.keys[..n]
            then VisitCandidate(a, prev, f, local, now) else a
  {
    hide ReduceChain, Eligible, Coherent, Visit, EntryStep;
    if n > 0 {
      var keys := a.chain.entries.keys;
      var k := keys[n - 1];
      LoopVisitsCandidate(a, prev, f, local, now, n - 1);
      assert keys[..n] == keys[..n - 1] + [k];
      KeyAt(a.chain.entries, n - 1);
      KeyIsNew(a.chain.entries, n - 1);
      if Candidate(f) != Some(k) {
        NotCandidate(prev, a.chain, f, k);
        VisitIdle(DispatchTo(a, prev, local, now, n - 1), prev, k, local, now);
      }
    }
  }

  lemma NotCandidate(prev: ChainState, next: ChainState, f: Fact, k: Cid)
    requires ChainStep(prev, next, f) && k in next.entries.table && Candidate(f) != Some(k)
    ensures !JustUnknown(prev, next, k)
  {
    assert EntryStep(prev, next, f, k);
  }

  lemma VisitIdle(s: IState, prev: ChainState, k: Cid, local: map<Cid, Metadata>, now: int)
    requires k in s.chain.entries.table && !JustUnknown(prev, s.chain, k)
    ensures Visit(s, prev, k, local, now) == s
  {
  }

  lemma KeyIsNew(m: EntryMap, i: nat)
    requires i < |m.keys|
    ensures m.keys[i] !in m.keys[..i]
  {
  }

  /** Over all entries the fetch loop acts on at most one, the candidate of the fact. */
  lemma DispatchVisitsCandidate(s: IState, f: Fact, local: map<Cid, Metadata>, now: int)
    ensures DispatchTo(Reduced(s, f), s.chain, local, now, |Reduced(s, f).chain.entries.keys|)
         == VisitCandidate(Reduced(s, f), s.chain, f, local, now)
  {
    hide ReduceChain, Visit;
    var a := Reduced(s, f);
    ReduceIsChainStep(s.chain, f);
    LoopVisitsCandidate(a, s.chain, f, local, now, |a.chain.entries.keys|);
    AllKeys(a.chain.entries);
  }

  lemma AllKeys(m: EntryMap)
    ensures m.keys[..|m.keys|] == m.keys
    ensures forall k :: k in m.keys <==> k in m.table
  {
  }

  // ---- Invariants ----

  function StatusOf(s: IState, c: Cid): Option<Status> {
    if c in s.chain.entries.table then Some(s.chain.entries.table[c].status) else None
  }

  function AttemptOf(s: IState, c: Cid): int {
    if c in s.chain.entries.table then s.chain.entries.table[c].fetchAttempt else 0
  }

  /** c can have an unanswered fetch, or an unprocessed failure: it is known and not failed. */
  predicate Live(s: IState, c: Cid) {
    StatusOf(s, c).Some? && StatusOf(s, c) != Some(Failed)
  }

  /** At most one fetch per CID is unanswered, counting an answer as unprocessed while it waits in the queue. */
  ghost predicate Single(s: IState) {
    && (forall id | id in s.inflight :: id < s.nextId && Live(s, s.inflight[id].cid)
                                        && s.inflight[id].attempt == AttemptOf(s, s.inflight[id].cid))
    && (forall i, j | i in s.inflight && j in s.inflight && i != j :: s.inflight[i].cid != s.inflight[j].cid)
    && (forall i | 0 <= i < |s.queue| && s.queue[i].BlockFetchFailed? ::
          Live(s, s.queue[i].cid) && s.queue[i].attempt == AttemptOf(s, s.queue[i].cid) + 1)
    && (forall i, id | 0 <= i < |s.queue| && s.queue[i].BlockFetchFailed? && id in s.inflight ::
          s.inflight[id].cid != s.queue[i].cid)
    && (forall i, j | 0 <= i < j < |s.queue| && s.queue[i].BlockFetchFailed? && s.queue[j].BlockFetchFailed? ::
          s.queue[i].cid != s.queue[j].cid)
  }

  /** Retries of c that are already on their way: an armed timer, and resets waiting in the queue. */
  ghost function Resets(s: IState, c: Cid): nat {
    (if c in s.timers then 1 else 0) + multiset(s.queue)[BlockRetryReset(c)]
  }

  /** Failures of c that can still arm a timer. */
  ghost function Allowance(s: IState, c: Cid): nat {
    if AttemptOf(s, c) < MAX_INTERPRETER_RETRIES - 1 then MAX_INTERPRETER_RETRIES - 1 - AttemptOf(s, c) else 0
  }

  /**
   * The dispatches of c so far, the retries on their way and the failures still allowed never exceed one
   * round of retries for the first discovery and one for each rediscovery of a failed entry.
   */
  ghost predicate BudgetAt(s: IState, c: Cid) {
    if c in s.chain.entries.table
    then s.dispatched[c] + Resets(s, c) + Allowance(s, c) <= MAX_INTERPRETER_RETRIES * (1 + s.revived[c])
    else s.dispatched[c] == 0 && Resets(s, c) == 0
  }

  predicate IsAnswer(f: Fact, c: Cid) {
    (f.BlockFetched? || f.BlockFetchFailed?) && f.cid == c
  }

  ghost predicate InFlight(s: IState, c: Cid) {
    exists id | id in s.inflight :: s.inflight[id].cid == c
  }

  ghost predicate AnswerAt(s: IState, c: Cid, j: int) {
    0 <= j < |s.queue| && IsAnswer(s.queue[j], c)
  }

  /** An answer for c is still to come: from an open fetch, or waiting in the queue at n or later. */
  ghost predicate Awaited(s: IState, c: Cid, n: int) {
    InFlight(s, c) || exists j :: j >= n && AnswerAt(s, c, j)
  }

  predicate Announced(f: Fact, c: Cid) {
    (f.BlockFetchStarted? || f.BlockFetched?) && f.cid == c
  }

  /** Nothing about c is left hanging: whatever it waits for is on its way. */
  ghost predicate SettledAt(s: IState, c: Cid) {
    && (StatusOf(s, c) == Some(Fetching) ==> Awaited(s, c, 0))
    && QueueSettled(s, c)
    && (StatusOf(s, c) == Some(Unknown) ==> UnknownSettled(s, c))
    && (StatusOf(s, c) == Some(Failed) ==> FailedSettled(s, c))
  }

  /** An announced fetch has its answer still ahead of it. */
  ghost predicate QueueSettled(s: IState, c: Cid) {
    forall i | 0 <= i < |s.queue| && s.queue[i].BlockFetchStarted? && s.queue[i].cid == c :: Awaited(s, c, i)
  }

  ghost predicate UnknownSettled(s: IState, c: Cid) {
    c in s.skipped || exists i | 0 <= i < |s.queue| :: Announced(s.queue[i], c)
  }

  ghost predicate FailedSettled(s: IState, c: Cid) {
    c in s.timers || BlockRetryReset(c) in s.queue || AttemptOf(s, c) >= MAX_INTERPRETER_RETRIES
  }

  ghost predicate Inv(s: IState) {
    Single(s) && forall c :: BudgetAt(s, c) && SettledAt(s, c)
  }

  // ---- One fact keeps the invariants ----

  /** The state before the fact f is consumed, with f at the head of the queue. */
  ghost function Before(s: IState, f: Fact): IState {
    s.(queue := [f] + s.queue)
  }

  function After(s: IState, f: Fact, local: map<Cid, Metadata>, now: int): IState {
    DecodeInline(CancelRetry(ScheduleRetry(VisitCandidate(Reduced(s, f), s.chain, f, local, now), f), f), f)
  }

  lemma ProcessIsAfter(s: IState, f: Fact, local: map<Cid, Metadata>, now: int)
    requires s.prefetchDepth == 0
    ensures Process(s, f, local, now)
         == After(s, f, local, now).(awaiting := Process(s, f, local, now).awaiting)
  {
    hide ReduceChain, VisitCandidate, Revives, ToApply;
    DispatchVisitsCandidate(s, f, local, now);
    VisitKeepsDepth(Reduced(s, f), s.chain, f, local, now);
  }

  lemma VisitKeepsDepth(a: IState, prev: ChainState, f: Fact, local: map<Cid, Metadata>, now: int)
    ensures VisitCandidate(a, prev, f, local, now).prefetchDepth == a.prefetchDepth
  {
  }

  ghost predicate NoTokens(s: IState, c: Cid) {
    && (forall id | id in s.inflight :: s.inflight[id].cid != c)
    && (forall i | 0 <= i < |s.queue| && s.queue[i].BlockFetchFailed? :: s.queue[i].cid != c)
  }

  lemma SinglePop(s: IState, f: Fact)
    requires Single(Before(s, f))
    ensures Single(s)
    ensures f.BlockFetchFailed? ==> NoTokens(s, f.cid)
  {
    hide Live, AttemptOf;
    var b := Before(s, f);
    SameChain(b, s);
    assert b.queue[0] == f;
    assert forall i | 0 <= i < |s.queue| :: s.queue[i] == b.queue[i + 1];
  }

  /** A fact leaves every other live entry live with the same attempt count. */
  lemma LiveKept(s: IState, f: Fact, c: Cid)
    requires Live(s, c) && !(f.BlockFetchFailed? && f.cid == c)
    ensures Live(Reduced(s, f), c) && AttemptOf(Reduced(s, f), c) == AttemptOf(s, c)
  {
    hide ReduceChain, Coherent;
    ReduceIsChainStep(s.chain, f);
    assert EntryStep(s.chain, Reduced(s, f).chain, f, c);
  }

  lemma JustUnknownWasIdle(s: IState, f: Fact, k: Cid)
    requires JustUnknown(s.chain, Reduced(s, f).chain, k)
    ensures !Live(s, k)
  {
    hide ReduceChain, Coherent;
    ReduceIsChainStep(s.chain, f);
    assert EntryStep(s.chain, Reduced(s, f).chain, f, k);
  }

  lemma SingleReduced(s: IState, f: Fact)
    requires Single(s) && (f.BlockFetchFailed? ==> NoTokens(s, f.cid))
    ensures Single(Reduced(s, f))
  {
    hide ReduceChain, Coherent, Live, AttemptOf;
    forall c | Live(s, c) && !(f.BlockFetchFailed? && f.cid == c)
      ensures Live(Reduced(s, f), c) && AttemptOf(Reduced(s, f), c) == AttemptOf(s, c)
    {
      LiveKept(s, f, c);
    }
  }

  lemma SingleVisit(a: IState, prev: ChainState, k: Cid, local: map<Cid, Metadata>, now: int)
    requires Single(a) && k in a.chain.entries.table
    requires JustUnknown(prev, a.chain, k) ==> NoTokens(a, k)
    ensures Single(Visit(a, prev, k, local, now))
  {
    hide Coherent, Eligible, Single;
    var e, b := a.chain.entries.table[k], Visit(a, prev, k, local, now);
    if JustUnknown(prev, a.chain, k) {
      if !Eligible(a.chain, e) {
        SingleIgnores(a, b);
      } else if k in local {
        SinglePush(a, BlockFetched(k, local[k]));
        SingleIgnores(a.(queue := a.queue + [BlockFetched(k, local[k])]), b);
      } else {
        var q := a.(queue := a.queue + [BlockFetchStarted(k, now)]);
        SinglePush(a, BlockFetchStarted(k, now));
        SingleDispatch(q, k);
        SingleIgnores(q.(inflight := q.inflight[q.nextId := Pending(k, AttemptOf(q, k))], nextId := q.nextId + 1), b);
      }
    }
  }

  /** Pushing anything but a failure. */
  lemma SinglePush(a: IState, f: Fact)
    requires Single(a) && !f.BlockFetchFailed?
    ensures Single(a.(queue := a.queue + [f]))
    ensures forall c | NoTokens(a, c) :: NoTokens(a.(queue := a.queue + [f]), c)
  {
    hide Live, AttemptOf;
    var b := a.(queue := a.queue + [f]);
    SameChain(a, b);
  }

  lemma SameChain(a: IState, b: IState)
    requires a.chain == b.chain
    ensures forall c :: Live(b, c) == Live(a, c) && AttemptOf(b, c) == AttemptOf(a, c)
  {
  }

  lemma SingleDispatch(a: IState, k: Cid)
    requires Single(a) && NoTokens(a, k) && StatusOf(a, k) == Some(Unknown)
    ensures Single(a.(inflight := a.inflight[a.nextId := Pending(k, AttemptOf(a, k))], nextId := a.nextId + 1))
  {
    hide AttemptOf;
    SameChain(a, a.(inflight := a.inflight[a.nextId := Pending(k, AttemptOf(a, k))], nextId := a.nextId + 1));
  }

  /** Timers and histories play no part in Single. */
  lemma SingleIgnores(a: IState, b: IState)
    requires Single(a) && a.chain == b.chain && a.queue == b.queue && a.inflight == b.inflight && a.nextId == b.nextId
    ensures Single(b)
    ensures forall c | NoTokens(a, c) :: NoTokens(b, c)
  {
    hide Live, AttemptOf;
    SameChain(a, b);
  }

  lemma SingleEnd(b: IState, f: Fact)
    requires Single(b)
    ensures Single(DecodeInline(CancelRetry(ScheduleRetry(b, f), f), f))
  {
    hide Single;
    var c := CancelRetry(ScheduleRetry(b, f), f);
    SingleIgnores(b, c);
    if DecodeInline(c, f) != c {
      SinglePush(c, BlockFetched(f.cid, f.block.value));
    }
  }

  lemma SingleAfter(s: IState, f: Fact, local: map<Cid, Metadata>, now: int)
    requires Single(Before(s, f))
    ensures Single(After(s, f, local, now))
  {
    hide ReduceChain, Coherent, Visit, Revives, Single, ScheduleRetry, CancelRetry, DecodeInline, JustUnknown;
    var a := Reduced(s, f);
    SinglePop(s, f);
    SingleReduced(s, f);
    var k := Candidate(f);
    if k.Some? && k.value in a.chain.entries.table {
      if JustUnknown(s.chain, a.chain, k.value) {
        JustUnknownWasIdle(s, f, k.value);
        IdleHasNoTokens(s, k.value);
      }
      SingleVisit(a, s.chain, k.value, local, now);
    }
    SingleEnd(VisitCandidate(a, s.chain, f, local, now), f);
  }

  lemma IdleHasNoTokens(s: IState, c: Cid)
    requires Single(s) && !Live(s, c)
    ensures NoTokens(s, c)
  {
    hide Live, AttemptOf;
  }

  // ---- The dispatch budget ----

  /** At a failure the entry was live and the fact carries its next attempt number. */
  lemma FailureAttempt(s: IState, f: Fact)
    requires Single(Before(s, f)) && f.BlockFetchFailed?
    ensures f.cid in s.chain.entries.table && f.attempt == AttemptOf(s, f.cid) + 1
  {
    assert Before(s, f).queue[0] == f;
  }

  ghost function Spent(s: IState, c: Cid): nat {
    s.dispatched[c] + Resets(s, c) + Allowance(s, c)
  }

  /** What the effects of f may still add to the spending on c once f is reduced. */
  ghost function Due(s: IState, f: Fact, c: Cid): nat {
    (if JustUnknown(s.chain, Reduced(s, f).chain, c) then 1 else 0)
    + (if f.BlockFetchFailed? && f.cid == c && f.attempt < MAX_INTERPRETER_RETRIES then 1 else 0)
  }

  lemma ResetsPopped(s: IState, f: Fact, c: Cid)
    ensures Resets(Before(s, f), c) == Resets(s, c) + (if f == BlockRetryReset(c) then 1 else 0)
  {
  }

  lemma BudgetReduced(s: IState, f: Fact, c: Cid)
    requires BudgetAt(Before(s, f), c)
    requires f.BlockFetchFailed? ==> f.cid in s.chain.entries.table && f.attempt == AttemptOf(s, f.cid) + 1
    ensures var a := Reduced(s, f);
      if c in a.chain.entries.table
      then Spent(a, c) + Due(s, f, c) <= MAX_INTERPRETER_RETRIES * (1 + a.revived[c])
      else a.dispatched[c] == 0 && Resets(a, c) == 0
  {
    hide ReduceChain, Coherent, Resets;
    var a := Reduced(s, f);
    ReduceIsChainStep(s.chain, f);
    ResetsPopped(s, f, c);
    SameResets(s, a, c);
    if c in a.chain.entries.table {
      assert EntryStep(s.chain, a.chain, f, c);
    }
  }

  lemma SameResets(s: IState, a: IState, c: Cid)
    requires s.timers == a.timers && multiset(s.queue)[BlockRetryReset(c)] == multiset(a.queue)[BlockRetryReset(c)]
    ensures Resets(s, c) == Resets(a, c)
  {
  }

  lemma BudgetVisit(a: IState, prev: ChainState, k: Cid, local: map<Cid, Metadata>, now: int, c: Cid)
    requires k in a.chain.entries.table
    ensures var b := Visit(a, prev, k, local, now);
      && b.chain == a.chain && b.revived == a.revived && Resets(b, c) == Resets(a, c)
      && a.dispatched[c] <= b.dispatched[c]
      && b.dispatched[c] <= a.dispatched[c] + (if k == c && JustUnknown(prev, a.chain, c) then 1 else 0)
  {
    hide Coherent, Eligible;
  }

  lemma BudgetEnd(b: IState, f: Fact, c: Cid)
    ensures var e := DecodeInline(CancelRetry(ScheduleRetry(b, f), f), f);
      && e.chain == b.chain && e.revived == b.revived && e.dispatched == b.dispatched
      && Resets(e, c) <= Resets(b, c)
           + (if f.BlockFetchFailed? && f.cid == c && c in b.chain.entries.table
                 && AttemptOf(b, c) < MAX_INTERPRETER_RETRIES then 1 else 0)
  {
    hide Coherent;
  }

  lemma BudgetVisited(s: IState, f: Fact, local: map<Cid, Metadata>, now: int, c: Cid)
    requires Single(Before(s, f)) && BudgetAt(Before(s, f), c)
    ensures var b := VisitCandidate(Reduced(s, f), s.chain, f, local, now);
      if c in b.chain.entries.table
      then Spent(b, c) + (if f.BlockFetchFailed? && f.cid == c && f.attempt < MAX_INTERPRETER_RETRIES then 1 else 0)
             <= MAX_INTERPRETER_RETRIES * (1 + b.revived[c])
      else b.dispatched[c] == 0 && Resets(b, c) == 0
  {
    hide ReduceChain, Coherent, Single, Visit, Resets, JustUnknown;
    var a := Reduced(s, f);
    if f.BlockFetchFailed? {
      FailureAttempt(s, f);
    }
    BudgetReduced(s, f, c);
    var k := Candidate(f);
    if k.Some? && k.value in a.chain.entries.table {
      BudgetVisit(a, s.chain, k.value, local, now, c);
      UnknownIsKnown(s.chain, a.chain, c);
    }
  }

  /** After a failure the entry carries the attempt number of the fact. */
  lemma AttemptAfter(s: IState, f: Fact, local: map<Cid, Metadata>, now: int)
    requires f.BlockFetchFailed? && f.cid in s.chain.entries.table
    ensures AttemptOf(VisitCandidate(Reduced(s, f), s.chain, f, local, now), f.cid) == f.attempt
  {
    hide ReduceChain, Coherent, Eligible;
    ReduceIsChainStep(s.chain, f);
    assert EntryStep(s.chain, Reduced(s, f).chain, f, f.cid);
  }

  lemma BudgetAfter(s: IState, f: Fact, local: map<Cid, Metadata>, now: int, c: Cid)
    requires Single(Before(s, f)) && BudgetAt(Before(s, f), c)
    ensures BudgetAt(After(s, f, local, now), c)
  {
    hide ReduceChain, Coherent, Single, VisitCandidate, Resets, ScheduleRetry, CancelRetry, DecodeInline;
    BudgetVisited(s, f, local, now, c);
    if f.BlockFetchFailed? {
      FailureAttempt(s, f);
      AttemptAfter(s, f, local, now);
    }
    BudgetEnd(VisitCandidate(Reduced(s, f), s.chain, f, local, now), f, c);
  }

  lemma UnknownIsKnown(prev: ChainState, next: ChainState, c: Cid)
    ensures JustUnknown(prev, next, c) ==> c in next.entries.table
  {
  }

  // ---- Nothing is left hanging ----

  lemma AwaitedPopped(s: IState, f: Fact, c: Cid, i: int)
    requires Awaited(Before(s, f), c, i) && i >= 0 && (i == 0 ==> !IsAnswer(f, c))
    ensures Awaited(s, c, if i == 0 then 0 else i - 1)
  {
    var b := Before(s, f);
    if !InFlight(b, c) {
      var j :| j >= i && AnswerAt(b, c, j);
      assert j > 0 && b.queue[j] == s.queue[j - 1];
      assert AnswerAt(s, c, j - 1);
    } else {
      var id :| id in b.inflight && b.inflight[id].cid == c;
      assert s.inflight[id].cid == c;
    }
  }

  /** Appending facts and opening fetches only adds to what is on its way. */
  lemma AwaitedGrown(s: IState, s': IState, c: Cid, i: int)
    requires Awaited(s, c, i) && s.queue <= s'.queue
    requires forall id | id in s.inflight :: id in s'.inflight && s'.inflight[id] == s.inflight[id]
    ensures Awaited(s', c, i)
  {
    if InFlight(s, c) {
      var id :| id in s.inflight && s.inflight[id].cid == c;
      assert s'.inflight[id].cid == c;
    } else {
      var j :| j >= i && AnswerAt(s, c, j);
      assert AnswerAt(s', c, j);
    }
  }

  lemma UnknownPopped(s: IState, f: Fact, c: Cid)
    requires UnknownSettled(Before(s, f), c) && !Announced(f, c)
    ensures UnknownSettled(s, c)
  {
    var b := Before(s, f);
    if c !in b.skipped {
      var i :| 0 <= i < |b.queue| && Announced(b.queue[i], c);
      assert i > 0 && b.queue[i] == s.queue[i - 1];
    }
  }

  lemma QueuePopped(s: IState, f: Fact, c: Cid)
    requires QueueSettled(Before(s, f), c)
    ensures QueueSettled(s, c)
  {
    hide Awaited;
    var b := Before(s, f);
    forall i | 0 <= i < |s.queue| && s.queue[i].BlockFetchStarted? && s.queue[i].cid == c
      ensures Awaited(s, c, i)
    {
      assert b.queue[i + 1] == s.queue[i];
      AwaitedPopped(s, f, c, i + 1);
    }
  }

  lemma SameWaiting(s: IState, a: IState, c: Cid)
    requires s.queue == a.queue && s.inflight == a.inflight && s.skipped == a.skipped
    ensures forall i :: Awaited(s, c, i) == Awaited(a, c, i)
    ensures QueueSettled(s, c) == QueueSettled(a, c) && UnknownSettled(s, c) == UnknownSettled(a, c)
  {
    assert forall j :: AnswerAt(s, c, j) == AnswerAt(a, c, j);
  }

  lemma SettledReduced(s: IState, f: Fact, c: Cid)
    requires SettledAt(Before(s, f), c)
    ensures var a := Reduced(s, f);
      && (StatusOf(a, c) == Some(Fetching) ==> Awaited(a, c, 0))
      && QueueSettled(a, c)
      && (StatusOf(a, c) == Some(Unknown) && !JustUnknown(s.chain, a.chain, c) ==> UnknownSettled(a, c))
      && (StatusOf(a, c) == Some(Failed) && !(f.BlockFetchFailed? && f.cid == c) ==> FailedSettled(a, c))
  {
    hide ReduceChain, Coherent, Awaited;
    var b, a := Before(s, f), Reduced(s, f);
    ReduceIsChainStep(s.chain, f);
    QueuePopped(s, f, c);
    SameWaiting(s, a, c);
    if c in a.chain.entries.table {
      assert EntryStep(s.chain, a.chain, f, c);
      if StatusOf(a, c) == Some(Fetching) {
        if f.BlockFetchStarted? && f.cid == c {
          assert b.queue[0] == f;
          assert Awaited(b, c, 0);
        }
        AwaitedPopped(s, f, c, 0);
      }
      if StatusOf(a, c) == Some(Unknown) && !JustUnknown(s.chain, a.chain, c) {
        UnknownPopped(s, f, c);
      }
    }
  }

  /** Appending a fact that is not a fetch announcement of c, or is one with its fetch open. */
  lemma SettledGrown(s: IState, s': IState, c: Cid)
    requires s'.queue == s.queue || (|s'.queue| == |s.queue| + 1 && s.queue <= s'.queue)
    requires forall id | id in s.inflight :: id in s'.inflight && s'.inflight[id] == s.inflight[id]
    requires |s'.queue| > |s.queue| && s'.queue[|s.queue|].BlockFetchStarted? && s'.queue[|s.queue|].cid == c ==>
      InFlight(s', c)
    requires QueueSettled(s, c)
    ensures QueueSettled(s', c)
    ensures forall i | Awaited(s, c, i) :: Awaited(s', c, i)
    ensures UnknownSettled(s, c) && (c in s.skipped ==> c in s'.skipped) ==> UnknownSettled(s', c)
  {
    hide InFlight;
    forall i | Awaited(s, c, i) ensures Awaited(s', c, i) { AwaitedGrown(s, s', c, i); }
    forall i | 0 <= i < |s'.queue| && s'.queue[i].BlockFetchStarted? && s'.queue[i].cid == c
      ensures Awaited(s', c, i)
    {
      if i < |s.queue| {
        assert s.queue[i] == s'.queue[i];
        assert Awaited(s, c, i);
      }
    }
    if UnknownSettled(s, c) && c !in s.skipped {
      var i :| 0 <= i < |s.queue| && Announced(s.queue[i], c);
      assert Announced(s'.queue[i], c);
    }
  }

  /** The fetch loop answers an entry that has just become unknown: it is skipped, found locally or fetched. */
  lemma SettledVisit(a: IState, prev: ChainState, k: Cid, local: map<Cid, Metadata>, now: int, c: Cid)
    requires k in a.chain.entries.table && QueueSettled(a, c)
    requires forall id | id in a.inflight :: id < a.nextId
    ensures var b := Visit(a, prev, k, local, now);
      && b.chain == a.chain && b.timers == a.timers && a.queue <= b.queue
      && QueueSettled(b, c)
      && (forall i | Awaited(a, c, i) :: Awaited(b, c, i))
      && (UnknownSettled(a, c) && StatusOf(a, c) == Some(Unknown) ==> UnknownSettled(b, c))
      && (k == c && JustUnknown(prev, a.chain, c) ==> UnknownSettled(b, c))
  {
    hide Coherent, Eligible, QueueSettled, Awaited;
    var b := Visit(a, prev, k, local, now);
    if b != a {
      var n := |a.queue|;
      if |b.queue| > n {
        assert b.queue[..n] == a.queue;
        assert Announced(b.queue[n], k);
        if b.queue[n].BlockFetchStarted? {
          assert b.inflight[a.nextId].cid == k;
        }
      }
      if UnknownSettled(a, c) && k == c {
        assert UnknownSettled(b, c);
      }
      SettledGrown(a, b, c);
    }
  }

  lemma SettledEnd(b: IState, f: Fact, c: Cid)
    requires QueueSettled(b, c)
    requires f.BlockFetched? || f.TipAdvanced? ==> StatusOf(b, f.cid) != Some(Failed)
    ensures var e := DecodeInline(CancelRetry(ScheduleRetry(b, f), f), f);
      && e.chain == b.chain && QueueSettled(e, c)
      && (forall i | Awaited(b, c, i) :: Awaited(e, c, i))
      && (UnknownSettled(b, c) ==> UnknownSettled(e, c))
      && (StatusOf(b, c) == Some(Failed) && (FailedSettled(b, c) || (f.BlockFetchFailed? && f.cid == c)) ==>
            FailedSettled(e, c))
  {
    hide Coherent, QueueSettled, Awaited, UnknownSettled;
    var d := CancelRetry(ScheduleRetry(b, f), f);
    var e := DecodeInline(d, f);
    SameWaiting(b, d, c);
    if e.queue != d.queue {
      assert e.queue[..|d.queue|] == d.queue;
      assert e.queue[|d.queue|] == BlockFetched(f.cid, f.block.value);
    }
    SettledGrown(d, e, c);
    if BlockRetryReset(c) in b.queue {
      var i :| 0 <= i < |b.queue| && b.queue[i] == BlockRetryReset(c);
      assert e.queue[i] == BlockRetryReset(c);
    }
  }

  /** What is settled once the loop has visited the candidate; a failure of f itself waits for its timer. */
  ghost predicate SettledBut(b: IState, f: Fact, c: Cid) {
    && (StatusOf(b, c) == Some(Fetching) ==> Awaited(b, c, 0))
    && QueueSettled(b, c)
    && (StatusOf(b, c) == Some(Unknown) ==> UnknownSettled(b, c))
    && (StatusOf(b, c) == Some(Failed) && !(f.BlockFetchFailed? && f.cid == c) ==> FailedSettled(b, c))
  }

  lemma SettledVisited(s: IState, f: Fact, local: map<Cid, Metadata>, now: int, c: Cid)
    requires SettledAt(Before(s, f), c)
    requires forall id | id in s.inflight :: id < s.nextId
    ensures SettledBut(VisitCandidate(Reduced(s, f), s.chain, f, local, now), f, c)
  {
    hide ReduceChain, Coherent, Visit, Awaited, QueueSettled, UnknownSettled, Eligible, SettledAt;
    var a := Reduced(s, f);
    ReduceIsChainStep(s.chain, f);
    SettledReduced(s, f, c);
    var k := Candidate(f);
    if k.Some? && k.value in a.chain.entries.table {
      SettledVisit(a, s.chain, k.value, local, now, c);
      QueueMembers(a, VisitCandidate(a, s.chain, f, local, now));
    }
    if c in a.chain.entries.table {
      assert EntryStep(s.chain, a.chain, f, c);
    }
  }

  /** A fetched block, or a tip, leaves its own entry not failed. */
  lemma NotFailedAfter(s: IState, f: Fact, local: map<Cid, Metadata>, now: int)
    requires f.BlockFetched? || f.TipAdvanced?
    ensures StatusOf(VisitCandidate(Reduced(s, f), s.chain, f, local, now), f.cid) != Some(Failed)
  {
    hide ReduceChain, Coherent, Eligible;
    ReduceIsChainStep(s.chain, f);
    if f.cid in Reduced(s, f).chain.entries.table {
      assert EntryStep(s.chain, Reduced(s, f).chain, f, f.cid);
    }
  }

  lemma SettledAfter(s: IState, f: Fact, local: map<Cid, Metadata>, now: int, c: Cid)
    requires SettledAt(Before(s, f), c)
    requires forall id | id in s.inflight :: id < s.nextId
    ensures SettledAt(After(s, f, local, now), c)
  {
    hide ReduceChain, Coherent, VisitCandidate, ScheduleRetry, CancelRetry, DecodeInline, Awaited, QueueSettled,
         UnknownSettled, FailedSettled;
    SettledVisited(s, f, local, now, c);
    if f.BlockFetched? || f.TipAdvanced? {
      NotFailedAfter(s, f, local, now);
    }
    SettledEnd(VisitCandidate(Reduced(s, f), s.chain, f, local, now), f, c);
  }

  lemma QueueMembers(a: IState, b: IState)
    requires a.queue <= b.queue
    ensures forall f | f in a.queue :: f in b.queue
  {
    forall f | f in a.queue ensures f in b.queue {
      var i :| 0 <= i < |a.queue| && a.queue[i] == f;
      assert b.queue[i] == f;
    }
  }

  // ---- Every step keeps the invariants ----

  lemma InvProcess(s: IState, f: Fact, local: map<Cid, Metadata>, now: int)
    requires s.prefetchDepth == 0 && Inv(Before(s, f))
    ensures Inv(Process(s, f, local, now)) && Process(s, f, local, now).prefetchDepth == 0
  {
    hide Single, BudgetAt, SettledAt, Process, After;
    ProcessIsAfter(s, f, local, now);
    InvIgnoresAwaiting(After(s, f, local, now), Process(s, f, local, now).awaiting);
    SingleAfter(s, f, local, now);
    FreshIds(s, f);
    forall c ensures BudgetAt(After(s, f, local, now), c) && SettledAt(After(s, f, local, now), c) {
      BudgetAfter(s, f, local, now, c);
      SettledAfter(s, f, local, now, c);
    }
    DepthKept(s, f, local, now);
  }

  lemma InvIgnoresAwaiting(s: IState, awaiting: Option<Await>)
    ensures Inv(s) ==> Inv(s.(awaiting := awaiting))
  {
    hide Live, AttemptOf, Awaited, QueueSettled, UnknownSettled;
    var b := s.(awaiting := awaiting);
    SameChain(s, b);
    if Inv(s) {
      SingleIgnores(s, b);
      forall c ensures BudgetAt(b, c) && SettledAt(b, c) {
        assert BudgetAt(s, c) && SettledAt(s, c);
        SameWaiting(s, b, c);
      }
    }
  }

  /** A tip-advanced fact at the end of the queue changes nothing that anything waits for. */
  lemma InvTipPushed(s: IState, f: Fact)
    requires Inv(s) && f.TipAdvanced?
    ensures Inv(s.(queue := s.queue + [f]))
  {
    hide Live, AttemptOf, Awaited, QueueSettled, UnknownSettled, Single, Resets;
    var b := s.(queue := s.queue + [f]);
    SinglePush(s, f);
    assert b.queue[..|s.queue|] == s.queue;
    QueueMembers(s, b);
    SameChain(s, b);
    forall c ensures BudgetAt(b, c) && SettledAt(b, c) {
      assert BudgetAt(s, c) && SettledAt(s, c);
      SameResets(s, b, c);
      SettledGrown(s, b, c);
    }
  }

  lemma DepthKept(s: IState, f: Fact, local: map<Cid, Metadata>, now: int)
    ensures After(s, f, local, now).prefetchDepth == s.prefetchDepth
  {
    hide ReduceChain, Eligible;
  }

  lemma FreshIds(s: IState, f: Fact)
    requires Single(Before(s, f))
    ensures forall id | id in s.inflight :: id < s.nextId
  {
    hide Live;
  }

  /** A fact from outside is as good as one at the head of the queue. */
  lemma InvExternal(s: IState, f: Fact)
    requires Inv(s) && !Internal(f)
    ensures Inv(Before(s, f))
  {
    hide Live, AttemptOf, Awaited, Resets, Allowance, SettledAt;
    var b := Before(s, f);
    SameChain(s, b);
    assert b.queue[0] == f;
    assert forall i | 0 < i < |b.queue| :: b.queue[i] == s.queue[i - 1];
    forall c ensures BudgetAt(b, c) && SettledAt(b, c) {
      assert BudgetAt(s, c) && SettledAt(s, c);
      ResetsPopped(s, f, c);
      SameAllowance(s, b, c);
      SettledExternal(s, f, c);
    }
  }

  lemma SameAllowance(s: IState, b: IState, c: Cid)
    requires s.chain == b.chain
    ensures Allowance(s, c) == Allowance(b, c)
  {
  }

  lemma SettledExternal(s: IState, f: Fact, c: Cid)
    requires SettledAt(s, c) && !Internal(f)
    ensures SettledAt(Before(s, f), c)
  {
    hide Awaited;
    var b := Before(s, f);
    forall i | i >= 0 && Awaited(s, c, i) ensures Awaited(b, c, i + 1) && Awaited(b, c, i) {
      AwaitedPushed(s, f, c, i);
    }
    forall i | 0 <= i < |b.queue| && b.queue[i].BlockFetchStarted? && b.queue[i].cid == c ensures Awaited(b, c, i) {
      assert i > 0 && b.queue[i] == s.queue[i - 1];
      assert Awaited(s, c, i - 1);
    }
    if UnknownSettled(s, c) && c !in s.skipped {
      var i :| 0 <= i < |s.queue| && Announced(s.queue[i], c);
      assert Announced(b.queue[i + 1], c);
    }
  }

  lemma AwaitedPushed(s: IState, f: Fact, c: Cid, i: int)
    requires Awaited(s, c, i) && i >= 0
    ensures Awaited(Before(s, f), c, i + 1) && Awaited(Before(s, f), c, i)
  {
    var b := Before(s, f);
    if InFlight(s, c) {
      var id :| id in s.inflight && s.inflight[id].cid == c;
      assert b.inflight[id].cid == c;
    } else {
      var j :| j >= i && AnswerAt(s, c, j);
      assert b.queue[j + 1] == s.queue[j];
      assert AnswerAt(b, c, j + 1);
    }
  }

  lemma InvAnswer(s: IState, id: nat, block: Option<Metadata>, error: string)
    requires Inv(s) && id in s.inflight
    ensures Inv(Apply(s, Answer(id, block, error)))
  {
    hide Live, AttemptOf, Awaited, Resets, Allowance, SettledAt;
    var p, b := s.inflight[id], Apply(s, Answer(id, block, error));
    SameChain(s, b);
    var n := |s.queue|;
    assert forall i | 0 <= i < n :: b.queue[i] == s.queue[i];
    forall c ensures BudgetAt(b, c) && SettledAt(b, c) {
      assert BudgetAt(s, c) && SettledAt(s, c);
      SameAllowance(s, b, c);
      SameResets(s, b, c);
      SettledAnswer(s, id, block, error, c);
    }
  }

  lemma SettledAnswer(s: IState, id: nat, block: Option<Metadata>, error: string, c: Cid)
    requires SettledAt(s, c) && id in s.inflight
    ensures SettledAt(Apply(s, Answer(id, block, error)), c)
  {
    hide Awaited;
    var b := Apply(s, Answer(id, block, error));
    assert forall i | 0 <= i < |s.queue| :: b.queue[i] == s.queue[i];
    forall i | i <= |s.queue| && Awaited(s, c, i) ensures Awaited(b, c, i) {
      AwaitedAnswered(s, id, block, error, c, i);
    }
    if UnknownSettled(s, c) && c !in s.skipped {
      var i :| 0 <= i < |s.queue| && Announced(s.queue[i], c);
      assert Announced(b.queue[i], c);
    }
  }

  lemma AwaitedAnswered(s: IState, id: nat, block: Option<Metadata>, error: string, c: Cid, i: int)
    requires id in s.inflight && Awaited(s, c, i) && i <= |s.queue|
    ensures Awaited(Apply(s, Answer(id, block, error)), c, i)
  {
    var b := Apply(s, Answer(id, block, error));
    if InFlight(s, c) {
      var d :| d in s.inflight && s.inflight[d].cid == c;
      if d == id {
        assert AnswerAt(b, c, |s.queue|);
      } else {
        assert b.inflight[d].cid == c;
      }
    } else {
      var j :| j >= i && AnswerAt(s, c, j);
      assert AnswerAt(b, c, j);
    }
  }

  lemma InvFire(s: IState, t: Cid)
    requires Inv(s) && t in s.timers
    ensures Inv(Apply(s, Fire(t)))
  {
    hide Live, AttemptOf, Awaited, Allowance, SettledAt;
    var b := Apply(s, Fire(t));
    SameChain(s, b);
    assert forall i | 0 <= i < |s.queue| :: b.queue[i] == s.queue[i];
    forall c ensures BudgetAt(b, c) && SettledAt(b, c) {
      assert BudgetAt(s, c) && SettledAt(s, c);
      SameAllowance(s, b, c);
      SettledFire(s, t, c);
    }
  }

  lemma SettledFire(s: IState, t: Cid, c: Cid)
    requires SettledAt(s, c) && t in s.timers
    ensures SettledAt(Apply(s, Fire(t)), c)
  {
    hide Awaited, QueueSettled, UnknownSettled;
    var b := Apply(s, Fire(t));
    assert b.queue[|s.queue|] == BlockRetryReset(t);
    assert b.queue[..|s.queue|] == s.queue;
    SettledGrown(s, b, c);
    QueueMembers(s, b);
  }

  lemma InvStep(s: IState, step: Step)
    requires s.prefetchDepth == 0 && Inv(s)
    ensures Inv(Apply(s, step)) && Apply(s, step).prefetchDepth == 0
  {
    hide Inv, Process;
    match step
    case Feedback(local, now) =>
      if s.queue != [] && s.awaiting.None? {
        assert Before(s.(queue := s.queue[1..]), s.queue[0]) == s;
        InvProcess(s.(queue := s.queue[1..]), s.queue[0], local, now);
      }
    case External(f, local, now) =>
      if !Internal(f) && s.awaiting.None? {
        InvExternal(s, f);
        InvProcess(s, f, local, now);
      }
    case Answer(id, block, error) =>
      if id in s.inflight {
        InvAnswer(s, id, block, error);
      }
    case Fire(c) =>
      if c in s.timers {
        InvFire(s, c);
      }
    case Settle(tipSeq, local, now) =>
      if s.awaiting.Some? {
        InvIgnoresAwaiting(s, None);
        if tipSeq.Some? {
          InvTipPushed(s.(awaiting := None), TipAdvanced(s.awaiting.value.tip, tipSeq.value));
        }
      }
  }

  lemma {:induction false} InvRun(steps: seq<Step>)
    ensures Inv(Exec(0, steps)) && Exec(0, steps).prefetchDepth == 0
  {
    hide Inv, Apply;
    if steps == [] {
      InvInit();
    } else {
      InvRun(steps[..|steps| - 1]);
      InvStep(Exec(0, steps[..|steps| - 1]), steps[|steps| - 1]);
    }
  }

  lemma InvInit()
    ensures Inv(Init(0))
  {
  }

  // ---- Main results, with prefetching off ----

  /** In every reachable state at most one fetch per CID is unanswered. */
  lemma SingleFlight(steps: seq<Step>, i: nat, j: nat)
    requires i in Exec(0, steps).inflight && j in Exec(0, steps).inflight
    requires Exec(0, steps).inflight[i].cid == Exec(0, steps).inflight[j].cid
    ensures i == j
  {
    hide Exec, BudgetAt, SettledAt, Live;
    InvRun(steps);
  }

  /**
   * Over any run a CID is dispatched at most three times for its first discovery and three times more for
   * each rediscovery of its failed entry. One that is never rediscovered after a failure is dispatched at
   * most MAX_INTERPRETER_RETRIES times.
   */
  lemma DispatchBound(steps: seq<Step>, c: Cid)
    ensures Exec(0, steps).dispatched[c] <= MAX_INTERPRETER_RETRIES * (1 + Exec(0, steps).revived[c])
    ensures c !in Exec(0, steps).revived ==> Exec(0, steps).dispatched[c] <= MAX_INTERPRETER_RETRIES
  {
    hide Exec, Single, SettledAt, Resets, Allowance;
    InvRun(steps);
    assert BudgetAt(Exec(0, steps), c);
  }

  /**
   * Once the queue is drained, every fetch answered and no timer armed, nothing is left in between: each
   * entry is fetched, applied, failed with its retries used up, or unknown because the policy skipped it.
   */
  lemma QuiescentIsSettled(steps: seq<Step>, c: Cid)
    requires Exec(0, steps).queue == [] && Exec(0, steps).inflight == map[] && Exec(0, steps).timers == {}
    requires c in Exec(0, steps).chain.entries.table
    ensures var e := Exec(0, steps).chain.entries.table[c];
      || e.status == Fetched || e.status == Applied
      || (e.status == Failed && e.fetchAttempt >= MAX_INTERPRETER_RETRIES)
      || (e.status == Unknown && c in Exec(0, steps).skipped)
  {
    hide Exec, Single, BudgetAt;
    InvRun(steps);
    assert SettledAt(Exec(0, steps), c);
  }

  // ---- What the histories record ----

  /** Each dispatch opens one fetch under the next id, and nothing else does. */
  ghost predicate Counted(s: IState) {
    |s.dispatched| == s.nextId
  }

  lemma {:induction false} LoopCounts(
    s: IState, prev: ChainState, local: map<Cid, Metadata>, now: int, n: nat)
    requires n <= |s.chain.entries.keys| && Counted(s)
    ensures Counted(DispatchTo(s, prev, local, now, n))
  {
    hide Coherent, Eligible;
    if n > 0 {
      LoopCounts(s, prev, local, now, n - 1);
    }
  }

  lemma {:induction false} PrefetchCounts(
    s: IState, walk: Cid, remaining: nat, local: map<Cid, Metadata>, now: int)
    requires Counted(s)
    ensures Counted(Prefetch(s, walk, remaining, local, now))
    decreases remaining
  {
    hide Coherent;
    if remaining > 0 && walk in s.chain.entries.table && s.chain.entries.table[walk].prev.Some? {
      var p := s.chain.entries.table[walk].prev.value;
      if p in s.chain.entries.table && s.chain.entries.table[p].status == Unknown && p !in local {
        PrefetchCounts(DispatchFetch(s, p, s.chain.entries.table[p], now), p, remaining - 1, local, now);
      } else {
        PrefetchCounts(s, p, remaining - 1, local, now);
      }
    }
  }

  lemma PrefetchAfterCounts(s: IState, f: Fact, local: map<Cid, Metadata>, now: int)
    requires Counted(s)
    ensures Counted(PrefetchAfter(s, f, local, now))
  {
    if f.TipAdvanced? {
      PrefetchCounts(s, f.cid, s.prefetchDepth, local, now);
    }
  }

  lemma ProcessCounts(s: IState, f: Fact, local: map<Cid, Metadata>, now: int)
    requires Counted(s)
    ensures Counted(Process(s, f, local, now))
  {
    hide ReduceChain, DispatchTo, PrefetchAfter, ToApply, Coherent;
    var a := Reduced(s, f);
    LoopCounts(a, s.chain, local, now, |a.chain.entries.keys|);
    PrefetchAfterCounts(DecodeInline(CancelRetry(ScheduleRetry(
      DispatchTo(a, s.chain, local, now, |a.chain.entries.keys|), f), f), f), f, local, now);
  }

  /** Over any run, with or without prefetching, the dispatch counts add up to the fetches ever opened. */
  lemma {:induction false} DispatchesAreFetches(depth: nat, steps: seq<Step>)
    ensures Counted(Exec(depth, steps))
  {
    hide Process, PrefetchAfter;
    if steps != [] {
      var s, step := Exec(depth, steps[..|steps| - 1]), steps[|steps| - 1];
      DispatchesAreFetches(depth, steps[..|steps| - 1]);
      if step.Feedback? && s.queue != [] {
        ProcessCounts(s.(queue := s.queue[1..]), s.queue[0], step.local, step.now);
      }
      if step.External? {
        ProcessCounts(s, step.fact, step.local, step.now);
      }
      if step.Settle? && s.awaiting.Some? {
        PrefetchAfterCounts(Settled(s, step.tipSeq), s.awaiting.value.fact, step.local, step.now);
      }
    }
  }

  /** c is known through a source that the policy always fetches, and has not been passed over. */
  ghost predicate Wanted(s: IState, c: Cid) {
    c in s.chain.entries.table && ShouldAutoFetch(s.chain.entries.table[c]) && c !in s.skipped
  }

  /** Discovery sources are only ever added. */
  lemma SourcesKept(prev: ChainState, f: Fact, c: Cid)
    requires c in prev.entries.table
    ensures c in ReduceChain(prev, f).entries.table
    ensures prev.entries.table[c].via <= ReduceChain(prev, f).entries.table[c].via
  {
    hide Coherent, NewestOf;
  }

  lemma {:induction false} LoopKeepsWanted(
    s: IState, prev: ChainState, local: map<Cid, Metadata>, now: int, n: nat, c: Cid)
    requires n <= |s.chain.entries.keys| && Wanted(s, c)
    ensures Wanted(DispatchTo(s, prev, local, now, n), c)
  {
    hide Coherent, ShouldAutoFetch;
    if n > 0 {
      LoopKeepsWanted(s, prev, local, now, n - 1, c);
    }
  }

  lemma {:induction false} PrefetchKeepsWanted(
    s: IState, walk: Cid, remaining: nat, local: map<Cid, Metadata>, now: int, c: Cid)
    requires Wanted(s, c)
    ensures Wanted(Prefetch(s, walk, remaining, local, now), c)
    decreases remaining
  {
    hide Coherent, ShouldAutoFetch;
    if remaining > 0 && walk in s.chain.entries.table && s.chain.entries.table[walk].prev.Some? {
      var p := s.chain.entries.table[walk].prev.value;
      if p in s.chain.entries.table && s.chain.entries.table[p].status == Unknown && p !in local {
        PrefetchKeepsWanted(DispatchFetch(s, p, s.chain.entries.table[p], now), p, remaining - 1, local, now, c);
      } else {
        PrefetchKeepsWanted(s, p, remaining - 1, local, now, c);
      }
    }
  }

  lemma ProcessKeepsWanted(s: IState, f: Fact, local: map<Cid, Metadata>, now: int, c: Cid)
    requires Wanted(Reduced(s, f), c)
    ensures Wanted(Process(s, f, local, now), c)
  {
    hide ReduceChain, DispatchTo, PrefetchAfter, ToApply, Coherent, ShouldAutoFetch;
    var a := Reduced(s, f);
    LoopKeepsWanted(a, s.chain, local, now, |a.chain.entries.keys|, c);
    PrefetchAfterKeepsWanted(DecodeInline(CancelRetry(ScheduleRetry(
      DispatchTo(a, s.chain, local, now, |a.chain.entries.keys|), f), f), f), f, local, now, c);
  }

  lemma PrefetchAfterKeepsWanted(s: IState, f: Fact, local: map<Cid, Metadata>, now: int, c: Cid)
    requires Wanted(s, c)
    ensures Wanted(PrefetchAfter(s, f, local, now), c)
  {
    hide Wanted;
    if f.TipAdvanced? {
      PrefetchKeepsWanted(s, f.cid, s.prefetchDepth, local, now, c);
    }
  }

  lemma MoreSources(e: Entry, e': Entry)
    requires ShouldAutoFetch(e) && e.via <= e'.via
    ensures ShouldAutoFetch(e')
  {
    var src :| src in e.via * AUTO_FETCH_SOURCES;
    assert src in e'.via * AUTO_FETCH_SOURCES;
  }

  lemma StepKeepsWanted(s: IState, step: Step, c: Cid)
    requires Wanted(s, c)
    ensures Wanted(Apply(s, step), c)
  {
    hide ReduceChain, Process, PrefetchAfter, Coherent, ShouldAutoFetch;
    if step.Settle? && s.awaiting.Some? {
      PrefetchAfterKeepsWanted(Settled(s, step.tipSeq), s.awaiting.value.fact, step.local, step.now, c);
    }
    if (step.Feedback? && s.queue != []) || (step.External? && !Internal(step.fact)) {
      var t := if step.Feedback? then s.(queue := s.queue[1..]) else s;
      var f := if step.Feedback? then s.queue[0] else step.fact;
      SourcesKept(s.chain, f, c);
      MoreSources(s.chain.entries.table[c], Reduced(t, f).chain.entries.table[c]);
      ProcessKeepsWanted(t, f, step.local, step.now, c);
    }
  }

  lemma {:induction false} WantedForever(depth: nat, before: seq<Step>, later: seq<Step>, c: Cid)
    requires Wanted(Exec(depth, before), c)
    ensures Wanted(Exec(depth, before + later), c)
    decreases |later|
  {
    hide Wanted, Apply;
    if later == [] {
      assert before + later == before;
    } else {
      var n := |later| - 1;
      WantedForever(depth, before, later[..n], c);
      assert (before + later)[..|before + later| - 1] == before + later[..n];
      StepKeepsWanted(Exec(depth, before + later[..n]), later[n], c);
    }
  }

  /** How a fact makes a CID known: by a discovery, or as the parent of a fetched block. */
  function SourceOf(f: Fact): Source {
    if f.CidDiscovered? then f.source else ChainWalk
  }

  lemma NewEntryVia(prev: ChainState, f: Fact, c: Cid)
    requires c !in prev.entries.table && c in ReduceChain(prev, f).entries.table
    ensures ReduceChain(prev, f).entries.table[c].via == {SourceOf(f)}
  {
    hide Coherent, NewestOf;
  }

  lemma EffectsKeepChain(s: IState, f: Fact, local: map<Cid, Metadata>, now: int)
    ensures var a := Reduced(s, f);
      var c := DecodeInline(CancelRetry(ScheduleRetry(
        DispatchTo(a, s.chain, local, now, |a.chain.entries.keys|), f), f), f);
      c.chain == a.chain && c.prefetchDepth == s.prefetchDepth
  {
    hide ReduceChain, VisitCandidate, Coherent;
    DispatchVisitsCandidate(s, f, local, now);
    VisitKeepsDepth(Reduced(s, f), s.chain, f, local, now);
  }

  lemma PrefetchAfterSkipsNothing(s: IState, f: Fact, local: map<Cid, Metadata>, now: int)
    ensures PrefetchAfter(s, f, local, now).skipped <= s.skipped && PrefetchAfter(s, f, local, now).chain == s.chain
  {
    hide Prefetch;
    if f.TipAdvanced? {
      PrefetchSkipsNothing(s, f.cid, s.prefetchDepth, local, now);
    }
  }

  lemma ProcessChain(s: IState, f: Fact, local: map<Cid, Metadata>, now: int)
    ensures Process(s, f, local, now).chain == ReduceChain(s.chain, f)
  {
    hide ReduceChain, DispatchTo, PrefetchAfter, ToApply, Coherent;
    var a := Reduced(s, f);
    EffectsKeepChain(s, f, local, now);
    PrefetchAfterSkipsNothing(DecodeInline(CancelRetry(ScheduleRetry(
      DispatchTo(a, s.chain, local, now, |a.chain.entries.keys|), f), f), f), f, local, now);
  }

  /** A CID is wanted from the moment an auto-fetched source or the chain walk makes it known. */
  lemma DiscoveryIsWanted(s: IState, f: Fact, local: map<Cid, Metadata>, now: int, c: Cid)
    requires c !in s.chain.entries.table && c in Process(s, f, local, now).chain.entries.table
    requires SourceOf(f) in AUTO_FETCH_SOURCES && c !in s.skipped
    ensures Wanted(Process(s, f, local, now), c)
  {
    hide Process, ReduceChain, Coherent;
    ProcessChain(s, f, local, now);
    NewEntryVia(s.chain, f, c);
    var a := Reduced(s, f);
    assert SourceOf(f) in a.chain.entries.table[c].via * AUTO_FETCH_SOURCES;
    ProcessKeepsWanted(s, f, local, now, c);
  }

  lemma {:induction false} SkippedAreKnown(depth: nat, steps: seq<Step>)
    ensures forall c | c in Exec(depth, steps).skipped :: c in Exec(depth, steps).chain.entries.table
  {
    hide Process, Coherent, PrefetchAfter;
    if steps != [] {
      var s, step := Exec(depth, steps[..|steps| - 1]), steps[|steps| - 1];
      if step.Settle? && s.awaiting.Some? {
        PrefetchAfterSkipsNothing(Settled(s, step.tipSeq), s.awaiting.value.fact, step.local, step.now);
      }
      SkippedAreKnown(depth, steps[..|steps| - 1]);
      if (step.Feedback? && s.queue != []) || (step.External? && !Internal(step.fact)) {
        var t := if step.Feedback? then s.(queue := s.queue[1..]) else s;
        var f := if step.Feedback? then s.queue[0] else step.fact;
        SkippedAreKnownStep(t, f, step.local, step.now);
      }
    }
  }

  lemma SkippedAreKnownStep(s: IState, f: Fact, local: map<Cid, Metadata>, now: int)
    requires forall c | c in s.skipped :: c in s.chain.entries.table
    ensures forall c | c in Process(s, f, local, now).skipped :: c in Process(s, f, local, now).chain.entries.table
  {
    hide ReduceChain, Coherent, DispatchTo, PrefetchAfter, Visit, ToApply;
    var a := Reduced(s, f);
    ReduceIsChainStep(s.chain, f);
    DispatchVisitsCandidate(s, f, local, now);
    var b := VisitCandidate(a, s.chain, f, local, now);
    var k := Candidate(f);
    if k.Some? && k.value in a.chain.entries.table {
      VisitSkips(a, s.chain, k.value, local, now);
    }
    EffectsSkipNothing(b, f);
    hide ScheduleRetry, CancelRetry, DecodeInline, VisitCandidate, Candidate, Revives;
    PrefetchAfterSkipsNothing(DecodeInline(CancelRetry(ScheduleRetry(b, f), f), f), f, local, now);
  }

  lemma EffectsSkipNothing(b: IState, f: Fact)
    ensures var c := DecodeInline(CancelRetry(ScheduleRetry(b, f), f), f); c.skipped == b.skipped && c.chain == b.chain
  {
    hide Coherent;
  }

  lemma VisitSkips(a: IState, prev: ChainState, k: Cid, local: map<Cid, Metadata>, now: int)
    requires k in a.chain.entries.table
    ensures Visit(a, prev, k, local, now).skipped <= a.skipped + {k}
    ensures Visit(a, prev, k, local, now).chain == a.chain
  {
  }

  lemma {:induction false} PrefetchSkipsNothing(
    s: IState, walk: Cid, remaining: nat, local: map<Cid, Metadata>, now: int)
    ensures Prefetch(s, walk, remaining, local, now).skipped <= s.skipped
    ensures Prefetch(s, walk, remaining, local, now).chain == s.chain
    decreases remaining
  {
    hide Coherent;
    if remaining > 0 && walk in s.chain.entries.table && s.chain.entries.table[walk].prev.Some? {
      var p := s.chain.entries.table[walk].prev.value;
      if p in s.chain.entries.table && s.chain.entries.table[p].status == Unknown && p !in local {
        PrefetchSkipsNothing(DispatchFetch(s, p, s.chain.entries.table[p], now), p, remaining - 1, local, now);
      } else {
        PrefetchSkipsNothing(s, p, remaining - 1, local, now);
      }
    }
  }

  /** The fact that a step consumes. */
  function Consumed(s: IState, step: Step): Option<Fact> {
    match step
    case Feedback(_, _) => if s.queue == [] || s.awaiting.Some? then None else Some(s.queue[0])
    case External(f, _, _) => if Internal(f) || s.awaiting.Some? then None else Some(f)
    case _ => None
  }

  /**
   * A CID first made known by an auto-fetched source, or by the chain walk as the parent of a fetched
   * block, is seen through to the end: once the system is quiescent it is fetched or applied, or it has
   * failed with its retries used up.
   */
  lemma AutoFetchSeenThrough(before: seq<Step>, found: Step, later: seq<Step>, c: Cid)
    requires c !in Exec(0, before).chain.entries.table && c in Exec(0, before + [found]).chain.entries.table
    requires var f := Consumed(Exec(0, before), found); f.Some? ==> SourceOf(f.value) in AUTO_FETCH_SOURCES
    requires var s := Exec(0, before + [found] + later); s.queue == [] && s.inflight == map[] && s.timers == {}
    ensures var s := Exec(0, before + [found] + later);
      && c in s.chain.entries.table
      && var e := s.chain.entries.table[c];
         e.status == Fetched || e.status == Applied || (e.status == Failed && e.fetchAttempt >= MAX_INTERPRETER_RETRIES)
  {
    hide Process, PrefetchAfter, Coherent, ShouldAutoFetch;
    SkippedAreKnown(0, before);
    assert (before + [found])[..|before|] == before && (before + [found])[|before|] == found;
    FoundByFact(Exec(0, before), found, c);
    WantedForever(0, before + [found], later, c);
    QuiescentIsSettled(before + [found] + later, c);
  }

  /** Only consuming a fact makes a CID known. */
  lemma FoundByFact(s: IState, found: Step, c: Cid)
    requires c !in s.chain.entries.table && c in Apply(s, found).chain.entries.table && c !in s.skipped
    requires var f := Consumed(s, found); f.Some? ==> SourceOf(f.value) in AUTO_FETCH_SOURCES
    ensures Wanted(Apply(s, found), c)
  {
    hide Process, PrefetchAfter, Coherent, ShouldAutoFetch;
    match found
    case Feedback(local, now) => DiscoveryIsWanted(s.(queue := s.queue[1..]), s.queue[0], local, now, c);
    case External(f, local, now) => DiscoveryIsWanted(s, f, local, now, c);
    case Settle(tipSeq, local, now) =>
      PrefetchAfterSkipsNothing(Settled(s, tipSeq), s.awaiting.value.fact, local, now);
    case _ =>
  }

  // ---- With prefetching on ----

  /**
   * A block arrives inline, its parent is dispatched, and the tip advances before the parent's
   * block-fetch-started fact is consumed: the prefetch walk finds the parent still unknown.
   */
  function DoubleFetchRun(): seq<Step> {
    [External(CidDiscovered("a", Gossipsub, Some(PARENT), None, None), map[], 0),
     Feedback(map[], 0),
     External(TipAdvanced("a", 1), map[], 0)]
  }

  /** The inline block of "a" names the parent "b". */
  const PARENT: Metadata := Metadata(Some("b"), None, None)

  lemma InlineBlockArrives(s: IState, s': IState, f: Fact)
    requires f == CidDiscovered("a", Gossipsub, Some(PARENT), None, None) && s.queue == [] && s.chain == INITIAL_CHAIN
    requires s' == Process(s, f, map[], 0)
    ensures s'.inflight == s.inflight && s'.nextId == s.nextId && s'.prefetchDepth == s.prefetchDepth
    ensures s'.awaiting == s.awaiting
    ensures s'.queue == [BlockFetched("a", PARENT)]
    ensures s'.chain.entries.table.Keys == {"a"}
  {
    hide DispatchTo, NewestOf, Coherent;
    DispatchVisitsCandidate(s, f, map[], 0);
  }

  lemma ParentDispatched(s: IState, s': IState, f: Fact)
    requires f == BlockFetched("a", PARENT) && s.queue == [] && s.chain.entries.table.Keys == {"a"}
    requires s' == Process(s, f, map[], 0)
    ensures s'.inflight == s.inflight[s.nextId := Pending("b", 0)] && s'.nextId == s.nextId + 1
    ensures s'.prefetchDepth == s.prefetchDepth && s'.awaiting == s.awaiting
    ensures "a" in s'.chain.entries.table && s'.chain.entries.table["a"].prev == Some("b")
    ensures StatusOf(s', "b") == Some(Unknown) && AttemptOf(s', "b") == 0 && s'.chain.entries.table["b"].prev == None
  {
    hide DispatchTo, NewestOf, Coherent;
    assert "a" != "b" by { assert "a"[0] != "b"[0]; }
    DispatchVisitsCandidate(s, f, map[], 0);
    var e := s'.chain.entries.table["b"];
    assert ChainWalk in e.via * AUTO_FETCH_SOURCES;
  }

  lemma TipPrefetches(s: IState, s': IState, f: Fact)
    requires f == TipAdvanced("a", 1) && s.prefetchDepth > 0
    requires "a" in s.chain.entries.table && s.chain.entries.table["a"].prev == Some("b")
    requires StatusOf(s, "b") == Some(Unknown) && AttemptOf(s, "b") == 0 && s.chain.entries.table["b"].prev == None
    requires s' == Process(s, f, map[], 0)
    ensures s'.inflight == s.inflight[s.nextId := Pending("b", 0)]
  {
    hide DispatchTo, NewestOf, Coherent;
    assert "a" != "b" by { assert "a"[0] != "b"[0]; }
    DispatchVisitsCandidate(s, f, map[], 0);
    var a := Reduced(s, f);
    var c := DecodeInline(CancelRetry(ScheduleRetry(a, f), f), f);
    assert s' == Prefetch(c, "a", c.prefetchDepth, map[], 0);
    var d := DispatchFetch(c, "b", c.chain.entries.table["b"], 0);
    assert Prefetch(d, "b", c.prefetchDepth - 1, map[], 0) == d;
    assert s' == d;
  }

  lemma ExecStep(depth: nat, steps: seq<Step>, n: nat)
    requires n < |steps|
    ensures Exec(depth, steps[..n + 1]) == Apply(Exec(depth, steps[..n]), steps[n])
  {
    assert steps[..n + 1][..n] == steps[..n];
  }

  lemma PrefetchDispatchesTwice(depth: nat)
    requires depth > 0
    ensures Exec(depth, DoubleFetchRun()).inflight == map[0 := Pending("b", 0), 1 := Pending("b", 0)]
  {
    hide Process;
    var run := DoubleFetchRun();
    var s0, s1, s2, s3 := Init(depth), Exec(depth, run[..1]), Exec(depth, run[..2]), Exec(depth, run);
    ExecStep(depth, run, 0);
    ExecStep(depth, run, 1);
    ExecStep(depth, run, 2);
    assert run[..3] == run && run[..0] == [];
    InlineBlockArrives(s0, s1, run[0].fact);
    assert s1.queue[1..] == [];
    ParentDispatched(s1.(queue := []), s2, BlockFetched("a", PARENT));
    TipPrefetches(s2, s3, run[2].fact);
  }

  ghost predicate OneFetchPerCid(s: IState) {
    forall i, j | i in s.inflight && j in s.inflight && s.inflight[i].cid == s.inflight[j].cid :: i == j
  }

  /** One unanswered fetch per CID over all runs: it holds exactly when the prefetch depth is zero. */
  lemma SingleFlightIffNoPrefetch(depth: nat)
    ensures (forall steps :: OneFetchPerCid(Exec(depth, steps))) <==> depth == 0
  {
    hide Exec;
    if depth == 0 {
      forall steps ensures OneFetchPerCid(Exec(0, steps)) {
        forall i, j | i in Exec(0, steps).inflight && j in Exec(0, steps).inflight
                      && Exec(0, steps).inflight[i].cid == Exec(0, steps).inflight[j].cid
          ensures i == j
        {
          SingleFlight(steps, i, j);
        }
      }
    } else {
      PrefetchDispatchesTwice(depth);
      var s := Exec(depth, DoubleFetchRun());
      assert s.inflight[0].cid == s.inflight[1].cid;
      assert !OneFetchPerCid(s);
    }
  }
}
