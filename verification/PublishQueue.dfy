/**
 * The per-key publish queue: enqueuePublish of packages/core/src/ipns-helpers.ts, and the effective
 * sequence rule of publishIPNS.
 *
 * A publish that has started stays open until its promise settles; settling is a step of its own, so a run
 * is any interleaving of enqueues and settlements over any number of keys. A publish that fails settles
 * like one that succeeds: the error is logged and the queue goes on.
 */
module PublishQueue {
  import opened Options
  import Chain

  type Key = string

  datatype Publication = Publication(cid: Chain.Cid, seqNo: int)
  datatype Tagged = Tagged(key: Key, item: Publication)

  /**
   * queues maps a busy key to its pending slot; open holds the publishes in flight by start order. The
   * last two are histories of what was enqueued and of what was started.
   */
  datatype Queues = Queues(
    queues: map<Key, Option<Publication>>, open: map<nat, Tagged>, nextId: nat,
    enqueued: seq<Tagged>, attempted: seq<Tagged>)

  const IDLE: Queues := Queues(map[], map[], 0, [], [])

  datatype Step = Enqueue(key: Key, item: Publication) | Settle(id: nat)

  function Start(s: Queues, key: Key, item: Publication): Queues {
    s.(queues := s.queues[key := None], open := s.open[s.nextId := Tagged(key, item)], nextId := s.nextId + 1,
       attempted := s.attempted + [Tagged(key, item)])
  }

  function Apply(s: Queues, step: Step): Queues {
    match step
    case Enqueue(key, item) =>
      var s' := s.(enqueued := s.enqueued + [Tagged(key, item)]);
      if key in s.queues then s'.(queues := s.queues[key := Some(item)]) else Start(s', key, item)
    case Settle(id) =>
      if id !in s.open then s else
      var key := s.open[id].key;
      var s' := s.(open := s.open - {id});
      if key in s.queues && s.queues[key].Some? then Start(s', key, s.queues[key].value)
      else s'.(queues := s.queues - {key})
  }

  function Run(steps: seq<Step>): Queues {
    if steps == [] then IDLE else Apply(Run(steps[..|steps| - 1]), steps[|steps| - 1])
  }

  /** The publications of one key, in order. */
  function Of(key: Key, log: seq<Tagged>): seq<Publication> {
    if log == [] then [] else
    Of(key, log[..|log| - 1]) + (if log[|log| - 1].key == key then [log[|log| - 1].item] else [])
  }

  /** a is obtained from b by leaving elements out. */
  ghost predicate Subsequence<T(!new)>(a: seq<T>, b: seq<T>) {
    if a == [] then true
    else if b == [] then false
    else (a[|a| - 1] == b[|b| - 1] && Subsequence(a[..|a| - 1], b[..|b| - 1])) || Subsequence(a, b[..|b| - 1])
  }

  lemma {:induction false} SubsequenceInit<T(!new)>(a: seq<T>, b: seq<T>)
    requires a != [] && Subsequence(a, b)
    ensures Subsequence(a[..|a| - 1], b)
    decreases |b|
  {
    if !(a[|a| - 1] == b[|b| - 1] && Subsequence(a[..|a| - 1], b[..|b| - 1])) {
      SubsequenceInit(a, b[..|b| - 1]);
    }
  }

  lemma SubsequenceBoth<T(!new)>(a: seq<T>, b: seq<T>, x: T)
    requires Subsequence(a, b)
    ensures Subsequence(a + [x], b + [x])
  {
    assert (a + [x])[..|a + [x]| - 1] == a && (b + [x])[..|b + [x]| - 1] == b;
  }

  /** A subsequence in the usual sense: its elements sit at increasing places of the longer sequence. */
  lemma {:induction false} SubsequencePlaces<T(!new)>(a: seq<T>, b: seq<T>) returns (at: seq<nat>)
    requires Subsequence(a, b)
    ensures |at| == |a|
    ensures forall i | 0 <= i < |a| :: at[i] < |b| && b[at[i]] == a[i]
    ensures forall i, j | 0 <= i < j < |a| :: at[i] < at[j]
    decreases |b|
  {
    if a == [] {
      at := [];
    } else if a[|a| - 1] == b[|b| - 1] && Subsequence(a[..|a| - 1], b[..|b| - 1]) {
      var front := SubsequencePlaces(a[..|a| - 1], b[..|b| - 1]);
      at := front + [|b| - 1];
    } else {
      at := SubsequencePlaces(a, b[..|b| - 1]);
    }
  }

  // ---- Invariant ----

  /** What has been started for the key, followed by what waits in its pending slot. */
  ghost function Committed(s: Queues, key: Key): seq<Publication> {
    Of(key, s.attempted) + (if key in s.queues && s.queues[key].Some? then [s.queues[key].value] else [])
  }

  ghost predicate Busy(s: Queues, key: Key) {
    exists id | id in s.open :: s.open[id].key == key
  }

  ghost predicate OneInFlight(s: Queues) {
    && (forall id | id in s.open :: id < s.nextId)
    && (forall i, j | i in s.open && j in s.open && i != j :: s.open[i].key != s.open[j].key)
    && (forall key :: key in s.queues <==> Busy(s, key))
  }

  ghost predicate LatestWins(s: Queues, key: Key) {
    var c, e := Committed(s, key), Of(key, s.enqueued);
    && Subsequence(c, e)
    && (c == [] <==> e == [])
    && (c != [] ==> c[|c| - 1] == e[|e| - 1])
  }

  lemma OfSnoc(key: Key, log: seq<Tagged>, x: Tagged)
    ensures Of(key, log + [x]) == Of(key, log) + (if x.key == key then [x.item] else [])
  {
    assert (log + [x])[..|log + [x]| - 1] == log;
  }

  lemma OneInFlightKept(s: Queues, step: Step)
    requires OneInFlight(s)
    ensures OneInFlight(Apply(s, step))
  {
    var s' := Apply(s, step);
    if step.Settle? && step.id in s.open {
      assert Busy(s, s.open[step.id].key);
    }
    forall key ensures key in s'.queues <==> Busy(s', key) {
      assert key in s.queues <==> Busy(s, key);
      if Busy(s, key) {
        var id :| id in s.open && s.open[id].key == key;
        assert id in s'.open ==> s'.open[id].key == key;
      }
      if s'.nextId > s.nextId {
        assert s'.open[s.nextId].key == if step.Enqueue? then step.key else s.open[step.id].key;
      }
    }
  }

  /** What is in flight for a key is what was started last for it. */
  ghost predicate FlightIsLast(s: Queues) {
    forall id | id in s.open ::
      var log := Of(s.open[id].key, s.attempted); log != [] && log[|log| - 1] == s.open[id].item
  }

  lemma FlightIsLastKept(s: Queues, step: Step)
    requires OneInFlight(s) && FlightIsLast(s)
    ensures FlightIsLast(Apply(s, step))
  {
    hide Of;
    var s' := Apply(s, step);
    forall id | id in s'.open
      ensures var log := Of(s'.open[id].key, s'.attempted); log != [] && log[|log| - 1] == s'.open[id].item
    {
      var key := s'.open[id].key;
      if |s'.attempted| > |s.attempted| {
        var last := s'.attempted[|s.attempted|];
        assert s'.attempted == s.attempted + [last];
        OfSnoc(key, s.attempted, last);
        if id in s.open && id != s.nextId {
          assert Busy(s, key);
        }
      }
    }
  }

  /** Over any run, the publish in flight for a key is the one that was started last for it. */
  lemma {:induction false} InFlightIsLastStarted(steps: seq<Step>)
    ensures FlightIsLast(Run(steps))
  {
    hide Apply, OneInFlight, FlightIsLast;
    if steps == [] {
      NothingInFlight();
    } else {
      InFlightIsLastStarted(steps[..|steps| - 1]);
      RunKeeps(steps[..|steps| - 1], "");
      FlightIsLastKept(Run(steps[..|steps| - 1]), steps[|steps| - 1]);
    }
  }

  lemma NothingInFlight()
    ensures FlightIsLast(IDLE)
  {
  }

  /** An enqueue replaces what waits, or starts at once when the key is idle. */
  lemma CommittedOnEnqueue(s: Queues, key: Key, k: Key, item: Publication)
    ensures Committed(Apply(s, Enqueue(k, item)), key)
         == if k == key then Of(key, s.attempted) + [item] else Committed(s, key)
    ensures Of(key, Apply(s, Enqueue(k, item)).enqueued)
         == if k == key then Of(key, s.enqueued) + [item] else Of(key, s.enqueued)
  {
    hide Of;
    OfSnoc(key, s.enqueued, Tagged(k, item));
    OfSnoc(key, s.attempted, Tagged(k, item));
    assert Of(key, s.enqueued) + [] == Of(key, s.enqueued);
    assert Of(key, s.attempted) + [] == Of(key, s.attempted);
    assert Of(key, s.attempted) + [item] + [] == Of(key, s.attempted) + [item];
  }

  /** A settlement moves what waits to what has started; nothing is added or lost. */
  lemma CommittedOnSettle(s: Queues, key: Key, id: nat)
    ensures Committed(Apply(s, Settle(id)), key) == Committed(s, key)
    ensures Apply(s, Settle(id)).enqueued == s.enqueued
  {
    hide Of;
    if id in s.open {
      var k := s.open[id].key;
      if k in s.queues && s.queues[k].Some? {
        var next := s.queues[k].value;
        OfSnoc(key, s.attempted, Tagged(k, next));
        assert Of(key, s.attempted) + [] == Of(key, s.attempted);
        assert Of(key, s.attempted) + [next] + [] == Of(key, s.attempted) + [next];
      }
    }
  }

  lemma LatestWinsKept(s: Queues, step: Step, key: Key)
    requires LatestWins(s, key)
    ensures LatestWins(Apply(s, step), key)
  {
    hide Subsequence, Of, Apply;
    match step {
      case Enqueue(k, item) =>
        CommittedOnEnqueue(s, key, k, item);
        if k == key {
          StartedFollow(s, key);
          SubsequenceBoth(Of(key, s.attempted), Of(key, s.enqueued), item);
        }
      case Settle(id) =>
        CommittedOnSettle(s, key, id);
    }
  }

  lemma StartedFollow(s: Queues, key: Key)
    requires LatestWins(s, key)
    ensures Subsequence(Of(key, s.attempted), Of(key, s.enqueued))
  {
    hide Subsequence, Of;
    var c, done := Committed(s, key), Of(key, s.attempted);
    if c != done {
      assert c[..|c| - 1] == done;
      SubsequenceInit(c, Of(key, s.enqueued));
    } else {
      assert c == done;
    }
  }

  lemma {:induction false} RunKeeps(steps: seq<Step>, key: Key)
    ensures OneInFlight(Run(steps)) && LatestWins(Run(steps), key)
  {
    hide OneInFlight, LatestWins, Apply;
    if steps == [] {
      IdleOk(key);
    } else {
      RunKeeps(steps[..|steps| - 1], key);
      OneInFlightKept(Run(steps[..|steps| - 1]), steps[|steps| - 1]);
      LatestWinsKept(Run(steps[..|steps| - 1]), steps[|steps| - 1], key);
    }
  }

  lemma IdleOk(key: Key)
    ensures OneInFlight(IDLE) && LatestWins(IDLE, key)
  {
  }

  // ---- Main results, over all interleavings ----

  /** At most one publish per key is in flight. */
  lemma SinglePublish(steps: seq<Step>, i: nat, j: nat)
    requires i in Run(steps).open && j in Run(steps).open && Run(steps).open[i].key == Run(steps).open[j].key
    ensures i == j
  {
    hide Run, LatestWins;
    RunKeeps(steps, "");
  }

  /** The publishes of a key are a subsequence of its enqueues. */
  lemma PublishesFollowEnqueues(steps: seq<Step>, key: Key)
    ensures Subsequence(Of(key, Run(steps).attempted), Of(key, Run(steps).enqueued))
  {
    hide Run, OneInFlight, Subsequence, LatestWins;
    RunKeeps(steps, key);
    StartedFollow(Run(steps), key);
  }

  /**
   * When nothing is in flight for a key its queue entry is gone, and the last publication enqueued is the
   * last one attempted.
   */
  lemma QuiescentPublishedLast(steps: seq<Step>, key: Key)
    requires forall id | id in Run(steps).open :: Run(steps).open[id].key != key
    ensures key !in Run(steps).queues
    ensures var e, a := Of(key, Run(steps).enqueued), Of(key, Run(steps).attempted);
      e != [] ==> a != [] && a[|a| - 1] == e[|e| - 1]
  {
    hide Run, Subsequence, Of;
    RunKeeps(steps, key);
    var s := Run(steps);
    assert !Busy(s, key);
    assert Committed(s, key) == Of(key, s.attempted);
  }

  lemma RunNext(steps: seq<Step>, step: Step)
    ensures Run(steps + [step]) == Apply(Run(steps), step)
  {
    assert (steps + [step])[..|steps|] == steps;
  }

  /** A publish that settles is closed; what waits for its key is started, or else the key is idle. */
  lemma SettlementOf(s: Queues, id: nat)
    requires OneInFlight(s) && id in s.open
    ensures var s', key := Apply(s, Settle(id)), s.open[id].key;
      && key in s.queues && s'.enqueued == s.enqueued
      && match s.queues[key]
         case Some(next) =>
           && s'.open == (s.open - {id})[s.nextId := Tagged(key, next)] && s'.queues == s.queues[key := None]
           && s'.attempted == s.attempted + [Tagged(key, next)]
         case None => s'.open == s.open - {id} && s'.queues == s.queues - {key} && s'.attempted == s.attempted
  {
    assert Busy(s, s.open[id].key);
  }

  /**
   * From every reachable state at most two settlements leave a key idle, with nothing in flight for it and
   * its last publication attempted last.
   */
  lemma KeyDrains(steps: seq<Step>, key: Key) returns (rest: seq<Step>)
    ensures |rest| <= 2 && forall i | 0 <= i < |rest| :: rest[i].Settle?
    ensures var s, s' := Run(steps), Run(steps + rest);
      && s'.enqueued == s.enqueued && key !in s'.queues && !Busy(s', key)
      && var e, a := Of(key, s.enqueued), Of(key, s'.attempted);
         e != [] ==> a != [] && a[|a| - 1] == e[|e| - 1]
  {
    hide Run, Apply, LatestWins, Of;
    RunKeeps(steps, key);
    var s := Run(steps);
    rest := [];
    assert steps + [] == steps;
    if id :| id in s.open && s.open[id].key == key {
      rest := [Settle(id)];
      RunNext(steps, Settle(id));
      SettlementOf(s, id);
      RunKeeps(steps + rest, key);
      if s.queues[key].Some? {
        var s1 := Run(steps + rest);
        RunNext(steps + rest, Settle(s.nextId));
        SettlementOf(s1, s.nextId);
        rest := rest + [Settle(s.nextId)];
        assert steps + rest == steps + [Settle(id)] + [Settle(s.nextId)];
        RunKeeps(steps + rest, key);
      }
    }
    QuiescentPublishedLast(steps + rest, key);
  }

  // ---- The queue as it is written ----

  class PublishQueues {
    var queues: map<Key, Option<Publication>>
    var open: map<nat, Tagged>
    var nextId: nat
    ghost var enqueued: seq<Tagged>
    ghost var attempted: seq<Tagged>

    ghost function State(): Queues
      reads this
    {
      Queues(queues, open, nextId, enqueued, attempted)
    }

    constructor ()
      ensures State() == IDLE
    {
      queues, open, nextId, enqueued, attempted := map[], map[], 0, [], [];
    }

    /** Starts a publish, whose promise then is open. */
    method Begin(key: Key, item: Publication)
      modifies this
      ensures State() == Start(old(State()), key, item)
    {
      open := open[nextId := Tagged(key, item)];
      nextId := nextId + 1;
      attempted := attempted + [Tagged(key, item)];
      queues := queues[key := None];
    }

    method EnqueuePublish(key: Key, item: Publication)
      modifies this
      ensures State() == Apply(old(State()), Enqueue(key, item))
    {
      enqueued := enqueued + [Tagged(key, item)];
      if key in queues {
        queues := queues[key := Some(item)];
        return;
      }
      Begin(key, item);
    }

    /** What run does once its publish has settled, successfully or not. */
    method Settled(id: nat)
      requires id in open
      modifies this
      ensures State() == Apply(old(State()), Settle(id))
    {
      var key := open[id].key;
      open := open - {id};
      if key in queues && queues[key].Some? {
        var next := queues[key].value;
        queues := queues[key := None];
        Begin(key, next);
      } else {
        queues := queues - {key};
      }
    }
  }

  // ---- The effective sequence ----

  /** existing is the sequence of the record already published, absent when the lookup failed. */
  function EffectiveSeq(seqNo: int, existing: Option<int>): int {
    if existing.Some? && existing.value >= seqNo then existing.value + 1 else seqNo
  }

  /** The least sequence that is not below the clock sum and above the existing record, if that is known. */
  lemma EffectiveSeqIsLeast(seqNo: int, existing: Option<int>, n: int)
    ensures EffectiveSeq(seqNo, existing) <= n <==> seqNo <= n && (existing.Some? ==> existing.value < n)
  {
  }

  /** The sequences published one after another when every lookup finds the record before. */
  function PublishedSeqs(clocks: seq<int>, existing: Option<int>): seq<int> {
    if clocks == [] then [] else
    var n := EffectiveSeq(clocks[0], existing);
    [n] + PublishedSeqs(clocks[1..], Some(n))
  }

  /** They strictly increase, whatever the clock sums do, and none is below its own clock sum. */
  lemma {:induction false} PublishedSeqsIncrease(clocks: seq<int>, existing: Option<int>)
    ensures |PublishedSeqs(clocks, existing)| == |clocks|
    ensures forall i | 0 <= i < |clocks| ::
      PublishedSeqs(clocks, existing)[i] >= clocks[i]
      && (existing.Some? ==> PublishedSeqs(clocks, existing)[i] > existing.value)
    ensures forall i, j | 0 <= i < j < |clocks| ::
      PublishedSeqs(clocks, existing)[i] < PublishedSeqs(clocks, existing)[j]
  {
    if clocks != [] {
      PublishedSeqsIncrease(clocks[1..], Some(EffectiveSeq(clocks[0], existing)));
    }
  }
}
