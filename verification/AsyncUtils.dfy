/**
 * The fact pipeline: createAsyncQueue, merge and scan of packages/core/src/async-utils.ts.
 *
 * A generator is modelled by where it is suspended. Everything that can happen while it is suspended (a
 * push, the abort, the consumer's next request, the resumption after an awaited promise) is a step.
 */
module AsyncUtils {
  import FoldArray
  import Chain

  // ---- createAsyncQueue ----

  /**
   * Idle: before the first request, or suspended at a yield. Waiting: awaiting the wake-up promise.
   * Woken: the promise is resolved and the generator has yet to resume. Finished: it has returned.
   */
  datatype Consumer = Idle | Waiting | Woken | Finished

  /** accepted and delivered are histories; resolver says whether the resolve variable is set. */
  datatype QueueState<T> = QueueState(
    buffer: seq<T>, resolver: bool, done: bool, consumer: Consumer, accepted: seq<T>, delivered: seq<T>)

  datatype QueueStep<T> = Push(value: T) | Abort | Next | Resume

  function NewQueue<T>(aborted: bool): QueueState<T> {
    QueueState([], false, aborted, Idle, [], [])
  }

  function Wake<T>(s: QueueState<T>): QueueState<T> {
    if s.resolver && s.consumer == Waiting then s.(consumer := Woken) else s
  }

  /** The generator's loop from its head: yield, return, or await a new promise. */
  function Turn<T>(s: QueueState<T>): QueueState<T> {
    if s.buffer != [] then
      s.(buffer := s.buffer[1..], delivered := s.delivered + [s.buffer[0]], consumer := Idle)
    else if s.done then s.(consumer := Finished)
    else s.(consumer := Waiting, resolver := true)
  }

  function QueueApply<T>(s: QueueState<T>, step: QueueStep<T>): QueueState<T> {
    match step
    case Push(x) => if s.done then s else Wake(s.(buffer := s.buffer + [x], accepted := s.accepted + [x]))
    case Abort => Wake(s.(done := true))
    case Next => if s.consumer == Idle then Turn(s) else s
    case Resume => if s.consumer == Woken then Turn(s.(resolver := false)) else s
  }

  function QueueRun<T>(aborted: bool, steps: seq<QueueStep<T>>): QueueState<T> {
    if steps == [] then NewQueue(aborted)
    else QueueApply(QueueRun(aborted, steps[..|steps| - 1]), steps[|steps| - 1])
  }

  ghost predicate QueueOk<T>(s: QueueState<T>) {
    && s.delivered + s.buffer == s.accepted
    && (s.consumer == Waiting ==> s.resolver && s.buffer == [] && !s.done)
    && (s.consumer == Woken ==> s.buffer != [] || s.done)
    && (s.consumer == Finished ==> s.buffer == [] && s.done)
  }

  /**
   * Over any run: what has been delivered, followed by what is buffered, is what was accepted, in order. A
   * waiting consumer has nothing to receive, so no wake-up is lost; a woken one has something to receive
   * or the end; and when the queue has finished everything accepted was delivered.
   */
  lemma {:induction false} QueueNeverLoses<T>(aborted: bool, steps: seq<QueueStep<T>>)
    ensures QueueOk(QueueRun(aborted, steps))
    ensures QueueRun(aborted, steps).consumer == Finished ==>
      QueueRun(aborted, steps).delivered == QueueRun(aborted, steps).accepted
  {
    if steps != [] {
      var s, step := QueueRun(aborted, steps[..|steps| - 1]), steps[|steps| - 1];
      QueueNeverLoses(aborted, steps[..|steps| - 1]);
      if s.buffer != [] {
        assert s.delivered + [s.buffer[0]] + s.buffer[1..] == s.delivered + s.buffer;
      }
      if step.Push? {
        assert s.delivered + (s.buffer + [step.value]) == s.delivered + s.buffer + [step.value];
      }
    }
  }

  /** The values pushed up to the first abort. */
  function PushedBeforeAbort<T>(aborted: bool, steps: seq<QueueStep<T>>): seq<T> {
    if steps == [] then [] else
    var before, last := steps[..|steps| - 1], steps[|steps| - 1];
    PushedBeforeAbort(aborted, before)
    + (if last.Push? && !aborted && !HasAbort(before) then [last.value] else [])
  }

  predicate HasAbort<T>(steps: seq<QueueStep<T>>) {
    exists i | 0 <= i < |steps| :: steps[i].Abort?
  }

  /** What is accepted is exactly what was pushed before the abort. */
  lemma {:induction false} AcceptedIsPushed<T>(aborted: bool, steps: seq<QueueStep<T>>)
    ensures QueueRun(aborted, steps).accepted == PushedBeforeAbort(aborted, steps)
    ensures QueueRun(aborted, steps).done <==> aborted || HasAbort(steps)
  {
    if steps != [] {
      var before := steps[..|steps| - 1];
      AcceptedIsPushed(aborted, before);
      assert HasAbort(steps) <==> HasAbort(before) || steps[|steps| - 1].Abort? by {
        if i :| 0 <= i < |before| && before[i].Abort? {
          assert steps[i].Abort?;
        }
      }
    }
  }

  lemma QueueNext<T>(aborted: bool, steps: seq<QueueStep<T>>, step: QueueStep<T>)
    ensures QueueRun(aborted, steps + [step]) == QueueApply(QueueRun(aborted, steps), step)
  {
    assert (steps + [step])[..|steps|] == steps;
  }

  /** The step lets the generator go on: a request while it is idle, or its resumption once it is woken. */
  predicate GoesOn<T>(s: QueueState<T>, step: QueueStep<T>) {
    (step.Next? && s.consumer == Idle) || (step.Resume? && s.consumer == Woken)
  }

  /**
   * In every reachable state, a generator that goes on delivers the next accepted value if there is one.
   * With none left it finishes if the queue was aborted, and waits for a wake-up otherwise.
   */
  lemma GoingOnDelivers<T>(aborted: bool, steps: seq<QueueStep<T>>, step: QueueStep<T>)
    requires GoesOn(QueueRun(aborted, steps), step)
    ensures var s, s' := QueueRun(aborted, steps), QueueRun(aborted, steps + [step]);
      && |s.delivered| <= |s.accepted| && s'.accepted == s.accepted && s'.done == s.done
      && (|s.delivered| < |s.accepted| ==>
            s'.delivered == s.delivered + [s.accepted[|s.delivered|]] && s'.consumer == Idle)
      && (|s.delivered| == |s.accepted| ==>
            s'.delivered == s.delivered && s'.consumer == if s.done then Finished else Waiting)
  {
    QueueNeverLoses(aborted, steps);
    QueueNext(aborted, steps, step);
    var s := QueueRun(aborted, steps);
    assert s.buffer != [] ==> s.accepted[|s.delivered|] == s.buffer[0];
  }

  /** A push or an abort wakes a waiting generator, and delivers nothing by itself. */
  lemma WakingSteps<T>(aborted: bool, steps: seq<QueueStep<T>>, step: QueueStep<T>)
    requires step.Push? || step.Abort?
    ensures var s, s' := QueueRun(aborted, steps), QueueRun(aborted, steps + [step]);
      && s'.delivered == s.delivered
      && s'.consumer == (if s.consumer == Waiting then Woken else s.consumer)
      && s'.done == (s.done || step.Abort?)
      && s'.accepted == (if step.Push? && !s.done then s.accepted + [step.value] else s.accepted)
  {
    QueueNeverLoses(aborted, steps);
    QueueNext(aborted, steps, step);
  }

  /** The step that lets the generator go on. */
  function Onward<T>(s: QueueState<T>): QueueStep<T> {
    if s.consumer == Woken then Resume else Next
  }

  /**
   * After an abort, from every reachable state, one step more than there are values left finishes the
   * queue, and by then everything accepted has been delivered.
   */
  lemma {:induction false} AbortedQueueDrains<T>(aborted: bool, steps: seq<QueueStep<T>>) returns (rest: seq<QueueStep<T>>)
    requires QueueRun(aborted, steps).done && QueueRun(aborted, steps).consumer != Finished
    ensures |rest| == |QueueRun(aborted, steps).accepted| - |QueueRun(aborted, steps).delivered| + 1
    ensures forall i | 0 <= i < |rest| :: rest[i].Next? || rest[i].Resume?
    ensures var s, s' := QueueRun(aborted, steps), QueueRun(aborted, steps + rest);
      s'.consumer == Finished && s'.delivered == s'.accepted == s.accepted
    decreases |QueueRun(aborted, steps).accepted| - |QueueRun(aborted, steps).delivered|
  {
    hide QueueApply;
    QueueNeverLoses(aborted, steps);
    var s := QueueRun(aborted, steps);
    var step := Onward(s);
    GoingOnDelivers(aborted, steps, step);
    if |s.delivered| < |s.accepted| {
      var tail := AbortedQueueDrains(aborted, steps + [step]);
      rest := [step] + tail;
      assert steps + rest == steps + [step] + tail;
    } else {
      rest := [step];
      QueueNeverLoses(aborted, steps + [step]);
    }
  }

  class AsyncQueue<T> {
    var buffer: seq<T>
    var resolver: bool
    var done: bool
    var consumer: Consumer
    ghost var accepted: seq<T>
    ghost var delivered: seq<T>

    ghost function State(): QueueState<T>
      reads this
    {
      QueueState(buffer, resolver, done, consumer, accepted, delivered)
    }

    constructor (aborted: bool)
      ensures State() == NewQueue(aborted)
    {
      buffer, resolver, done, consumer, accepted, delivered := [], false, aborted, Idle, [], [];
    }

    method CallResolver()
      modifies this
      ensures State() == Wake(old(State()))
    {
      if resolver && consumer == Waiting {
        consumer := Woken;
      }
    }

    method PushValue(value: T)
      modifies this
      ensures State() == QueueApply(old(State()), Push(value))
    {
      if done {
        return;
      }
      buffer, accepted := buffer + [value], accepted + [value];
      CallResolver();
    }

    method OnAbort()
      modifies this
      ensures State() == QueueApply(old(State()), Abort)
    {
      done := true;
      CallResolver();
    }

    method Iterate()
      modifies this
      ensures State() == Turn(old(State()))
    {
      if |buffer| > 0 {
        delivered := delivered + [buffer[0]];
        buffer, consumer := buffer[1..], Idle;
        return;
      }
      if done {
        consumer := Finished;
        return;
      }
      resolver, consumer := true, Waiting;
    }

    method RequestNext()
      requires consumer == Idle
      modifies this
      ensures State() == QueueApply(old(State()), Next)
    {
      Iterate();
    }

    method ResumeAfterWake()
      requires consumer == Woken
      modifies this
      ensures State() == QueueApply(old(State()), Resume)
    {
      resolver := false;
      Iterate();
    }
  }

  // ---- merge ----

  /** How a source answers a request: with an item, with its end, or by rejecting. */
  datatype Reply<T> = Item(value: T) | End | Reject

  /** A source, possibly infinite, is what it answers to its n-th request. */
  type Source<T> = nat -> Reply<T>

  /** The items among the first n answers. */
  function Items<T>(source: Source<T>, n: nat): seq<T> {
    if n == 0 then [] else Items(source, n - 1) + (if source(n - 1).Item? then [source(n - 1).value] else [])
  }

  /**
   * pulled and emitted count, per source, the items requested and the items yielded; pending holds the
   * sources with a request open. trace lists which source each output came from.
   */
  datatype MergeState<T> = MergeState(
    pending: set<nat>, pulled: seq<nat>, emitted: seq<nat>, out: seq<T>, trace: seq<nat>, failed: bool)

  function Indices(n: nat): (s: set<nat>)
    ensures forall i: nat :: i in s <==> i < n
  {
    if n == 0 then {} else Indices(n - 1) + {n - 1}
  }

  function StartMerge<T>(n: nat): MergeState<T> {
    MergeState(Indices(n), seq(n, i => 1), seq(n, i => 0), [], [], false)
  }

  ghost predicate MergeShape<T>(sources: seq<Source<T>>, s: MergeState<T>) {
    && |s.pulled| == |s.emitted| == |sources|
    && (forall i | i in s.pending :: i < |sources| && s.pulled[i] == s.emitted[i] + 1)
  }

  /**
   * The race is won by source i: its next item is yielded and requested again, or it has ended, or its
   * rejection ends the merge.
   */
  function RaceWon<T>(sources: seq<Source<T>>, s: MergeState<T>, i: nat): MergeState<T>
    requires |s.pulled| == |s.emitted| == |sources|
  {
    if s.failed || i !in s.pending || i >= |sources| then s else
    match sources[i](s.emitted[i])
    case End => s.(pending := s.pending - {i})
    case Reject => s.(failed := true)
    case Item(x) => MergeState(s.pending, s.pulled[i := s.pulled[i] + 1], s.emitted[i := s.emitted[i] + 1],
                               s.out + [x], s.trace + [i], false)
  }

  function MergeRun<T>(sources: seq<Source<T>>, winners: seq<nat>): (s: MergeState<T>)
    ensures |s.pulled| == |s.emitted| == |sources|
  {
    if winners == [] then StartMerge(|sources|)
    else RaceWon(sources, MergeRun(sources, winners[..|winners| - 1]), winners[|winners| - 1])
  }

  /** The outputs that came from source i, in order. */
  function From<T>(out: seq<T>, trace: seq<nat>, i: nat): seq<T>
    requires |out| == |trace|
  {
    if out == [] then [] else
    From(out[..|out| - 1], trace[..|out| - 1], i) + (if trace[|out| - 1] == i then [out[|out| - 1]] else [])
  }

  ghost predicate MergeOk<T>(sources: seq<Source<T>>, s: MergeState<T>) {
    && MergeShape(sources, s)
    && |s.out| == |s.trace|
    && (forall k | 0 <= k < |s.trace| :: s.trace[k] < |sources|)
    && (forall i | 0 <= i < |sources| :: From(s.out, s.trace, i) == Items(sources[i], s.emitted[i]))
    && (forall i, k: nat | 0 <= i < |sources| && k < s.emitted[i] :: sources[i](k).Item?)
    && (forall i | 0 <= i < |sources| && i !in s.pending :: sources[i](s.emitted[i]).End?)
    && (s.failed ==> exists i | i in s.pending :: sources[i](s.emitted[i]).Reject?)
  }

  lemma RaceKeeps<T>(sources: seq<Source<T>>, s: MergeState<T>, i: nat)
    requires MergeOk(sources, s)
    ensures MergeOk(sources, RaceWon(sources, s, i))
  {
    hide From, Items;
    if !s.failed && i in s.pending {
      var s', reply := RaceWon(sources, s, i), sources[i](s.emitted[i]);
      if reply.Item? {
        forall j | 0 <= j < |sources| ensures From(s'.out, s'.trace, j) == Items(sources[j], s'.emitted[j]) {
          FromSnoc(s.out, s.trace, reply.value, i, j);
          ItemsNext(sources[j], s.emitted[j]);
        }
      }
    }
  }

  lemma FromSnoc<T>(out: seq<T>, trace: seq<nat>, x: T, i: nat, j: nat)
    requires |out| == |trace|
    ensures From(out + [x], trace + [i], j) == From(out, trace, j) + (if i == j then [x] else [])
  {
    assert (out + [x])[..|out|] == out && (trace + [i])[..|out|] == trace;
  }

  lemma ItemsNext<T>(source: Source<T>, n: nat)
    ensures Items(source, n + 1) == Items(source, n) + (if source(n).Item? then [source(n).value] else [])
  {
  }

  /**
   * merge emits an order-preserving shuffle of any sources, finite or not: whichever source wins each
   * race, what came from a source is its first items in order, and at most one item of it is requested
   * ahead. Once no request is open every source has ended and all its items were emitted; only the
   * rejection of a source stops the merge before.
   */
  lemma {:induction false} MergeShuffles<T>(sources: seq<Source<T>>, winners: seq<nat>)
    ensures MergeOk(sources, MergeRun(sources, winners))
    ensures MergeRun(sources, winners).pending == {} ==>
      forall i | 0 <= i < |sources| ::
        sources[i](MergeRun(sources, winners).emitted[i]).End? && !MergeRun(sources, winners).failed
  {
    hide RaceWon, From, Items;
    if winners == [] {
      StartOk(sources);
    } else {
      MergeShuffles(sources, winners[..|winners| - 1]);
      RaceKeeps(sources, MergeRun(sources, winners[..|winners| - 1]), winners[|winners| - 1]);
    }
  }

  /**
   * What a race adds, over any run: the source with an open request that wins it yields its next item, and
   * that alone, and is asked again; or it has ended, and is asked no more; or its rejection ends the merge.
   * After that, and for a source without an open request, nothing happens.
   */
  lemma RaceAdds<T>(sources: seq<Source<T>>, winners: seq<nat>, i: nat)
    ensures var s, s' := MergeRun(sources, winners), MergeRun(sources, winners + [i]);
      if s.failed || i !in s.pending then s' == s
      else
        && i < |sources|
        && match sources[i](s.emitted[i])
           case Item(x) =>
             && s'.out == s.out + [x] && s'.trace == s.trace + [i] && s'.pending == s.pending && !s'.failed
             && s'.emitted == s.emitted[i := s.emitted[i] + 1] && s'.pulled == s.pulled[i := s.pulled[i] + 1]
           case End => s' == s.(pending := s.pending - {i})
           case Reject => s' == s.(failed := true)
  {
    MergeShuffles(sources, winners);
    assert (winners + [i])[..|winners|] == winners;
  }

  lemma StartOk<T>(sources: seq<Source<T>>)
    ensures MergeOk(sources, StartMerge(|sources|))
  {
  }

  class Merge<T> {
    const sources: seq<Source<T>>
    var pending: set<nat>
    var pulled: seq<nat>
    var emitted: seq<nat>
    var out: seq<T>
    var failed: bool
    ghost var trace: seq<nat>

    ghost function State(): MergeState<T>
      reads this
    {
      MergeState(pending, pulled, emitted, out, trace, failed)
    }

    constructor (sources: seq<Source<T>>)
      ensures this.sources == sources && State() == StartMerge(|sources|)
    {
      this.sources := sources;
      pending := Indices(|sources|);
      pulled, emitted := seq(|sources|, i => 1), seq(|sources|, i => 0);
      out, trace, failed := [], [], false;
    }

    /** The settled race: idx is the winner, and its result is an item, the end of its source, or an error. */
    method OnRace(idx: nat)
      requires !failed && idx in pending && MergeShape(sources, State())
      modifies this
      ensures State() == RaceWon(sources, old(State()), idx)
    {
      match sources[idx](emitted[idx])
      case End =>
        pending := pending - {idx};
      case Reject =>
        failed := true;
      case Item(x) =>
        out, trace := out + [x], trace + [idx];
        emitted := emitted[idx := emitted[idx] + 1];
        pulled := pulled[idx := pulled[idx] + 1];
    }
  }

  // ---- scan ----

  datatype ScanOutput<S, F> = ScanOutput(prev: S, next: S, fact: F)

  lemma FoldLeftStart<S, F>(facts: seq<F>, reducer: (S, F) -> S, init: S)
    ensures FoldArray.FoldLeft(reducer, init, facts[..0]) == init
  {
  }

  lemma FoldLeftStep<S, F>(facts: seq<F>, n: nat, reducer: (S, F) -> S, init: S)
    requires n < |facts|
    ensures FoldArray.FoldLeft(reducer, init, facts[..n + 1])
         == reducer(FoldArray.FoldLeft(reducer, init, facts[..n]), facts[n])
  {
    assert facts[..n + 1][..n] == facts[..n];
  }

  /**
   * scan: the n-th output carries the n-th fact, the left fold of the reducer over the facts before it, and
   * the fold including it.
   */
  method Scan<S, F>(facts: seq<F>, reducer: (S, F) -> S, init: S) returns (out: seq<ScanOutput<S, F>>)
    ensures |out| == |facts|
    ensures forall n | 0 <= n < |facts| ::
      && out[n].fact == facts[n]
      && out[n].prev == FoldArray.FoldLeft(reducer, init, facts[..n])
      && out[n].next == FoldArray.FoldLeft(reducer, init, facts[..n + 1])
    ensures forall n | 0 <= n < |facts| - 1 :: out[n].next == out[n + 1].prev
  {
    hide FoldArray.FoldLeft;
    out := [];
    var s := init;
    FoldLeftStart(facts, reducer, init);
    for i := 0 to |facts|
      invariant |out| == i
      invariant s == FoldArray.FoldLeft(reducer, init, facts[..i])
      invariant forall n | 0 <= n < i ::
        && out[n].fact == facts[n]
        && out[n].prev == FoldArray.FoldLeft(reducer, init, facts[..n])
        && out[n].next == FoldArray.FoldLeft(reducer, init, facts[..n + 1])
    {
      FoldLeftStep(facts, i, reducer, init);
      var prev := s;
      s := reducer(s, facts[i]);
      out := out + [ScanOutput(prev, s, facts[i])];
    }
  }

  /** Scanning with the chain reducer yields the chain states of Chain.Run. */
  lemma {:induction false} ScanIsRun(facts: seq<Chain.Fact>)
    ensures FoldArray.FoldLeft(Chain.ReduceChain, Chain.INITIAL_CHAIN, facts) == Chain.Run(facts)
  {
    if facts != [] {
      ScanIsRun(facts[..|facts| - 1]);
    }
  }
}
