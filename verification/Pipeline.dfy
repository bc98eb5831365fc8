/**
 * The fact pipeline as a whole: a pushed queue is one of the sources of merge, and scan folds what merge
 * emits (packages/core/src/async-utils.ts).
 *
 * A run interleaves the steps of the queue with the races of merge. The queue is asked for its next value
 * only while merge has an unanswered request open, and wins a race only with a value it has delivered or
 * with its end.
 */
module Pipeline {
  import opened AsyncUtils
  import FoldArray

  datatype PipeStep<T> = OnQueue(step: QueueStep<T>) | OnRace(winner: nat)

  datatype PipeState<T> = PipeState(queue: QueueState<T>, merge: MergeState<T>)

  /** The request that merge has open for source i has not been answered. */
  predicate Requested<T>(s: PipeState<T>, i: nat)
    requires i < |s.merge.pulled|
  {
    i in s.merge.pending && |s.queue.delivered| < s.merge.pulled[i]
  }

  /** The queue has answered it. */
  predicate Answered<T>(s: PipeState<T>, i: nat)
    requires i < |s.merge.emitted|
  {
    s.merge.emitted[i] < |s.queue.delivered| || s.queue.consumer == Finished
  }

  predicate StepEnabled<T>(s: PipeState<T>, i: nat, step: PipeStep<T>)
    requires i < |s.merge.pulled| && i < |s.merge.emitted|
  {
    match step
    case OnQueue(q) => q.Next? ==> Requested(s, i)
    case OnRace(w) => w == i ==> Answered(s, i)
  }

  function PipeApply<T>(sources: seq<Source<T>>, s: PipeState<T>, i: nat, step: PipeStep<T>): PipeState<T>
    requires i < |sources| && |s.merge.pulled| == |s.merge.emitted| == |sources|
  {
    if !StepEnabled(s, i, step) then s else
    match step
    case OnQueue(q) => s.(queue := QueueApply(s.queue, q))
    case OnRace(w) => s.(merge := RaceWon(sources, s.merge, w))
  }

  function PipeRun<T>(sources: seq<Source<T>>, i: nat, aborted: bool, steps: seq<PipeStep<T>>): (s: PipeState<T>)
    requires i < |sources|
    ensures |s.merge.pulled| == |s.merge.emitted| == |sources|
  {
    if steps == [] then PipeState(NewQueue(aborted), StartMerge(|sources|))
    else PipeApply(sources, PipeRun(sources, i, aborted, steps[..|steps| - 1]), i, steps[|steps| - 1])
  }

  /** Source i is the queue: its answers are what the queue delivers, and its end. */
  ghost predicate Serves<T>(source: Source<T>, q: QueueState<T>) {
    && (forall k: nat | k < |q.delivered| :: source(k) == Item(q.delivered[k]))
    && (q.consumer == Finished ==> source(|q.delivered|) == End)
  }

  // ---- The two halves of a run ----

  /** The steps of the queue that take effect. */
  function QueueSteps<T>(sources: seq<Source<T>>, i: nat, aborted: bool, steps: seq<PipeStep<T>>): seq<QueueStep<T>>
    requires i < |sources|
  {
    if steps == [] then [] else
    var n := |steps| - 1;
    QueueSteps(sources, i, aborted, steps[..n])
    + (if steps[n].OnQueue? && StepEnabled(PipeRun(sources, i, aborted, steps[..n]), i, steps[n])
       then [steps[n].step] else [])
  }

  function Winners<T>(sources: seq<Source<T>>, i: nat, aborted: bool, steps: seq<PipeStep<T>>): seq<nat>
    requires i < |sources|
  {
    if steps == [] then [] else
    var n := |steps| - 1;
    Winners(sources, i, aborted, steps[..n])
    + (if steps[n].OnRace? && StepEnabled(PipeRun(sources, i, aborted, steps[..n]), i, steps[n])
       then [steps[n].winner] else [])
  }

  lemma {:induction false} RunIsHalves<T>(sources: seq<Source<T>>, i: nat, aborted: bool, steps: seq<PipeStep<T>>)
    requires i < |sources|
    ensures PipeRun(sources, i, aborted, steps).queue == QueueRun(aborted, QueueSteps(sources, i, aborted, steps))
    ensures PipeRun(sources, i, aborted, steps).merge == MergeRun(sources, Winners(sources, i, aborted, steps))
  {
    hide QueueApply, RaceWon, StepEnabled;
    if steps != [] {
      var n := |steps| - 1;
      var qs, ws := QueueSteps(sources, i, aborted, steps[..n]), Winners(sources, i, aborted, steps[..n]);
      RunIsHalves(sources, i, aborted, steps[..n]);
      assert qs + [] == qs && ws + [] == ws;
      match steps[n]
      case OnQueue(q) => assert (qs + [q])[..|qs|] == qs;
      case OnRace(w) => assert (ws + [w])[..|ws|] == ws;
    }
  }

  /** The steps of the queue, whether or not they take effect. */
  function ToQueue<T>(steps: seq<PipeStep<T>>): seq<QueueStep<T>> {
    if steps == [] then [] else
    var n := |steps| - 1;
    ToQueue(steps[..n]) + (if steps[n].OnQueue? then [steps[n].step] else [])
  }

  lemma PushedNext<T>(aborted: bool, qs: seq<QueueStep<T>>, q: QueueStep<T>)
    ensures PushedBeforeAbort(aborted, qs + [q])
         == PushedBeforeAbort(aborted, qs) + (if q.Push? && !aborted && !HasAbort(qs) then [q.value] else [])
    ensures HasAbort(qs + [q]) <==> HasAbort(qs) || q.Abort?
  {
    assert (qs + [q])[..|qs|] == qs;
    if HasAbort(qs) {
      var i :| 0 <= i < |qs| && qs[i].Abort?;
      assert (qs + [q])[i].Abort?;
    }
    assert (qs + [q])[|qs|] == q;
  }

  /** Every push and the abort take effect: merge holds back nothing but requests. */
  lemma {:induction false} PushesTakeEffect<T>(sources: seq<Source<T>>, i: nat, aborted: bool, steps: seq<PipeStep<T>>)
    requires i < |sources|
    ensures var qs := QueueSteps(sources, i, aborted, steps);
      && PushedBeforeAbort(aborted, qs) == PushedBeforeAbort(aborted, ToQueue(steps))
      && (HasAbort(qs) <==> HasAbort(ToQueue(steps)))
  {
    hide PushedBeforeAbort, HasAbort;
    if steps != [] {
      var n := |steps| - 1;
      var qs, all := QueueSteps(sources, i, aborted, steps[..n]), ToQueue(steps[..n]);
      PushesTakeEffect(sources, i, aborted, steps[..n]);
      assert qs + [] == qs && all + [] == all;
      if steps[n].OnQueue? {
        PushedNext(aborted, qs, steps[n].step);
        PushedNext(aborted, all, steps[n].step);
      }
      assert PushedBeforeAbort(aborted, all) + [] == PushedBeforeAbort(aborted, all);
    }
  }

  // ---- The link between them ----

  /** What the merge has taken the queue has delivered; it is at most one value ahead, and only when asked. */
  ghost predicate Linked<T>(s: PipeState<T>, i: nat)
    requires i < |s.merge.pulled| && i < |s.merge.emitted|
  {
    && s.merge.emitted[i] <= |s.queue.delivered| <= s.merge.emitted[i] + 1
    && (s.queue.consumer == Waiting || s.queue.consumer == Woken ==> |s.queue.delivered| == s.merge.emitted[i])
    && (i in s.merge.pending ==> s.merge.pulled[i] == s.merge.emitted[i] + 1)
    && (i !in s.merge.pending ==> s.queue.consumer == Finished && |s.queue.delivered| == s.merge.emitted[i])
  }

  lemma ServedBefore<T>(source: Source<T>, q: QueueState<T>, step: QueueStep<T>)
    requires Serves(source, QueueApply(q, step))
    ensures Serves(source, q)
  {
    var q' := QueueApply(q, step);
    assert forall k: nat | k < |q.delivered| :: q'.delivered[k] == q.delivered[k];
  }

  lemma LinkKept<T>(sources: seq<Source<T>>, s: PipeState<T>, i: nat, step: PipeStep<T>)
    requires i < |sources| && |s.merge.pulled| == |s.merge.emitted| == |sources|
    requires Linked(s, i) && Serves(sources[i], s.queue)
    ensures Linked(PipeApply(sources, s, i, step), i)
  {
    if step.OnRace? && step.winner == i && Answered(s, i) && s.merge.emitted[i] < |s.queue.delivered| {
      assert sources[i](s.merge.emitted[i]) == Item(s.queue.delivered[s.merge.emitted[i]]);
    }
  }

  lemma {:induction false} RunIsLinked<T>(sources: seq<Source<T>>, i: nat, aborted: bool, steps: seq<PipeStep<T>>)
    requires i < |sources| && Serves(sources[i], PipeRun(sources, i, aborted, steps).queue)
    ensures Linked(PipeRun(sources, i, aborted, steps), i)
  {
    hide Linked, Serves, QueueApply, RaceWon;
    if steps == [] {
      StartIsLinked(sources, i, aborted);
    } else {
      var n := |steps| - 1;
      var s := PipeRun(sources, i, aborted, steps[..n]);
      if steps[n].OnQueue? && StepEnabled(s, i, steps[n]) {
        ServedBefore(sources[i], s.queue, steps[n].step);
      }
      RunIsLinked(sources, i, aborted, steps[..n]);
      LinkKept(sources, s, i, steps[n]);
    }
  }

  lemma StartIsLinked<T>(sources: seq<Source<T>>, i: nat, aborted: bool)
    requires i < |sources|
    ensures Linked(PipeState(NewQueue<T>(aborted), StartMerge<T>(|sources|)), i)
  {
  }

  // ---- End to end ----

  lemma {:induction false} ItemsDelivered<T>(source: Source<T>, q: QueueState<T>, n: nat)
    requires Serves(source, q) && n <= |q.delivered|
    ensures Items(source, n) == q.delivered[..n]
  {
    if n > 0 {
      ItemsDelivered(source, q, n - 1);
    }
  }

  /**
   * Whatever the interleaving, what merge has emitted from the queue is a prefix of what was pushed before
   * the abort, in order; the queue runs at most one value ahead of merge; and once the queue has ended
   * everything pushed before the abort has been emitted.
   */
  lemma QueueReachesMerge<T>(sources: seq<Source<T>>, i: nat, aborted: bool, steps: seq<PipeStep<T>>)
    requires i < |sources| && Serves(sources[i], PipeRun(sources, i, aborted, steps).queue)
    ensures var s := PipeRun(sources, i, aborted, steps);
      var pushed := PushedBeforeAbort(aborted, ToQueue(steps));
      && |s.merge.out| == |s.merge.trace|
      && From(s.merge.out, s.merge.trace, i) <= pushed
      && |s.queue.delivered| <= s.merge.emitted[i] + 1
      && (i !in s.merge.pending ==> From(s.merge.out, s.merge.trace, i) == pushed)
  {
    hide From, PipeRun, QueueRun, MergeRun, QueueSteps, ToQueue, Winners, PushedBeforeAbort, Items, Serves;
    var s := PipeRun(sources, i, aborted, steps);
    var qs, ws := QueueSteps(sources, i, aborted, steps), Winners(sources, i, aborted, steps);
    RunIsHalves(sources, i, aborted, steps);
    RunIsLinked(sources, i, aborted, steps);
    QueueNeverLoses(aborted, qs);
    AcceptedIsPushed(aborted, qs);
    PushesTakeEffect(sources, i, aborted, steps);
    MergeShuffles(sources, ws);
    ItemsDelivered(sources[i], s.queue, s.merge.emitted[i]);
    assert From(s.merge.out, s.merge.trace, i) == s.queue.delivered[..s.merge.emitted[i]];
    assert s.queue.delivered[..s.merge.emitted[i]] <= s.queue.delivered + s.queue.buffer;
  }

  // ---- Draining ----

  /** Source i answers with these values and then ends. */
  ghost predicate Answers<T>(source: Source<T>, values: seq<T>) {
    (forall k: nat | k < |values| :: source(k) == Item(values[k])) && source(|values|) == End
  }

  lemma PipeNext<T>(sources: seq<Source<T>>, i: nat, aborted: bool, steps: seq<PipeStep<T>>, step: PipeStep<T>)
    requires i < |sources|
    ensures PipeRun(sources, i, aborted, steps + [step])
         == PipeApply(sources, PipeRun(sources, i, aborted, steps), i, step)
  {
    assert (steps + [step])[..|steps|] == steps;
  }

  /** A reachable state of an aborted queue whose source has not yet been dropped. */
  ghost predicate Draining<T>(sources: seq<Source<T>>, s: PipeState<T>, i: nat)
    requires i < |sources| && |s.merge.pulled| == |s.merge.emitted| == |sources|
  {
    && QueueOk(s.queue) && Linked(s, i) && Answers(sources[i], s.queue.accepted)
    && s.queue.done && i in s.merge.pending && !s.merge.failed
  }

  /** How many steps are left until the source is dropped. */
  ghost function Remaining<T>(s: PipeState<T>, i: nat): int
    requires i < |s.merge.emitted|
  {
    2 * |s.queue.accepted| - s.merge.emitted[i] - |s.queue.delivered| + (if s.queue.consumer == Finished then 1 else 2)
  }

  /** The queue hands over what it has delivered or its end, or else goes on. */
  function DrainStep<T>(s: PipeState<T>, i: nat): PipeStep<T>
    requires i < |s.merge.emitted|
  {
    if s.merge.emitted[i] < |s.queue.delivered| || s.queue.consumer == Finished then OnRace(i)
    else if s.queue.consumer == Idle then OnQueue(Next)
    else OnQueue(Resume)
  }

  lemma DrainStepDoes<T>(sources: seq<Source<T>>, s: PipeState<T>, i: nat)
    requires i < |sources| && |s.merge.pulled| == |s.merge.emitted| == |sources| && Draining(sources, s, i)
    ensures var s' := PipeApply(sources, s, i, DrainStep(s, i));
      && s'.queue.accepted == s.queue.accepted && s'.queue.done && !s'.merge.failed
      && Remaining(s, i) >= 1
      && (i in s'.merge.pending ==> Remaining(s', i) == Remaining(s, i) - 1)
      && (i !in s'.merge.pending <==> Remaining(s, i) == 1)
  {
    var q := s.queue;
    assert q.delivered + q.buffer == q.accepted;
    assert |q.delivered| < |q.accepted| ==> q.buffer != [];
    assert s.merge.emitted[i] < |q.delivered| ==> s.merge.emitted[i] < |q.accepted|;
  }

  lemma ServesWhatItHas<T>(source: Source<T>, q: QueueState<T>)
    requires QueueOk(q) && Answers(source, q.accepted)
    ensures Serves(source, q)
  {
    assert forall k | 0 <= k < |q.delivered| :: q.delivered[k] == q.accepted[k];
  }

  /**
   * After an abort, from every reachable state, the requests and races of the queue alone bring everything
   * that was pushed before the abort through the queue and merge, and then drop the queue.
   */
  lemma {:induction false} PipelineDrains<T>(sources: seq<Source<T>>, i: nat, aborted: bool, steps: seq<PipeStep<T>>)
    returns (rest: seq<PipeStep<T>>)
    requires i < |sources|
    requires var s := PipeRun(sources, i, aborted, steps);
      s.queue.done && i in s.merge.pending && !s.merge.failed && Answers(sources[i], s.queue.accepted)
    ensures forall k | 0 <= k < |rest| :: rest[k] == OnRace(i) || rest[k] == OnQueue(Next) || rest[k] == OnQueue(Resume)
    ensures |rest| == Remaining(PipeRun(sources, i, aborted, steps), i)
    ensures var s, s' := PipeRun(sources, i, aborted, steps), PipeRun(sources, i, aborted, steps + rest);
      && s'.queue.accepted == s.queue.accepted == PushedBeforeAbort(aborted, ToQueue(steps))
      && i !in s'.merge.pending
      && |s'.merge.out| == |s'.merge.trace| && From(s'.merge.out, s'.merge.trace, i) == s.queue.accepted
    decreases Remaining(PipeRun(sources, i, aborted, steps), i) + 1
  {
    hide PipeApply, PipeRun, Linked, From, ToQueue, PushedBeforeAbort, Serves, Answers, QueueOk;
    var s := PipeRun(sources, i, aborted, steps);
    var step := DrainStep(s, i);
    ReachableOk(sources, i, aborted, steps);
    DrainStepDoes(sources, s, i);
    PipeNext(sources, i, aborted, steps, step);
    if i in PipeRun(sources, i, aborted, steps + [step]).merge.pending {
      var tail := PipelineDrains(sources, i, aborted, steps + [step]);
      rest := [step] + tail;
      assert steps + rest == steps + [step] + tail;
    } else {
      rest := [step];
      DroppedHasAll(sources, i, aborted, steps + [step]);
    }
  }

  lemma ReachableOk<T>(sources: seq<Source<T>>, i: nat, aborted: bool, steps: seq<PipeStep<T>>)
    requires i < |sources| && Answers(sources[i], PipeRun(sources, i, aborted, steps).queue.accepted)
    ensures QueueOk(PipeRun(sources, i, aborted, steps).queue) && Linked(PipeRun(sources, i, aborted, steps), i)
    ensures PipeRun(sources, i, aborted, steps).queue.accepted == PushedBeforeAbort(aborted, ToQueue(steps))
  {
    hide PipeRun, QueueRun, QueueSteps, ToQueue, PushedBeforeAbort, Linked, Serves, Answers, QueueOk;
    AcceptedIsPushed(aborted, QueueSteps(sources, i, aborted, steps));
    PushesTakeEffect(sources, i, aborted, steps);
    RunIsHalves(sources, i, aborted, steps);
    QueueNeverLoses(aborted, QueueSteps(sources, i, aborted, steps));
    ServesWhatItHas(sources[i], PipeRun(sources, i, aborted, steps).queue);
    RunIsLinked(sources, i, aborted, steps);
  }

  lemma DroppedHasAll<T>(sources: seq<Source<T>>, i: nat, aborted: bool, steps: seq<PipeStep<T>>)
    requires i < |sources| && Answers(sources[i], PipeRun(sources, i, aborted, steps).queue.accepted)
    requires i !in PipeRun(sources, i, aborted, steps).merge.pending
    ensures var s := PipeRun(sources, i, aborted, steps);
      |s.merge.out| == |s.merge.trace| && From(s.merge.out, s.merge.trace, i) == s.queue.accepted
  {
    hide PipeRun, ToQueue, Serves, Answers, From, PushedBeforeAbort, QueueOk;
    ReachableOk(sources, i, aborted, steps);
    ServesWhatItHas(sources[i], PipeRun(sources, i, aborted, steps).queue);
    QueueReachesMerge(sources, i, aborted, steps);
  }

  /**
   * The pipeline end to end: the n-th state is the fold of the first n merged facts, and the facts that
   * were folded from the queue are the first of those pushed to it, in order.
   */
  method FoldPipeline<S, T>(
    sources: seq<Source<T>>, i: nat, aborted: bool, steps: seq<PipeStep<T>>, reducer: (S, T) -> S, init: S)
    returns (out: seq<ScanOutput<S, T>>)
    requires i < |sources| && Serves(sources[i], PipeRun(sources, i, aborted, steps).queue)
    ensures var m := PipeRun(sources, i, aborted, steps).merge;
      && |out| == |m.out| == |m.trace|
      && (forall n | 0 <= n < |out| ::
            out[n].fact == m.out[n] && out[n].next == FoldArray.FoldLeft(reducer, init, m.out[..n + 1]))
      && From(m.out, m.trace, i) <= PushedBeforeAbort(aborted, ToQueue(steps))
  {
    hide From, PipeRun, ToQueue, PushedBeforeAbort, Serves;
    QueueReachesMerge(sources, i, aborted, steps);
    out := Scan(PipeRun(sources, i, aborted, steps).merge.out, reducer, init);
  }
}
