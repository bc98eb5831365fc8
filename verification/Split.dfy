/**
 * Splitting by a predicate on the accumulated measure: packages/finger-tree/src/split.ts.
 */
module Split {
  import opened Monoids
  import opened FingerTree
  import opened FoldArray

  /** NotFound is the undefined result; Thrown is the error of splitTree on an empty tree. */
  datatype SplitResult<V, A> = NotFound | Thrown | Found(left: Tree<V, A>, value: Elem<V, A>, right: Tree<V, A>)

  datatype DigitSplit<E> = DigitSplit(left: seq<E>, value: E, right: seq<E>)

  /** Where splitDigitArr cuts: the first hit of p, or the last element when the loop falls through. */
  function SplitIndex<V, A>(m: Measured<V, A>, p: V -> bool, acc: V, xs: seq<Elem<V, A>>): (i: nat)
    requires xs != []
    ensures i < |xs|
  {
    var next := m.append(acc, Measure(m, xs[0]));
    if p(next) || |xs| == 1 then 0 else 1 + SplitIndex(m, p, next, xs[1..])
  }

  function SplitDigitArr<V, A>(m: Measured<V, A>, p: V -> bool, acc: V, xs: seq<Elem<V, A>>): DigitSplit<Elem<V, A>>
    requires xs != []
  {
    var i := SplitIndex(m, p, acc, xs);
    DigitSplit(xs[..i], xs[i], xs[i + 1..])
  }

  /** An array as a digit; the precondition is the throw on every other length. */
  function ArrToDigit<E>(xs: seq<E>): Digit<E>
    requires 1 <= |xs| <= 4
  {
    match |xs|
    case 1 => One(xs[0])
    case 2 => Two(xs[0], xs[1])
    case 3 => Three(xs[0], xs[1], xs[2])
    case _ => Four(xs[0], xs[1], xs[2], xs[3])
  }

  function DeepLArr<V, A>(
    m: Measured<V, A>, pr: seq<Elem<V, A>>, mid: Tree<V, A>, sf: Digit<Elem<V, A>>): Tree<V, A>
    requires |pr| <= 4
  {
    if pr != [] then MkDeep(m, ArrToDigit(pr), mid, sf) else
    match Viewl(m, mid)
    case NilL => FromElems(m, DigitToArray(sf))
    case ConsL(head, tail) => MkDeep(m, NodeToDigit(head), tail, sf)
  }

  function DeepRArr<V, A>(
    m: Measured<V, A>, pr: Digit<Elem<V, A>>, mid: Tree<V, A>, sf: seq<Elem<V, A>>): Tree<V, A>
    requires |sf| <= 4
  {
    if sf != [] then MkDeep(m, pr, mid, ArrToDigit(sf)) else
    match Viewr(m, mid)
    case NilR => FromElems(m, DigitToArray(pr))
    case SnocR(init, last) => MkDeep(m, pr, init, NodeToDigit(last))
  }

  function SplitTree<V, A>(m: Measured<V, A>, p: V -> bool, acc: V, t: Tree<V, A>): SplitResult<V, A>
    decreases t
  {
    match t
    case Single(e) => Found(Empty, e, Empty)
    case Empty => Thrown
    case Deep(_, pr, mid, sf) =>
      var accPr := m.append(acc, DigitMeasure(m, pr));
      var accMid := m.append(accPr, MeasureTree(m, mid));
      if p(accPr) then
        var ds := SplitDigitArr(m, p, acc, DigitToArray(pr));
        Found(FromElems(m, ds.left), ds.value, DeepLArr(m, ds.right, mid, sf))
      else if p(accMid) then
        match SplitTree(m, p, accPr, mid)
        case NotFound => NotFound
        case Thrown => Thrown
        case Found(left, node, right) =>
          var ds := SplitDigitArr(m, p, m.append(accPr, MeasureTree(m, left)), NodeToArray(node));
          Found(DeepRArr(m, pr, left, ds.left), ds.value, DeepLArr(m, ds.right, right, sf))
      else
        var ds := SplitDigitArr(m, p, accMid, DigitToArray(sf));
        Found(DeepRArr(m, pr, mid, ds.left), ds.value, FromElems(m, ds.right))
  }

  function SplitAt<V, A>(m: Measured<V, A>, p: V -> bool, t: Tree<V, A>): SplitResult<V, A> {
    if t.Empty? || !p(MeasureTree(m, t)) then NotFound else SplitTree(m, p, m.empty, t)
  }

  function TakeUntil<V, A>(m: Measured<V, A>, p: V -> bool, t: Tree<V, A>): Tree<V, A> {
    var s := SplitAt(m, p, t);
    if s.Found? then s.left else t
  }

  function DropUntil<V, A>(m: Measured<V, A>, p: V -> bool, t: Tree<V, A>): Tree<V, A> {
    var s := SplitAt(m, p, t);
    if s.Found? then Cons(m, s.value, s.right) else Empty
  }

  /** p holds once the loop has accumulated the element at index j. */
  ghost predicate HitAt<V, A>(m: Measured<V, A>, p: V -> bool, acc: V, xs: seq<Elem<V, A>>, j: int) {
    0 <= j < |xs| && p(Running(m, acc, xs[..j + 1]))
  }

  lemma SplitIndexStep<V, A>(m: Measured<V, A>, p: V -> bool, acc: V, xs: seq<Elem<V, A>>, i: nat)
    requires i < |xs|
    ensures Running(m, acc, xs[..i + 1]) == m.append(Running(m, acc, xs[..i]), Measure(m, xs[i]))
    ensures HitAt(m, p, acc, xs, i) || i + 1 == |xs| ==> SplitIndex(m, p, Running(m, acc, xs[..i]), xs[i..]) == 0
    ensures !HitAt(m, p, acc, xs, i) && i + 1 < |xs| ==>
      SplitIndex(m, p, Running(m, acc, xs[..i]), xs[i..])
        == 1 + SplitIndex(m, p, Running(m, acc, xs[..i + 1]), xs[i + 1..])
  {
    assert xs[..i + 1][..i] == xs[..i];
    assert xs[i..][1..] == xs[i + 1..];
  }

  /**
   * splitDigitArr by its loop. fellThrough reports the branch after the loop; it is taken exactly when
   * p holds after no element.
   */
  method SplitDigitArrByLoop<V, A>(m: Measured<V, A>, p: V -> bool, acc: V, xs: seq<Elem<V, A>>)
    returns (ds: DigitSplit<Elem<V, A>>, fellThrough: bool)
    requires xs != []
    ensures ds == SplitDigitArr(m, p, acc, xs)
    ensures fellThrough <==> forall j | 0 <= j < |xs| :: !HitAt(m, p, acc, xs, j)
  {
    hide SplitIndex, Running;
    var running := acc;
    var i := 0;
    assert xs[0..] == xs;
    RunningNothing(m, acc, xs);
    while i < |xs|
      invariant 0 <= i <= |xs|
      invariant running == Running(m, acc, xs[..i])
      invariant forall j | 0 <= j < i :: !HitAt(m, p, acc, xs, j)
      invariant i < |xs| ==> SplitIndex(m, p, acc, xs) == i + SplitIndex(m, p, running, xs[i..])
      invariant i == |xs| ==> SplitIndex(m, p, acc, xs) == |xs| - 1
    {
      var next := m.append(running, Measure(m, xs[i]));
      SplitIndexStep(m, p, acc, xs, i);
      if p(next) {
        assert HitAt(m, p, acc, xs, i);
        return DigitSplit(xs[..i], xs[i], xs[i + 1..]), false;
      }
      running := next;
      i := i + 1;
    }
    return DigitSplit(xs[..|xs| - 1], xs[|xs| - 1], []), true;
  }

  lemma RunningNothing<V, A>(m: Measured<V, A>, acc: V, xs: seq<Elem<V, A>>)
    ensures Running(m, acc, xs[..0]) == acc
  {
  }

  lemma {:induction false} RunningIsAfter<V(!new), A(!new)>(m: Measured<V, A>, d: nat, acc: V, xs: seq<Elem<V, A>>)
    requires Lawful(m) && m.has(acc) && ElemsOk(m, d, xs)
    ensures Running(m, acc, xs) == After(m, acc, LeavesOf(xs))
    decreases |xs|
  {
    hide Fold, Lawful, ElemOk, LeavesOf;
    if xs == [] {
      AfterNothing(m, acc);
      assert LeavesOf(xs) == [] by { EmptySliceLeaves(xs); assert xs[..0] == xs; }
    } else {
      var k := |xs| - 1;
      RunningIsAfter(m, d, acc, xs[..k]);
      MeasureIsFold(m, d, xs[k]);
      LeavesOfSnoc(xs, k);
      assert xs[..k + 1] == xs;
      AfterAppend(m, acc, LeavesOf(xs[..k]), Leaves(xs[k]));
    }
  }

  /** The branch after the loop is unreachable whenever p holds of everything accumulated. */
  lemma FallThroughUnreachable<V(!new), A(!new)>(
    m: Measured<V, A>, d: nat, p: V -> bool, acc: V, xs: seq<Elem<V, A>>)
    requires Lawful(m) && m.has(acc) && ElemsOk(m, d, xs) && xs != [] && p(After(m, acc, LeavesOf(xs)))
    ensures exists j | 0 <= j < |xs| :: HitAt(m, p, acc, xs, j)
  {
    hide Fold, Lawful, ElemOk, LeavesOf, Running;
    RunningIsAfter(m, d, acc, xs);
    assert xs[..|xs|] == xs;
    assert HitAt(m, p, acc, xs, |xs| - 1);
  }

  /** The accumulator of the loop after the elements xs. */
  ghost function Running<V, A>(m: Measured<V, A>, acc: V, xs: seq<Elem<V, A>>): V {
    if xs == [] then acc else m.append(Running(m, acc, xs[..|xs| - 1]), Measure(m, xs[|xs| - 1]))
  }

  /** The accumulated measure acc followed by the sequence xs. */
  ghost function After<V, A>(m: Measured<V, A>, acc: V, xs: seq<A>): V {
    m.append(acc, Fold(m, xs))
  }

  lemma AfterAppend<V(!new), A(!new)>(m: Measured<V, A>, acc: V, xs: seq<A>, ys: seq<A>)
    requires Lawful(m) && m.has(acc)
    ensures m.has(After(m, acc, xs))
    ensures After(m, After(m, acc, xs), ys) == After(m, acc, xs + ys)
  {
    FoldHas(m, xs);
    FoldHas(m, ys);
    assert ClosedAt(m, acc, Fold(m, xs));
    FoldAppend(m, xs, ys);
    assert AssocAt(m, acc, Fold(m, xs), Fold(m, ys));
  }

  lemma AfterNothing<V(!new), A(!new)>(m: Measured<V, A>, acc: V)
    requires Lawful(m) && m.has(acc)
    ensures After(m, acc, []) == acc
  {
    assert UnitAt(m, acc);
  }

  lemma AfterEmpty<V(!new), A(!new)>(m: Measured<V, A>, xs: seq<A>)
    requires Lawful(m)
    ensures After(m, m.empty, xs) == Fold(m, xs) && m.has(m.empty)
  {
    FoldHas(m, xs);
    assert UnitAt(m, Fold(m, xs));
  }

  /**
   * The cut of an array: when p holds after all of it, the loop stops at the first element after which
   * p holds, so the branch that falls through is not taken.
   */
  lemma {:induction false} SplitIndexCorrect<V(!new), A(!new)>(
    m: Measured<V, A>, d: nat, p: V -> bool, acc: V, xs: seq<Elem<V, A>>)
    requires Lawful(m) && m.has(acc) && ElemsOk(m, d, xs) && xs != []
    requires p(After(m, acc, LeavesOf(xs)))
    ensures var i := SplitIndex(m, p, acc, xs);
      && p(After(m, acc, LeavesOf(xs[..i]) + Leaves(xs[i])))
      && (i > 0 ==> !p(After(m, acc, LeavesOf(xs[..i]))))
      && LeavesOf(xs[..i]) + Leaves(xs[i]) + LeavesOf(xs[i + 1..]) == LeavesOf(xs)
    decreases |xs|
  {
    hide Fold, ElemOk, Lawful;
    var i := SplitIndex(m, p, acc, xs);
    var next := m.append(acc, Measure(m, xs[0]));
    MeasureIsFold(m, d, xs[0]);
    assert next == After(m, acc, Leaves(xs[0]));
    assert xs[..i] + [xs[i]] + xs[i + 1..] == xs;
    LeavesOfAppend(xs[..i] + [xs[i]], xs[i + 1..]);
    LeavesOfAppend(xs[..i], [xs[i]]);
    LeavesOfSingleton(xs[i]);
    if i == 0 {
      assert [] + Leaves(xs[0]) == Leaves(xs[0]);
      assert |xs| == 1 ==> xs == [xs[0]];
      LeavesOfSingleton(xs[0]);
    } else {
      var rest := xs[1..];
      AfterAppend(m, acc, Leaves(xs[0]), LeavesOf(rest));
      SplitIndexCorrect(m, d, p, next, rest);
      assert rest[..i - 1] == xs[..i][1..] && rest[i - 1] == xs[i];
      AfterAppend(m, acc, Leaves(xs[0]), LeavesOf(rest[..i - 1]) + Leaves(xs[i]));
      AfterAppend(m, acc, Leaves(xs[0]), LeavesOf(rest[..i - 1]));
      Regroup(Leaves(xs[0]), LeavesOf(rest[..i - 1]), Leaves(xs[i]));
      if i == 1 {
        assert LeavesOf(xs[..1]) == Leaves(xs[0]) by { assert xs[..1] == [xs[0]]; LeavesOfSingleton(xs[0]); }
      }
    }
  }

  lemma ArrToDigitCorrect<V, A>(m: Measured<V, A>, d: nat, xs: seq<Elem<V, A>>)
    requires 1 <= |xs| <= 4 && ElemsOk(m, d, xs)
    ensures DigitOk(m, d, ArrToDigit(xs)) && DigitLeaves(ArrToDigit(xs)) == LeavesOf(xs)
  {
    hide Fold, Lawful, ElemOk, DigitLeaves, LeavesOf;
    assert DigitToArray(ArrToDigit(xs)) == xs;
    DigitAsArray(ArrToDigit(xs));
    DigitArrayOk(m, d, ArrToDigit(xs));
  }

  lemma DeepLArrCorrect<V(!new), A(!new)>(
    m: Measured<V, A>, d: nat, pr: seq<Elem<V, A>>, mid: Tree<V, A>, sf: Digit<Elem<V, A>>)
    requires Lawful(m) && |pr| <= 4 && ElemsOk(m, d, pr) && TreeOk(m, d + 1, mid) && DigitOk(m, d, sf)
    ensures TreeOk(m, d, DeepLArr(m, pr, mid, sf))
    ensures TreeLeaves(DeepLArr(m, pr, mid, sf)) == LeavesOf(pr) + TreeLeaves(mid) + DigitLeaves(sf)
  {
    hide Fold, Lawful, ElemOk, DigitOk, DigitLeaves, NodeToDigit, DigitToArray, Leaves;
    if pr != [] {
      ArrToDigitCorrect(m, d, pr);
      MkDeepOk(m, d, ArrToDigit(pr), mid, sf);
    } else {
      ViewlCorrect(m, d + 1, mid);
      match Viewl(m, mid) {
        case NilL =>
          DigitAsArray(sf);
          DigitArrayOk(m, d, sf);
          FromElemsCorrect(m, d, DigitToArray(sf));
        case ConsL(head, tail) =>
          NodeUnpacked(m, d + 1, head);
          MkDeepOk(m, d, NodeToDigit(head), tail, sf);
      }
    }
  }

  lemma DeepRArrCorrect<V(!new), A(!new)>(
    m: Measured<V, A>, d: nat, pr: Digit<Elem<V, A>>, mid: Tree<V, A>, sf: seq<Elem<V, A>>)
    requires Lawful(m) && |sf| <= 4 && ElemsOk(m, d, sf) && TreeOk(m, d + 1, mid) && DigitOk(m, d, pr)
    ensures TreeOk(m, d, DeepRArr(m, pr, mid, sf))
    ensures TreeLeaves(DeepRArr(m, pr, mid, sf)) == DigitLeaves(pr) + TreeLeaves(mid) + LeavesOf(sf)
  {
    hide Fold, Lawful, ElemOk, DigitOk, DigitLeaves, NodeToDigit, DigitToArray, Leaves;
    if sf != [] {
      ArrToDigitCorrect(m, d, sf);
      MkDeepOk(m, d, pr, mid, ArrToDigit(sf));
    } else {
      ViewrCorrect(m, d + 1, mid);
      match Viewr(m, mid) {
        case NilR =>
          DigitAsArray(pr);
          DigitArrayOk(m, d, pr);
          FromElemsCorrect(m, d, DigitToArray(pr));
        case SnocR(init, last) =>
          NodeUnpacked(m, d + 1, last);
          MkDeepOk(m, d, pr, init, NodeToDigit(last));
          Regroup(DigitLeaves(pr), TreeLeaves(init), Leaves(last));
      }
    }
  }

  /** What a split of t at accumulator acc must be. */
  ghost predicate GoodSplit<V, A>(
    m: Measured<V, A>, d: nat, p: V -> bool, acc: V, leaves: seq<A>, s: SplitResult<V, A>)
  {
    && s.Found?
    && TreeOk(m, d, s.left) && ElemOk(m, d, s.value) && TreeOk(m, d, s.right)
    && TreeLeaves(s.left) + Leaves(s.value) + TreeLeaves(s.right) == leaves
    && p(After(m, acc, TreeLeaves(s.left) + Leaves(s.value)))
    && (p(After(m, acc, TreeLeaves(s.left))) ==> TreeLeaves(s.left) == [])
  }

  lemma {:induction false} SplitTreeCorrect<V(!new), A(!new)>(
    m: Measured<V, A>, d: nat, p: V -> bool, acc: V, t: Tree<V, A>)
    requires Lawful(m) && m.has(acc) && TreeOk(m, d, t) && !t.Empty?
    requires p(After(m, acc, TreeLeaves(t)))
    ensures GoodSplit(m, d, p, acc, TreeLeaves(t), SplitTree(m, p, acc, t))
    decreases t
  {
    if t.Single? {
      assert [] + Leaves(t.e) + [] == [] + Leaves(t.e) == Leaves(t.e);
    } else {
      var accPr := m.append(acc, DigitMeasure(m, t.prefix));
      var accMid := m.append(accPr, MeasureTree(m, t.middle));
      Accumulated(m, d, acc, t);
      if p(accPr) {
        SplitInPrefix(m, d, p, acc, t);
      } else if p(accMid) {
        if t.middle.Empty? {
          AfterNothing(m, accPr);
          assert false;
        }
        SplitTreeCorrect(m, d + 1, p, accPr, t.middle);
        SplitInMiddle(m, d, p, acc, t, SplitTree(m, p, accPr, t.middle));
      } else {
        SplitInSuffix(m, d, p, acc, t);
      }
    }
  }

  /** The three accumulators that splitTree compares are the measures of three growing prefixes. */
  lemma Accumulated<V(!new), A(!new)>(m: Measured<V, A>, d: nat, acc: V, t: Tree<V, A>)
    requires Lawful(m) && m.has(acc) && TreeOk(m, d, t) && t.Deep?
    ensures var accPr := m.append(acc, DigitMeasure(m, t.prefix));
      var accMid := m.append(accPr, MeasureTree(m, t.middle));
      && m.has(accPr) && m.has(accMid)
      && accPr == After(m, acc, DigitLeaves(t.prefix))
      && accMid == After(m, accPr, TreeLeaves(t.middle))
      && accMid == After(m, acc, DigitLeaves(t.prefix) + TreeLeaves(t.middle))
      && After(m, accMid, DigitLeaves(t.suffix)) == After(m, acc, TreeLeaves(t))
  {
    hide Fold, Lawful, ElemOk, DigitMeasure;
    DigitMeasureIsFold(m, d, t.prefix);
    MeasureTreeIsFold(m, d + 1, t.middle);
    AfterAppend(m, acc, DigitLeaves(t.prefix), TreeLeaves(t.middle));
    AfterAppend(m, acc, DigitLeaves(t.prefix) + TreeLeaves(t.middle), DigitLeaves(t.suffix));
  }

  lemma SubArraysOk<V, A>(m: Measured<V, A>, d: nat, xs: seq<Elem<V, A>>, i: nat)
    requires ElemsOk(m, d, xs) && i < |xs|
    ensures ElemsOk(m, d, xs[..i]) && ElemOk(m, d, xs[i]) && ElemsOk(m, d, xs[i + 1..])
  {
  }

  lemma RegroupPrefix<A>(l: seq<A>, v: seq<A>, r: seq<A>, mid: seq<A>, sf: seq<A>)
    ensures l + v + (r + mid + sf) == (l + v + r) + mid + sf
  {
  }

  lemma RegroupMiddle<A>(pr: seq<A>, ml: seq<A>, l: seq<A>, v: seq<A>, r: seq<A>, mr: seq<A>, sf: seq<A>)
    ensures (pr + ml + l) + v + (r + mr + sf) == pr + (ml + (l + v + r) + mr) + sf
  {
  }

  lemma SplitInPrefix<V(!new), A(!new)>(m: Measured<V, A>, d: nat, p: V -> bool, acc: V, t: Tree<V, A>)
    requires Lawful(m) && m.has(acc) && TreeOk(m, d, t) && t.Deep?
    requires p(m.append(acc, DigitMeasure(m, t.prefix)))
    ensures GoodSplit(m, d, p, acc, TreeLeaves(t), SplitTree(m, p, acc, t))
  {
    hide Fold, ElemOk, DigitLeaves, DigitMeasure, Leaves, FromElems, DeepLArr, Lawful, After, SplitIndex;
    Accumulated(m, d, acc, t);
    var es := DigitToArray(t.prefix);
    DigitAsArray(t.prefix);
    DigitArrayOk(m, d, t.prefix);
    SplitIndexCorrect(m, d, p, acc, es);
    var i := SplitIndex(m, p, acc, es);
    SubArraysOk(m, d, es, i);
    FromElemsCorrect(m, d, es[..i]);
    DeepLArrCorrect(m, d, es[i + 1..], t.middle, t.suffix);
    RegroupPrefix(LeavesOf(es[..i]), Leaves(es[i]), LeavesOf(es[i + 1..]), TreeLeaves(t.middle), DigitLeaves(t.suffix));
  }

  lemma SplitInMiddle<V(!new), A(!new)>(
    m: Measured<V, A>, d: nat, p: V -> bool, acc: V, t: Tree<V, A>, s: SplitResult<V, A>)
    requires Lawful(m) && m.has(acc) && TreeOk(m, d, t) && t.Deep?
    requires !p(m.append(acc, DigitMeasure(m, t.prefix)))
    requires p(m.append(m.append(acc, DigitMeasure(m, t.prefix)), MeasureTree(m, t.middle)))
    requires s == SplitTree(m, p, m.append(acc, DigitMeasure(m, t.prefix)), t.middle)
    requires GoodSplit(m, d + 1, p, m.append(acc, DigitMeasure(m, t.prefix)), TreeLeaves(t.middle), s)
    ensures GoodSplit(m, d, p, acc, TreeLeaves(t), SplitTree(m, p, acc, t))
  {
    hide Fold, ElemOk, DigitLeaves, DigitMeasure, Leaves, FromElems, DeepLArr, DeepRArr, NodeToArray, Lawful, After,
         MeasureTree, LeavesOf, SplitIndex;
    var accPr := m.append(acc, DigitMeasure(m, t.prefix));
    Accumulated(m, d, acc, t);
    var accLeft := m.append(accPr, MeasureTree(m, s.left));
    MeasureTreeIsFold(m, d + 1, s.left);
    AccumulatedLeft(m, acc, accPr, accLeft, DigitLeaves(t.prefix), s.left);
    var es := NodeToArray(s.value);
    NodeArrayOk(m, d, s.value);
    AfterAppend(m, accPr, TreeLeaves(s.left), Leaves(s.value));
    SplitIndexCorrect(m, d, p, accLeft, es);
    var i := SplitIndex(m, p, accLeft, es);
    SubArraysOk(m, d, es, i);
    DeepRArrCorrect(m, d, t.prefix, s.left, es[..i]);
    DeepLArrCorrect(m, d, es[i + 1..], s.right, t.suffix);
    var front := DigitLeaves(t.prefix) + TreeLeaves(s.left);
    AfterAppend(m, acc, front, LeavesOf(es[..i]) + Leaves(es[i]));
    AfterAppend(m, acc, front, LeavesOf(es[..i]));
    Regroup(front, LeavesOf(es[..i]), Leaves(es[i]));
    RegroupMiddle(DigitLeaves(t.prefix), TreeLeaves(s.left), LeavesOf(es[..i]), Leaves(es[i]),
                  LeavesOf(es[i + 1..]), TreeLeaves(s.right), DigitLeaves(t.suffix));
    if i == 0 {
      EmptySliceLeaves(es);
      assert front + [] == front;
      if TreeLeaves(s.left) == [] {
        AfterNothing(m, accPr);
      }
    }
  }

  lemma EmptySliceLeaves<V, A>(es: seq<Elem<V, A>>)
    ensures LeavesOf(es[..0]) == []
  {
  }

  lemma NodeArrayOk<V, A>(m: Measured<V, A>, d: nat, e: Elem<V, A>)
    requires ElemOk(m, d + 1, e)
    ensures 2 <= |NodeToArray(e)| <= 3
    ensures ElemsOk(m, d, NodeToArray(e)) && LeavesOf(NodeToArray(e)) == Leaves(e)
  {
    hide Fold, Lawful, DigitLeaves;
    NodeUnpacked(m, d + 1, e);
    DigitAsArray(NodeToDigit(e));
    DigitArrayOk(m, d, NodeToDigit(e));
  }

  lemma AccumulatedLeft<V(!new), A(!new)>(
    m: Measured<V, A>, acc: V, accPr: V, accLeft: V, pr: seq<A>, left: Tree<V, A>)
    requires Lawful(m) && m.has(acc) && accPr == After(m, acc, pr)
    requires accLeft == m.append(accPr, MeasureTree(m, left)) && MeasureTree(m, left) == Fold(m, TreeLeaves(left))
    ensures m.has(accPr) && m.has(accLeft)
    ensures accLeft == After(m, accPr, TreeLeaves(left)) == After(m, acc, pr + TreeLeaves(left))
  {
    hide Fold, Lawful, MeasureTree;
    AfterAppend(m, acc, pr, TreeLeaves(left));
    AfterAppend(m, accPr, TreeLeaves(left), []);
  }

  lemma SplitInSuffix<V(!new), A(!new)>(m: Measured<V, A>, d: nat, p: V -> bool, acc: V, t: Tree<V, A>)
    requires Lawful(m) && m.has(acc) && TreeOk(m, d, t) && t.Deep?
    requires p(After(m, acc, TreeLeaves(t)))
    requires !p(m.append(acc, DigitMeasure(m, t.prefix)))
    requires !p(m.append(m.append(acc, DigitMeasure(m, t.prefix)), MeasureTree(m, t.middle)))
    ensures GoodSplit(m, d, p, acc, TreeLeaves(t), SplitTree(m, p, acc, t))
  {
    hide Fold, ElemOk, DigitLeaves, DigitMeasure, Leaves, FromElems, DeepRArr, Lawful, After, LeavesOf, SplitIndex;
    Accumulated(m, d, acc, t);
    var front := DigitLeaves(t.prefix) + TreeLeaves(t.middle);
    var accMid := After(m, acc, front);
    var es := DigitToArray(t.suffix);
    DigitAsArray(t.suffix);
    DigitArrayOk(m, d, t.suffix);
    SplitIndexCorrect(m, d, p, accMid, es);
    var i := SplitIndex(m, p, accMid, es);
    SubArraysOk(m, d, es, i);
    DeepRArrCorrect(m, d, t.prefix, t.middle, es[..i]);
    FromElemsCorrect(m, d, es[i + 1..]);
    AfterAppend(m, acc, front, LeavesOf(es[..i]) + Leaves(es[i]));
    AfterAppend(m, acc, front, LeavesOf(es[..i]));
    Regroup(front, LeavesOf(es[..i]), Leaves(es[i]));
    Regroup(front, LeavesOf(es[..i]) + Leaves(es[i]), LeavesOf(es[i + 1..]));
    if i == 0 {
      EmptySliceLeaves(es);
      assert front + [] == front;
    }
  }

  /**
   * split on every valid tree. It returns undefined exactly when the tree is empty or p is false of its
   * measure, and never throws. Otherwise the three parts are valid and concatenate to the tree, p holds
   * once the value is counted, and p does not hold of the left part unless the left part is empty.
   */
  lemma SplitCorrect<V(!new), A(!new)>(m: Measured<V, A>, p: V -> bool, t: Tree<V, A>)
    requires Lawful(m) && TreeOk(m, 0, t)
    ensures SplitAt(m, p, t).NotFound? <==> t.Empty? || !p(MeasureTree(m, t))
    ensures SplitAt(m, p, t).Found? <==> !t.Empty? && p(MeasureTree(m, t))
    ensures var s := SplitAt(m, p, t); s.Found? ==>
      && TreeOk(m, 0, s.left) && ElemOk(m, 0, s.value) && TreeOk(m, 0, s.right)
      && TreeLeaves(s.left) + Leaves(s.value) + TreeLeaves(s.right) == TreeLeaves(t)
      && p(Fold(m, TreeLeaves(s.left) + Leaves(s.value)))
      && (!p(m.empty) ==> !p(Fold(m, TreeLeaves(s.left))))
  {
    hide Fold, Lawful, TreeOk, TreeLeaves, MeasureTree, ElemOk, SplitTree;
    if !t.Empty? && p(MeasureTree(m, t)) {
      MeasureTreeIsFold(m, 0, t);
      AfterEmpty(m, TreeLeaves(t));
      SplitTreeCorrect(m, 0, p, m.empty, t);
      var s := SplitAt(m, p, t);
      AfterEmpty(m, TreeLeaves(s.left));
      AfterEmpty(m, TreeLeaves(s.left) + Leaves(s.value));
      FoldOfNothing(m);
    }
  }

  lemma FoldOfNothing<V, A>(m: Measured<V, A>)
    ensures Fold(m, []) == m.empty
  {
  }

  /** p never turns back to false as the sequence grows. */
  ghost predicate Monotone<V, A>(m: Measured<V, A>, p: V -> bool, xs: seq<A>) {
    forall i, j | 0 <= i <= j <= |xs| :: p(Fold(m, xs[..i])) ==> p(Fold(m, xs[..j]))
  }

  /**
   * Under the documented preconditions the left part, and takeUntil, is the longest prefix of which p is
   * false: p is false of a prefix exactly when it is no longer than the left part.
   */
  lemma SplitAtFirst<V(!new), A(!new)>(m: Measured<V, A>, p: V -> bool, t: Tree<V, A>, n: nat)
    requires Lawful(m) && TreeOk(m, 0, t) && !p(m.empty) && Monotone(m, p, TreeLeaves(t))
    requires n <= |TreeLeaves(t)|
    ensures TakeUntil(m, p, t) == t || TreeLeaves(TakeUntil(m, p, t)) < TreeLeaves(t)
    ensures !p(Fold(m, TreeLeaves(t)[..n])) <==> n <= |TreeLeaves(TakeUntil(m, p, t))|
  {
    hide Fold, Lawful, TreeOk, TreeLeaves, ElemOk;
    var xs := TreeLeaves(t);
    var s := SplitAt(m, p, t);
    SplitCorrect(m, p, t);
    if s.Found? {
      var l := TreeLeaves(s.left);
      LeafLength(m, s.value);
      assert xs[..|l|] == l;
      assert xs[..|l| + 1] == l + Leaves(s.value);
      if n <= |l| {
        assert p(Fold(m, xs[..n])) ==> p(Fold(m, l));
      }
      if n > |l| {
        assert p(Fold(m, xs[..n]));
      }
    } else {
      assert xs[..|xs|] == xs;
      MeasureTreeIsFold(m, 0, t);
      if t.Empty? {
        EmptyHasNoLeaves(t);
        FoldOfNothing(m);
      }
      assert p(Fold(m, xs[..n])) ==> p(Fold(m, xs));
    }
  }

  lemma LeafLength<V, A>(m: Measured<V, A>, e: Elem<V, A>)
    requires ElemOk(m, 0, e)
    ensures |Leaves(e)| == 1
  {
  }

  lemma EmptyHasNoLeaves<V, A>(t: Tree<V, A>)
    requires t.Empty?
    ensures TreeLeaves(t) == []
  {
  }

  /** takeUntil and dropUntil cut a tree in two without losing anything. */
  lemma TakeDrop<V(!new), A(!new)>(m: Measured<V, A>, p: V -> bool, t: Tree<V, A>)
    requires Lawful(m) && TreeOk(m, 0, t)
    ensures TreeOk(m, 0, TakeUntil(m, p, t)) && TreeOk(m, 0, DropUntil(m, p, t))
    ensures TreeLeaves(TakeUntil(m, p, t)) + TreeLeaves(DropUntil(m, p, t)) == TreeLeaves(t)
  {
    hide Fold, Lawful, TreeOk, ElemOk, TreeLeaves, Cons, Leaves;
    SplitCorrect(m, p, t);
    var s := SplitAt(m, p, t);
    if s.Found? {
      ConsCorrect(m, 0, s.value, s.right);
      Regroup(TreeLeaves(s.left), Leaves(s.value), TreeLeaves(s.right));
    } else {
      EmptyTreeOk(m);
    }
  }

  lemma EmptyTreeOk<V, A>(m: Measured<V, A>)
    ensures TreeOk(m, 0, Empty) && TreeLeaves<V, A>(Empty) == []
  {
  }

  // ---- Recursion depth ----

  function Max(a: nat, b: nat): nat {
    if a < b then b else a
  }

  /**
   * How deep the calls of splitTree, viewl and viewr nest. A digit that is used up is refilled by viewl or
   * viewr on the middle, or on a part of the split middle. (fromArray snocs at most four elements, which
   * does not recurse.)
   */
  function SplitDepth<V, A>(m: Measured<V, A>, p: V -> bool, acc: V, t: Tree<V, A>): nat
    decreases t
  {
    if !t.Deep? then 1 else
    var accPr := m.append(acc, DigitMeasure(m, t.prefix));
    var accMid := m.append(accPr, MeasureTree(m, t.middle));
    if p(accPr) then
      1 + (if SplitDigitArr(m, p, acc, DigitToArray(t.prefix)).right == [] then ViewlDepth(t.middle) else 0)
    else if p(accMid) then
      var inner := SplitDepth(m, p, accPr, t.middle);
      match SplitTree(m, p, accPr, t.middle)
      case Found(left, node, right) =>
        var ds := SplitDigitArr(m, p, m.append(accPr, MeasureTree(m, left)), NodeToArray(node));
        1 + Max(inner, Max(if ds.left == [] then ViewrDepth(left) else 0, if ds.right == [] then ViewlDepth(right) else 0))
      case _ => 1 + inner
    else
      1 + (if SplitDigitArr(m, p, accMid, DigitToArray(t.suffix)).left == [] then ViewrDepth(t.middle) else 0)
  }

  lemma FewElemsAreShallow<V, A>(m: Measured<V, A>, xs: seq<Elem<V, A>>)
    requires |xs| <= 4
    ensures DeepLevels(FromElems(m, xs)) <= 1
  {
    hide Measure, MkNode3;
    SmallTree(m, xs);
  }

  /** A tree of at most four elements has nothing in its middle. */
  lemma {:induction false} SmallTree<V, A>(m: Measured<V, A>, xs: seq<Elem<V, A>>)
    requires |xs| <= 4
    ensures var t := SnocAll(m, Empty, xs);
      && (xs == [] ==> t.Empty?)
      && (|xs| == 1 ==> t.Single?)
      && (|xs| >= 2 ==> t.Deep? && t.middle.Empty? && |DigitToArray(t.suffix)| == |xs| - 1)
    decreases |xs|
  {
    if xs != [] {
      SmallTree(m, xs[..|xs| - 1]);
    }
  }

  lemma DeepArrLevels<V, A>(
    m: Measured<V, A>, dg: Digit<Elem<V, A>>, mid: Tree<V, A>, es: seq<Elem<V, A>>)
    requires |es| <= 4
    ensures DeepLevels(DeepLArr(m, es, mid, dg)) <= 1 + DeepLevels(mid)
    ensures DeepLevels(DeepRArr(m, dg, mid, es)) <= 1 + DeepLevels(mid)
  {
    hide FromElems, Viewl, Viewr;
    FewElemsAreShallow(m, DigitToArray(dg));
    ViewLevels(m, mid);
  }

  /** The parts of a split have no more levels than the tree. */
  lemma {:induction false} SplitLevels<V, A>(m: Measured<V, A>, p: V -> bool, acc: V, t: Tree<V, A>)
    ensures var s := SplitTree(m, p, acc, t);
      s.Found? ==> DeepLevels(s.left) <= DeepLevels(t) && DeepLevels(s.right) <= DeepLevels(t)
    decreases t
  {
    hide FromElems, DeepLArr, DeepRArr, SplitIndex, DigitMeasure, MeasureTree;
    if t.Deep? {
      var accPr := m.append(acc, DigitMeasure(m, t.prefix));
      var accMid := m.append(accPr, MeasureTree(m, t.middle));
      if p(accPr) {
        var ds := SplitDigitArr(m, p, acc, DigitToArray(t.prefix));
        FewElemsAreShallow(m, ds.left);
        DeepArrLevels(m, t.suffix, t.middle, ds.right);
      } else if p(accMid) {
        SplitLevels(m, p, accPr, t.middle);
        var s := SplitTree(m, p, accPr, t.middle);
        if s.Found? {
          var ds := SplitDigitArr(m, p, m.append(accPr, MeasureTree(m, s.left)), NodeToArray(s.value));
          DeepArrLevels(m, t.prefix, s.left, ds.left);
          DeepArrLevels(m, t.suffix, s.right, ds.right);
        }
      } else {
        var ds := SplitDigitArr(m, p, accMid, DigitToArray(t.suffix));
        DeepArrLevels(m, t.prefix, t.middle, ds.left);
        FewElemsAreShallow(m, ds.right);
      }
    }
  }

  lemma {:induction false} SplitNestsByLevels<V, A>(m: Measured<V, A>, p: V -> bool, acc: V, t: Tree<V, A>)
    ensures SplitDepth(m, p, acc, t) <= DeepLevels(t) + 1
    decreases t
  {
    hide SplitTree, SplitDigitArr, DigitMeasure, MeasureTree, ViewlDepth, ViewrDepth;
    if t.Deep? {
      EndsNestByLevels(t.middle);
      var accPr := m.append(acc, DigitMeasure(m, t.prefix));
      SplitNestsByLevels(m, p, accPr, t.middle);
      SplitLevels(m, p, accPr, t.middle);
      var s := SplitTree(m, p, accPr, t.middle);
      if s.Found? {
        EndsNestByLevels(s.left);
        EndsNestByLevels(s.right);
      }
    }
  }

  /** Splitting a tree of n leaves nests its calls at most log2(n + 2) deep. */
  lemma SplitNestsLogarithmically<V, A>(m: Measured<V, A>, p: V -> bool, t: Tree<V, A>)
    requires TreeOk(m, 0, t)
    ensures Pow2(SplitDepth(m, p, m.empty, t)) <= |TreeLeaves(t)| + 2
  {
    hide TreeOk, TreeLeaves, SplitDepth;
    LogarithmicDepth(m, t);
    SplitNestsByLevels(m, p, m.empty, t);
    Pow2Grows(SplitDepth(m, p, m.empty, t), DeepLevels(t) + 1);
  }
}
