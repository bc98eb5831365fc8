/**
 * Splitting on heap objects: packages/finger-tree/src/split.ts. Its deepL and deepR take an array for the
 * digit they may lack, and rebuild a digit that must stand alone through fromArray.
 */
module SplitObjects {
  import opened Monoids
  import opened Options
  import opened FingerTree
  import opened FoldArray
  import opened Split
  import opened TreeObjects

  lemma ArrToDigitShape<V, A>(xs: seq<ElemRef<V, A>>)
    requires 1 <= |xs| <= 4 && AllWf(xs)
    ensures DigitWf(ArrToDigit(xs)) && DigitShape(ArrToDigit(xs)) == ArrToDigit(Shapes(xs))
  {
  }

  method DigitArrToTreeObj<V, A>(m: Measured<V, A>, d: Digit<ElemRef<V, A>>) returns (t: TreeRef<V, A>)
    requires DigitWf(d)
    ensures TreeWf(t) && TreeShape(t) == FromElems(m, DigitToArray(DigitShape(d)))
  {
    hide ElemWf, SnocAll, Snoc;
    DigitArrayShape(d);
    t := FromElemsObj(m, DigitToArray(d));
  }

  method DeepLArrObj<V, A>(
    m: Measured<V, A>, pr: seq<ElemRef<V, A>>, mid: TreeRef<V, A>, sf: Digit<ElemRef<V, A>>)
    returns (t: TreeRef<V, A>)
    requires |pr| <= 4 && AllWf(pr) && TreeWf(mid) && DigitWf(sf)
    ensures TreeWf(t) && TreeShape(t) == DeepLArr(m, Shapes(pr), TreeShape(mid), DigitShape(sf))
  {
    hide Snoc, SnocAll, ElemWf;
    if pr != [] {
      ArrToDigitShape(pr);
      t := NewDeep(m, ArrToDigit(pr), mid, sf);
    } else {
      var head, tail := ViewlObj(m, mid);
      if head.None? {
        t := DigitArrToTreeObj(m, sf);
      } else {
        t := NewDeep(m, NodeRefToDigit(head.value), tail, sf);
      }
    }
  }

  method DeepRArrObj<V, A>(
    m: Measured<V, A>, pr: Digit<ElemRef<V, A>>, mid: TreeRef<V, A>, sf: seq<ElemRef<V, A>>)
    returns (t: TreeRef<V, A>)
    requires |sf| <= 4 && AllWf(sf) && TreeWf(mid) && DigitWf(pr)
    ensures TreeWf(t) && TreeShape(t) == DeepRArr(m, DigitShape(pr), TreeShape(mid), Shapes(sf))
  {
    hide Snoc, SnocAll, ElemWf;
    if sf != [] {
      ArrToDigitShape(sf);
      t := NewDeep(m, pr, mid, ArrToDigit(sf));
    } else {
      var init, last := ViewrObj(m, mid);
      if last.None? {
        t := DigitArrToTreeObj(m, pr);
      } else {
        t := NewDeep(m, pr, init, NodeRefToDigit(last.value));
      }
    }
  }

  datatype SplitRef<V, A> =
    NotFoundRef | ThrownRef | FoundRef(left: TreeRef<V, A>, value: ElemRef<V, A>, right: TreeRef<V, A>)

  ghost function SplitShape<V, A>(s: SplitRef<V, A>): SplitResult<V, A> {
    match s
    case NotFoundRef => NotFound
    case ThrownRef => Thrown
    case FoundRef(l, x, r) => Found(TreeShape(l), ElemShape(x), TreeShape(r))
  }

  ghost predicate SplitWf<V, A>(s: SplitRef<V, A>) {
    s.FoundRef? ==> TreeWf(s.left) && ElemWf(s.value) && TreeWf(s.right)
  }

  method SplitIndexObj<V, A>(m: Measured<V, A>, p: V -> bool, acc: V, xs: seq<ElemRef<V, A>>) returns (i: nat)
    requires xs != [] && AllWf(xs)
    ensures i < |xs| && i == SplitIndex(m, p, acc, Shapes(xs))
  {
    hide ElemWf;
    var running := acc;
    ghost var es := Shapes(xs);
    i := 0;
    while i + 1 < |xs|
      invariant i < |xs|
      invariant SplitIndex(m, p, acc, es) == i + SplitIndex(m, p, running, es[i..])
    {
      var next := m.append(running, MeasureRef(m, xs[i]));
      assert es[i] == ElemShape(xs[i]) && es[i..][1..] == es[i + 1..];
      if p(next) {
        return;
      }
      running, i := next, i + 1;
    }
  }

  function NodeRefToArray<V, A>(r: ElemRef<V, A>): (xs: seq<ElemRef<V, A>>)
    ensures 1 <= |xs| <= 3
    ensures ElemWf(r) ==> AllWf(xs) && Shapes(xs) == NodeToArray(ElemShape(r))
  {
    match r
    case LeafRef(_) => [r]
    case NodeRef(n) => if n.c.None? then [n.a, n.b] else [n.a, n.b, n.c.value]
  }

  lemma CutShapes<V, A>(xs: seq<ElemRef<V, A>>, i: nat)
    requires i < |xs| && AllWf(xs)
    ensures AllWf(xs[..i]) && Shapes(xs[..i]) == Shapes(xs)[..i]
    ensures ElemWf(xs[i]) && ElemShape(xs[i]) == Shapes(xs)[i]
    ensures AllWf(xs[i + 1..]) && Shapes(xs[i + 1..]) == Shapes(xs)[i + 1..]
  {
  }

  /** splitDigitArr: the cut at the first hit, on references. */
  method SplitArrObj<V, A>(m: Measured<V, A>, p: V -> bool, acc: V, xs: seq<ElemRef<V, A>>)
    returns (ds: DigitSplit<ElemRef<V, A>>)
    requires xs != [] && AllWf(xs)
    ensures |ds.left| < |xs| && |ds.right| < |xs| && AllWf(ds.left) && ElemWf(ds.value) && AllWf(ds.right)
    ensures SplitDigitArr(m, p, acc, Shapes(xs))
         == DigitSplit(Shapes(ds.left), ElemShape(ds.value), Shapes(ds.right))
  {
    hide ElemWf, SplitIndex;
    var i := SplitIndexObj(m, p, acc, xs);
    CutShapes(xs, i);
    ds := DigitSplit(xs[..i], xs[i], xs[i + 1..]);
  }

  method SplitTreeObj<V, A>(m: Measured<V, A>, p: V -> bool, acc: V, t: TreeRef<V, A>) returns (s: SplitRef<V, A>)
    requires TreeWf(t)
    ensures SplitWf(s) && SplitShape(s) == SplitTree(m, p, acc, TreeShape(t))
    decreases TreeShape(t)
  {
    hide ElemWf, SplitDigitArr, DeepLArr, DeepRArr, FromElems, DigitWf, DigitMeasure, DigitShape, AllWf;
    match t
    case SingleRef(e) => s := FoundRef(EmptyRef, e, EmptyRef);
    case EmptyRef => s := ThrownRef;
    case DeepRef(o) =>
      var accPr := m.append(acc, DigitMeasureRef(m, o.prefix));
      var accMid := m.append(accPr, MeasureTreeRef(m, o.middle));
      DigitArrayShape(o.prefix);
      DigitArrayShape(o.suffix);
      if p(accPr) {
        var ds := SplitArrObj(m, p, acc, DigitToArray(o.prefix));
        var left := FromElemsObj(m, ds.left);
        var right := DeepLArrObj(m, ds.right, o.middle, o.suffix);
        s := FoundRef(left, ds.value, right);
      } else if p(accMid) {
        var ms := SplitTreeObj(m, p, accPr, o.middle);
        if !ms.FoundRef? {
          return ms;
        }
        var ds := SplitArrObj(m, p, m.append(accPr, MeasureTreeRef(m, ms.left)), NodeRefToArray(ms.value));
        var left := DeepRArrObj(m, o.prefix, ms.left, ds.left);
        var right := DeepLArrObj(m, ds.right, ms.right, o.suffix);
        s := FoundRef(left, ds.value, right);
      } else {
        var ds := SplitArrObj(m, p, accMid, DigitToArray(o.suffix));
        var left := DeepRArrObj(m, o.prefix, o.middle, ds.left);
        var right := FromElemsObj(m, ds.right);
        s := FoundRef(left, ds.value, right);
      }
  }

  method SplitObj<V, A>(m: Measured<V, A>, p: V -> bool, t: TreeRef<V, A>) returns (s: SplitRef<V, A>)
    requires TreeWf(t)
    ensures SplitWf(s) && SplitShape(s) == SplitAt(m, p, TreeShape(t))
  {
    if t.EmptyRef? || !p(MeasureTreeRef(m, t)) {
      s := NotFoundRef;
    } else {
      s := SplitTreeObj(m, p, m.empty, t);
    }
  }
}
