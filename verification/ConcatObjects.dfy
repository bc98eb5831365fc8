/**
 * Concatenation on heap objects: packages/finger-tree/src/concat.ts. The outer digits and the elements of
 * both trees are shared with the result, so what a cache knows of their nodes carries over.
 */
module ConcatObjects {
  import opened Monoids
  import opened FingerTree
  import opened FoldArray
  import opened Concat
  import opened TreeObjects

  lemma ShapesAppend<V, A>(xs: seq<ElemRef<V, A>>, ys: seq<ElemRef<V, A>>)
    ensures Shapes(xs + ys) == Shapes(xs) + Shapes(ys)
    ensures AllWf(xs) && AllWf(ys) ==> AllWf(xs + ys)
  {
  }

  method NodesObj<V, A>(m: Measured<V, A>, xs: seq<ElemRef<V, A>>) returns (ns: seq<ElemRef<V, A>>)
    requires |xs| >= 2 && AllWf(xs)
    ensures AllWf(ns) && Shapes(ns) == Nodes(m, Shapes(xs))
    decreases |xs|
  {
    hide ElemWf;
    if |xs| == 2 {
      var n := NewNode2(m, xs[0], xs[1]);
      ns := [n];
    } else if |xs| == 3 {
      var n := NewNode3(m, xs[0], xs[1], xs[2]);
      ns := [n];
    } else if |xs| == 4 {
      var n := NewNode2(m, xs[0], xs[1]);
      var n' := NewNode2(m, xs[2], xs[3]);
      ns := [n, n'];
    } else {
      var n := NewNode3(m, xs[0], xs[1], xs[2]);
      var rest := NodesObj(m, xs[3..]);
      assert Shapes(xs[3..]) == Shapes(xs)[3..];
      ShapesAppend([n], rest);
      ns := [n] + rest;
    }
  }

  method ConsAllObj<V, A>(m: Measured<V, A>, xs: seq<ElemRef<V, A>>, right: TreeRef<V, A>) returns (t: TreeRef<V, A>)
    requires AllWf(xs) && TreeWf(right)
    ensures TreeWf(t) && TreeShape(t) == ConsAll(m, Shapes(xs), TreeShape(right))
  {
    hide ElemWf, TreeWf, Cons;
    t := right;
    var i := |xs| - 1;
    assert Shapes(xs[|xs|..]) == [];
    while i >= 0
      invariant -1 <= i < |xs|
      invariant TreeWf(t) && TreeShape(t) == ConsAll(m, Shapes(xs[i + 1..]), TreeShape(right))
    {
      t := ConsObj(m, xs[i], t);
      assert Shapes(xs[i..])[1..] == Shapes(xs[i + 1..]) && Shapes(xs[i..])[0] == ElemShape(xs[i]);
      i := i - 1;
    }
    assert xs[0..] == xs;
  }

  method SnocAllObj<V, A>(m: Measured<V, A>, left: TreeRef<V, A>, xs: seq<ElemRef<V, A>>) returns (t: TreeRef<V, A>)
    requires TreeWf(left) && AllWf(xs)
    ensures TreeWf(t) && TreeShape(t) == SnocAll(m, TreeShape(left), Shapes(xs))
  {
    hide ElemWf, TreeWf, Snoc;
    t := left;
    assert Shapes(xs[..0]) == [];
    for i := 0 to |xs|
      invariant TreeWf(t) && TreeShape(t) == SnocAll(m, TreeShape(left), Shapes(xs[..i]))
    {
      t := SnocObj(m, t, xs[i]);
      var es := Shapes(xs[..i + 1]);
      assert es[..i] == Shapes(xs[..i]) && es[i] == ElemShape(xs[i]);
    }
    assert xs[..|xs|] == xs;
  }

  method App3Obj<V, A>(m: Measured<V, A>, left: TreeRef<V, A>, mid: seq<ElemRef<V, A>>, right: TreeRef<V, A>)
    returns (t: TreeRef<V, A>)
    requires TreeWf(left) && AllWf(mid) && TreeWf(right)
    ensures TreeWf(t) && TreeShape(t) == App3(m, TreeShape(left), Shapes(mid), TreeShape(right))
    decreases Weight(TreeShape(left)) + Weight(TreeShape(right))
  {
    hide ElemWf, Cons, Snoc, ConsAll, SnocAll, Nodes, DigitMeasure;
    if left.EmptyRef? {
      t := ConsAllObj(m, mid, right);
    } else if right.EmptyRef? {
      t := SnocAllObj(m, left, mid);
    } else if left.SingleRef? {
      var rest := App3Obj(m, EmptyRef, mid, right);
      t := ConsObj(m, left.e, rest);
    } else if right.SingleRef? {
      var rest := App3Obj(m, left, mid, EmptyRef);
      t := SnocObj(m, rest, right.e);
    } else {
      var l, r := left.tree, right.tree;
      var sl, pr := DigitToArray(l.suffix), DigitToArray(r.prefix);
      DigitArrayShape(l.suffix);
      DigitArrayShape(r.prefix);
      ShapesAppend(sl, mid);
      ShapesAppend(sl + mid, pr);
      var ns := NodesObj(m, sl + mid + pr);
      var middle := App3Obj(m, l.middle, ns, r.middle);
      t := NewDeep(m, l.prefix, middle, r.suffix);
    }
  }

  method ConcatObj<V, A>(m: Measured<V, A>, left: TreeRef<V, A>, right: TreeRef<V, A>) returns (t: TreeRef<V, A>)
    requires TreeWf(left) && TreeWf(right)
    ensures TreeWf(t) && TreeShape(t) == Concatenate(m, TreeShape(left), TreeShape(right))
  {
    hide TreeWf, App3;
    t := App3Obj(m, left, [], right);
    assert Shapes<V, A>([]) == [];
  }
}
