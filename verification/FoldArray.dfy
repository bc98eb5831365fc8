/**
 * Trees and arrays: packages/finger-tree/src/fold.ts.
 *
 * toArray appends to one output array while it walks the tree; fromArray, foldl and foldr are loops.
 */
module FoldArray {
  import opened Monoids
  import opened FingerTree

  /** The output array that the walk appends to. */
  class Sink<A> {
    var out: seq<A>

    constructor ()
      ensures out == []
    {
      out := [];
    }
  }

  method PushElement<V, A>(e: Elem<V, A>, depth: nat, sink: Sink<A>)
    requires NestedElem(depth, e)
    modifies sink
    ensures sink.out == old(sink.out) + Leaves(e)
    decreases e
  {
    if depth == 0 {
      sink.out := sink.out + [e.value];
    } else {
      var children := NodeToArray(e);
      NodeChildren(e, depth);
      assert children[..0] == [];
      for i := 0 to |children|
        invariant sink.out == old(sink.out) + LeavesOf(children[..i])
      {
        PushElement(children[i], depth - 1, sink);
        LeavesOfSnoc(children, i);
      }
      assert children[..|children|] == children;
    }
  }

  method PushDigitElements<V, A>(dg: Digit<Elem<V, A>>, depth: nat, sink: Sink<A>)
    requires NestedDigit(depth, dg)
    modifies sink
    ensures sink.out == old(sink.out) + DigitLeaves(dg)
  {
    hide NestedDigit, DigitLeaves;
    var xs := DigitToArray(dg);
    DigitChildren(dg, depth);
    assert xs[..0] == [];
    for i := 0 to |xs|
      invariant sink.out == old(sink.out) + LeavesOf(xs[..i])
    {
      PushElement(xs[i], depth, sink);
      LeavesOfSnoc(xs, i);
    }
    assert xs[..|xs|] == xs;
  }

  method PushTree<V, A>(t: Tree<V, A>, depth: nat, sink: Sink<A>)
    requires Nested(depth, t)
    modifies sink
    ensures sink.out == old(sink.out) + TreeLeaves(t)
    decreases t
  {
    hide NestedDigit, DigitLeaves;
    match t
    case Empty =>
    case Single(e) => PushElement(e, depth, sink);
    case Deep(_, pr, mid, sf) =>
      ghost var before := sink.out;
      PushDigitElements(pr, depth, sink);
      PushTree(mid, depth + 1, sink);
      PushDigitElements(sf, depth, sink);
      Regroup(before, DigitLeaves(pr), TreeLeaves(mid));
      Regroup(before, DigitLeaves(pr) + TreeLeaves(mid), DigitLeaves(sf));
  }

  /** toArray lists exactly the leaves, left to right. */
  method ToArray<V, A>(t: Tree<V, A>) returns (result: seq<A>)
    requires Nested(0, t)
    ensures result == TreeLeaves(t)
  {
    var sink := new Sink<A>();
    PushTree(t, 0, sink);
    result := sink.out;
  }

  lemma NodeChildren<V, A>(e: Elem<V, A>, d: nat)
    requires d > 0 && NestedElem(d, e)
    ensures LeavesOf(NodeToArray(e)) == Leaves(e)
    ensures forall i | 0 <= i < |NodeToArray(e)| :: NestedElem(d - 1, NodeToArray(e)[i]) && NodeToArray(e)[i] < e
  {
    DigitAsArray(NodeToDigit(e));
  }

  lemma DigitChildren<V, A>(dg: Digit<Elem<V, A>>, d: nat)
    requires NestedDigit(d, dg)
    ensures LeavesOf(DigitToArray(dg)) == DigitLeaves(dg)
    ensures forall i | 0 <= i < |DigitToArray(dg)| :: NestedElem(d, DigitToArray(dg)[i])
  {
    DigitAsArray(dg);
  }

  lemma LeavesOfSnoc<V, A>(es: seq<Elem<V, A>>, i: nat)
    requires i < |es|
    ensures LeavesOf(es[..i + 1]) == LeavesOf(es[..i]) + Leaves(es[i])
  {
    assert es[..i + 1] == es[..i] + [es[i]];
    LeavesOfAppend(es[..i], [es[i]]);
    LeavesOfSingleton(es[i]);
  }

  // ---- fromArray ----

  function SnocAll<V, A>(m: Measured<V, A>, t: Tree<V, A>, xs: seq<Elem<V, A>>): Tree<V, A> {
    if xs == [] then t else Snoc(m, SnocAll(m, t, xs[..|xs| - 1]), xs[|xs| - 1])
  }

  function FromElems<V, A>(m: Measured<V, A>, xs: seq<Elem<V, A>>): Tree<V, A> {
    SnocAll(m, Empty, xs)
  }

  function AsLeaves<V, A>(xs: seq<A>): seq<Elem<V, A>> {
    seq(|xs|, i requires 0 <= i < |xs| => Leaf(xs[i]))
  }

  lemma {:induction false} SnocAllCorrect<V(!new), A(!new)>(
    m: Measured<V, A>, d: nat, t: Tree<V, A>, xs: seq<Elem<V, A>>)
    requires Lawful(m) && TreeOk(m, d, t) && ElemsOk(m, d, xs)
    ensures TreeOk(m, d, SnocAll(m, t, xs))
    ensures TreeLeaves(SnocAll(m, t, xs)) == TreeLeaves(t) + LeavesOf(xs)
    decreases |xs|
  {
    hide Fold, Lawful, TreeOk, TreeLeaves, ElemOk, Snoc;
    if xs == [] {
    } else {
      var k := |xs| - 1;
      SnocAllCorrect(m, d, t, xs[..k]);
      SnocCorrect(m, d, SnocAll(m, t, xs[..k]), xs[k]);
      LeavesOfSnoc(xs, k);
      assert xs[..k + 1] == xs;
    }
  }

  lemma {:induction false} LeavesOfAsLeaves<V, A>(xs: seq<A>)
    ensures LeavesOf(AsLeaves<V, A>(xs)) == xs
  {
    if xs != [] {
      var es := AsLeaves<V, A>(xs);
      assert es[1..] == AsLeaves<V, A>(xs[1..]);
      LeavesOfAsLeaves<V, A>(xs[1..]);
      assert xs == [xs[0]] + xs[1..];
    }
  }

  /** fromArray by its loop; toArray undoes it. */
  method FromArray<V, A>(m: Measured<V, A>, xs: seq<Elem<V, A>>) returns (t: Tree<V, A>)
    ensures t == FromElems(m, xs)
  {
    t := Empty;
    assert xs[..0] == [];
    for i := 0 to |xs|
      invariant t == FromElems(m, xs[..i])
    {
      t := Snoc(m, t, xs[i]);
      assert xs[..i + 1][..i] == xs[..i];
    }
    assert xs[..|xs|] == xs;
  }

  lemma FromElemsCorrect<V(!new), A(!new)>(m: Measured<V, A>, d: nat, xs: seq<Elem<V, A>>)
    requires Lawful(m) && ElemsOk(m, d, xs)
    ensures TreeOk(m, d, FromElems(m, xs))
    ensures TreeLeaves(FromElems(m, xs)) == LeavesOf(xs)
  {
    hide Fold, Lawful, ElemOk, Snoc;
    SnocAllCorrect(m, d, Empty, xs);
  }

  /** Building a tree from an array and listing it again gives the array back. */
  lemma FromArrayRoundTrip<V(!new), A(!new)>(m: Measured<V, A>, xs: seq<A>)
    requires Lawful(m)
    ensures TreeOk(m, 0, FromElems(m, AsLeaves<V, A>(xs)))
    ensures TreeLeaves(FromElems(m, AsLeaves<V, A>(xs))) == xs
    ensures MeasureTree(m, FromElems(m, AsLeaves<V, A>(xs))) == Fold(m, xs)
  {
    hide Fold, Lawful, Snoc, SnocAll, TreeOk, TreeLeaves;
    var es := AsLeaves<V, A>(xs);
    assert ElemsOk(m, 0, es);
    FromElemsCorrect(m, 0, es);
    LeavesOfAsLeaves<V, A>(xs);
    MeasureTreeIsFold(m, 0, FromElems(m, es));
  }

  // ---- foldl, foldr ----

  function FoldLeft<A, B>(f: (B, A) -> B, z: B, xs: seq<A>): B {
    if xs == [] then z else f(FoldLeft(f, z, xs[..|xs| - 1]), xs[|xs| - 1])
  }

  function FoldRight<A, B>(f: (A, B) -> B, xs: seq<A>, z: B): B {
    if xs == [] then z else f(xs[0], FoldRight(f, xs[1..], z))
  }

  method Foldl<V, A, B>(t: Tree<V, A>, f: (B, A) -> B, z: B) returns (acc: B)
    requires Nested(0, t)
    ensures acc == FoldLeft(f, z, TreeLeaves(t))
  {
    var arr := ToArray(t);
    acc := z;
    assert arr[..0] == [];
    for i := 0 to |arr|
      invariant acc == FoldLeft(f, z, arr[..i])
    {
      acc := f(acc, arr[i]);
      assert arr[..i + 1][..i] == arr[..i];
    }
    assert arr[..|arr|] == arr;
  }

  method Foldr<V, A, B>(t: Tree<V, A>, f: (A, B) -> B, z: B) returns (acc: B)
    requires Nested(0, t)
    ensures acc == FoldRight(f, TreeLeaves(t), z)
  {
    var arr := ToArray(t);
    acc := z;
    var i := |arr| - 1;
    assert arr[|arr|..] == [];
    while i >= 0
      invariant -1 <= i < |arr|
      invariant acc == FoldRight(f, arr[i + 1..], z)
    {
      acc := f(arr[i], acc);
      assert arr[i..][1..] == arr[i + 1..];
      i := i - 1;
    }
    assert arr[0..] == arr;
  }

  /** The right fold hands the elements over in order: with the list constructor it gives the list back. */
  lemma {:induction false} FoldrIsList<A>(xs: seq<A>)
    ensures FoldRight((x: A, ys: seq<A>) => [x] + ys, xs, []) == xs
  {
    if xs != [] {
      FoldrIsList(xs[1..]);
    }
  }

  lemma {:induction false} FoldLeftIsFold<V, A>(m: Measured<V, A>, xs: seq<A>)
    ensures FoldLeft((v: V, a: A) => m.append(v, m.measure(a)), m.empty, xs) == Fold(m, xs)
  {
    if xs != [] {
      FoldLeftIsFold(m, xs[..|xs| - 1]);
    }
  }

  /** Folding a valid tree with the append of a lawful monoid gives the measure that the tree has cached. */
  lemma FoldlIsMeasure<V(!new), A(!new)>(m: Measured<V, A>, t: Tree<V, A>)
    requires Lawful(m) && TreeOk(m, 0, t)
    ensures FoldLeft((v: V, a: A) => m.append(v, m.measure(a)), m.empty, TreeLeaves(t)) == MeasureTree(m, t)
  {
    FoldLeftIsFold(m, TreeLeaves(t));
    MeasureTreeIsFold(m, 0, t);
  }
}
