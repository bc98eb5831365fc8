/**
 * Concatenation: packages/finger-tree/src/concat.ts.
 */
module Concat {
  import opened Monoids
  import opened FingerTree
  import opened FoldArray

  function ConsAll<V, A>(m: Measured<V, A>, xs: seq<Elem<V, A>>, t: Tree<V, A>): Tree<V, A> {
    if xs == [] then t else Cons(m, xs[0], ConsAll(m, xs[1..], t))
  }

  /** Packs elements into nodes. It is meant for two or more; that no caller passes fewer is checked here. */
  function Nodes<V, A>(m: Measured<V, A>, xs: seq<Elem<V, A>>): seq<Elem<V, A>>
    requires |xs| >= 2
  {
    if |xs| == 2 then [MkNode2(m, xs[0], xs[1])]
    else if |xs| == 3 then [MkNode3(m, xs[0], xs[1], xs[2])]
    else if |xs| == 4 then [MkNode2(m, xs[0], xs[1]), MkNode2(m, xs[2], xs[3])]
    else [MkNode3(m, xs[0], xs[1], xs[2])] + Nodes(m, xs[3..])
  }

  function Weight<V, A>(t: Tree<V, A>): nat {
    match t
    case Empty => 0
    case Single(_) => 1
    case Deep(_, _, mid, _) => 2 + Weight(mid)
  }

  function App3<V, A>(
    m: Measured<V, A>, left: Tree<V, A>, mid: seq<Elem<V, A>>, right: Tree<V, A>): Tree<V, A>
    decreases Weight(left) + Weight(right)
  {
    if left.Empty? then ConsAll(m, mid, right)
    else if right.Empty? then SnocAll(m, left, mid)
    else if left.Single? then Cons(m, left.e, App3(m, Empty, mid, right))
    else if right.Single? then Snoc(m, App3(m, left, mid, Empty), right.e)
    else
      var combined := DigitToArray(left.suffix) + mid + DigitToArray(right.prefix);
      MkDeep(m, left.prefix, App3(m, left.middle, Nodes(m, combined), right.middle), right.suffix)
  }

  function Concatenate<V, A>(m: Measured<V, A>, left: Tree<V, A>, right: Tree<V, A>): Tree<V, A> {
    App3(m, left, [], right)
  }

  /** The two empty cases of app3 by their loops. */
  method ConsAllByLoop<V, A>(m: Measured<V, A>, xs: seq<Elem<V, A>>, right: Tree<V, A>) returns (t: Tree<V, A>)
    ensures t == ConsAll(m, xs, right)
  {
    t := right;
    var i := |xs| - 1;
    assert xs[|xs|..] == [];
    while i >= 0
      invariant -1 <= i < |xs|
      invariant t == ConsAll(m, xs[i + 1..], right)
    {
      t := Cons(m, xs[i], t);
      assert xs[i..][1..] == xs[i + 1..];
      i := i - 1;
    }
    assert xs[0..] == xs;
  }

  method SnocAllByLoop<V, A>(m: Measured<V, A>, left: Tree<V, A>, xs: seq<Elem<V, A>>) returns (t: Tree<V, A>)
    ensures t == SnocAll(m, left, xs)
  {
    t := left;
    assert xs[..0] == [];
    for i := 0 to |xs|
      invariant t == SnocAll(m, left, xs[..i])
    {
      t := Snoc(m, t, xs[i]);
      assert xs[..i + 1][..i] == xs[..i];
    }
    assert xs[..|xs|] == xs;
  }

  lemma {:induction false} ConsAllCorrect<V(!new), A(!new)>(
    m: Measured<V, A>, d: nat, xs: seq<Elem<V, A>>, t: Tree<V, A>)
    requires Lawful(m) && TreeOk(m, d, t) && ElemsOk(m, d, xs)
    ensures TreeOk(m, d, ConsAll(m, xs, t))
    ensures TreeLeaves(ConsAll(m, xs, t)) == LeavesOf(xs) + TreeLeaves(t)
    decreases |xs|
  {
    hide Fold, Lawful, TreeOk, TreeLeaves, ElemOk, Cons;
    if xs != [] {
      ConsAllCorrect(m, d, xs[1..], t);
      ConsCorrect(m, d, xs[0], ConsAll(m, xs[1..], t));
    }
  }

  /** Packing keeps the flattening and lifts every element by exactly one level. */
  lemma {:induction false} NodesCorrect<V(!new), A(!new)>(m: Measured<V, A>, d: nat, xs: seq<Elem<V, A>>)
    requires Lawful(m) && |xs| >= 2 && ElemsOk(m, d, xs)
    ensures ElemsOk(m, d + 1, Nodes(m, xs))
    ensures LeavesOf(Nodes(m, xs)) == LeavesOf(xs)
    decreases |xs|
  {
    hide Fold, ElemOk, LeavesOf, Lawful;
    if |xs| == 2 {
      assert xs == DigitToArray(Two(xs[0], xs[1]));
      DigitAsArray(Two(xs[0], xs[1]));
      MkNode2Ok(m, d, xs[0], xs[1]);
      LeavesOfSingleton(MkNode2(m, xs[0], xs[1]));
    } else if |xs| == 4 {
      var n, n' := MkNode2(m, xs[0], xs[1]), MkNode2(m, xs[2], xs[3]);
      assert xs == DigitToArray(Four(xs[0], xs[1], xs[2], xs[3]));
      DigitAsArray(Four(xs[0], xs[1], xs[2], xs[3]));
      MkNode2Ok(m, d, xs[0], xs[1]);
      MkNode2Ok(m, d, xs[2], xs[3]);
      assert [n, n'] == DigitToArray(Two(n, n'));
      DigitAsArray(Two(n, n'));
      Regroup(Leaves(xs[0]) + Leaves(xs[1]), Leaves(xs[2]), Leaves(xs[3]));
    } else {
      var n := MkNode3(m, xs[0], xs[1], xs[2]);
      assert xs[..3] == DigitToArray(Three(xs[0], xs[1], xs[2]));
      DigitAsArray(Three(xs[0], xs[1], xs[2]));
      MkNode3Ok(m, d, xs[0], xs[1], xs[2]);
      LeavesOfSingleton(n);
      if |xs| == 3 {
        assert xs[..3] == xs;
      } else {
        NodesCorrect(m, d, xs[3..]);
        assert xs == xs[..3] + xs[3..];
        LeavesOfAppend(xs[..3], xs[3..]);
        LeavesOfAppend([n], Nodes(m, xs[3..]));
      }
    }
  }

  lemma ConcatRegroup<A>(pl: seq<A>, ml: seq<A>, sl: seq<A>, mid: seq<A>, pr: seq<A>, mr: seq<A>, sr: seq<A>)
    ensures pl + (ml + (sl + mid + pr) + mr) + sr == (pl + ml + sl) + mid + (pr + mr + sr)
  {
  }

  lemma {:induction false} App3Correct<V(!new), A(!new)>(
    m: Measured<V, A>, d: nat, left: Tree<V, A>, mid: seq<Elem<V, A>>, right: Tree<V, A>)
    requires Lawful(m) && TreeOk(m, d, left) && ElemsOk(m, d, mid) && TreeOk(m, d, right)
    ensures TreeOk(m, d, App3(m, left, mid, right))
    ensures TreeLeaves(App3(m, left, mid, right)) == TreeLeaves(left) + LeavesOf(mid) + TreeLeaves(right)
    decreases Weight(left) + Weight(right)
  {
    hide Fold, Lawful, ElemOk, LeavesOf, DigitLeaves, Cons, Snoc, ConsAll, SnocAll, Nodes, DigitMeasure;
    if left.Empty? {
      ConsAllCorrect(m, d, mid, right);
    } else if right.Empty? {
      SnocAllCorrect(m, d, left, mid);
    } else if left.Single? {
      App3Correct(m, d, Empty, mid, right);
      ConsCorrect(m, d, left.e, App3(m, Empty, mid, right));
      Regroup(Leaves(left.e), LeavesOf(mid), TreeLeaves(right));
    } else if right.Single? {
      App3Correct(m, d, left, mid, Empty);
      SnocCorrect(m, d, App3(m, left, mid, Empty), right.e);
    } else {
      App3DeepCase(m, d, left, mid, right);
    }
  }

  lemma {:induction false} App3DeepCase<V(!new), A(!new)>(
    m: Measured<V, A>, d: nat, left: Tree<V, A>, mid: seq<Elem<V, A>>, right: Tree<V, A>)
    requires Lawful(m) && TreeOk(m, d, left) && ElemsOk(m, d, mid) && TreeOk(m, d, right)
    requires left.Deep? && right.Deep?
    ensures TreeOk(m, d, App3(m, left, mid, right))
    ensures TreeLeaves(App3(m, left, mid, right)) == TreeLeaves(left) + LeavesOf(mid) + TreeLeaves(right)
    decreases Weight(left) + Weight(right), 0
  {
    hide Fold, ElemOk, LeavesOf, DigitLeaves, Lawful;
    var sl, pr := DigitToArray(left.suffix), DigitToArray(right.prefix);
    DigitArrayOk(m, d, left.suffix);
    DigitArrayOk(m, d, right.prefix);
    DigitAsArray(left.suffix);
    DigitAsArray(right.prefix);
    var combined := sl + mid + pr;
    LeavesOfAppend(sl, mid);
    LeavesOfAppend(sl + mid, pr);
    NodesCorrect(m, d, combined);
    var ns := Nodes(m, combined);
    App3Correct(m, d + 1, left.middle, ns, right.middle);
    MkDeepOk(m, d, left.prefix, App3(m, left.middle, ns, right.middle), right.suffix);
    ConcatRegroup(DigitLeaves(left.prefix), TreeLeaves(left.middle), DigitLeaves(left.suffix), LeavesOf(mid),
                  DigitLeaves(right.prefix), TreeLeaves(right.middle), DigitLeaves(right.suffix));
  }

  /** concat joins the two sequences in order, and its measure is the append of the two measures. */
  lemma ConcatCorrect<V(!new), A(!new)>(m: Measured<V, A>, left: Tree<V, A>, right: Tree<V, A>)
    requires Lawful(m) && TreeOk(m, 0, left) && TreeOk(m, 0, right)
    ensures TreeOk(m, 0, Concatenate(m, left, right))
    ensures TreeLeaves(Concatenate(m, left, right)) == TreeLeaves(left) + TreeLeaves(right)
    ensures MeasureTree(m, Concatenate(m, left, right)) == m.append(MeasureTree(m, left), MeasureTree(m, right))
  {
    hide Fold, Lawful, TreeOk, TreeLeaves, MeasureTree, App3;
    App3Correct(m, 0, left, [], right);
    MeasureTreeIsFold(m, 0, left);
    MeasureTreeIsFold(m, 0, right);
    MeasureTreeIsFold(m, 0, Concatenate(m, left, right));
    FoldAppend(m, TreeLeaves(left), TreeLeaves(right));
  }
}
