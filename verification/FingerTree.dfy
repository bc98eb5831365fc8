/**
 * 2-3 finger trees with cached measures: packages/finger-tree/src/types.ts, node.ts, digit.ts, tree.ts.
 *
 * The TypeScript erases the nesting of the recursive type: the middle of a tree holds nodes of elements,
 * and code that must know how deep an element nests carries a depth. Here an element is a leaf or a node,
 * and TreeOk(m, d, t) says that every element of t nests exactly d deep and every cached annotation is
 * the fold of the leaves below it.
 */
module FingerTree {
  import opened Monoids
  import opened Options

  datatype Elem<V, A> =
    | Leaf(value: A)
    | Node2(v: V, a: Elem<V, A>, b: Elem<V, A>)
    | Node3(v: V, a: Elem<V, A>, b: Elem<V, A>, c: Elem<V, A>)

  datatype Digit<E> = One(a: E) | Two(a: E, b: E) | Three(a: E, b: E, c: E) | Four(a: E, b: E, c: E, d: E)

  datatype Tree<V, A> =
    | Empty
    | Single(e: Elem<V, A>)
    | Deep(v: V, prefix: Digit<Elem<V, A>>, middle: Tree<V, A>, suffix: Digit<Elem<V, A>>)

  datatype ViewL<V, A> = NilL | ConsL(head: Elem<V, A>, tail: Tree<V, A>)
  datatype ViewR<V, A> = NilR | SnocR(init: Tree<V, A>, last: Elem<V, A>)

  // ---- Meaning ----

  ghost function Leaves<V, A>(e: Elem<V, A>): seq<A> {
    match e
    case Leaf(x) => [x]
    case Node2(_, a, b) => Leaves(a) + Leaves(b)
    case Node3(_, a, b, c) => Leaves(a) + Leaves(b) + Leaves(c)
  }

  ghost function LeavesOf<V, A>(es: seq<Elem<V, A>>): seq<A> {
    if es == [] then [] else Leaves(es[0]) + LeavesOf(es[1..])
  }

  ghost function DigitLeaves<V, A>(dg: Digit<Elem<V, A>>): seq<A> {
    match dg
    case One(a) => Leaves(a)
    case Two(a, b) => Leaves(a) + Leaves(b)
    case Three(a, b, c) => Leaves(a) + Leaves(b) + Leaves(c)
    case Four(a, b, c, e) => Leaves(a) + Leaves(b) + Leaves(c) + Leaves(e)
  }

  ghost function TreeLeaves<V, A>(t: Tree<V, A>): seq<A> {
    match t
    case Empty => []
    case Single(e) => Leaves(e)
    case Deep(_, pr, mid, sf) => DigitLeaves(pr) + TreeLeaves(mid) + DigitLeaves(sf)
  }

  ghost predicate ElemOk<V, A>(m: Measured<V, A>, d: nat, e: Elem<V, A>) {
    match e
    case Leaf(_) => d == 0
    case Node2(v, a, b) => d > 0 && ElemOk(m, d - 1, a) && ElemOk(m, d - 1, b) && v == Fold(m, Leaves(e))
    case Node3(v, a, b, c) =>
      d > 0 && ElemOk(m, d - 1, a) && ElemOk(m, d - 1, b) && ElemOk(m, d - 1, c) && v == Fold(m, Leaves(e))
  }

  ghost predicate ElemsOk<V, A>(m: Measured<V, A>, d: nat, es: seq<Elem<V, A>>) {
    forall i | 0 <= i < |es| :: ElemOk(m, d, es[i])
  }

  ghost predicate DigitOk<V, A>(m: Measured<V, A>, d: nat, dg: Digit<Elem<V, A>>) {
    match dg
    case One(a) => ElemOk(m, d, a)
    case Two(a, b) => ElemOk(m, d, a) && ElemOk(m, d, b)
    case Three(a, b, c) => ElemOk(m, d, a) && ElemOk(m, d, b) && ElemOk(m, d, c)
    case Four(a, b, c, e) => ElemOk(m, d, a) && ElemOk(m, d, b) && ElemOk(m, d, c) && ElemOk(m, d, e)
  }

  ghost predicate TreeOk<V, A>(m: Measured<V, A>, d: nat, t: Tree<V, A>)
    decreases t
  {
    match t
    case Empty => true
    case Single(e) => ElemOk(m, d, e)
    case Deep(v, pr, mid, sf) =>
      && DigitOk(m, d, pr)
      && TreeOk(m, d + 1, mid)
      && DigitOk(m, d, sf)
      && v == Fold(m, TreeLeaves(t))
  }

  /** The depth half of TreeOk, for the code that walks a tree of unknown measure. */
  ghost predicate NestedElem<V, A>(d: nat, e: Elem<V, A>) {
    match e
    case Leaf(_) => d == 0
    case Node2(_, a, b) => d > 0 && NestedElem(d - 1, a) && NestedElem(d - 1, b)
    case Node3(_, a, b, c) => d > 0 && NestedElem(d - 1, a) && NestedElem(d - 1, b) && NestedElem(d - 1, c)
  }

  ghost predicate NestedDigit<V, A>(d: nat, dg: Digit<Elem<V, A>>) {
    match dg
    case One(a) => NestedElem(d, a)
    case Two(a, b) => NestedElem(d, a) && NestedElem(d, b)
    case Three(a, b, c) => NestedElem(d, a) && NestedElem(d, b) && NestedElem(d, c)
    case Four(a, b, c, e) => NestedElem(d, a) && NestedElem(d, b) && NestedElem(d, c) && NestedElem(d, e)
  }

  ghost predicate Nested<V, A>(d: nat, t: Tree<V, A>)
    decreases t
  {
    match t
    case Empty => true
    case Single(e) => NestedElem(d, e)
    case Deep(_, pr, mid, sf) => NestedDigit(d, pr) && Nested(d + 1, mid) && NestedDigit(d, sf)
  }

  lemma {:induction false} ElemOkIsNested<V, A>(m: Measured<V, A>, d: nat, e: Elem<V, A>)
    requires ElemOk(m, d, e)
    ensures NestedElem(d, e)
    decreases e
  {
    match e
    case Leaf(_) =>
    case Node2(_, a, b) => ElemOkIsNested(m, d - 1, a); ElemOkIsNested(m, d - 1, b);
    case Node3(_, a, b, c) =>
      ElemOkIsNested(m, d - 1, a); ElemOkIsNested(m, d - 1, b); ElemOkIsNested(m, d - 1, c);
  }

  lemma DigitOkIsNested<V, A>(m: Measured<V, A>, d: nat, dg: Digit<Elem<V, A>>)
    requires DigitOk(m, d, dg)
    ensures NestedDigit(d, dg)
  {
    ElemOkIsNested(m, d, dg.a);
    if !dg.One? { ElemOkIsNested(m, d, dg.b); }
    if dg.Three? || dg.Four? { ElemOkIsNested(m, d, dg.c); }
    if dg.Four? { ElemOkIsNested(m, d, dg.d); }
  }

  lemma {:induction false} TreeOkIsNested<V, A>(m: Measured<V, A>, d: nat, t: Tree<V, A>)
    requires TreeOk(m, d, t)
    ensures Nested(d, t)
    decreases t
  {
    hide Fold, Lawful;
    match t
    case Empty =>
    case Single(e) => ElemOkIsNested(m, d, e);
    case Deep(_, pr, mid, sf) =>
      DigitOkIsNested(m, d, pr);
      TreeOkIsNested(m, d + 1, mid);
      DigitOkIsNested(m, d, sf);
  }

  // ---- Nodes and digits ----

  /** The measure of an element at its level: the caller's measure of a leaf, the annotation of a node. */
  function Measure<V, A>(m: Measured<V, A>, e: Elem<V, A>): V {
    match e
    case Leaf(x) => m.measure(x)
    case Node2(v, _, _) => v
    case Node3(v, _, _, _) => v
  }

  function MkNode2<V, A>(m: Measured<V, A>, a: Elem<V, A>, b: Elem<V, A>): Elem<V, A> {
    Node2(m.append(Measure(m, a), Measure(m, b)), a, b)
  }

  function MkNode3<V, A>(m: Measured<V, A>, a: Elem<V, A>, b: Elem<V, A>, c: Elem<V, A>): Elem<V, A> {
    Node3(m.append(m.append(Measure(m, a), Measure(m, b)), Measure(m, c)), a, b, c)
  }

  /** Only nodes are ever unpacked in a tree of uniform depth; the leaf case is not reached there. */
  function NodeToArray<V, A>(e: Elem<V, A>): seq<Elem<V, A>> {
    match e
    case Leaf(_) => [e]
    case Node2(_, a, b) => [a, b]
    case Node3(_, a, b, c) => [a, b, c]
  }

  function NodeToDigit<V, A>(e: Elem<V, A>): Digit<Elem<V, A>> {
    match e
    case Leaf(_) => One(e)
    case Node2(_, a, b) => Two(a, b)
    case Node3(_, a, b, c) => Three(a, b, c)
  }

  function DigitToArray<E>(d: Digit<E>): seq<E> {
    match d
    case One(a) => [a]
    case Two(a, b) => [a, b]
    case Three(a, b, c) => [a, b, c]
    case Four(a, b, c, e) => [a, b, c, e]
  }

  function DigitMeasure<V, A>(m: Measured<V, A>, d: Digit<Elem<V, A>>): V {
    match d
    case One(a) => Measure(m, a)
    case Two(a, b) => m.append(Measure(m, a), Measure(m, b))
    case Three(a, b, c) => m.append(m.append(Measure(m, a), Measure(m, b)), Measure(m, c))
    case Four(a, b, c, e) =>
      m.append(m.append(m.append(Measure(m, a), Measure(m, b)), Measure(m, c)), Measure(m, e))
  }

  // ConsDigit and SnocDigit throw on a four, DigitTail and DigitInit on a one. Each precondition below is
  // such a throw, so that no caller reaches it is checked at every call.

  function ConsDigit<E>(a: E, d: Digit<E>): Digit<E>
    requires !d.Four?
  {
    match d
    case One(x) => Two(a, x)
    case Two(x, y) => Three(a, x, y)
    case Three(x, y, z) => Four(a, x, y, z)
  }

  function SnocDigit<E>(d: Digit<E>, a: E): Digit<E>
    requires !d.Four?
  {
    match d
    case One(x) => Two(x, a)
    case Two(x, y) => Three(x, y, a)
    case Three(x, y, z) => Four(x, y, z, a)
  }

  function DigitTail<E>(d: Digit<E>): Digit<E>
    requires !d.One?
  {
    match d
    case Two(_, y) => One(y)
    case Three(_, y, z) => Two(y, z)
    case Four(_, y, z, w) => Three(y, z, w)
  }

  function DigitLast<E>(d: Digit<E>): E {
    match d
    case One(x) => x
    case Two(_, y) => y
    case Three(_, _, z) => z
    case Four(_, _, _, w) => w
  }

  function DigitInit<E>(d: Digit<E>): Digit<E>
    requires !d.One?
  {
    match d
    case Two(x, _) => One(x)
    case Three(x, y, _) => Two(x, y)
    case Four(x, y, z, _) => Three(x, y, z)
  }

  // ---- Trees ----

  function MeasureTree<V, A>(m: Measured<V, A>, t: Tree<V, A>): V {
    match t
    case Empty => m.empty
    case Single(e) => Measure(m, e)
    case Deep(v, _, _, _) => v
  }

  function MkDeep<V, A>(
    m: Measured<V, A>, pr: Digit<Elem<V, A>>, mid: Tree<V, A>, sf: Digit<Elem<V, A>>): Tree<V, A>
  {
    Deep(m.append(m.append(DigitMeasure(m, pr), MeasureTree(m, mid)), DigitMeasure(m, sf)), pr, mid, sf)
  }

  function Cons<V, A>(m: Measured<V, A>, a: Elem<V, A>, t: Tree<V, A>): Tree<V, A>
    decreases t
  {
    match t
    case Empty => Single(a)
    case Single(e) => MkDeep(m, One(a), Empty, One(e))
    case Deep(_, pr, mid, sf) =>
      if !pr.Four? then MkDeep(m, ConsDigit(a, pr), mid, sf)
      else MkDeep(m, Two(a, pr.a), Cons(m, MkNode3(m, pr.b, pr.c, pr.d), mid), sf)
  }

  function Snoc<V, A>(m: Measured<V, A>, t: Tree<V, A>, a: Elem<V, A>): Tree<V, A>
    decreases t
  {
    match t
    case Empty => Single(a)
    case Single(e) => MkDeep(m, One(e), Empty, One(a))
    case Deep(_, pr, mid, sf) =>
      if !sf.Four? then MkDeep(m, pr, mid, SnocDigit(sf, a))
      else MkDeep(m, pr, Snoc(m, mid, MkNode3(m, sf.a, sf.b, sf.c)), Two(sf.d, a))
  }

  function DigitToTree<V, A>(m: Measured<V, A>, d: Digit<Elem<V, A>>): Tree<V, A> {
    match d
    case One(a) => Single(a)
    case Two(a, b) => MkDeep(m, One(a), Empty, One(b))
    case Three(a, b, c) => MkDeep(m, Two(a, b), Empty, One(c))
    case Four(a, b, c, e) => MkDeep(m, Two(a, b), Empty, Two(c, e))
  }

  function Viewl<V, A>(m: Measured<V, A>, t: Tree<V, A>): ViewL<V, A>
    decreases t, 0
  {
    match t
    case Empty => NilL
    case Single(e) => ConsL(e, Empty)
    case Deep(_, pr, mid, sf) =>
      ConsL(pr.a, DeepL(m, if pr.One? then None else Some(DigitTail(pr)), mid, sf))
  }

  function DeepL<V, A>(
    m: Measured<V, A>, pr: Option<Digit<Elem<V, A>>>, mid: Tree<V, A>, sf: Digit<Elem<V, A>>): Tree<V, A>
    decreases mid, 1
  {
    if pr.Some? then MkDeep(m, pr.value, mid, sf) else
    match Viewl(m, mid)
    case NilL => DigitToTree(m, sf)
    case ConsL(head, tail) => MkDeep(m, NodeToDigit(head), tail, sf)
  }

  function Viewr<V, A>(m: Measured<V, A>, t: Tree<V, A>): ViewR<V, A>
    decreases t, 0
  {
    match t
    case Empty => NilR
    case Single(e) => SnocR(Empty, e)
    case Deep(_, pr, mid, sf) =>
      SnocR(DeepR(m, pr, mid, if sf.One? then None else Some(DigitInit(sf))), DigitLast(sf))
  }

  function DeepR<V, A>(
    m: Measured<V, A>, pr: Digit<Elem<V, A>>, mid: Tree<V, A>, sf: Option<Digit<Elem<V, A>>>): Tree<V, A>
    decreases mid, 1
  {
    if sf.Some? then MkDeep(m, pr, mid, sf.value) else
    match Viewr(m, mid)
    case NilR => DigitToTree(m, pr)
    case SnocR(init, last) => MkDeep(m, pr, init, NodeToDigit(last))
  }

  function Head<V, A>(t: Tree<V, A>): Option<Elem<V, A>> {
    match t
    case Empty => None
    case Single(e) => Some(e)
    case Deep(_, pr, _, _) => Some(pr.a)
  }

  function Last<V, A>(t: Tree<V, A>): Option<Elem<V, A>> {
    match t
    case Empty => None
    case Single(e) => Some(e)
    case Deep(_, _, _, sf) => Some(DigitLast(sf))
  }

  // ---- Leaves of arrays and digits ----

  lemma {:induction false} LeavesOfAppend<V, A>(xs: seq<Elem<V, A>>, ys: seq<Elem<V, A>>)
    ensures LeavesOf(xs + ys) == LeavesOf(xs) + LeavesOf(ys)
  {
    if xs == [] {
      assert xs + ys == ys;
    } else {
      assert (xs + ys)[1..] == xs[1..] + ys;
      LeavesOfAppend(xs[1..], ys);
    }
  }

  lemma LeavesOfSingleton<V, A>(a: Elem<V, A>)
    ensures LeavesOf([a]) == Leaves(a)
  {
    assert [a][1..] == [];
  }

  /** A digit and its array agree on leaves, order and depth. */
  lemma DigitAsArray<V, A>(dg: Digit<Elem<V, A>>)
    ensures LeavesOf(DigitToArray(dg)) == DigitLeaves(dg)
  {
    LeavesOfSingleton(dg.a);
    if !dg.One? {
      LeavesOfAppend([dg.a], [dg.b]);
      LeavesOfSingleton(dg.b);
      assert [dg.a, dg.b] == [dg.a] + [dg.b];
      if !dg.Two? {
        LeavesOfAppend([dg.a, dg.b], [dg.c]);
        LeavesOfSingleton(dg.c);
        assert [dg.a, dg.b, dg.c] == [dg.a, dg.b] + [dg.c];
        if dg.Four? {
          LeavesOfAppend([dg.a, dg.b, dg.c], [dg.d]);
          LeavesOfSingleton(dg.d);
          assert [dg.a, dg.b, dg.c, dg.d] == [dg.a, dg.b, dg.c] + [dg.d];
        }
      }
    }
  }

  lemma DigitArrayOk<V, A>(m: Measured<V, A>, d: nat, dg: Digit<Elem<V, A>>)
    ensures DigitOk(m, d, dg) <==> ElemsOk(m, d, DigitToArray(dg))
  {
    var es := DigitToArray(dg);
    if ElemsOk(m, d, es) {
      assert ElemOk(m, d, es[0]);
      assert |es| > 1 ==> ElemOk(m, d, es[1]);
      assert |es| > 2 ==> ElemOk(m, d, es[2]);
      assert |es| > 3 ==> ElemOk(m, d, es[3]);
    }
  }

  /** Unpacking a node keeps its leaves, its order and the depth of its children. */
  lemma NodeUnpacked<V, A>(m: Measured<V, A>, d: nat, e: Elem<V, A>)
    requires d > 0 && ElemOk(m, d, e)
    ensures DigitOk(m, d - 1, NodeToDigit(e))
    ensures DigitLeaves(NodeToDigit(e)) == Leaves(e)
    ensures DigitToArray(NodeToDigit(e)) == NodeToArray(e)
  {
  }

  // ---- Cached measures are true folds ----

  lemma MeasureIsFold<V(!new), A(!new)>(m: Measured<V, A>, d: nat, e: Elem<V, A>)
    requires Lawful(m) && ElemOk(m, d, e)
    ensures Measure(m, e) == Fold(m, Leaves(e))
  {
    if e.Leaf? {
      FoldSingleton(m, e.value);
    }
  }

  lemma Measure2IsFold<V(!new), A(!new)>(m: Measured<V, A>, d: nat, a: Elem<V, A>, b: Elem<V, A>)
    requires Lawful(m) && ElemOk(m, d, a) && ElemOk(m, d, b)
    ensures m.append(Measure(m, a), Measure(m, b)) == Fold(m, Leaves(a) + Leaves(b))
  {
    MeasureIsFold(m, d, a);
    MeasureIsFold(m, d, b);
    FoldAppend(m, Leaves(a), Leaves(b));
  }

  lemma Measure3IsFold<V(!new), A(!new)>(
    m: Measured<V, A>, d: nat, a: Elem<V, A>, b: Elem<V, A>, c: Elem<V, A>)
    requires Lawful(m) && ElemOk(m, d, a) && ElemOk(m, d, b) && ElemOk(m, d, c)
    ensures m.append(m.append(Measure(m, a), Measure(m, b)), Measure(m, c))
         == Fold(m, Leaves(a) + Leaves(b) + Leaves(c))
  {
    Measure2IsFold(m, d, a, b);
    MeasureIsFold(m, d, c);
    FoldAppend(m, Leaves(a) + Leaves(b), Leaves(c));
  }

  lemma MkNode2Ok<V(!new), A(!new)>(m: Measured<V, A>, d: nat, a: Elem<V, A>, b: Elem<V, A>)
    requires Lawful(m) && ElemOk(m, d, a) && ElemOk(m, d, b)
    ensures ElemOk(m, d + 1, MkNode2(m, a, b))
  {
    Measure2IsFold(m, d, a, b);
  }

  lemma MkNode3Ok<V(!new), A(!new)>(m: Measured<V, A>, d: nat, a: Elem<V, A>, b: Elem<V, A>, c: Elem<V, A>)
    requires Lawful(m) && ElemOk(m, d, a) && ElemOk(m, d, b) && ElemOk(m, d, c)
    ensures ElemOk(m, d + 1, MkNode3(m, a, b, c))
  {
    Measure3IsFold(m, d, a, b, c);
  }

  lemma DigitMeasureIsFold<V(!new), A(!new)>(m: Measured<V, A>, d: nat, dg: Digit<Elem<V, A>>)
    requires Lawful(m) && DigitOk(m, d, dg)
    ensures DigitMeasure(m, dg) == Fold(m, DigitLeaves(dg))
  {
    match dg
    case One(a) => MeasureIsFold(m, d, a);
    case Two(a, b) => Measure2IsFold(m, d, a, b);
    case Three(a, b, c) => Measure3IsFold(m, d, a, b, c);
    case Four(a, b, c, e) =>
      Measure3IsFold(m, d, a, b, c);
      MeasureIsFold(m, d, e);
      FoldAppend(m, Leaves(a) + Leaves(b) + Leaves(c), Leaves(e));
  }

  /** measureTree reads one field, and what it reads is the fold of every leaf of the tree. */
  lemma MeasureTreeIsFold<V(!new), A(!new)>(m: Measured<V, A>, d: nat, t: Tree<V, A>)
    requires Lawful(m) && TreeOk(m, d, t)
    ensures MeasureTree(m, t) == Fold(m, TreeLeaves(t))
  {
    if t.Single? {
      MeasureIsFold(m, d, t.e);
    }
  }

  lemma MkDeepOk<V(!new), A(!new)>(
    m: Measured<V, A>, d: nat, pr: Digit<Elem<V, A>>, mid: Tree<V, A>, sf: Digit<Elem<V, A>>)
    requires Lawful(m) && DigitOk(m, d, pr) && TreeOk(m, d + 1, mid) && DigitOk(m, d, sf)
    ensures TreeOk(m, d, MkDeep(m, pr, mid, sf))
  {
    DigitMeasureIsFold(m, d, pr);
    MeasureTreeIsFold(m, d + 1, mid);
    DigitMeasureIsFold(m, d, sf);
    FoldAppend(m, DigitLeaves(pr), TreeLeaves(mid));
    FoldAppend(m, DigitLeaves(pr) + TreeLeaves(mid), DigitLeaves(sf));
  }

  // ---- The operations refine operations on the sequence of leaves ----

  lemma Regroup<A>(a: seq<A>, b: seq<A>, c: seq<A>)
    ensures a + b + c == a + (b + c)
  {
  }

  lemma SmallDigitLeaves<V, A>(a: Elem<V, A>, b: Elem<V, A>)
    ensures DigitLeaves(One(a)) == Leaves(a) && DigitLeaves(One(b)) == Leaves(b)
    ensures DigitLeaves(Two(a, b)) == Leaves(a) + Leaves(b)
  {
  }

  lemma ConsDigitLeaves<V, A>(a: Elem<V, A>, dg: Digit<Elem<V, A>>)
    requires !dg.Four?
    ensures DigitLeaves(ConsDigit(a, dg)) == Leaves(a) + DigitLeaves(dg)
  {
  }

  lemma SnocDigitLeaves<V, A>(dg: Digit<Elem<V, A>>, a: Elem<V, A>)
    requires !dg.Four?
    ensures DigitLeaves(SnocDigit(dg, a)) == DigitLeaves(dg) + Leaves(a)
  {
  }

  lemma FrontNodeLeaves<V, A>(m: Measured<V, A>, dg: Digit<Elem<V, A>>)
    requires dg.Four?
    ensures DigitLeaves(dg) == Leaves(dg.a) + Leaves(MkNode3(m, dg.b, dg.c, dg.d))
  {
  }

  lemma BackNodeLeaves<V, A>(m: Measured<V, A>, dg: Digit<Elem<V, A>>)
    requires dg.Four?
    ensures DigitLeaves(dg) == Leaves(MkNode3(m, dg.a, dg.b, dg.c)) + Leaves(dg.d)
  {
  }

  /** Moving three of four elements from the front digit into the middle leaves the sequence as it was. */
  lemma ConsRegroup<A>(a: seq<A>, p: seq<A>, n: seq<A>, mid: seq<A>, sf: seq<A>)
    ensures (a + p) + (n + mid) + sf == a + ((p + n) + mid + sf)
  {
  }

  lemma SnocRegroup<A>(pr: seq<A>, mid: seq<A>, n: seq<A>, q: seq<A>, a: seq<A>)
    ensures pr + (mid + n) + (q + a) == (pr + mid + (n + q)) + a
  {
  }

  lemma {:induction false} ConsCorrect<V(!new), A(!new)>(m: Measured<V, A>, d: nat, a: Elem<V, A>, t: Tree<V, A>)
    requires Lawful(m) && ElemOk(m, d, a) && TreeOk(m, d, t)
    ensures TreeOk(m, d, Cons(m, a, t))
    ensures TreeLeaves(Cons(m, a, t)) == Leaves(a) + TreeLeaves(t)
    decreases t
  {
    hide Fold, Lawful, DigitLeaves;
    match t {
      case Empty =>
      case Single(e) =>
        MkDeepOk(m, d, One(a), Empty, One(e));
        SmallDigitLeaves(a, e);
      case Deep(_, pr, mid, sf) =>
        if !pr.Four? {
          MkDeepOk(m, d, ConsDigit(a, pr), mid, sf);
          ConsDigitLeaves(a, pr);
          Regroup(Leaves(a), DigitLeaves(pr), TreeLeaves(mid));
          Regroup(Leaves(a), DigitLeaves(pr) + TreeLeaves(mid), DigitLeaves(sf));
        } else {
          var n := MkNode3(m, pr.b, pr.c, pr.d);
          MkNode3Ok(m, d, pr.b, pr.c, pr.d);
          ConsCorrect(m, d + 1, n, mid);
          MkDeepOk(m, d, Two(a, pr.a), Cons(m, n, mid), sf);
          SmallDigitLeaves(a, pr.a);
          FrontNodeLeaves(m, pr);
          ConsRegroup(Leaves(a), Leaves(pr.a), Leaves(n), TreeLeaves(mid), DigitLeaves(sf));
        }
    }
  }

  lemma {:induction false} SnocCorrect<V(!new), A(!new)>(m: Measured<V, A>, d: nat, t: Tree<V, A>, a: Elem<V, A>)
    requires Lawful(m) && ElemOk(m, d, a) && TreeOk(m, d, t)
    ensures TreeOk(m, d, Snoc(m, t, a))
    ensures TreeLeaves(Snoc(m, t, a)) == TreeLeaves(t) + Leaves(a)
    decreases t
  {
    hide Fold, Lawful, DigitLeaves;
    match t {
      case Empty =>
      case Single(e) =>
        MkDeepOk(m, d, One(e), Empty, One(a));
        SmallDigitLeaves(e, a);
      case Deep(_, pr, mid, sf) =>
        if !sf.Four? {
          MkDeepOk(m, d, pr, mid, SnocDigit(sf, a));
          SnocDigitLeaves(sf, a);
          Regroup(DigitLeaves(pr) + TreeLeaves(mid), DigitLeaves(sf), Leaves(a));
        } else {
          var n := MkNode3(m, sf.a, sf.b, sf.c);
          MkNode3Ok(m, d, sf.a, sf.b, sf.c);
          SnocCorrect(m, d + 1, mid, n);
          MkDeepOk(m, d, pr, Snoc(m, mid, n), Two(sf.d, a));
          SmallDigitLeaves(sf.d, a);
          BackNodeLeaves(m, sf);
          SnocRegroup(DigitLeaves(pr), TreeLeaves(mid), Leaves(n), Leaves(sf.d), Leaves(a));
        }
    }
  }

  lemma DigitToTreeCorrect<V(!new), A(!new)>(m: Measured<V, A>, d: nat, dg: Digit<Elem<V, A>>)
    requires Lawful(m) && DigitOk(m, d, dg)
    ensures TreeOk(m, d, DigitToTree(m, dg))
    ensures TreeLeaves(DigitToTree(m, dg)) == DigitLeaves(dg)
  {
    match dg
    case One(a) =>
    case Two(a, b) => MkDeepOk(m, d, One(a), Empty, One(b));
    case Three(a, b, c) => MkDeepOk(m, d, Two(a, b), Empty, One(c));
    case Four(a, b, c, e) => MkDeepOk(m, d, Two(a, b), Empty, Two(c, e));
  }

  ghost function OptLeaves<V, A>(dg: Option<Digit<Elem<V, A>>>): seq<A> {
    if dg.None? then [] else DigitLeaves(dg.value)
  }

  lemma DigitTailLeaves<V, A>(dg: Digit<Elem<V, A>>)
    ensures DigitLeaves(dg) == Leaves(dg.a) + OptLeaves(if dg.One? then None else Some(DigitTail(dg)))
  {
  }

  lemma DigitInitLeaves<V, A>(dg: Digit<Elem<V, A>>)
    ensures DigitLeaves(dg) == OptLeaves(if dg.One? then None else Some(DigitInit(dg))) + Leaves(DigitLast(dg))
  {
  }

  /** viewl splits off the first element: what it returns is the tree again, one element shorter. */
  lemma {:induction false} ViewlCorrect<V(!new), A(!new)>(m: Measured<V, A>, d: nat, t: Tree<V, A>)
    requires Lawful(m) && TreeOk(m, d, t)
    ensures Viewl(m, t).NilL? <==> t.Empty?
    ensures Viewl(m, t).ConsL? ==>
      && ElemOk(m, d, Viewl(m, t).head)
      && TreeOk(m, d, Viewl(m, t).tail)
      && Leaves(Viewl(m, t).head) + TreeLeaves(Viewl(m, t).tail) == TreeLeaves(t)
      && Head(t) == Some(Viewl(m, t).head)
    decreases t, 0
  {
    hide Fold, Lawful;
    if t.Deep? {
      DigitTailLeaves(t.prefix);
      DeepLCorrect(m, d, if t.prefix.One? then None else Some(DigitTail(t.prefix)), t.middle, t.suffix);
    }
  }

  lemma {:induction false} DeepLCorrect<V(!new), A(!new)>(
    m: Measured<V, A>, d: nat, pr: Option<Digit<Elem<V, A>>>, mid: Tree<V, A>, sf: Digit<Elem<V, A>>)
    requires Lawful(m) && TreeOk(m, d + 1, mid) && DigitOk(m, d, sf)
    requires pr.Some? ==> DigitOk(m, d, pr.value)
    ensures TreeOk(m, d, DeepL(m, pr, mid, sf))
    ensures TreeLeaves(DeepL(m, pr, mid, sf)) == OptLeaves(pr) + TreeLeaves(mid) + DigitLeaves(sf)
    decreases mid, 1
  {
    hide Fold, Lawful, DigitLeaves;
    if pr.Some? {
      MkDeepOk(m, d, pr.value, mid, sf);
    } else {
      ViewlCorrect(m, d + 1, mid);
      match Viewl(m, mid) {
        case NilL => DigitToTreeCorrect(m, d, sf);
        case ConsL(head, tail) =>
          NodeUnpacked(m, d + 1, head);
          MkDeepOk(m, d, NodeToDigit(head), tail, sf);
      }
    }
  }

  /** viewr splits off the last element. */
  lemma {:induction false} ViewrCorrect<V(!new), A(!new)>(m: Measured<V, A>, d: nat, t: Tree<V, A>)
    requires Lawful(m) && TreeOk(m, d, t)
    ensures Viewr(m, t).NilR? <==> t.Empty?
    ensures Viewr(m, t).SnocR? ==>
      && ElemOk(m, d, Viewr(m, t).last)
      && TreeOk(m, d, Viewr(m, t).init)
      && TreeLeaves(Viewr(m, t).init) + Leaves(Viewr(m, t).last) == TreeLeaves(t)
      && Last(t) == Some(Viewr(m, t).last)
    decreases t, 0
  {
    hide Fold, Lawful;
    if t.Deep? {
      DigitInitLeaves(t.suffix);
      DeepRCorrect(m, d, t.prefix, t.middle, if t.suffix.One? then None else Some(DigitInit(t.suffix)));
    }
  }

  lemma {:induction false} DeepRCorrect<V(!new), A(!new)>(
    m: Measured<V, A>, d: nat, pr: Digit<Elem<V, A>>, mid: Tree<V, A>, sf: Option<Digit<Elem<V, A>>>)
    requires Lawful(m) && TreeOk(m, d + 1, mid) && DigitOk(m, d, pr)
    requires sf.Some? ==> DigitOk(m, d, sf.value)
    ensures TreeOk(m, d, DeepR(m, pr, mid, sf))
    ensures TreeLeaves(DeepR(m, pr, mid, sf)) == DigitLeaves(pr) + TreeLeaves(mid) + OptLeaves(sf)
    decreases mid, 1
  {
    hide Fold, Lawful, DigitLeaves;
    if sf.Some? {
      MkDeepOk(m, d, pr, mid, sf.value);
    } else {
      ViewrCorrect(m, d + 1, mid);
      match Viewr(m, mid) {
        case NilR => DigitToTreeCorrect(m, d, pr);
        case SnocR(init, last) =>
          NodeUnpacked(m, d + 1, last);
          MkDeepOk(m, d, pr, init, NodeToDigit(last));
          Regroup(DigitLeaves(pr), TreeLeaves(init), Leaves(last));
      }
    }
  }

  lemma EndsAfterPush<V, A>(m: Measured<V, A>, a: Elem<V, A>, t: Tree<V, A>)
    ensures Head(Cons(m, a, t)) == Some(a) && Last(Snoc(m, t, a)) == Some(a)
  {
  }

  /** viewl undoes cons: same element, same remaining leaves, for every tree and every element. */
  lemma {:induction false} ViewlInvertsCons<V(!new), A(!new)>(m: Measured<V, A>, d: nat, a: Elem<V, A>, t: Tree<V, A>)
    requires Lawful(m) && ElemOk(m, d, a) && TreeOk(m, d, t)
    ensures Viewl(m, Cons(m, a, t)).ConsL? && Viewl(m, Cons(m, a, t)).head == a
    ensures TreeLeaves(Viewl(m, Cons(m, a, t)).tail) == TreeLeaves(t)
  {
    hide Fold, Lawful, TreeOk, ElemOk, TreeLeaves, Viewl, Cons;
    var c := Cons(m, a, t);
    ConsCorrect(m, d, a, t);
    ViewlCorrect(m, d, c);
    EndsAfterPush(m, a, t);
    SamePrefix(Leaves(a), TreeLeaves(Viewl(m, c).tail), TreeLeaves(t));
  }

  /** viewr undoes snoc. */
  lemma {:induction false} ViewrInvertsSnoc<V(!new), A(!new)>(m: Measured<V, A>, d: nat, a: Elem<V, A>, t: Tree<V, A>)
    requires Lawful(m) && ElemOk(m, d, a) && TreeOk(m, d, t)
    ensures Viewr(m, Snoc(m, t, a)).SnocR? && Viewr(m, Snoc(m, t, a)).last == a
    ensures TreeLeaves(Viewr(m, Snoc(m, t, a)).init) == TreeLeaves(t)
  {
    hide Fold, Lawful, TreeOk, ElemOk, TreeLeaves, Viewr, Snoc;
    var c := Snoc(m, t, a);
    SnocCorrect(m, d, t, a);
    ViewrCorrect(m, d, c);
    EndsAfterPush(m, a, t);
    SameSuffix(TreeLeaves(Viewr(m, c).init), TreeLeaves(t), Leaves(a));
  }

  lemma SamePrefix<A>(p: seq<A>, xs: seq<A>, ys: seq<A>)
    requires p + xs == p + ys
    ensures xs == ys
  {
    assert (p + xs)[|p|..] == xs;
    assert (p + ys)[|p|..] == ys;
  }

  lemma SameSuffix<A>(xs: seq<A>, ys: seq<A>, s: seq<A>)
    requires xs + s == ys + s
    ensures xs == ys
  {
    assert |xs + s| == |xs| + |s| && |ys + s| == |ys| + |s|;
    assert (xs + s)[..|xs|] == xs;
    assert (ys + s)[..|xs|] == ys;
  }

  // ---- Logarithmic depth ----

  function DeepLevels<V, A>(t: Tree<V, A>): nat {
    if t.Deep? then 1 + DeepLevels(t.middle) else 0
  }

  function Pow2(n: nat): nat { if n == 0 then 1 else 2 * Pow2(n - 1) }

  lemma {:induction false} ElemSize<V, A>(m: Measured<V, A>, d: nat, e: Elem<V, A>)
    requires ElemOk(m, d, e)
    ensures |Leaves(e)| >= Pow2(d)
    decreases e
  {
    match e {
      case Leaf(_) =>
      case Node2(_, a, b) => ElemSize(m, d - 1, a); ElemSize(m, d - 1, b);
      case Node3(_, a, b, c) => ElemSize(m, d - 1, a); ElemSize(m, d - 1, b);
    }
  }

  lemma DigitSize<V, A>(m: Measured<V, A>, d: nat, dg: Digit<Elem<V, A>>)
    requires DigitOk(m, d, dg)
    ensures |DigitLeaves(dg)| >= Pow2(d)
  {
    ElemSize(m, d, dg.a);
  }

  /** A tree with L nested deep levels has at least 2^(L+1) - 2 leaves. */
  lemma LogarithmicDepth<V, A>(m: Measured<V, A>, t: Tree<V, A>)
    requires TreeOk(m, 0, t)
    ensures |TreeLeaves(t)| >= Pow2(DeepLevels(t) + 1) - 2
  {
    hide TreeOk, TreeLeaves, DeepLevels;
    LevelsHoldLeaves(m, 0, t);
  }

  lemma {:induction false} LevelsHoldLeaves<V, A>(m: Measured<V, A>, d: nat, t: Tree<V, A>)
    requires TreeOk(m, d, t)
    ensures |TreeLeaves(t)| + 2 * Pow2(d) >= Pow2(d + DeepLevels(t) + 1)
    decreases t
  {
    hide Fold, Lawful;
    if t.Deep? {
      DigitSize(m, d, t.prefix);
      DigitSize(m, d, t.suffix);
      LevelsHoldLeaves(m, d + 1, t.middle);
    }
  }

  // ---- Recursion depth ----

  // How deep the calls nest: cons and snoc recurse when a digit overflows, viewl and viewr when one is
  // used up.

  function ConsDepth<V, A>(t: Tree<V, A>): nat {
    if t.Deep? && t.prefix.Four? then 1 + ConsDepth(t.middle) else 1
  }

  function SnocDepth<V, A>(t: Tree<V, A>): nat {
    if t.Deep? && t.suffix.Four? then 1 + SnocDepth(t.middle) else 1
  }

  function ViewlDepth<V, A>(t: Tree<V, A>): nat {
    if t.Deep? && t.prefix.One? then 1 + ViewlDepth(t.middle) else 1
  }

  function ViewrDepth<V, A>(t: Tree<V, A>): nat {
    if t.Deep? && t.suffix.One? then 1 + ViewrDepth(t.middle) else 1
  }

  lemma {:induction false} EndsNestByLevels<V, A>(t: Tree<V, A>)
    ensures ConsDepth(t) <= DeepLevels(t) + 1 && SnocDepth(t) <= DeepLevels(t) + 1
    ensures ViewlDepth(t) <= DeepLevels(t) + 1 && ViewrDepth(t) <= DeepLevels(t) + 1
    decreases t
  {
    if t.Deep? {
      EndsNestByLevels(t.middle);
    }
  }

  lemma {:induction false} Pow2Grows(a: nat, b: nat)
    requires a <= b
    ensures Pow2(a) <= Pow2(b)
    decreases b
  {
    if a < b {
      Pow2Grows(a, b - 1);
    }
  }

  /** The calls at both ends nest at most log2(n + 2) deep in a tree of n leaves. */
  lemma EndsNestLogarithmically<V, A>(m: Measured<V, A>, t: Tree<V, A>)
    requires TreeOk(m, 0, t)
    ensures Pow2(ConsDepth(t)) <= |TreeLeaves(t)| + 2 && Pow2(SnocDepth(t)) <= |TreeLeaves(t)| + 2
    ensures Pow2(ViewlDepth(t)) <= |TreeLeaves(t)| + 2 && Pow2(ViewrDepth(t)) <= |TreeLeaves(t)| + 2
  {
    hide TreeOk, TreeLeaves;
    LogarithmicDepth(m, t);
    EndsNestByLevels(t);
    Pow2Grows(ConsDepth(t), DeepLevels(t) + 1);
    Pow2Grows(SnocDepth(t), DeepLevels(t) + 1);
    Pow2Grows(ViewlDepth(t), DeepLevels(t) + 1);
    Pow2Grows(ViewrDepth(t), DeepLevels(t) + 1);
  }

  /** What is left of a tree at either end has no more levels than the tree. */
  lemma {:induction false} ViewLevels<V, A>(m: Measured<V, A>, t: Tree<V, A>)
    ensures Viewl(m, t).ConsL? ==> DeepLevels(Viewl(m, t).tail) <= DeepLevels(t)
    ensures Viewr(m, t).SnocR? ==> DeepLevels(Viewr(m, t).init) <= DeepLevels(t)
    decreases t
  {
    if t.Deep? {
      ViewLevels(m, t.middle);
    }
  }
}
