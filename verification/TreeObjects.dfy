/**
 * Finger trees as the heap objects that a WeakMap is keyed on.
 *
 * A node or a deep tree is an object whose fields never change, so two references are equal exactly when
 * they are the same allocation. Each object carries, for the proofs only, the structural value it denotes;
 * ElemWf and TreeWf say that the object graph below a reference really is that value. The methods allocate
 * what the functions of packages/finger-tree/src/node.ts, tree.ts and fold.ts allocate, and refine the
 * functions of the same name.
 */
module TreeObjects {
  import opened Monoids
  import opened Options
  import opened FingerTree
  import opened FoldArray

  datatype ElemRef<V, A> = LeafRef(value: A) | NodeRef(node: NodeObj<V, A>)
  datatype TreeRef<V, A> = EmptyRef | SingleRef(e: ElemRef<V, A>) | DeepRef(tree: DeepObj<V, A>)

  class NodeObj<V, A> {
    const v: V
    const a: ElemRef<V, A>
    const b: ElemRef<V, A>
    const c: Option<ElemRef<V, A>>
    ghost const shape: Elem<V, A>

    constructor (v: V, a: ElemRef<V, A>, b: ElemRef<V, A>, c: Option<ElemRef<V, A>>)
      ensures this.v == v && this.a == a && this.b == b && this.c == c
      ensures shape == NodeShape(v, a, b, c)
    {
      this.v, this.a, this.b, this.c := v, a, b, c;
      shape := NodeShape(v, a, b, c);
    }
  }

  class DeepObj<V, A> {
    const v: V
    const prefix: Digit<ElemRef<V, A>>
    const middle: TreeRef<V, A>
    const suffix: Digit<ElemRef<V, A>>
    ghost const shape: Tree<V, A>

    constructor (v: V, prefix: Digit<ElemRef<V, A>>, middle: TreeRef<V, A>, suffix: Digit<ElemRef<V, A>>)
      ensures this.v == v && this.prefix == prefix && this.middle == middle && this.suffix == suffix
      ensures shape == Deep(v, DigitShape(prefix), TreeShape(middle), DigitShape(suffix))
    {
      this.v, this.prefix, this.middle, this.suffix := v, prefix, middle, suffix;
      shape := Deep(v, DigitShape(prefix), TreeShape(middle), DigitShape(suffix));
    }
  }

  // ---- What a reference denotes ----

  ghost function ElemShape<V, A>(r: ElemRef<V, A>): Elem<V, A> {
    match r
    case LeafRef(x) => Leaf(x)
    case NodeRef(n) => n.shape
  }

  ghost function NodeShape<V, A>(v: V, a: ElemRef<V, A>, b: ElemRef<V, A>, c: Option<ElemRef<V, A>>): Elem<V, A> {
    if c.None? then Node2(v, ElemShape(a), ElemShape(b))
    else Node3(v, ElemShape(a), ElemShape(b), ElemShape(c.value))
  }

  ghost function DigitShape<V, A>(d: Digit<ElemRef<V, A>>): Digit<Elem<V, A>> {
    match d
    case One(a) => One(ElemShape(a))
    case Two(a, b) => Two(ElemShape(a), ElemShape(b))
    case Three(a, b, c) => Three(ElemShape(a), ElemShape(b), ElemShape(c))
    case Four(a, b, c, e) => Four(ElemShape(a), ElemShape(b), ElemShape(c), ElemShape(e))
  }

  ghost function TreeShape<V, A>(t: TreeRef<V, A>): Tree<V, A> {
    match t
    case EmptyRef => Empty
    case SingleRef(e) => Single(ElemShape(e))
    case DeepRef(o) => o.shape
  }

  ghost function Shapes<V, A>(xs: seq<ElemRef<V, A>>): seq<Elem<V, A>> {
    seq(|xs|, i requires 0 <= i < |xs| => ElemShape(xs[i]))
  }

  ghost predicate ElemWf<V, A>(r: ElemRef<V, A>)
    decreases ElemShape(r)
  {
    match r
    case LeafRef(_) => true
    case NodeRef(n) =>
      && n.shape == NodeShape(n.v, n.a, n.b, n.c)
      && ElemWf(n.a) && ElemWf(n.b) && (n.c.Some? ==> ElemWf(n.c.value))
  }

  ghost predicate DigitWf<V, A>(d: Digit<ElemRef<V, A>>) {
    match d
    case One(a) => ElemWf(a)
    case Two(a, b) => ElemWf(a) && ElemWf(b)
    case Three(a, b, c) => ElemWf(a) && ElemWf(b) && ElemWf(c)
    case Four(a, b, c, e) => ElemWf(a) && ElemWf(b) && ElemWf(c) && ElemWf(e)
  }

  ghost predicate AllWf<V, A>(xs: seq<ElemRef<V, A>>) {
    forall i | 0 <= i < |xs| :: ElemWf(xs[i])
  }

  ghost predicate TreeWf<V, A>(t: TreeRef<V, A>)
    decreases TreeShape(t)
  {
    match t
    case EmptyRef => true
    case SingleRef(e) => ElemWf(e)
    case DeepRef(o) =>
      && o.shape == Deep(o.v, DigitShape(o.prefix), TreeShape(o.middle), DigitShape(o.suffix))
      && DigitWf(o.prefix) && TreeWf(o.middle) && DigitWf(o.suffix)
  }

  lemma DigitArrayShape<V, A>(d: Digit<ElemRef<V, A>>)
    ensures Shapes(DigitToArray(d)) == DigitToArray(DigitShape(d))
    ensures DigitWf(d) <==> AllWf(DigitToArray(d))
  {
    var xs := DigitToArray(d);
    if AllWf(xs) {
      assert ElemWf(xs[0]);
      assert |xs| > 1 ==> ElemWf(xs[1]);
      assert |xs| > 2 ==> ElemWf(xs[2]);
      assert |xs| > 3 ==> ElemWf(xs[3]);
    }
  }

  // ---- Measures ----

  function MeasureRef<V, A>(m: Measured<V, A>, r: ElemRef<V, A>): (v: V)
    ensures ElemWf(r) ==> v == Measure(m, ElemShape(r))
  {
    match r
    case LeafRef(x) => m.measure(x)
    case NodeRef(n) => n.v
  }

  function DigitMeasureRef<V, A>(m: Measured<V, A>, d: Digit<ElemRef<V, A>>): (v: V)
    ensures DigitWf(d) ==> v == DigitMeasure(m, DigitShape(d))
  {
    match d
    case One(a) => MeasureRef(m, a)
    case Two(a, b) => m.append(MeasureRef(m, a), MeasureRef(m, b))
    case Three(a, b, c) => m.append(m.append(MeasureRef(m, a), MeasureRef(m, b)), MeasureRef(m, c))
    case Four(a, b, c, e) =>
      m.append(m.append(m.append(MeasureRef(m, a), MeasureRef(m, b)), MeasureRef(m, c)), MeasureRef(m, e))
  }

  function MeasureTreeRef<V, A>(m: Measured<V, A>, t: TreeRef<V, A>): (v: V)
    ensures TreeWf(t) ==> v == MeasureTree(m, TreeShape(t))
  {
    match t
    case EmptyRef => m.empty
    case SingleRef(e) => MeasureRef(m, e)
    case DeepRef(o) => o.v
  }

  // ---- Operations ----

  method NewDeep<V, A>(
    m: Measured<V, A>, pr: Digit<ElemRef<V, A>>, mid: TreeRef<V, A>, sf: Digit<ElemRef<V, A>>)
    returns (t: TreeRef<V, A>)
    requires DigitWf(pr) && TreeWf(mid) && DigitWf(sf)
    ensures TreeWf(t) && TreeShape(t) == MkDeep(m, DigitShape(pr), TreeShape(mid), DigitShape(sf))
  {
    var v := m.append(m.append(DigitMeasureRef(m, pr), MeasureTreeRef(m, mid)), DigitMeasureRef(m, sf));
    var o := new DeepObj(v, pr, mid, sf);
    t := DeepRef(o);
  }

  method NewNode2<V, A>(m: Measured<V, A>, a: ElemRef<V, A>, b: ElemRef<V, A>) returns (r: ElemRef<V, A>)
    requires ElemWf(a) && ElemWf(b)
    ensures ElemWf(r) && ElemShape(r) == MkNode2(m, ElemShape(a), ElemShape(b))
  {
    var n := new NodeObj(m.append(MeasureRef(m, a), MeasureRef(m, b)), a, b, None);
    r := NodeRef(n);
  }

  method NewNode3<V, A>(m: Measured<V, A>, a: ElemRef<V, A>, b: ElemRef<V, A>, c: ElemRef<V, A>)
    returns (r: ElemRef<V, A>)
    requires ElemWf(a) && ElemWf(b) && ElemWf(c)
    ensures ElemWf(r) && ElemShape(r) == MkNode3(m, ElemShape(a), ElemShape(b), ElemShape(c))
  {
    var v := m.append(m.append(MeasureRef(m, a), MeasureRef(m, b)), MeasureRef(m, c));
    var n := new NodeObj(v, a, b, Some(c));
    r := NodeRef(n);
  }

  method ConsObj<V, A>(m: Measured<V, A>, a: ElemRef<V, A>, t: TreeRef<V, A>) returns (r: TreeRef<V, A>)
    requires TreeWf(t) && ElemWf(a)
    ensures TreeWf(r) && TreeShape(r) == Cons(m, ElemShape(a), TreeShape(t))
    decreases TreeShape(t)
  {
    match t
    case EmptyRef => r := SingleRef(a);
    case SingleRef(e) => r := NewDeep(m, One(a), EmptyRef, One(e));
    case DeepRef(o) =>
      if !o.prefix.Four? {
        r := NewDeep(m, ConsDigit(a, o.prefix), o.middle, o.suffix);
      } else {
        var n := NewNode3(m, o.prefix.b, o.prefix.c, o.prefix.d);
        var mid := ConsObj(m, n, o.middle);
        r := NewDeep(m, Two(a, o.prefix.a), mid, o.suffix);
      }
  }

  method SnocObj<V, A>(m: Measured<V, A>, t: TreeRef<V, A>, a: ElemRef<V, A>) returns (r: TreeRef<V, A>)
    requires TreeWf(t) && ElemWf(a)
    ensures TreeWf(r) && TreeShape(r) == Snoc(m, TreeShape(t), ElemShape(a))
    decreases TreeShape(t)
  {
    match t
    case EmptyRef => r := SingleRef(a);
    case SingleRef(e) => r := NewDeep(m, One(e), EmptyRef, One(a));
    case DeepRef(o) =>
      if !o.suffix.Four? {
        r := NewDeep(m, o.prefix, o.middle, SnocDigit(o.suffix, a));
      } else {
        var n := NewNode3(m, o.suffix.a, o.suffix.b, o.suffix.c);
        var mid := SnocObj(m, o.middle, n);
        r := NewDeep(m, o.prefix, mid, Two(o.suffix.d, a));
      }
  }

  method FromElemsObj<V, A>(m: Measured<V, A>, xs: seq<ElemRef<V, A>>) returns (t: TreeRef<V, A>)
    requires AllWf(xs)
    ensures TreeWf(t) && TreeShape(t) == FromElems(m, Shapes(xs))
  {
    hide Snoc, TreeWf, ElemWf, MkDeep;
    t := EmptyRef;
    EmptyWf<V, A>();
    for i := 0 to |xs|
      invariant TreeWf(t) && TreeShape(t) == FromElems(m, Shapes(xs[..i]))
    {
      t := SnocObj(m, t, xs[i]);
      var es := Shapes(xs[..i + 1]);
      assert es[..i] == Shapes(xs[..i]) && es[i] == ElemShape(xs[i]);
    }
    assert xs[..|xs|] == xs;
  }

  lemma EmptyWf<V, A>()
    ensures TreeWf<V, A>(EmptyRef)
  {
  }

  function NodeRefToDigit<V, A>(r: ElemRef<V, A>): (d: Digit<ElemRef<V, A>>)
    ensures ElemWf(r) ==> DigitWf(d) && DigitShape(d) == NodeToDigit(ElemShape(r))
  {
    match r
    case LeafRef(_) => One(r)
    case NodeRef(n) => if n.c.None? then Two(n.a, n.b) else Three(n.a, n.b, n.c.value)
  }

  method ViewlObj<V, A>(m: Measured<V, A>, t: TreeRef<V, A>)
    returns (head: Option<ElemRef<V, A>>, tail: TreeRef<V, A>)
    requires TreeWf(t)
    ensures TreeWf(tail) && (head.Some? ==> ElemWf(head.value))
    ensures Viewl(m, TreeShape(t))
         == if head.None? then NilL else ConsL(ElemShape(head.value), TreeShape(tail))
    decreases TreeShape(t), 0
  {
    match t
    case EmptyRef => head, tail := None, EmptyRef;
    case SingleRef(e) => head, tail := Some(e), EmptyRef;
    case DeepRef(o) =>
      head := Some(o.prefix.a);
      tail := DeepLObj(m, if o.prefix.One? then None else Some(DigitTail(o.prefix)), o.middle, o.suffix);
  }

  ghost predicate OptDigitWf<V, A>(d: Option<Digit<ElemRef<V, A>>>) {
    d.Some? ==> DigitWf(d.value)
  }

  ghost function OptDigitShape<V, A>(d: Option<Digit<ElemRef<V, A>>>): Option<Digit<Elem<V, A>>> {
    if d.None? then None else Some(DigitShape(d.value))
  }

  method DeepLObj<V, A>(
    m: Measured<V, A>, pr: Option<Digit<ElemRef<V, A>>>, mid: TreeRef<V, A>, sf: Digit<ElemRef<V, A>>)
    returns (t: TreeRef<V, A>)
    requires OptDigitWf(pr) && TreeWf(mid) && DigitWf(sf)
    ensures TreeWf(t) && TreeShape(t) == DeepL(m, OptDigitShape(pr), TreeShape(mid), DigitShape(sf))
    decreases TreeShape(mid), 1
  {
    hide ElemWf;
    if pr.Some? {
      t := NewDeep(m, pr.value, mid, sf);
    } else {
      var head, tail := ViewlObj(m, mid);
      if head.None? {
        t := DigitToTreeObj(m, sf);
      } else {
        t := NewDeep(m, NodeRefToDigit(head.value), tail, sf);
      }
    }
  }

  method DigitToTreeObj<V, A>(m: Measured<V, A>, d: Digit<ElemRef<V, A>>) returns (t: TreeRef<V, A>)
    requires DigitWf(d)
    ensures TreeWf(t) && TreeShape(t) == DigitToTree(m, DigitShape(d))
  {
    hide ElemWf;
    match d
    case One(a) => t := SingleRef(a);
    case Two(a, b) => t := NewDeep(m, One(a), EmptyRef, One(b));
    case Three(a, b, c) => t := NewDeep(m, Two(a, b), EmptyRef, One(c));
    case Four(a, b, c, e) => t := NewDeep(m, Two(a, b), EmptyRef, Two(c, e));
  }

  method ViewrObj<V, A>(m: Measured<V, A>, t: TreeRef<V, A>)
    returns (init: TreeRef<V, A>, last: Option<ElemRef<V, A>>)
    requires TreeWf(t)
    ensures TreeWf(init) && (last.Some? ==> ElemWf(last.value))
    ensures Viewr(m, TreeShape(t))
         == if last.None? then NilR else SnocR(TreeShape(init), ElemShape(last.value))
    decreases TreeShape(t), 0
  {
    match t
    case EmptyRef => init, last := EmptyRef, None;
    case SingleRef(e) => init, last := EmptyRef, Some(e);
    case DeepRef(o) =>
      last := Some(DigitLast(o.suffix));
      init := DeepRObj(m, o.prefix, o.middle, if o.suffix.One? then None else Some(DigitInit(o.suffix)));
  }

  method DeepRObj<V, A>(
    m: Measured<V, A>, pr: Digit<ElemRef<V, A>>, mid: TreeRef<V, A>, sf: Option<Digit<ElemRef<V, A>>>)
    returns (t: TreeRef<V, A>)
    requires OptDigitWf(sf) && TreeWf(mid) && DigitWf(pr)
    ensures TreeWf(t) && TreeShape(t) == DeepR(m, DigitShape(pr), TreeShape(mid), OptDigitShape(sf))
    decreases TreeShape(mid), 1
  {
    hide ElemWf;
    if sf.Some? {
      t := NewDeep(m, pr, mid, sf.value);
    } else {
      var init, last := ViewrObj(m, mid);
      if last.None? {
        t := DigitToTreeObj(m, pr);
      } else {
        t := NewDeep(m, pr, init, NodeRefToDigit(last.value));
      }
    }
  }
}
