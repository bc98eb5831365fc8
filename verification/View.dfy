/**
 * The memoised view fold: packages/document/src/view.ts.
 *
 * The cache is a table keyed on objects. Objects never change, so what makes an entry right (Sound) does
 * not mention any particular tree: one cache serves every version of a document, whatever operations
 * produced it.
 */
module View {
  import opened Monoids
  import opened FingerTree
  import opened FoldArray
  import opened Split
  import opened TreeObjects
  import opened SplitObjects

  datatype Key<V, A> = NodeKey(node: NodeObj<V, A>) | TreeKey(tree: DeepObj<V, A>)

  ghost function KeyLeaves<V, A>(k: Key<V, A>): seq<A> {
    match k
    case NodeKey(n) => Leaves(n.shape)
    case TreeKey(t) => TreeLeaves(t.shape)
  }

  /** Every entry of the table is the fold of the leaves below its own key. */
  ghost predicate Sound<V, A, W>(mw: Measured<W, A>, table: map<Key<V, A>, W>) {
    forall k | k in table :: table[k] == Fold(mw, KeyLeaves(k))
  }

  /** The table only grows. */
  ghost predicate Grown<V, A, W>(was: map<Key<V, A>, W>, now: map<Key<V, A>, W>) {
    forall k | k in was :: k in now && now[k] == was[k]
  }

  class Cache<V, A, W> {
    var table: map<Key<V, A>, W>

    constructor ()
      ensures table == map[]
    {
      table := map[];
    }

    /** WeakMap.set: the walks write through it, and Cache.seed is a name for it. */
    method Seed(k: Key<V, A>, w: W)
      modifies this
      ensures table == old(table)[k := w]
    {
      table := table[k := w];
    }
  }

  lemma SeedSound<V, A, W>(mw: Measured<W, A>, table: map<Key<V, A>, W>, k: Key<V, A>, w: W)
    requires Sound(mw, table)
    ensures Sound(mw, table[k := w]) <==> w == Fold(mw, KeyLeaves(k))
  {
    var t := table[k := w];
    assert k in t && t[k] == w;
  }

  // ---- walkElement, walkDigit, walkTree ----

  method WalkElement<V, A(!new), W(!new)>(mw: Measured<W, A>, r: ElemRef<V, A>, cache: Cache<V, A, W>, depth: nat)
    returns (w: W)
    requires Lawful(mw) && ElemWf(r) && NestedElem(depth, ElemShape(r)) && Sound(mw, cache.table)
    modifies cache
    ensures w == Fold(mw, Leaves(ElemShape(r)))
    ensures Sound(mw, cache.table) && Grown(old(cache.table), cache.table)
    ensures r.NodeRef? ==> NodeKey(r.node) in cache.table
    ensures r.NodeRef? && NodeKey(r.node) in old(cache.table) ==> cache.table == old(cache.table)
    decreases ElemShape(r)
  {
    hide Fold, Lawful;
    if depth == 0 {
      FoldSingleton(mw, r.value);
      return mw.measure(r.value);
    }
    var n := r.node;
    var k := NodeKey(n);
    if k in cache.table {
      return cache.table[k];
    }
    var a := WalkElement(mw, n.a, cache, depth - 1);
    var b := WalkElement(mw, n.b, cache, depth - 1);
    w := mw.append(a, b);
    FoldAppend(mw, Leaves(ElemShape(n.a)), Leaves(ElemShape(n.b)));
    if n.c.Some? {
      var c := WalkElement(mw, n.c.value, cache, depth - 1);
      w := mw.append(w, c);
      FoldAppend(mw, Leaves(ElemShape(n.a)) + Leaves(ElemShape(n.b)), Leaves(ElemShape(n.c.value)));
    }
    SeedSound(mw, cache.table, k, w);
    cache.Seed(k, w);
  }

  /** walkDigit pairs a four as (a b)(c d), not left to right: this is where associativity is needed. */
  method WalkDigit<V, A(!new), W(!new)>(mw: Measured<W, A>, d: Digit<ElemRef<V, A>>, cache: Cache<V, A, W>, depth: nat)
    returns (w: W)
    requires Lawful(mw) && DigitWf(d) && NestedDigit(depth, DigitShape(d)) && Sound(mw, cache.table)
    modifies cache
    ensures w == Fold(mw, DigitLeaves(DigitShape(d)))
    ensures Sound(mw, cache.table) && Grown(old(cache.table), cache.table)
  {
    hide Fold, Lawful, ElemWf, NestedElem, Leaves;
    w := WalkElement(mw, d.a, cache, depth);
    if !d.One? {
      var b := WalkElement(mw, d.b, cache, depth);
      w := mw.append(w, b);
      var la, lb := Leaves(ElemShape(d.a)), Leaves(ElemShape(d.b));
      FoldAppend(mw, la, lb);
      if d.Three? {
        var c := WalkElement(mw, d.c, cache, depth);
        w := mw.append(w, c);
        FoldAppend(mw, la + lb, Leaves(ElemShape(d.c)));
      } else if d.Four? {
        var c := WalkElement(mw, d.c, cache, depth);
        var e := WalkElement(mw, d.d, cache, depth);
        w := mw.append(w, mw.append(c, e));
        var lc, le := Leaves(ElemShape(d.c)), Leaves(ElemShape(d.d));
        FoldAppend(mw, lc, le);
        FoldAppend(mw, la + lb, lc + le);
        Regroup(la + lb, lc, le);
      }
    }
  }

  method WalkTree<V, A(!new), W(!new)>(mw: Measured<W, A>, t: TreeRef<V, A>, cache: Cache<V, A, W>, depth: nat)
    returns (w: W)
    requires Lawful(mw) && TreeWf(t) && Nested(depth, TreeShape(t)) && Sound(mw, cache.table)
    modifies cache
    ensures w == Fold(mw, TreeLeaves(TreeShape(t)))
    ensures Sound(mw, cache.table) && Grown(old(cache.table), cache.table)
    ensures t.DeepRef? ==> TreeKey(t.tree) in cache.table
    ensures t.DeepRef? && TreeKey(t.tree) in old(cache.table) ==> cache.table == old(cache.table)
    decreases TreeShape(t)
  {
    hide Lawful, ElemWf, NestedElem, Leaves, DigitWf, NestedDigit, DigitLeaves, Fold;
    match t
    case EmptyRef =>
      FoldOfNothing(mw);
      w := mw.empty;
    case SingleRef(e) => w := WalkElement(mw, e, cache, depth);
    case DeepRef(o) =>
      var k := TreeKey(o);
      if k in cache.table {
        return cache.table[k];
      }
      var prefix := WalkDigit(mw, o.prefix, cache, depth);
      var middle := WalkTree(mw, o.middle, cache, depth + 1);
      var suffix := WalkDigit(mw, o.suffix, cache, depth);
      w := mw.append(mw.append(prefix, middle), suffix);
      ghost var lp, lm := DigitLeaves(DigitShape(o.prefix)), TreeLeaves(TreeShape(o.middle));
      FoldAppend(mw, lp, lm);
      FoldAppend(mw, lp + lm, DigitLeaves(DigitShape(o.suffix)));
      SeedSound(mw, cache.table, k, w);
      cache.Seed(k, w);
  }

  // ---- foldTree ----

  /** count sends the history's summary to its epoch count, and each epoch counts one. */
  ghost predicate CountsEpochs<V(!new), A(!new)>(em: Measured<V, A>, count: V -> int) {
    && count(em.empty) == 0
    && (forall a, b | em.has(a) && em.has(b) :: count(em.append(a, b)) == count(a) + count(b))
    && (forall x :: count(em.measure(x)) == 1)
  }

  lemma {:induction false} CountIsLength<V(!new), A(!new)>(em: Measured<V, A>, count: V -> int, xs: seq<A>)
    requires Lawful(em) && CountsEpochs(em, count)
    ensures count(Fold(em, xs)) == |xs|
  {
    if xs != [] {
      var n := |xs| - 1;
      CountIsLength(em, count, xs[..n]);
      FoldHas(em, xs[..n]);
      assert MeasureAt(em, xs[n]);
    }
  }

  /** foldTree without options: the fold of the whole tree, with the cache left sound. */
  method FoldTree<V, A(!new), W(!new)>(ghost em: Measured<V, A>, mw: Measured<W, A>, t: TreeRef<V, A>, cache: Cache<V, A, W>)
    returns (w: W)
    requires Lawful(mw) && TreeWf(t) && TreeOk(em, 0, TreeShape(t)) && Sound(mw, cache.table)
    modifies cache
    ensures w == Fold(mw, TreeLeaves(TreeShape(t)))
    ensures Sound(mw, cache.table) && Grown(old(cache.table), cache.table)
  {
    hide TreeOk, TreeWf, Nested, Fold, Lawful;
    TreeOkIsNested(em, 0, TreeShape(t));
    w := WalkTree(mw, t, cache, 0);
  }

  ghost function Prefix<A>(xs: seq<A>, n: int): seq<A> {
    if n <= 0 then [] else if n < |xs| then xs[..n] else xs
  }

  /** foldTree at a position: the fold of the first epochs up to it, for every integer position. */
  method FoldTreeAt<V(!new), A(!new), W(!new)>(
    em: Measured<V, A>, count: V -> int, mw: Measured<W, A>, t: TreeRef<V, A>, position: int, cache: Cache<V, A, W>)
    returns (w: W)
    requires Lawful(em) && Lawful(mw) && CountsEpochs(em, count)
    requires TreeWf(t) && TreeOk(em, 0, TreeShape(t)) && Sound(mw, cache.table)
    modifies cache
    ensures w == Fold(mw, Prefix(TreeLeaves(TreeShape(t)), position))
    ensures Sound(mw, cache.table) && Grown(old(cache.table), cache.table)
  {
    hide TreeOk, TreeWf, Fold, Lawful, SplitAt, TreeLeaves, CountsEpochs;
    if position <= 0 {
      FoldOfNothing(mw);
      return mw.empty;
    }
    var s := SplitObj(em, (v: V) => count(v) >= position, t);
    CutLength(em, count, TreeShape(t), position, (v: V) => count(v) >= position, SplitShape(s));
    if !s.FoundRef? {
      w := FoldTree(em, mw, t, cache);
      return;
    }
    var left := FoldTree(em, mw, s.left, cache);
    w := mw.append(left, mw.measure(s.value.value));
    FoldSingleton(mw, s.value.value);
    FoldAppend(mw, TreeLeaves(TreeShape(s.left)), [s.value.value]);
  }

  /** Where the cut of a prefix evaluation falls, counted in epochs. */
  lemma CutLength<V(!new), A(!new)>(
    em: Measured<V, A>, count: V -> int, t: Tree<V, A>, position: int, p: V -> bool, s: SplitResult<V, A>)
    requires Lawful(em) && CountsEpochs(em, count) && TreeOk(em, 0, t) && position > 0
    requires forall v :: p(v) <==> count(v) >= position
    requires s == SplitAt(em, p, t)
    ensures s.Found? <==> position <= |TreeLeaves(t)|
    ensures s.NotFound? <==> position > |TreeLeaves(t)|
    ensures s.Found? ==>
      && TreeOk(em, 0, s.left) && s.value.Leaf?
      && TreeLeaves(s.left) + [s.value.value] == Prefix(TreeLeaves(t), position)
  {
    hide TreeOk, Fold, Lawful, SplitAt, TreeLeaves, ElemOk;
    SplitCorrect(em, p, t);
    MeasureTreeIsFold(em, 0, t);
    CountIsLength(em, count, TreeLeaves(t));
    assert count(em.empty) == 0;
    if t.Empty? {
      EmptyHasNoLeaves(t);
    }
    if s.Found? {
      var l := TreeLeaves(s.left);
      LeafOnly(em, s.value);
      CountIsLength(em, count, l);
      CountIsLength(em, count, l + [s.value.value]);
      assert |l| + 1 == position;
      assert Prefix(TreeLeaves(t), position) == l + [s.value.value];
    }
  }

  lemma LeafOnly<V, A>(m: Measured<V, A>, e: Elem<V, A>)
    requires ElemOk(m, 0, e)
    ensures e.Leaf? && Leaves(e) == [e.value]
  {
  }

  /**
   * One cache, any number of versions: every fold of a run that shares a cache returns the fold of its own
   * tree, whatever trees came before it and however they were derived from one another.
   */
  method FoldVersions<V, A(!new), W(!new)>(
    ghost em: Measured<V, A>, mw: Measured<W, A>, trees: seq<TreeRef<V, A>>, cache: Cache<V, A, W>)
    returns (ws: seq<W>)
    requires Lawful(mw) && Sound(mw, cache.table)
    requires forall i | 0 <= i < |trees| :: TreeWf(trees[i]) && TreeOk(em, 0, TreeShape(trees[i]))
    modifies cache
    ensures |ws| == |trees|
    ensures forall i | 0 <= i < |trees| :: ws[i] == Fold(mw, TreeLeaves(TreeShape(trees[i])))
    ensures Sound(mw, cache.table)
  {
    hide TreeOk, TreeWf, Fold, Lawful, TreeLeaves;
    ws := [];
    for i := 0 to |trees|
      invariant |ws| == i && Sound(mw, cache.table)
      invariant forall j | 0 <= j < i :: ws[j] == Fold(mw, TreeLeaves(TreeShape(trees[j])))
    {
      var w := FoldTree(em, mw, trees[i], cache);
      ws := ws + [w];
    }
  }
}
