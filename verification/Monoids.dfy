/**
 * Monoids and measured elements (packages/finger-tree/src/monoid.ts).
 *
 * The laws of a monoid are hypotheses of the theorems, never of the code. They are stated through the
 * named instances AssocAt and UnitAt, so that a proof uses associativity only where it names an instance.
 */
module Monoids {

  /**
   * A monoid with a measure of elements. has(v) says that v is a value of the type the measure has in
   * TypeScript. It holds of all of V where V is that type; the values of a record of monoids are those maps
   * that have just the record's keys.
   */
  datatype Measured<!V, !A> = Measured(empty: V, append: (V, V) -> V, measure: A -> V, has: V -> bool)

  ghost predicate ClosedAt<V, A>(m: Measured<V, A>, a: V, b: V) {
    m.has(a) && m.has(b) ==> m.has(m.append(a, b))
  }

  ghost predicate MeasureAt<V, A>(m: Measured<V, A>, x: A) {
    m.has(m.measure(x))
  }

  ghost predicate AssocAt<V, A>(m: Measured<V, A>, a: V, b: V, c: V) {
    m.has(a) && m.has(b) && m.has(c) ==> m.append(m.append(a, b), c) == m.append(a, m.append(b, c))
  }

  ghost predicate UnitAt<V, A>(m: Measured<V, A>, a: V) {
    m.has(a) ==> m.append(m.empty, a) == a && m.append(a, m.empty) == a
  }

  ghost predicate Lawful<V(!new), A(!new)>(m: Measured<V, A>) {
    && m.has(m.empty)
    && (forall x :: MeasureAt(m, x))
    && (forall a, b :: ClosedAt(m, a, b))
    && (forall a, b, c :: AssocAt(m, a, b, c))
    && (forall a :: UnitAt(m, a))
  }

  /** The left-to-right monoidal fold that every cached annotation is compared with. */
  ghost function Fold<V, A>(m: Measured<V, A>, xs: seq<A>): V {
    if xs == [] then m.empty else m.append(Fold(m, xs[..|xs| - 1]), m.measure(xs[|xs| - 1]))
  }

  lemma {:induction false} FoldHas<V(!new), A(!new)>(m: Measured<V, A>, xs: seq<A>)
    requires Lawful(m)
    ensures m.has(Fold(m, xs))
  {
    if xs != [] {
      var n := |xs| - 1;
      FoldHas(m, xs[..n]);
      assert MeasureAt(m, xs[n]);
      assert ClosedAt(m, Fold(m, xs[..n]), m.measure(xs[n]));
    }
  }

  lemma {:induction false} FoldAppend<V(!new), A(!new)>(m: Measured<V, A>, xs: seq<A>, ys: seq<A>)
    requires Lawful(m)
    ensures Fold(m, xs + ys) == m.append(Fold(m, xs), Fold(m, ys))
    decreases |ys|
  {
    FoldHas(m, xs);
    if ys == [] {
      assert xs + ys == xs;
      assert UnitAt(m, Fold(m, xs));
    } else {
      var init, last := ys[..|ys| - 1], ys[|ys| - 1];
      assert (xs + ys)[..|xs + ys| - 1] == xs + init;
      FoldAppend(m, xs, init);
      FoldHas(m, init);
      assert MeasureAt(m, last);
      assert AssocAt(m, Fold(m, xs), Fold(m, init), m.measure(last));
    }
  }

  lemma FoldSingleton<V(!new), A(!new)>(m: Measured<V, A>, x: A)
    requires Lawful(m)
    ensures Fold(m, [x]) == m.measure(x)
  {
    assert [x][..0] == [];
    assert MeasureAt(m, x) && UnitAt(m, m.measure(x));
  }

  // ---- Records of monoids ----

  /**
   * The values of different keys may have different types: V is then the union of these types, and each
   * component has only the values of its own.
   */
  function Combine<V, A>(ms: map<string, Measured<V, A>>): Measured<map<string, V>, A> {
    Measured(
      map k | k in ms :: ms[k].empty,
      (x: map<string, V>, y: map<string, V>) => map k | k in ms && k in x && k in y :: ms[k].append(x[k], y[k]),
      (a: A) => map k | k in ms :: ms[k].measure(a),
      (x: map<string, V>) => RecordOf(ms, x))
  }

  predicate RecordOf<V, A>(ms: map<string, Measured<V, A>>, x: map<string, V>) {
    x.Keys == ms.Keys && forall k | k in ms :: ms[k].has(x[k])
  }

  /** A record of monoids is a monoid, on the records of those keys, exactly when every component is one. */
  lemma CombineLawful<V(!new), A(!new)>(ms: map<string, Measured<V, A>>)
    ensures Lawful(Combine(ms)) <==> forall k | k in ms :: Lawful(ms[k])
  {
    hide Lawful;
    if forall k | k in ms :: Lawful(ms[k]) {
      ComponentsMakeLawful(ms);
    }
    if Lawful(Combine(ms)) {
      forall k | k in ms ensures Lawful(ms[k]) {
        ComponentLawful(ms, k);
      }
    }
  }

  lemma EmptyAt<V, A>(ms: map<string, Measured<V, A>>)
    ensures Combine(ms).empty.Keys == ms.Keys && forall k | k in ms :: Combine(ms).empty[k] == ms[k].empty
  {
  }

  lemma MeasuresAt<V, A>(ms: map<string, Measured<V, A>>, a: A)
    ensures Combine(ms).measure(a).Keys == ms.Keys
    ensures forall k | k in ms :: Combine(ms).measure(a)[k] == ms[k].measure(a)
  {
  }

  lemma HasAt<V, A>(ms: map<string, Measured<V, A>>, x: map<string, V>)
    ensures Combine(ms).has(x) <==> RecordOf(ms, x)
  {
  }

  lemma AppendAt<V, A>(ms: map<string, Measured<V, A>>, x: map<string, V>, y: map<string, V>)
    requires x.Keys == y.Keys == ms.Keys
    ensures Combine(ms).append(x, y).Keys == ms.Keys
    ensures forall k | k in ms :: Combine(ms).append(x, y)[k] == ms[k].append(x[k], y[k])
  {
  }

  // On records the laws of a record of monoids are the laws of its components, key by key.

  lemma RecordClosed<V, A>(ms: map<string, Measured<V, A>>, a: map<string, V>, b: map<string, V>)
    requires RecordOf(ms, a) && RecordOf(ms, b)
    ensures ClosedAt(Combine(ms), a, b) <==> forall k | k in ms :: ClosedAt(ms[k], a[k], b[k])
  {
    hide Combine;
    HasAt(ms, a);
    HasAt(ms, b);
    AppendAt(ms, a, b);
    HasAt(ms, Combine(ms).append(a, b));
  }

  lemma SameRecord<V>(keys: set<string>, l: map<string, V>, r: map<string, V>)
    requires l.Keys == r.Keys == keys
    ensures l == r <==> forall k | k in keys :: l[k] == r[k]
  {
  }

  /** Both groupings of three records, at one key. */
  lemma GroupingsAt<V, A>(
    ms: map<string, Measured<V, A>>, a: map<string, V>, b: map<string, V>, c: map<string, V>, k: string)
    requires a.Keys == b.Keys == c.Keys == ms.Keys && k in ms
    ensures var m := Combine(ms); var l, r := m.append(m.append(a, b), c), m.append(a, m.append(b, c));
      && l.Keys == r.Keys == ms.Keys
      && l[k] == ms[k].append(ms[k].append(a[k], b[k]), c[k])
      && r[k] == ms[k].append(a[k], ms[k].append(b[k], c[k]))
  {
    hide Combine;
    var m := Combine(ms);
    AppendAt(ms, a, b);
    AppendAt(ms, b, c);
    AppendAt(ms, m.append(a, b), c);
    AppendAt(ms, a, m.append(b, c));
  }

  lemma RecordAssoc<V, A>(ms: map<string, Measured<V, A>>, a: map<string, V>, b: map<string, V>, c: map<string, V>)
    requires RecordOf(ms, a) && RecordOf(ms, b) && RecordOf(ms, c)
    ensures AssocAt(Combine(ms), a, b, c) <==> forall k | k in ms :: AssocAt(ms[k], a[k], b[k], c[k])
  {
    HasAt(ms, a);
    HasAt(ms, b);
    HasAt(ms, c);
    hide Combine;
    var m := Combine(ms);
    AppendAt(ms, a, b);
    AppendAt(ms, b, c);
    var l, r := m.append(m.append(a, b), c), m.append(a, m.append(b, c));
    AppendAt(ms, m.append(a, b), c);
    AppendAt(ms, a, m.append(b, c));
    SameRecord(ms.Keys, l, r);
    forall k | k in ms ensures AssocAt(ms[k], a[k], b[k], c[k]) <==> l[k] == r[k] {
      GroupingsAt(ms, a, b, c, k);
    }
  }

  lemma RecordUnit<V, A>(ms: map<string, Measured<V, A>>, a: map<string, V>)
    requires RecordOf(ms, a)
    ensures UnitAt(Combine(ms), a) <==> forall k | k in ms :: UnitAt(ms[k], a[k])
  {
    HasAt(ms, a);
    hide Combine;
    var m := Combine(ms);
    EmptyAt(ms);
    var l, r := m.append(m.empty, a), m.append(a, m.empty);
    AppendAt(ms, m.empty, a);
    AppendAt(ms, a, m.empty);
    SameRecord(ms.Keys, l, a);
    SameRecord(ms.Keys, r, a);
    assert forall k | k in ms :: UnitAt(ms[k], a[k]) <==> l[k] == a[k] && r[k] == a[k];
  }

  lemma ComponentsMakeLawful<V(!new), A(!new)>(ms: map<string, Measured<V, A>>)
    requires forall k | k in ms :: Lawful(ms[k])
    ensures Lawful(Combine(ms))
  {
    var m := Combine(ms);
    forall x: map<string, V> ensures m.has(x) <==> RecordOf(ms, x) { HasAt(ms, x); }
    EmptyAt(ms);
    forall x ensures MeasureAt(m, x) { MeasuresAt(ms, x); assert forall k | k in ms :: MeasureAt(ms[k], x); }
    hide Combine, AssocAt, UnitAt, RecordOf;
    forall a, b ensures ClosedAt(m, a, b) { if m.has(a) && m.has(b) { RecordClosed(ms, a, b); } }
    forall a, b, c ensures AssocAt(m, a, b, c) {
      if m.has(a) && m.has(b) && m.has(c) { RecordAssoc(ms, a, b, c); } else { NoAssoc(m, a, b, c); }
    }
    forall a ensures UnitAt(m, a) { if m.has(a) { RecordUnit(ms, a); } else { NoUnit(m, a); } }
  }

  lemma NoAssoc<V, A>(m: Measured<V, A>, a: V, b: V, c: V)
    requires !(m.has(a) && m.has(b) && m.has(c))
    ensures AssocAt(m, a, b, c)
  {
  }

  lemma NoUnit<V, A>(m: Measured<V, A>, a: V)
    requires !m.has(a)
    ensures UnitAt(m, a)
  {
  }

  /** The record that is a at key k and neutral everywhere else. */
  function Only<V, A>(ms: map<string, Measured<V, A>>, k: string, a: V): (x: map<string, V>)
    ensures x.Keys == ms.Keys && (k in ms ==> x[k] == a)
  {
    map j | j in ms :: if j == k then a else ms[j].empty
  }

  lemma OnlyIsRecord<V, A>(ms: map<string, Measured<V, A>>, k: string, a: V)
    requires RecordOf(ms, Combine(ms).empty) && k in ms && ms[k].has(a)
    ensures RecordOf(ms, Only(ms, k, a)) && Only(ms, k, a)[k] == a
  {
    EmptyAt(ms);
  }

  /** The laws that a lawful record has at records that differ at one key only. */
  lemma LawsAtOnly<V(!new), A(!new)>(ms: map<string, Measured<V, A>>, k: string, a: V, b: V, c: V)
    requires k in ms && Lawful(Combine(ms)) && ms[k].has(a) && ms[k].has(b) && ms[k].has(c)
    ensures ClosedAt(ms[k], a, b) && AssocAt(ms[k], a, b, c) && UnitAt(ms[k], a)
  {
    hide Combine, AssocAt, UnitAt, ClosedAt, RecordOf, Only;
    var m, ra, rb, rc := Combine(ms), Only(ms, k, a), Only(ms, k, b), Only(ms, k, c);
    HasAt(ms, m.empty);
    OnlyIsRecord(ms, k, a);
    OnlyIsRecord(ms, k, b);
    OnlyIsRecord(ms, k, c);
    assert ClosedAt(m, ra, rb) && AssocAt(m, ra, rb, rc) && UnitAt(m, ra);
    RecordClosed(ms, ra, rb);
    RecordAssoc(ms, ra, rb, rc);
    RecordUnit(ms, ra);
  }

  lemma ComponentLawful<V(!new), A(!new)>(ms: map<string, Measured<V, A>>, k: string)
    requires k in ms && Lawful(Combine(ms))
    ensures Lawful(ms[k])
  {
    var m, one := Combine(ms), ms[k];
    EmptyAt(ms);
    HasAt(ms, m.empty);
    forall x ensures MeasureAt(one, x) { assert MeasureAt(m, x); MeasuresAt(ms, x); HasAt(ms, m.measure(x)); }
    hide Combine, RecordOf;
    forall a, b ensures ClosedAt(one, a, b) { if one.has(a) && one.has(b) { LawsAtOnly(ms, k, a, b, b); } }
    forall a, b, c ensures AssocAt(one, a, b, c) {
      if one.has(a) && one.has(b) && one.has(c) { LawsAtOnly(ms, k, a, b, c); }
    }
    forall a ensures UnitAt(one, a) { if one.has(a) { LawsAtOnly(ms, k, a, a, a); } }
  }

  /** Folding with a record of monoids gives the record of the component folds. */
  lemma {:induction false} CombineFold<V, A>(ms: map<string, Measured<V, A>>, xs: seq<A>)
    ensures Fold(Combine(ms), xs) == map k | k in ms :: Fold(ms[k], xs)
  {
    hide Combine;
    if xs == [] {
      EmptyAt(ms);
    } else {
      var init, last := xs[..|xs| - 1], xs[|xs| - 1];
      CombineFold(ms, init);
      MeasuresAt(ms, last);
      AppendAt(ms, Fold(Combine(ms), init), Combine(ms).measure(last));
    }
  }
}
