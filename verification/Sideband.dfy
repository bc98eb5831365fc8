/**
 * The pending sideband, a FIFO quarantine bounded in entries and in bytes: createPendingSideband of
 * packages/core/src/ingest-snapshot.ts.
 */
module Sideband {

  import Chain

  type Cid = Chain.Cid
  type Bytes = string  // one character per byte

  datatype Held = Held(cid: Cid, data: Bytes)

  ghost function Total(xs: seq<Held>): nat {
    if xs == [] then 0 else |xs[0].data| + Total(xs[1..])
  }

  ghost predicate Has(xs: seq<Held>, c: Cid) {
    exists i | 0 <= i < |xs| :: xs[i].cid == c
  }

  ghost predicate Distinct(xs: seq<Held>) {
    forall i, j | 0 <= i < j < |xs| :: xs[i].cid != xs[j].cid
  }

  ghost predicate Fits(xs: seq<Held>, maxEntries: nat, maxBytes: nat) {
    |xs| <= maxEntries && (xs == [] || Total(xs) <= maxBytes)
  }

  /** Dropping from the front until the rest fits. */
  ghost function Trimmed(xs: seq<Held>, maxEntries: nat, maxBytes: nat): seq<Held> {
    if Fits(xs, maxEntries, maxBytes) then xs else Trimmed(xs[1..], maxEntries, maxBytes)
  }

  ghost function Without(xs: seq<Held>, c: Cid): seq<Held> {
    if xs == [] then [] else if xs[0].cid == c then Without(xs[1..], c) else [xs[0]] + Without(xs[1..], c)
  }

  /** What is kept is the longest suffix that fits: it is within both caps, and no longer suffix is. */
  lemma {:induction false} TrimmedIsLongest(xs: seq<Held>, maxEntries: nat, maxBytes: nat)
    ensures var kept := Trimmed(xs, maxEntries, maxBytes);
      && |kept| <= maxEntries && (kept == [] || Total(kept) <= maxBytes) && Fits(kept, maxEntries, maxBytes)
      && |kept| <= |xs| && kept == xs[|xs| - |kept|..]
      && forall j | 0 <= j < |xs| - |kept| :: |xs[j..]| > maxEntries || Total(xs[j..]) > maxBytes
    decreases |xs|
  {
    if !Fits(xs, maxEntries, maxBytes) {
      TrimmedIsLongest(xs[1..], maxEntries, maxBytes);
      var kept := Trimmed(xs, maxEntries, maxBytes);
      forall j | 0 <= j < |xs| - |kept| ensures |xs[j..]| > maxEntries || Total(xs[j..]) > maxBytes {
        if j > 0 {
          assert xs[1..][j - 1..] == xs[j..];
        } else {
          assert xs[0..] == xs;
        }
      }
    }
  }

  lemma {:induction false} TotalSnoc(xs: seq<Held>, x: Held)
    ensures Total(xs + [x]) == Total(xs) + |x.data|
  {
    if xs != [] {
      assert (xs + [x])[1..] == xs[1..] + [x];
      TotalSnoc(xs[1..], x);
    }
  }

  lemma DistinctSnoc(xs: seq<Held>, x: Held)
    requires Distinct(xs) && !Has(xs, x.cid)
    ensures Distinct(xs + [x])
  {
  }

  lemma DistinctTail(xs: seq<Held>)
    requires Distinct(xs) && xs != []
    ensures Distinct(xs[1..])
  {
  }

  lemma {:induction false} WithoutProps(xs: seq<Held>, c: Cid)
    requires Distinct(xs)
    ensures Distinct(Without(xs, c)) && !Has(Without(xs, c), c)
    ensures forall x :: x in Without(xs, c) <==> x in xs && x.cid != c
    ensures Total(Without(xs, c)) <= Total(xs) && |Without(xs, c)| <= |xs|
  {
    if xs != [] {
      var tail := xs[1..];
      WithoutProps(tail, c);
      forall i | 0 < i < |Without(xs, c)| && xs[0].cid != c ensures Without(xs, c)[i].cid != xs[0].cid {
        assert Without(xs, c)[i] in Without(tail, c);
      }
    }
  }

  lemma {:induction false} WithoutAbsent(xs: seq<Held>, c: Cid)
    requires !Has(xs, c)
    ensures Without(xs, c) == xs
  {
    if xs != [] {
      assert xs[0].cid != c;
      assert !Has(xs[1..], c) by {
        forall i | 0 <= i < |xs[1..]| ensures xs[1..][i].cid != c { assert xs[1..][i] == xs[i + 1]; }
      }
      WithoutAbsent(xs[1..], c);
    }
  }

  /** Cutting out the entry at an index is removing its key, when keys are distinct. */
  lemma {:induction false} WithoutAt(xs: seq<Held>, i: nat)
    requires Distinct(xs) && i < |xs|
    ensures Without(xs, xs[i].cid) == xs[..i] + xs[i + 1..]
    decreases i
  {
    hide Has;
    var tail := xs[1..];
    if i == 0 {
      assert !Has(tail, xs[0].cid) by { FirstIsUnique(xs); }
      WithoutAbsent(tail, xs[0].cid);
    } else {
      assert xs[0].cid != xs[i].cid;
      WithoutAt(tail, i - 1);
      assert xs[..i] == [xs[0]] + tail[..i - 1] && xs[i + 1..] == tail[i..];
    }
  }

  lemma FirstIsUnique(xs: seq<Held>)
    requires Distinct(xs) && xs != []
    ensures !Has(xs[1..], xs[0].cid)
  {
  }

  lemma {:induction false} TotalCut(xs: seq<Held>, i: nat)
    requires i < |xs|
    ensures Total(xs) == Total(xs[..i] + xs[i + 1..]) + |xs[i].data|
    decreases i
  {
    var rest := xs[..i] + xs[i + 1..];
    if i == 0 {
      assert rest == xs[1..];
    } else {
      TotalCut(xs[1..], i - 1);
      assert rest[1..] == xs[1..][..i - 1] + xs[1..][i..];
    }
  }

  class PendingSideband {
    const maxEntries: nat
    const maxBytes: nat
    var pending: seq<Held>   // an insertion-ordered Map
    var totalBytes: int

    ghost predicate Valid()
      reads this
    {
      Distinct(pending) && totalBytes == Total(pending) && Fits(pending, maxEntries, maxBytes)
    }

    constructor (maxEntries: nat, maxBytes: nat)
      ensures Valid() && pending == []
      ensures this.maxEntries == maxEntries && this.maxBytes == maxBytes
    {
      this.maxEntries, this.maxBytes := maxEntries, maxBytes;
      pending, totalBytes := [], 0;
    }

    method IndexOf(cid: Cid) returns (i: int)
      ensures -1 <= i < |pending|
      ensures i >= 0 ==> pending[i].cid == cid
      ensures i < 0 <==> !Has(pending, cid)
    {
      for k := 0 to |pending|
        invariant forall j | 0 <= j < k :: pending[j].cid != cid
      {
        if pending[k].cid == cid {
          return k;
        }
      }
      return -1;
    }

    /**
     * add. A CID already held changes nothing. Otherwise the new entry goes last and the oldest are
     * evicted, reported once each in insertion order, until both caps hold; a block over the byte cap
     * evicts itself.
     */
    method Add(cid: Cid, data: Bytes) returns (evicted: seq<Held>)
      requires Valid()
      modifies this
      ensures Valid()
      ensures |pending| <= maxEntries && (pending == [] || totalBytes <= maxBytes) && totalBytes == Total(pending)
      ensures Has(old(pending), cid) ==> pending == old(pending) && evicted == []
      ensures !Has(old(pending), cid) ==>
        && pending == Trimmed(old(pending) + [Held(cid, data)], maxEntries, maxBytes)
        && evicted + pending == old(pending) + [Held(cid, data)]
    {
      hide Has, Distinct;
      evicted := [];
      var at := IndexOf(cid);
      if at >= 0 {
        return;
      }
      ghost var all := pending + [Held(cid, data)];
      TotalSnoc(pending, Held(cid, data));
      DistinctSnoc(pending, Held(cid, data));
      pending := pending + [Held(cid, data)];
      totalBytes := totalBytes + |data|;
      while |pending| > maxEntries || (|pending| > 0 && totalBytes > maxBytes)
        invariant Distinct(pending) && totalBytes == Total(pending)
        invariant evicted + pending == all
        invariant Trimmed(pending, maxEntries, maxBytes) == Trimmed(all, maxEntries, maxBytes)
        decreases |pending|
      {
        var oldest := pending[0];
        assert all[|evicted|] == oldest;
        DistinctTail(pending);
        pending := pending[1..];
        totalBytes := totalBytes - |oldest.data|;
        evicted := evicted + [oldest];
      }
    }

    /** remove: takes out the entry and its bytes, and nothing when absent. */
    method Remove(cid: Cid)
      requires Valid()
      modifies this
      ensures Valid() && pending == Without(old(pending), cid)
    {
      var i := IndexOf(cid);
      if i < 0 {
        WithoutAbsent(pending, cid);
        return;
      }
      WithoutAt(pending, i);
      TotalCut(pending, i);
      WithoutProps(pending, cid);
      totalBytes := totalBytes - |pending[i].data|;
      pending := pending[..i] + pending[i + 1..];
    }
  }
}
