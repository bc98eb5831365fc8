/**
 * What the capability fragment format is for: printing and parsing undo each other, the bytes do not
 * depend on iteration order, a cut fragment is read only at an entry boundary, and unknown entries are
 * ignored (packages/capability/src/index.ts).
 */
module FragmentTheorems {
  import opened Options
  import opened Base64Url
  import opened Capability

  // ---- The wire format on its own ----

  datatype Parse = Parsed(entries: seq<Raw>) | Cut(at: nat, before: seq<Raw>)

  /** The entries of a buffer from an offset on, and where it is cut short, if it is. */
  function ParseFrom(buf: Bytes, offset: nat): Parse
    requires offset <= |buf|
    decreases |buf| - offset
  {
    if offset == |buf| then Parsed([]) else
    var labelAt := offset + 1;
    var valueLenAt := labelAt + buf[offset];
    if valueLenAt > |buf| then Cut(labelAt, []) else
    if valueLenAt + 1 > |buf| then Cut(valueLenAt, []) else
    var valueAt := valueLenAt + 1;
    var end := valueAt + buf[valueLenAt];
    if end > |buf| then Cut(valueAt, []) else
    var r := Raw(buf[labelAt..valueLenAt], buf[valueAt..end]);
    match ParseFrom(buf, end)
    case Cut(at, before) => Cut(at, [r] + before)
    case Parsed(rest) => Parsed([r] + rest)
  }

  lemma TailShort(rs: seq<Raw>)
    requires AllShort(rs) && rs != []
    ensures AllShort(rs[1..]) && Short(rs[0])
    ensures |Print(rs)| == 2 + |rs[0].tag| + |rs[0].value| + |Print(rs[1..])|
  {
  }

  /** One step of the parser over a printed entry. */
  lemma ParseOne(buf: Bytes, offset: nat, r: Raw, rest: Bytes)
    requires offset <= |buf| && Short(r) && buf[offset..] == PrintOne(r) + rest
    ensures offset < |buf|
    ensures var end := offset + 2 + |r.tag| + |r.value|;
      && end <= |buf| && buf[end..] == rest
      && buf[offset] == |r.tag| && buf[offset + 1..offset + 1 + |r.tag|] == r.tag
      && buf[offset + 1 + |r.tag|] == |r.value| && buf[offset + 2 + |r.tag|..end] == r.value
  {
    var s := buf[offset..];
    var n, v := |r.tag|, |r.value|;
    assert |s| == 2 + n + v + |rest|;
    assert s[0] == n && s[1..1 + n] == r.tag && s[1 + n] == v && s[2 + n..2 + n + v] == r.value && s[2 + n + v..] == rest;
    assert buf[offset + 1..offset + 1 + n] == s[1..1 + n];
    assert buf[offset + 2 + n..offset + 2 + n + v] == s[2 + n..2 + n + v];
  }

  /** Parsing reads back what was printed. */
  lemma {:induction false} ParsePrinted(buf: Bytes, offset: nat, rs: seq<Raw>)
    requires offset <= |buf| && AllShort(rs) && buf[offset..] == Print(rs)
    ensures ParseFrom(buf, offset) == Parsed(rs)
    decreases |rs|
  {
    hide PrintOne, ParseFrom;
    if rs == [] {
      ParseNothing(buf, offset);
    } else {
      TailShort(rs);
      ParseStep(buf, offset, rs[0], Print(rs[1..]));
      ParsePrinted(buf, offset + 2 + |rs[0].tag| + |rs[0].value|, rs[1..]);
      assert rs == [rs[0]] + rs[1..];
    }
  }

  lemma ParseNothing(buf: Bytes, offset: nat)
    requires offset <= |buf| && buf[offset..] == []
    ensures ParseFrom(buf, offset) == Parsed([])
  {
  }

  lemma ParseStep(buf: Bytes, offset: nat, r: Raw, rest: Bytes)
    requires offset <= |buf| && Short(r) && buf[offset..] == PrintOne(r) + rest
    ensures var end := offset + 2 + |r.tag| + |r.value|;
      && end <= |buf| && buf[end..] == rest
      && ParseFrom(buf, offset)
           == match ParseFrom(buf, end) case Cut(at, before) => Cut(at, [r] + before) case Parsed(es) => Parsed([r] + es)
  {
    hide PrintOne;
    ParseOne(buf, offset, r, rest);
  }

  /** What parses was printed: the format has no second spelling. */
  lemma {:induction false} PrintedParse(buf: Bytes, offset: nat)
    requires offset <= |buf| && ParseFrom(buf, offset).Parsed?
    ensures AllShort(ParseFrom(buf, offset).entries)
    ensures buf[offset..] == Print(ParseFrom(buf, offset).entries)
    decreases |buf| - offset
  {
    if offset < |buf| {
      var valueLenAt := offset + 1 + buf[offset];
      var end := valueLenAt + 1 + buf[valueLenAt];
      PrintedParse(buf, end);
      var rs := ParseFrom(buf, offset).entries;
      assert rs[1..] == ParseFrom(buf, end).entries;
      ShortCons(rs);
      PieceTogether(buf, offset, valueLenAt, end);
    }
  }

  lemma ShortCons(rs: seq<Raw>)
    requires rs != [] && Short(rs[0]) && AllShort(rs[1..])
    ensures AllShort(rs)
  {
    assert forall i | 0 < i < |rs| :: rs[i] == rs[1..][i - 1];
  }

  lemma PieceTogether(buf: Bytes, offset: nat, valueLenAt: nat, end: nat)
    requires offset + 1 <= valueLenAt < end <= |buf|
    ensures buf[offset..]
         == ([buf[offset]] + buf[offset + 1..valueLenAt] + [buf[valueLenAt]] + buf[valueLenAt + 1..end]) + buf[end..]
  {
  }

  // ---- Decoding is parsing and then adding the entries ----

  function FoldEntries(p: Partial, rs: seq<Raw>, text: Text, importable: Bytes -> bool): Option<Partial>
    decreases |rs|
  {
    if rs == [] then Some(p) else
    match AddEntry(p, rs[0], text, importable)
    case None => None
    case Some(p') => FoldEntries(p', rs[1..], text, importable)
  }

  lemma FoldNothing(p: Partial, text: Text, importable: Bytes -> bool)
    ensures FoldEntries(p, [], text, importable) == Some(p)
  {
  }

  lemma FoldFirst(p: Partial, r: Raw, rest: seq<Raw>, text: Text, importable: Bytes -> bool)
    ensures FoldEntries(p, [r] + rest, text, importable)
         == match AddEntry(p, r, text, importable)
            case None => None
            case Some(p') => FoldEntries(p', rest, text, importable)
  {
    assert ([r] + rest)[1..] == rest;
  }

  lemma {:induction false} DecodeIsParseThenFold(
    buf: Bytes, offset: nat, p: Partial, text: Text, importable: Bytes -> bool)
    requires offset <= |buf|
    ensures ParseFrom(buf, offset).Cut? ==>
      var folded := FoldEntries(p, ParseFrom(buf, offset).before, text, importable);
      DecodeFrom(buf, offset, p, text, importable)
        == Err(if folded.None? then KeyImportFailed else Truncated(ParseFrom(buf, offset).at))
    ensures ParseFrom(buf, offset).Parsed? ==>
      var folded := FoldEntries(p, ParseFrom(buf, offset).entries, text, importable);
      DecodeFrom(buf, offset, p, text, importable)
        == if folded.None? then Err(KeyImportFailed) else Ok(folded.value)
    decreases |buf| - offset
  {
    hide AddEntry, FoldEntries;
    FoldNothing(p, text, importable);
    if offset < |buf| {
      var labelAt := offset + 1;
      var valueLenAt := labelAt + buf[offset];
      if valueLenAt < |buf| {
        var valueAt := valueLenAt + 1;
        var end := valueAt + buf[valueLenAt];
        if end <= |buf| {
          var r := Raw(buf[labelAt..valueLenAt], buf[valueAt..end]);
          var next := AddEntry(p, r, text, importable);
          if next.Some? {
            DecodeIsParseThenFold(buf, end, next.value, text, importable);
          }
          match ParseFrom(buf, end)
          case Parsed(rest) => FoldFirst(p, r, rest, text, importable);
          case Cut(_, before) => FoldFirst(p, r, before, text, importable);
        }
      }
    }
  }

  // ---- Cut fragments ----

  lemma {:induction false} PrintAppend(xs: seq<Raw>, ys: seq<Raw>)
    requires AllShort(xs) && AllShort(ys)
    ensures AllShort(xs + ys) && Print(xs + ys) == Print(xs) + Print(ys)
  {
    hide PrintOne;
    if xs == [] {
      assert xs + ys == ys;
    } else {
      PrintAppend(xs[1..], ys);
      assert (xs + ys)[1..] == xs[1..] + ys;
    }
  }

  /** Entries printed to a prefix of a print are a prefix of the entries. */
  lemma {:induction false} PrefixPrint(xs: seq<Raw>, ys: seq<Raw>, rest: Bytes)
    requires AllShort(xs) && AllShort(ys) && Print(xs) + rest == Print(ys)
    ensures xs <= ys
    decreases |xs|
  {
    hide PrintOne;
    if xs != [] {
      TailShort(xs);
      assert ys != [];
      TailShort(ys);
      var whole := Print(ys);
      assert whole[0..] == whole;
      assert whole == PrintOne(xs[0]) + (Print(xs[1..]) + rest);
      ParseOne(whole, 0, xs[0], Print(xs[1..]) + rest);
      ParseOne(whole, 0, ys[0], Print(ys[1..]));
      PrefixPrint(xs[1..], ys[1..], rest);
      assert xs == [xs[0]] + xs[1..] && ys == [ys[0]] + ys[1..];
    }
  }

  /** n bytes of the buffer end exactly after its first j entries. */
  ghost predicate Boundary(rs: seq<Raw>, n: nat, j: nat)
    requires AllShort(rs)
  {
    j <= |rs| && n == 1 + |Print(rs[..j])|
  }

  /** Parsing a non-empty prefix succeeds exactly at an entry boundary and then yields just the earlier entries. */
  lemma CutParse(buf: Bytes, n: nat)
    requires 1 <= n <= |buf| && ParseFrom(buf, 1).Parsed? && AllShort(ParseFrom(buf, 1).entries)
    ensures ParseFrom(buf[..n], 1).Parsed? <==> exists j :: Boundary(ParseFrom(buf, 1).entries, n, j)
    ensures forall j: nat | Boundary(ParseFrom(buf, 1).entries, n, j) ::
      ParseFrom(buf[..n], 1) == Parsed(ParseFrom(buf, 1).entries[..j])
  {
    hide Print, PrintOne, ParseFrom;
    var rs := ParseFrom(buf, 1).entries;
    PrintedParse(buf, 1);
    var head := buf[..n];
    if ParseFrom(head, 1).Parsed? {
      CutAtBoundary(buf, n, rs);
    }
    forall j: nat | j <= |rs| && Boundary(rs, n, j) ensures ParseFrom(head, 1) == Parsed(rs[..j]) {
      BoundaryParses(buf, n, rs, j);
    }
  }

  lemma CutAtBoundary(buf: Bytes, n: nat, rs: seq<Raw>)
    requires 1 <= n <= |buf| && AllShort(rs) && buf[1..] == Print(rs)
    requires ParseFrom(buf[..n], 1).Parsed?
    ensures Boundary(rs, n, |ParseFrom(buf[..n], 1).entries|)
  {
    hide Print, PrintOne, ParseFrom;
    var head, es := buf[..n], ParseFrom(buf[..n], 1).entries;
    PrintedParse(head, 1);
    assert head[1..] + buf[n..] == buf[1..];
    PrefixPrint(es, rs, buf[n..]);
    assert rs[..|es|] == es;
  }

  lemma BoundaryParses(buf: Bytes, n: nat, rs: seq<Raw>, j: nat)
    requires 1 <= n <= |buf| && AllShort(rs) && buf[1..] == Print(rs) && Boundary(rs, n, j)
    ensures ParseFrom(buf[..n], 1) == Parsed(rs[..j])
  {
    hide Print, PrintOne, ParseFrom;
    PrintAppend(rs[..j], rs[j..]);
    assert rs == rs[..j] + rs[j..];
    assert buf[..n][1..] == buf[1..][..n - 1];
    ParsePrinted(buf[..n], 1, rs[..j]);
  }

  lemma {:induction false} FoldPrefix(p: Partial, rs: seq<Raw>, j: nat, text: Text, importable: Bytes -> bool)
    requires j <= |rs| && FoldEntries(p, rs, text, importable).Some?
    ensures FoldEntries(p, rs[..j], text, importable).Some?
    decreases j
  {
    hide AddEntry;
    if j > 0 {
      assert rs[..j][0] == rs[0] && rs[..j][1..] == rs[1..][..j - 1];
      FoldPrefix(AddEntry(p, rs[0], text, importable).value, rs[1..], j - 1, text, importable);
    }
  }

  /** The same for decoding: of an accepted buffer, a cut is accepted exactly at an entry boundary. */
  lemma CutDecode(buf: Bytes, n: nat, text: Text, importable: Bytes -> bool)
    requires DecodeBytes(buf, text, importable).Ok? && 1 <= n <= |buf|
    ensures ParseFrom(buf, 1).Parsed? && AllShort(ParseFrom(buf, 1).entries)
    ensures DecodeBytes(buf[..n], text, importable).Ok? <==> exists j :: Boundary(ParseFrom(buf, 1).entries, n, j)
    ensures forall j: nat | Boundary(ParseFrom(buf, 1).entries, n, j) ::
      var folded := FoldEntries(NOTHING, ParseFrom(buf, 1).entries[..j], text, importable);
      folded.Some? && DecodeBytes(buf[..n], text, importable) == Ok(Finish(folded.value))
  {
    hide Print, AddEntry, DecodeFrom, ParseFrom, FoldEntries, Finish;
    DecodeIsParseThenFold(buf, 1, NOTHING, text, importable);
    DecodeIsParseThenFold(buf[..n], 1, NOTHING, text, importable);
    PrintedParse(buf, 1);
    CutParse(buf, n);
    var rs := ParseFrom(buf, 1).entries;
    forall j: nat | j <= |rs| ensures FoldEntries(NOTHING, rs[..j], text, importable).Some? {
      FoldPrefix(NOTHING, rs, j, text, importable);
    }
  }

  // ---- Unknown labels ----

  predicate UnknownLabel(r: Raw, text: Text) {
    var name := text.decode(r.tag);
    name !in {READ_KEY, IPNS_KEY, ROTATION_KEY, PASSWORD} && !(CHANNEL <= name)
  }

  lemma {:induction false} FoldAppend(p: Partial, xs: seq<Raw>, ys: seq<Raw>, text: Text, importable: Bytes -> bool)
    ensures FoldEntries(p, xs + ys, text, importable)
         == match FoldEntries(p, xs, text, importable)
            case None => None
            case Some(q) => FoldEntries(q, ys, text, importable)
    decreases |xs|
  {
    hide AddEntry;
    if xs == [] {
      assert xs + ys == ys;
    } else {
      assert (xs + ys)[1..] == xs[1..] + ys;
      var next := AddEntry(p, xs[0], text, importable);
      if next.Some? {
        FoldAppend(next.value, xs[1..], ys, text, importable);
      }
    }
  }

  lemma {:induction false} FoldUnknown(p: Partial, us: seq<Raw>, text: Text, importable: Bytes -> bool)
    requires forall i | 0 <= i < |us| :: UnknownLabel(us[i], text)
    ensures FoldEntries(p, us, text, importable) == Some(p)
  {
    if us != [] {
      assert UnknownLabel(us[0], text);
      FoldUnknown(p, us[1..], text, importable);
    }
  }

  /** Inserting whole entries with unknown labels anywhere leaves the outcome of decoding unchanged. */
  lemma UnknownEntriesIgnored(
    before: seq<Raw>, unknown: seq<Raw>, after: seq<Raw>, text: Text, importable: Bytes -> bool)
    requires AllShort(before) && AllShort(unknown) && AllShort(after)
    requires forall i | 0 <= i < |unknown| :: UnknownLabel(unknown[i], text)
    ensures AllShort(before + unknown + after) && AllShort(before + after)
    ensures DecodeBytes([VERSION] + Print(before + unknown + after), text, importable)
         == DecodeBytes([VERSION] + Print(before + after), text, importable)
  {
    hide Print, AddEntry, FoldEntries, UnknownLabel;
    DecodePrinted(before + unknown + after, text, importable);
    DecodePrinted(before + after, text, importable);
    FoldAppend(NOTHING, before + unknown, after, text, importable);
    FoldAppend(NOTHING, before, unknown, text, importable);
    FoldAppend(NOTHING, before, after, text, importable);
    var q := FoldEntries(NOTHING, before, text, importable);
    if q.Some? {
      FoldUnknown(q.value, unknown, text, importable);
    }
  }

  lemma DecodePrinted(rs: seq<Raw>, text: Text, importable: Bytes -> bool)
    requires AllShort(rs)
    ensures var folded := FoldEntries(NOTHING, rs, text, importable);
      DecodeBytes([VERSION] + Print(rs), text, importable)
        == if folded.None? then Err(KeyImportFailed) else Ok(Finish(folded.value))
  {
    hide Print, AddEntry, DecodeFrom, ParseFrom, FoldEntries, Finish;
    var buf := [VERSION] + Print(rs);
    assert buf[1..] == Print(rs);
    ParsePrinted(buf, 1, rs);
    DecodeIsParseThenFold(buf, 1, NOTHING, text, importable);
  }

  // ---- Sorting ----

  ghost predicate Sorted(es: seq<Entry>) {
    forall i, j | 0 <= i < j < |es| :: Less(es[i].tag, es[j].tag)
  }

  ghost predicate DistinctLabels(es: seq<Entry>) {
    forall i, j | 0 <= i < j < |es| :: es[i].tag != es[j].tag
  }

  lemma {:induction false} LessTotal(a: JsString, b: JsString)
    ensures a == b || Less(a, b) || Less(b, a)
    ensures !(Less(a, b) && Less(b, a)) && !Less(a, a)
    decreases |a|
  {
    if a != [] {
      LessTotal(a[1..], a[1..]);
      if b != [] {
        LessTotal(a[1..], b[1..]);
        assert a == [a[0]] + a[1..] && b == [b[0]] + b[1..];
      }
    }
  }

  lemma {:induction false} LessTransitive(a: JsString, b: JsString, c: JsString)
    requires Less(a, b) && Less(b, c)
    ensures Less(a, c)
    decreases |a|
  {
    if a != [] && a[0] == b[0] == c[0] {
      LessTransitive(a[1..], b[1..], c[1..]);
    }
  }

  lemma {:induction false} InsertMembers(e: Entry, es: seq<Entry>)
    ensures forall x :: x in Insert(e, es) <==> x == e || x in es
    ensures multiset(Insert(e, es)) == multiset(es) + multiset{e}
  {
    hide Less;
    if es != [] && Insert(e, es)[0] == es[0] && Insert(e, es) != [e] + es {
      InsertMembers(e, es[1..]);
      assert es == [es[0]] + es[1..];
    }
  }

  lemma {:induction false} InsertSorted(e: Entry, es: seq<Entry>)
    requires Sorted(es) && forall x | x in es :: x.tag != e.tag
    ensures Sorted(Insert(e, es))
  {
    hide Less;
    if es != [] {
      if Less(e.tag, es[0].tag) {
        forall j | 0 < j < |es| ensures Less(e.tag, es[j].tag) {
          LessTransitive(e.tag, es[0].tag, es[j].tag);
        }
      } else {
        LessTotal(e.tag, es[0].tag);
        assert es[0] in es;
        InsertSorted(e, es[1..]);
        InsertMembers(e, es[1..]);
        var rest := Insert(e, es[1..]);
        forall j | 0 <= j < |rest| ensures Less(es[0].tag, rest[j].tag) {
          assert rest[j] in rest;
        }
      }
    }
  }

  /** Sorting permutes the entries, and puts distinct labels in strictly increasing order. */
  lemma {:induction false} SortCorrect(es: seq<Entry>)
    ensures forall x :: x in Sort(es) <==> x in es
    ensures multiset(Sort(es)) == multiset(es)
    ensures DistinctLabels(es) ==> Sorted(Sort(es))
  {
    hide Less, Insert;
    if es != [] {
      SortCorrect(es[1..]);
      InsertMembers(es[0], Sort(es[1..]));
      assert es == [es[0]] + es[1..];
      if DistinctLabels(es) {
        forall x | x in es[1..] ensures x.tag != es[0].tag {
          var i :| 0 <= i < |es[1..]| && es[1..][i] == x;
          assert es[i + 1] == x;
        }
        InsertSorted(es[0], Sort(es[1..]));
      }
    }
  }

  /** A strictly sorted sequence is determined by its members. */
  lemma {:induction false} SortedUnique(xs: seq<Entry>, ys: seq<Entry>)
    requires Sorted(xs) && Sorted(ys) && forall e :: e in xs <==> e in ys
    ensures xs == ys
    decreases |xs|
  {
    hide Less;
    if xs == [] {
      assert forall i | 0 <= i < |ys| :: ys[i] in ys;
    } else {
      assert xs[0] in xs;
      SameFirst(xs, ys);
      forall e ensures e in xs[1..] <==> e in ys[1..] {
        TailMembers(xs, e);
        TailMembers(ys, e);
      }
      SortedUnique(xs[1..], ys[1..]);
      assert xs == [xs[0]] + xs[1..] && ys == [ys[0]] + ys[1..];
    }
  }

  lemma SameFirst(xs: seq<Entry>, ys: seq<Entry>)
    requires Sorted(xs) && Sorted(ys) && xs != [] && forall e :: e in xs <==> e in ys
    ensures ys != [] && xs[0] == ys[0]
  {
    hide Less;
    assert xs[0] in ys;
    assert ys[0] in xs;
    var i :| 0 <= i < |ys| && ys[i] == xs[0];
    var j :| 0 <= j < |xs| && xs[j] == ys[0];
    LessTotal(xs[0].tag, ys[0].tag);
  }

  lemma TailMembers(xs: seq<Entry>, e: Entry)
    requires Sorted(xs) && xs != []
    ensures e in xs[1..] <==> e in xs && e != xs[0]
  {
    hide Less;
    if e in xs[1..] {
      var i :| 0 <= i < |xs[1..]| && xs[1..][i] == e;
      assert xs[i + 1] == e;
      LessTotal(xs[0].tag, e.tag);
    }
    if e in xs && e != xs[0] {
      var i :| 0 <= i < |xs| && xs[i] == e;
      assert xs[1..][i - 1] == e;
    }
  }
}
