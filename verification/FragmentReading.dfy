/**
 * What any buffer decodes to, however it was made: entries out of order, repeated, unknown or cut short
 * (packages/capability/src/index.ts).
 */
module FragmentReading {
  import opened Options
  import opened Base64Url
  import opened Capability
  import opened FragmentTheorems

  /** The value of the last entry whose label reads as tag. */
  function LastOf(rs: seq<Raw>, tag: JsString, text: Text): Option<Bytes> {
    if rs == [] then None
    else LastOf(rs[1..], tag, text).Or(if text.decode(rs[0].tag) == tag then Some(rs[0].value) else None)
  }

  /** Every value under the read key's label can be imported. */
  ghost predicate Importable(rs: seq<Raw>, text: Text, importable: Bytes -> bool) {
    forall i | 0 <= i < |rs| && text.decode(rs[i].tag) == [114] :: importable(rs[i].value)
  }

  function Lookup(m: map<JsString, Bytes>, name: JsString): Option<Bytes> {
    if name in m then Some(m[name]) else None
  }

  /** q is p with the entries rs put on top. */
  ghost predicate Overlaid(q: Partial, p: Partial, rs: seq<Raw>, text: Text) {
    && q.keys.readKey == LastOf(rs, [114], text).Or(p.keys.readKey)
    && q.keys.ipnsKeyBytes == LastOf(rs, [105], text).Or(p.keys.ipnsKeyBytes)
    && q.keys.rotationKey == LastOf(rs, [107], text).Or(p.keys.rotationKey)
    && q.keys.password == (var a := LastOf(rs, [97], text);
                           if a.Some? then Some(text.decode(a.value)) else p.keys.password)
    && q.keys.channelKeys == p.keys.channelKeys
    && forall name :: Lookup(q.channels, name) == LastOf(rs, [110, 58] + name, text).Or(Lookup(p.channels, name))
  }

  /** Something reads as tag exactly when some entry does, and then the last such entry is what is read. */
  lemma {:induction false} LastOfIsLast(rs: seq<Raw>, tag: JsString, text: Text)
    ensures LastOf(rs, tag, text).None? <==> forall i | 0 <= i < |rs| :: text.decode(rs[i].tag) != tag
    ensures forall i | 0 <= i < |rs| && text.decode(rs[i].tag) == tag
        && (forall j | i < j < |rs| :: text.decode(rs[j].tag) != tag) :: LastOf(rs, tag, text) == Some(rs[i].value)
    ensures LastOf(rs, tag, text).Some? ==>
      exists i | 0 <= i < |rs| :: (text.decode(rs[i].tag) == tag && LastOf(rs, tag, text) == Some(rs[i].value))
  {
    if rs != [] {
      var rest := rs[1..];
      LastOfIsLast(rest, tag, text);
      assert forall i | 0 <= i < |rest| :: rest[i] == rs[i + 1];
      if LastOf(rest, tag, text).Some? {
        var i :| 0 <= i < |rest| && text.decode(rest[i].tag) == tag && LastOf(rest, tag, text) == Some(rest[i].value);
        assert text.decode(rs[i + 1].tag) == tag;
      } else {
        assert forall i | 0 < i < |rs| :: rs[i] == rest[i - 1];
      }
      forall i | 0 <= i < |rs| && text.decode(rs[i].tag) == tag
          && (forall j | i < j < |rs| :: text.decode(rs[j].tag) != tag)
        ensures LastOf(rs, tag, text) == Some(rs[i].value)
      {
        if i == 0 {
          assert forall j | 0 <= j < |rest| :: text.decode(rest[j].tag) != tag;
        } else {
          assert rest[i - 1] == rs[i];
          assert forall j | i - 1 < j < |rest| :: text.decode(rest[j].tag) != tag;
        }
      }
    }
  }

  // ---- Adding the entries in order ----

  lemma LastOfOne(r: Raw, tag: JsString, text: Text)
    ensures LastOf([r], tag, text) == if text.decode(r.tag) == tag then Some(r.value) else None
  {
    assert [r][1..] == [];
  }

  lemma AddOverlays(p: Partial, r: Raw, text: Text, importable: Bytes -> bool)
    ensures AddEntry(p, r, text, importable).Some? <==> (text.decode(r.tag) == [114] ==> importable(r.value))
    ensures AddEntry(p, r, text, importable).Some? ==> Overlaid(AddEntry(p, r, text, importable).value, p, [r], text)
  {
    hide LastOf;
    var tag := text.decode(r.tag);
    if AddEntry(p, r, text, importable).Some? {
      var q := AddEntry(p, r, text, importable).value;
      forall t ensures LastOf([r], t, text) == if tag == t then Some(r.value) else None {
        LastOfOne(r, t, text);
      }
      forall name ensures Lookup(q.channels, name) == LastOf([r], [110, 58] + name, text).Or(Lookup(p.channels, name)) {
        assert ([110, 58] + name)[2..] == name;
        if CHANNEL <= tag {
          assert tag == [110, 58] + tag[2..];
        }
      }
    }
  }

  lemma OverlaidStep(p: Partial, q: Partial, q': Partial, rs: seq<Raw>, text: Text)
    requires rs != [] && Overlaid(q, p, [rs[0]], text) && Overlaid(q', q, rs[1..], text)
    ensures Overlaid(q', p, rs, text)
  {
    forall t ensures LastOf(rs, t, text) == LastOf(rs[1..], t, text).Or(LastOf([rs[0]], t, text)) {
      LastOfOne(rs[0], t, text);
    }
    hide LastOf;
  }

  lemma OverlaidByNothing(p: Partial, text: Text)
    ensures Overlaid(p, p, [], text)
  {
  }

  /** The fold succeeds exactly when every read key imports, and then leaves the last value under each label. */
  lemma {:induction false} FoldOverlays(p: Partial, rs: seq<Raw>, text: Text, importable: Bytes -> bool)
    ensures FoldEntries(p, rs, text, importable).Some? <==> Importable(rs, text, importable)
    ensures FoldEntries(p, rs, text, importable).Some? ==>
      Overlaid(FoldEntries(p, rs, text, importable).value, p, rs, text)
    decreases |rs|
  {
    hide AddEntry, Overlaid;
    if rs == [] {
      OverlaidByNothing(p, text);
    } else {
      AddOverlays(p, rs[0], text, importable);
      assert Importable(rs, text, importable)
        <==> (text.decode(rs[0].tag) == [114] ==> importable(rs[0].value)) && Importable(rs[1..], text, importable) by {
        assert forall i | 0 < i < |rs| :: rs[i] == rs[1..][i - 1];
      }
      var next := AddEntry(p, rs[0], text, importable);
      if next.Some? {
        FoldOverlays(next.value, rs[1..], text, importable);
        if FoldEntries(next.value, rs[1..], text, importable).Some? {
          OverlaidStep(p, next.value, FoldEntries(next.value, rs[1..], text, importable).value, rs, text);
        }
      }
    }
  }

  // ---- Any buffer ----

  /** The whole entries of a buffer, up to its end or to where it is cut short. */
  function WholeEntries(parse: Parse): seq<Raw> {
    match parse
    case Parsed(entries) => entries
    case Cut(_, before) => before
  }

  /** k has the last value under each label, and channel keys exactly if there is a channel label. */
  ghost predicate ReadsAs(k: Keys, rs: seq<Raw>, text: Text) {
    && k.readKey == LastOf(rs, [114], text)
    && k.ipnsKeyBytes == LastOf(rs, [105], text)
    && k.rotationKey == LastOf(rs, [107], text)
    && k.password == (match LastOf(rs, [97], text) case Some(v) => Some(text.decode(v)) case None => None)
    && (k.channelKeys.None? <==> forall name :: LastOf(rs, [110, 58] + name, text).None?)
    && forall name :: Lookup(ChannelMap(k), name) == LastOf(rs, [110, 58] + name, text)
  }

  /**
   * Every buffer of version 0. A read key that does not import is reported if it comes before the cut, and
   * otherwise the cut; a whole buffer is read with the last value under each label.
   */
  lemma DecodesTo(buf: Bytes, text: Text, importable: Bytes -> bool)
    requires |buf| >= 1 && buf[0] == 0
    ensures var parse := ParseFrom(buf, 1); var rs := WholeEntries(parse);
      match DecodeBytes(buf, text, importable)
      case Err(e) =>
        if !Importable(rs, text, importable) then e == KeyImportFailed else parse.Cut? && e == Truncated(parse.at)
      case Ok(k) => parse.Parsed? && Importable(rs, text, importable) && ReadsAs(k, rs, text)
  {
    hide DecodeFrom, ParseFrom, FoldEntries, LastOf, Importable;
    var rs := WholeEntries(ParseFrom(buf, 1));
    DecodeIsParseThenFold(buf, 1, NOTHING, text, importable);
    FoldOverlays(NOTHING, rs, text, importable);
    var folded := FoldEntries(NOTHING, rs, text, importable);
    if folded.Some? {
      FinishReads(folded.value, rs, text);
    }
  }

  lemma FinishReads(p: Partial, rs: seq<Raw>, text: Text)
    requires Overlaid(p, NOTHING, rs, text)
    ensures ReadsAs(Finish(p), rs, text)
  {
    hide LastOf;
    assert ChannelMap(Finish(p)) == p.channels;
    forall name ensures Lookup(p.channels, name) == LastOf(rs, [110, 58] + name, text) {
      assert Lookup(NOTHING.channels, name) == None;
    }
    if p.channels != map[] {
      var name :| name in p.channels;
      assert Lookup(p.channels, name).Some?;
    }
  }
}
