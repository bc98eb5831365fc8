/**
 * Encoding and decoding of capability fragments undo each other (packages/capability/src/index.ts).
 */
module FragmentRoundTrip {
  import opened Options
  import opened Base64Url
  import opened Capability
  import opened FragmentTheorems
  import opened FragmentReading

  // ---- The entries do not depend on the iteration order ----

  ghost predicate IsChannelEntry(k: Keys, e: Entry, name: JsString) {
    name in ChannelMap(k) && e.tag == CHANNEL + name && e.value == ChannelMap(k)[name]
  }

  /** The entries of a capability, as a set. */
  ghost predicate InFragment(k: Keys, text: Text, e: Entry) {
    || (e.tag == READ_KEY && k.readKey == Some(e.value))
    || (e.tag == IPNS_KEY && k.ipnsKeyBytes == Some(e.value))
    || (e.tag == ROTATION_KEY && k.rotationKey == Some(e.value))
    || (e.tag == PASSWORD && PasswordBytes(k, text) == Some(e.value))
    || exists name :: IsChannelEntry(k, e, name)
  }

  lemma ChannelEntryMembers(k: Keys, order: seq<JsString>, e: Entry)
    requires IsOrder(order, ChannelMap(k))
    ensures e in ChannelEntries(order, ChannelMap(k)) <==> exists name :: IsChannelEntry(k, e, name)
  {
    var cs := ChannelEntries(order, ChannelMap(k));
    if e in cs {
      var i :| 0 <= i < |cs| && cs[i] == e;
      assert order[i] in order;
      assert IsChannelEntry(k, e, order[i]);
    }
    if name :| IsChannelEntry(k, e, name) {
      assert name in order;
      var i :| 0 <= i < |order| && order[i] == name;
      assert cs[i] == e;
    }
  }

  lemma EntriesMembers(k: Keys, order: seq<JsString>, text: Text, e: Entry)
    requires IsOrder(order, ChannelMap(k))
    ensures e in Entries(k, order, text) <==> InFragment(k, text, e)
  {
    hide ChannelEntries, IsChannelEntry, PasswordBytes;
    ChannelEntryMembers(k, order, e);
  }

  lemma ChannelLabels(order: seq<JsString>, m: map<JsString, Bytes>)
    requires IsOrder(order, m)
    ensures DistinctLabels(ChannelEntries(order, m))
    ensures forall i | 0 <= i < |order| :: ChannelEntries(order, m)[i].tag !in {READ_KEY, IPNS_KEY, ROTATION_KEY, PASSWORD}
  {
    var cs := ChannelEntries(order, m);
    forall i | 0 <= i < |order| ensures cs[i].tag !in {READ_KEY, IPNS_KEY, ROTATION_KEY, PASSWORD} {
      assert |cs[i].tag| >= 2;
    }
    forall i, j | 0 <= i < j < |cs| ensures cs[i].tag != cs[j].tag {
      assert cs[i].tag[2..] == order[i] && cs[j].tag[2..] == order[j];
    }
  }

  lemma DistinctAppend(xs: seq<Entry>, ys: seq<Entry>)
    requires DistinctLabels(xs) && DistinctLabels(ys)
    requires forall i, j | 0 <= i < |xs| && 0 <= j < |ys| :: xs[i].tag != ys[j].tag
    ensures DistinctLabels(xs + ys)
  {
  }

  lemma EntriesDistinct(k: Keys, order: seq<JsString>, text: Text)
    requires IsOrder(order, ChannelMap(k))
    ensures DistinctLabels(Entries(k, order, text))
  {
    hide ChannelEntries, PasswordBytes, ChannelMap;
    var r, i, o, a := One(READ_KEY, k.readKey), One(IPNS_KEY, k.ipnsKeyBytes), One(ROTATION_KEY, k.rotationKey),
                      One(PASSWORD, PasswordBytes(k, text));
    ReservedDiffer();
    DistinctAppend(r, i);
    DistinctAppend(r + i, o);
    DistinctAppend(r + i + o, a);
    ChannelLabels(order, ChannelMap(k));
    SameLength(order, ChannelMap(k));
    DistinctAppend(r + i + o + a, ChannelEntries(order, ChannelMap(k)));
  }

  lemma SameLength(order: seq<JsString>, m: map<JsString, Bytes>)
    requires forall name | name in order :: name in m
    ensures |ChannelEntries(order, m)| == |order|
  {
  }

  lemma ReservedDiffer()
    ensures READ_KEY != IPNS_KEY && READ_KEY != ROTATION_KEY && READ_KEY != PASSWORD
    ensures IPNS_KEY != ROTATION_KEY && IPNS_KEY != PASSWORD && ROTATION_KEY != PASSWORD
  {
    assert READ_KEY[0] != IPNS_KEY[0] && READ_KEY[0] != ROTATION_KEY[0] && READ_KEY[0] != PASSWORD[0];
    assert IPNS_KEY[0] != ROTATION_KEY[0] && IPNS_KEY[0] != PASSWORD[0] && ROTATION_KEY[0] != PASSWORD[0];
  }

  /** The bytes, and so the fragment, do not depend on the order in which the channel map is iterated. */
  lemma OrderIndependent(k: Keys, order: seq<JsString>, order': seq<JsString>, text: Text)
    requires IsOrder(order, ChannelMap(k)) && IsOrder(order', ChannelMap(k))
    ensures EncodeFragment(k, order, text) == EncodeFragment(k, order', text)
  {
    hide Entries, Sort, Less, EncodeBytes, Encode, ChannelMap, InFragment;
    var es, es' := Entries(k, order, text), Entries(k, order', text);
    EntriesDistinct(k, order, text);
    EntriesDistinct(k, order', text);
    SortCorrect(es);
    SortCorrect(es');
    forall e ensures e in Sort(es) <==> e in Sort(es') {
      EntriesMembers(k, order, text, e);
      EntriesMembers(k, order', text, e);
    }
    SortedUnique(Sort(es), Sort(es'));
  }

  // ---- What folding the entries gives ----

  /** What a string comes back as from the trip through UTF-8. */
  function ReadBack(text: Text, s: JsString): JsString {
    text.decode(text.encode(s))
  }

  /** The string survives the trip. */
  predicate Faithful(text: Text, s: JsString) {
    ReadBack(text, s) == s
  }

  /**
   * What the theorems ask of the text conversion: the reserved labels survive, a channel label comes back
   * as a channel label, and what has come back survives from then on. (UTF-8 replaces lone surrogates by
   * U+FFFD, and decoding drops a leading byte order mark, which no label has.)
   */
  ghost predicate LabelsRead(text: Text) {
    && Faithful(text, READ_KEY) && Faithful(text, IPNS_KEY) && Faithful(text, ROTATION_KEY) && Faithful(text, PASSWORD)
    && forall name: JsString :: ChannelReads(text, name)
  }

  ghost predicate ChannelReads(text: Text, name: JsString) {
    CHANNEL <= ReadBack(text, CHANNEL + name) && Faithful(text, ReadBack(text, CHANNEL + name))
  }

  /** The value of the last entry whose label reads as tag. */
  function LastRead(es: seq<Entry>, tag: JsString, text: Text): Option<Bytes> {
    LastOf(ToRaws(es, text), tag, text)
  }

  /** Something reads as tag exactly when some entry does, and then the last such entry is what is read. */
  lemma LastReadIsLast(es: seq<Entry>, tag: JsString, text: Text)
    ensures LastRead(es, tag, text).None? <==> forall i | 0 <= i < |es| :: ReadBack(text, es[i].tag) != tag
    ensures forall i | 0 <= i < |es| && ReadBack(text, es[i].tag) == tag
        && (forall j | i < j < |es| :: ReadBack(text, es[j].tag) != tag) :: LastRead(es, tag, text) == Some(es[i].value)
    ensures LastRead(es, tag, text).Some? ==>
      exists i | 0 <= i < |es| :: (ReadBack(text, es[i].tag) == tag && LastRead(es, tag, text) == Some(es[i].value))
  {
    hide LastOf;
    var rs := ToRaws(es, text);
    LastOfIsLast(rs, tag, text);
    assert forall i | 0 <= i < |rs| :: text.decode(rs[i].tag) == ReadBack(text, es[i].tag) && rs[i].value == es[i].value;
  }

  // ---- The round trip ----

  /** What decoding can give back: an empty password and an empty channel map are not written. */
  function Normalized(k: Keys): Keys {
    Keys(k.readKey, k.ipnsKeyBytes, k.rotationKey,
         if k.password == Some([]) then None else k.password,
         if k.channelKeys == Some(map[]) then None else k.channelKeys)
  }

  /** The name that a channel comes back under. */
  function ReadName(text: Text, name: JsString): JsString {
    var tag := ReadBack(text, CHANNEL + name);
    if CHANNEL <= tag then tag[2..] else []
  }

  /** No channel of the map that reads like this one comes after it. */
  ghost predicate LastOfItsName(m: map<JsString, Bytes>, name: JsString, text: Text) {
    name in m && forall other | other in m && ReadName(text, other) == ReadName(text, name) :: !Less(name, other)
  }

  /**
   * r is k with the password and the channel names passed through UTF-8. Of channels whose names read the
   * same, the last in label order prevails.
   */
  ghost predicate Transcoded(k: Keys, r: Keys, text: Text) {
    && r.readKey == k.readKey && r.ipnsKeyBytes == k.ipnsKeyBytes && r.rotationKey == k.rotationKey
    && r.password == (if Normalized(k).password.Some? then Some(ReadBack(text, k.password.value)) else None)
    && r.channelKeys != Some(map[])
    && (forall name :: name in ChannelMap(r) <==> exists n :: n in ChannelMap(k) && ReadName(text, n) == name)
    && (forall n | LastOfItsName(ChannelMap(k), n, text) ::
          ReadName(text, n) in ChannelMap(r) && ChannelMap(r)[ReadName(text, n)] == ChannelMap(k)[n])
  }

  ghost predicate AllFit(k: Keys, order: seq<JsString>, text: Text)
    requires IsOrder(order, ChannelMap(k))
  {
    forall e | e in Entries(k, order, text) :: |text.encode(e.tag)| <= 255 && |e.value| <= 255
  }

  lemma EncodeOkIffAllFit(k: Keys, order: seq<JsString>, text: Text)
    requires IsOrder(order, ChannelMap(k))
    ensures EncodeFragment(k, order, text).Ok? <==> AllFit(k, order, text)
  {
    hide Entries, Sort, Encode, ChannelMap, Print, FirstTooLong;
    var es := Entries(k, order, text);
    SortCorrect(es);
    var sorted := Sort(es);
    var rs := ToRaws(sorted, text);
    NoneTooLong(sorted, text);
    if AllShort(rs) {
      forall e | e in es ensures |text.encode(e.tag)| <= 255 && |e.value| <= 255 {
        assert e in sorted;
        var i :| 0 <= i < |sorted| && sorted[i] == e;
        assert Short(rs[i]);
      }
    }
    if AllFit(k, order, text) {
      forall i | 0 <= i < |rs| ensures Short(rs[i]) {
        assert sorted[i] in sorted;
      }
    }
  }

  /** The field that is written under a reserved label. */
  ghost predicate FieldOf(k: Keys, text: Text, tag: JsString, field: Option<Bytes>) {
    || (tag == READ_KEY && field == k.readKey) || (tag == IPNS_KEY && field == k.ipnsKeyBytes)
    || (tag == ROTATION_KEY && field == k.rotationKey) || (tag == PASSWORD && field == PasswordBytes(k, text))
  }

  /** An entry of a fragment that reads as a reserved label holds the field of that label. */
  lemma ReservedEntry(k: Keys, text: Text, tag: JsString, field: Option<Bytes>, e: Entry)
    requires LabelsRead(text) && FieldOf(k, text, tag, field)
    ensures InFragment(k, text, e) && ReadBack(text, e.tag) == tag ==> field == Some(e.value)
    ensures field.Some? ==> InFragment(k, text, Entry(tag, field.value)) && ReadBack(text, tag) == tag
  {
    hide PasswordBytes, ChannelMap, ReadBack;
    ReservedDiffer();
    if name :| IsChannelEntry(k, e, name) {
      assert ChannelReads(text, name);
      assert |ReadBack(text, e.tag)| >= 2;
    }
  }

  lemma ReservedRead(k: Keys, text: Text, es: seq<Entry>, tag: JsString, field: Option<Bytes>)
    requires LabelsRead(text) && FieldOf(k, text, tag, field)
    requires forall e :: e in es <==> InFragment(k, text, e)
    ensures LastRead(es, tag, text) == field
  {
    hide InFragment, LastRead, ReadBack, LabelsRead, FieldOf;
    LastReadIsLast(es, tag, text);
    forall e ensures e in es && ReadBack(text, e.tag) == tag ==> field == Some(e.value) {
      ReservedEntry(k, text, tag, field, e);
    }
    ReservedEntry(k, text, tag, field, Entry(tag, []));
    if field.Some? {
      var i :| 0 <= i < |es| && es[i] == Entry(tag, field.value);
      assert ReadBack(text, es[i].tag) == tag;
    }
  }

  /** The entries that read as a channel label are those of the channels whose names read so. */
  lemma ChannelEntryReads(k: Keys, text: Text, name: JsString, e: Entry)
    requires LabelsRead(text) && InFragment(k, text, e) && ReadBack(text, e.tag) == CHANNEL + name
    ensures CHANNEL <= e.tag && IsChannelEntry(k, e, e.tag[2..]) && ReadName(text, e.tag[2..]) == name
  {
    hide PasswordBytes, ChannelMap, ReadBack;
    assert |ReadBack(text, e.tag)| >= 2;
    var n :| IsChannelEntry(k, e, n);
    assert e.tag[2..] == n && (CHANNEL + name)[2..] == name;
  }

  lemma ReadNameTag(text: Text, name: JsString)
    requires LabelsRead(text)
    ensures ReadBack(text, CHANNEL + name) == CHANNEL + ReadName(text, name)
  {
    hide ReadBack;
    assert ChannelReads(text, name);
  }

  lemma ChannelLess(a: JsString, b: JsString)
    ensures Less(CHANNEL + a, CHANNEL + b) <==> Less(a, b)
  {
    var x, y := CHANNEL + a, CHANNEL + b;
    assert x[1..][1..] == a && y[1..][1..] == b;
  }

  lemma ChannelKnown(k: Keys, text: Text, es: seq<Entry>, name: JsString)
    requires LabelsRead(text) && forall e :: e in es <==> InFragment(k, text, e)
    ensures LastRead(es, CHANNEL + name, text).Some? <==> exists n :: n in ChannelMap(k) && ReadName(text, n) == name
  {
    hide InFragment, ChannelMap, ReadBack, LabelsRead, LastRead, ReadName;
    LastReadIsLast(es, CHANNEL + name, text);
    if LastRead(es, CHANNEL + name, text).Some? {
      var i :| 0 <= i < |es| && ReadBack(text, es[i].tag) == CHANNEL + name;
      assert es[i] in es;
      ChannelEntryReads(k, text, name, es[i]);
    }
    if n :| n in ChannelMap(k) && ReadName(text, n) == name {
      var e := Entry(CHANNEL + n, ChannelMap(k)[n]);
      ChannelIsEntry(k, text, n);
      var i :| 0 <= i < |es| && es[i] == e;
      ReadNameTag(text, n);
    }
  }

  lemma ChannelPrevails(k: Keys, text: Text, es: seq<Entry>, n: JsString)
    requires LabelsRead(text) && Sorted(es) && forall e :: e in es <==> InFragment(k, text, e)
    requires LastOfItsName(ChannelMap(k), n, text)
    ensures LastRead(es, CHANNEL + ReadName(text, n), text) == Some(ChannelMap(k)[n])
  {
    hide PasswordBytes, ChannelMap, ReadBack, LabelsRead, LastRead, ReadName, Less, InFragment;
    var e := Entry(CHANNEL + n, ChannelMap(k)[n]);
    ChannelIsEntry(k, text, n);
    var i :| 0 <= i < |es| && es[i] == e;
    ReadNameTag(text, n);
    forall j | i < j < |es| ensures ReadBack(text, es[j].tag) != CHANNEL + ReadName(text, n) {
      if ReadBack(text, es[j].tag) == CHANNEL + ReadName(text, n) {
        assert es[j] in es;
        ChannelEntryReads(k, text, ReadName(text, n), es[j]);
        ChannelLess(n, es[j].tag[2..]);
      }
    }
    LastReadIsLast(es, CHANNEL + ReadName(text, n), text);
  }

  lemma ChannelIsEntry(k: Keys, text: Text, n: JsString)
    requires n in ChannelMap(k)
    ensures InFragment(k, text, Entry(CHANNEL + n, ChannelMap(k)[n]))
  {
    assert IsChannelEntry(k, Entry(CHANNEL + n, ChannelMap(k)[n]), n);
  }

  /** What the entries of a capability read as is the capability transcoded. */
  lemma ReadIsTranscoded(k: Keys, text: Text, r: Keys, es: seq<Entry>)
    requires LabelsRead(text) && Sorted(es) && forall e :: e in es <==> InFragment(k, text, e)
    requires ReadsAs(r, ToRaws(es, text), text)
    ensures Transcoded(k, r, text)
  {
    hide LastOf, ToRaws, InFragment, LabelsRead, Sorted, ReadName, Less;
    ReservedRead(k, text, es, READ_KEY, k.readKey);
    ReservedRead(k, text, es, IPNS_KEY, k.ipnsKeyBytes);
    ReservedRead(k, text, es, ROTATION_KEY, k.rotationKey);
    ReservedRead(k, text, es, PASSWORD, PasswordBytes(k, text));
    assert READ_KEY == [114] && IPNS_KEY == [105] && ROTATION_KEY == [107] && PASSWORD == [97] && CHANNEL == [110, 58];
    forall name ensures name in ChannelMap(r) <==> exists n :: n in ChannelMap(k) && ReadName(text, n) == name {
      ChannelKnown(k, text, es, name);
      assert Lookup(ChannelMap(r), name) == LastRead(es, CHANNEL + name, text);
    }
    forall n | LastOfItsName(ChannelMap(k), n, text)
      ensures ReadName(text, n) in ChannelMap(r) && ChannelMap(r)[ReadName(text, n)] == ChannelMap(k)[n]
    {
      ChannelPrevails(k, text, es, n);
      assert Lookup(ChannelMap(r), ReadName(text, n)) == Some(ChannelMap(k)[n]);
    }
  }

  /**
   * Decoding an encoded capability. Encoding succeeds exactly when every label and value fits its length
   * byte; if the read key imports, decoding then gives the capability back with its password and its
   * channel names transcoded.
   */
  lemma DecodeOfEncode(k: Keys, order: seq<JsString>, text: Text, importable: Bytes -> bool)
    requires IsOrder(order, ChannelMap(k)) && LabelsRead(text)
    requires k.readKey.Some? ==> importable(k.readKey.value)
    ensures EncodeFragment(k, order, text).Ok? <==> AllFit(k, order, text)
    ensures EncodeFragment(k, order, text).Ok? ==>
      var r := DecodeFragment(EncodeFragment(k, order, text).value, text, importable);
      r.Ok? && Transcoded(k, r.value, text)
  {
    hide Entries, Sort, Encode, Decode, ChannelMap, Print, Overlaid, DecodeBytes, FoldEntries, Transcoded,
         Finish, PasswordBytes, InFragment, FirstTooLong, LabelsRead, Sorted;
    EncodeOkIffAllFit(k, order, text);
    var es := Entries(k, order, text);
    var sorted := Sort(es);
    EntriesDistinct(k, order, text);
    SortCorrect(es);
    forall e ensures e in sorted <==> InFragment(k, text, e) {
      EntriesMembers(k, order, text, e);
    }
    if EncodeFragment(k, order, text).Ok? {
      NoneTooLong(sorted, text);
      ReadKeyImports(k, text, sorted, importable);
      FoldOverlays(NOTHING, ToRaws(sorted, text), text, importable);
      DecodePrinted(ToRaws(sorted, text), text, importable);
      var q := FoldEntries(NOTHING, ToRaws(sorted, text), text, importable).value;
      FinishReads(q, ToRaws(sorted, text), text);
      ReadIsTranscoded(k, text, Finish(q), sorted);
      RoundTrip([VERSION] + Print(ToRaws(sorted, text)));
    }
  }

  lemma ReadKeyImports(k: Keys, text: Text, es: seq<Entry>, importable: Bytes -> bool)
    requires LabelsRead(text) && forall e :: e in es <==> InFragment(k, text, e)
    requires k.readKey.Some? ==> importable(k.readKey.value)
    ensures Importable(ToRaws(es, text), text, importable)
  {
    hide InFragment, LabelsRead;
    var rs := ToRaws(es, text);
    forall i | 0 <= i < |rs| && text.decode(rs[i].tag) == [114] ensures importable(rs[i].value) {
      assert es[i] in es;
      ReservedEntry(k, text, READ_KEY, k.readKey, es[i]);
    }
  }

  /** Which strings of a capability have to survive UTF-8: the password if there is one, and the channel names. */
  ghost predicate StringsSurvive(k: Keys, text: Text) {
    && (Normalized(k).password.Some? ==> Faithful(text, Normalized(k).password.value))
    && forall name | name in ChannelMap(k) :: Faithful(text, CHANNEL + name)
  }

  lemma NamesKept(m: map<JsString, Bytes>, text: Text)
    requires forall name | name in m :: Faithful(text, CHANNEL + name)
    ensures forall n | n in m :: ReadName(text, n) == n && LastOfItsName(m, n, text)
  {
    hide ReadBack, Less;
    forall n | n in m ensures ReadName(text, n) == n && LastOfItsName(m, n, text) {
      assert forall other | other in m :: (CHANNEL + other)[2..] == other && Faithful(text, CHANNEL + other);
      LessTotal(n, n);
    }
  }

  lemma SurvivesIffRestored(k: Keys, r: Keys, text: Text)
    requires LabelsRead(text) && Transcoded(k, r, text)
    ensures r == Normalized(k) <==> StringsSurvive(k, text)
  {
    hide ReadBack, Less, LabelsRead, ReadName, LastOfItsName;
    if r == Normalized(k) {
      assert ChannelMap(r) == ChannelMap(k);
      forall name | name in ChannelMap(k) ensures Faithful(text, CHANNEL + name) {
        var n :| n in ChannelMap(k) && ReadName(text, n) == name;
        ReadNameTag(text, n);
        ReadBackIsFaithful(text, n);
      }
    }
    if StringsSurvive(k, text) {
      NamesKept(ChannelMap(k), text);
      assert ChannelMap(r) == ChannelMap(k);
    }
  }

  lemma ReadBackIsFaithful(text: Text, name: JsString)
    requires LabelsRead(text)
    ensures Faithful(text, ReadBack(text, CHANNEL + name))
  {
    assert ChannelReads(text, name);
  }

  /**
   * The round trip proper: the decoded capability is the encoded one, empty password and empty channel map
   * normalised to absent, exactly when a non-empty password and all channel names survive UTF-8. (A
   * password that begins with a byte order mark does not: the text decoder drops the mark. A string with a
   * lone surrogate does not either.)
   */
  lemma FragmentRoundTrips(k: Keys, order: seq<JsString>, text: Text, importable: Bytes -> bool)
    requires IsOrder(order, ChannelMap(k)) && AllFit(k, order, text) && LabelsRead(text)
    requires k.readKey.Some? ==> importable(k.readKey.value)
    ensures EncodeFragment(k, order, text).Ok?
    ensures DecodeFragment(EncodeFragment(k, order, text).value, text, importable) == Ok(Normalized(k))
        <==> StringsSurvive(k, text)
  {
    hide Entries, EncodeFragment, DecodeFragment, ChannelMap, Transcoded, StringsSurvive, LabelsRead;
    DecodeOfEncode(k, order, text, importable);
    SurvivesIffRestored(
      k, DecodeFragment(EncodeFragment(k, order, text).value, text, importable).value, text);
  }

  // ---- Strings that do not survive ----

  const BYTE_ORDER_MARK: CodeUnit := 0xFEFF

  /**
   * A password that begins with a byte order mark, with a text decoder that drops the mark: the fragment
   * decodes, to the password without it.
   */
  lemma MarkIsLost(rest: JsString, text: Text, importable: Bytes -> bool)
    requires LabelsRead(text) && ReadBack(text, [BYTE_ORDER_MARK] + rest) == rest
    requires |text.encode(PASSWORD)| <= 255 && |text.encode([BYTE_ORDER_MARK] + rest)| <= 255
    ensures var k := Keys(None, None, None, Some([BYTE_ORDER_MARK] + rest), None);
      && EncodeFragment(k, [], text).Ok?
      && DecodeFragment(EncodeFragment(k, [], text).value, text, importable) == Ok(k.(password := Some(rest)))
      && Normalized(k) != k.(password := Some(rest))
  {
    hide EncodeFragment, DecodeFragment, ReadBack, LabelsRead;
    var k := Keys(None, None, None, Some([BYTE_ORDER_MARK] + rest), None);
    DecodeOfEncode(k, [], text, importable);
    assert |[BYTE_ORDER_MARK] + rest| != |rest|;
    assert AllFit(k, [], text);
    var r := DecodeFragment(EncodeFragment(k, [], text).value, text, importable).value;
    assert ChannelMap(r) == map[];
  }

  const REPLACEMENT: CodeUnit := 0xFFFD

  /**
   * Two channels named by lone surrogates, with a text encoder that replaces both: they come back as one,
   * with the key of the later.
   */
  lemma SurrogatesCollide(v: Bytes, w: Bytes, text: Text, importable: Bytes -> bool)
    requires LabelsRead(text) && |v| <= 255 && |w| <= 255
    requires forall u: CodeUnit | u == 0xD800 || u == 0xD801 ::
      ReadBack(text, CHANNEL + [u]) == CHANNEL + [REPLACEMENT] && |text.encode(CHANNEL + [u])| <= 255
    ensures var k, order := Surrogates(v, w), [[0xD800], [0xD801]];
      && IsOrder(order, ChannelMap(k)) && EncodeFragment(k, order, text).Ok?
      && DecodeFragment(EncodeFragment(k, order, text).value, text, importable)
           == Ok(k.(channelKeys := Some(map[[REPLACEMENT] := w])))
  {
    hide EncodeFragment, DecodeFragment, ReadBack, LabelsRead, Transcoded;
    var k, order := Surrogates(v, w), [[0xD800], [0xD801]];
    SurrogatesFit(v, w, text);
    DecodeOfEncode(k, order, text, importable);
    SurrogatesRead(v, w, text, DecodeFragment(EncodeFragment(k, order, text).value, text, importable).value);
  }

  function Surrogates(v: Bytes, w: Bytes): Keys {
    Keys(None, None, None, None, Some(map[[0xD800] := v, [0xD801] := w]))
  }

  lemma SurrogatesFit(v: Bytes, w: Bytes, text: Text)
    requires |v| <= 255 && |w| <= 255
    requires forall u: CodeUnit | u == 0xD800 || u == 0xD801 :: |text.encode(CHANNEL + [u])| <= 255
    ensures IsOrder([[0xD800], [0xD801]], ChannelMap(Surrogates(v, w)))
    ensures AllFit(Surrogates(v, w), [[0xD800], [0xD801]], text)
  {
    var first: JsString, second: JsString := [0xD800], [0xD801];
    assert first[0] != second[0];
  }

  lemma SurrogatesRead(v: Bytes, w: Bytes, text: Text, r: Keys)
    requires forall u: CodeUnit | u == 0xD800 || u == 0xD801 ::
      ReadBack(text, CHANNEL + [u]) == CHANNEL + [REPLACEMENT]
    requires Transcoded(Surrogates(v, w), r, text)
    ensures r == Surrogates(v, w).(channelKeys := Some(map[[REPLACEMENT] := w]))
  {
    hide ReadBack, ReadName, Less;
    var first: JsString, second: JsString := [0xD800], [0xD801];
    var m := ChannelMap(Surrogates(v, w));
    assert first[0] != second[0];
    ReadNameOf(text, first, [REPLACEMENT]);
    ReadNameOf(text, second, [REPLACEMENT]);
    assert !Less(second, first) && !Less(second, second) by { SecondIsLast(); }
    assert LastOfItsName(m, second, text);
    assert m[second] == w;
    assert ChannelMap(r) == map[[REPLACEMENT] := w];
  }

  lemma ReadNameOf(text: Text, name: JsString, read: JsString)
    requires ReadBack(text, CHANNEL + name) == CHANNEL + read
    ensures ReadName(text, name) == read
  {
    assert (CHANNEL + read)[2..] == read;
  }

  lemma SecondIsLast()
    ensures !Less([0xD801], [0xD800]) && !Less([0xD801], [0xD801])
  {
  }

  // ---- The bytes on the wire ----

  /** One entry on the wire: the label after its length byte, then the value after its own. */
  function Field(tag: Bytes, value: Bytes): Bytes
    requires |tag| <= 255 && |value| <= 255
  {
    [|tag|] + tag + [|value|] + value
  }

  function OptField(tag: Bytes, value: Option<Bytes>): Bytes
    requires |tag| <= 255 && (value.Some? ==> |value.value| <= 255)
  {
    if value.Some? then Field(tag, value.value) else []
  }

  ghost predicate OptFits(value: Option<Bytes>) {
    value.Some? ==> |value.value| <= 255
  }

  /** The channels in label order, each as n: and its name. */
  ghost predicate ChannelsFit(names: seq<JsString>, m: map<JsString, Bytes>, text: Text) {
    forall i | 0 <= i < |names| :: names[i] in m && |text.encode([110, 58] + names[i])| <= 255 && |m[names[i]]| <= 255
  }

  ghost function ChannelFields(names: seq<JsString>, m: map<JsString, Bytes>, text: Text): Bytes
    requires ChannelsFit(names, m, text)
  {
    if names == [] then []
    else Field(text.encode([110, 58] + names[0]), m[names[0]]) + ChannelFields(names[1..], m, text)
  }

  /** ASCII labels are encoded as themselves. */
  ghost predicate AsciiLabels(text: Text) {
    text.encode([97]) == [97] && text.encode([105]) == [105] && text.encode([107]) == [107] && text.encode([114]) == [114]
  }

  /** The names of a map in strictly increasing order of code units. */
  ghost predicate InOrder(names: seq<JsString>, m: map<JsString, Bytes>) {
    IsOrder(names, m) && forall i, j | 0 <= i < j < |names| :: Less(names[i], names[j])
  }

  function InLabelOrder(k: Keys, names: seq<JsString>, text: Text): seq<Entry>
    requires forall name | name in names :: name in ChannelMap(k)
  {
    One(PASSWORD, PasswordBytes(k, text)) + One(IPNS_KEY, k.ipnsKeyBytes) + One(ROTATION_KEY, k.rotationKey)
    + ChannelEntries(names, ChannelMap(k)) + One(READ_KEY, k.readKey)
  }

  lemma LabelsInOrder(k: Keys, names: seq<JsString>, text: Text)
    requires InOrder(names, ChannelMap(k))
    ensures Sorted(InLabelOrder(k, names, text))
    ensures forall e :: e in InLabelOrder(k, names, text) <==> e in Entries(k, names, text)
  {
    hide ChannelMap, PasswordBytes;
    var cs := ChannelEntries(names, ChannelMap(k));
    assert Less(PASSWORD, IPNS_KEY) && Less(PASSWORD, ROTATION_KEY) && Less(PASSWORD, READ_KEY);
    assert Less(IPNS_KEY, ROTATION_KEY) && Less(IPNS_KEY, READ_KEY) && Less(ROTATION_KEY, READ_KEY);
    forall i | 0 <= i < |cs|
      ensures Less(PASSWORD, cs[i].tag) && Less(IPNS_KEY, cs[i].tag) && Less(ROTATION_KEY, cs[i].tag) && Less(cs[i].tag, READ_KEY)
    {
      assert cs[i].tag[0] == 110;
    }
    forall i, j | 0 <= i < j < |cs| ensures Less(cs[i].tag, cs[j].tag) {
      ChannelLess(names[i], names[j]);
    }
  }

  lemma OnePrints(tag: JsString, value: Option<Bytes>, text: Text)
    requires |text.encode(tag)| <= 255 && OptFits(value)
    ensures AllShort(ToRaws(One(tag, value), text))
    ensures Print(ToRaws(One(tag, value), text)) == OptField(text.encode(tag), value)
  {
    if value.Some? {
      var r := ToRaw(Entry(tag, value.value), text);
      assert ToRaws(One(tag, value), text) == [r] && [r][1..] == [];
    }
  }

  lemma {:induction false} ChannelsPrint(names: seq<JsString>, m: map<JsString, Bytes>, text: Text)
    requires ChannelsFit(names, m, text)
    requires forall name | name in names :: name in m
    ensures AllShort(ToRaws(ChannelEntries(names, m), text))
    ensures Print(ToRaws(ChannelEntries(names, m), text)) == ChannelFields(names, m, text)
  {
    var rs := ToRaws(ChannelEntries(names, m), text);
    if names != [] {
      assert forall i | 0 <= i < |names[1..]| :: names[1..][i] == names[i + 1];
      assert forall name | name in names[1..] :: name in names;
      ChannelsPrint(names[1..], m, text);
      assert ToRaws(ChannelEntries(names[1..], m), text) == rs[1..];
      assert CHANNEL == [110, 58];
      ShortCons(rs);
    }
  }

  lemma RawsAppend(xs: seq<Entry>, ys: seq<Entry>, text: Text)
    ensures ToRaws(xs + ys, text) == ToRaws(xs, text) + ToRaws(ys, text)
  {
  }

  lemma PrintsAppend(xs: seq<Entry>, ys: seq<Entry>, text: Text)
    requires AllShort(ToRaws(xs, text)) && AllShort(ToRaws(ys, text))
    ensures AllShort(ToRaws(xs + ys, text))
    ensures Print(ToRaws(xs + ys, text)) == Print(ToRaws(xs, text)) + Print(ToRaws(ys, text))
  {
    hide Print, ToRaws;
    RawsAppend(xs, ys, text);
    PrintAppend(ToRaws(xs, text), ToRaws(ys, text));
  }

  /**
   * The wire format in bytes: version 0, then the entries in label order, a for the password, i for the
   * publishing key, k for the rotation key, n: and a name for each channel, r for the read key, each label
   * and each value after its length byte; all of it in base64url.
   */
  lemma WireBytes(k: Keys, names: seq<JsString>, text: Text)
    requires InOrder(names, ChannelMap(k)) && AsciiLabels(text) && ChannelsFit(names, ChannelMap(k), text)
    requires OptFits(PasswordBytes(k, text)) && OptFits(k.ipnsKeyBytes) && OptFits(k.rotationKey) && OptFits(k.readKey)
    ensures EncodeFragment(k, names, text)
         == Ok(Encode([0] + (OptField([97], PasswordBytes(k, text)) + OptField([105], k.ipnsKeyBytes)
                             + OptField([107], k.rotationKey) + ChannelFields(names, ChannelMap(k), text)
                             + OptField([114], k.readKey))))
  {
    hide Sort, Encode, ChannelMap, Print, ToRaws, FirstTooLong, PasswordBytes, Less, ChannelFields, OptField, Entries;
    var m := ChannelMap(k);
    var es, sorted := Entries(k, names, text), InLabelOrder(k, names, text);
    var a, i, o, cs, r := One(PASSWORD, PasswordBytes(k, text)), One(IPNS_KEY, k.ipnsKeyBytes),
                          One(ROTATION_KEY, k.rotationKey), ChannelEntries(names, m), One(READ_KEY, k.readKey);
    EntriesDistinct(k, names, text);
    SortCorrect(es);
    LabelsInOrder(k, names, text);
    SortedUnique(Sort(es), sorted);
    assert PASSWORD == [97] && IPNS_KEY == [105] && ROTATION_KEY == [107] && READ_KEY == [114];
    OnePrints(PASSWORD, PasswordBytes(k, text), text);
    OnePrints(IPNS_KEY, k.ipnsKeyBytes, text);
    OnePrints(ROTATION_KEY, k.rotationKey, text);
    OnePrints(READ_KEY, k.readKey, text);
    ChannelsPrint(names, m, text);
    PrintsAppend(a, i, text);
    PrintsAppend(a + i, o, text);
    PrintsAppend(a + i + o, cs, text);
    PrintsAppend(a + i + o + cs, r, text);
    NoneTooLong(sorted, text);
  }

  /** What the parser refuses, and where it says so. */
  lemma Refusals(buf: Bytes, text: Text, importable: Bytes -> bool)
    ensures buf == [] ==> DecodeBytes(buf, text, importable) == Err(TooShort)
    ensures buf != [] && buf[0] != 0 ==> DecodeBytes(buf, text, importable) == Err(UnknownVersion(buf[0]))
    ensures buf == [0] ==> DecodeBytes(buf, text, importable) == Ok(Keys(None, None, None, None, None))
    ensures |buf| >= 2 && buf[0] == 0 ==>
      var n: int := buf[1];
      (2 + n > |buf| ==> DecodeBytes(buf, text, importable) == Err(Truncated(2)))
      && (2 + n == |buf| ==> DecodeBytes(buf, text, importable) == Err(Truncated(|buf|)))
      && (2 + n < |buf| ==>
            var size: int := buf[2 + n];
            3 + n + size > |buf| ==> DecodeBytes(buf, text, importable) == Err(Truncated(3 + n)))
  {
  }
}
