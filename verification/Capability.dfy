/**
 * The capability fragment codec: packages/capability/src/index.ts.
 *
 * Labels, channel names and passwords are JavaScript strings, sequences of UTF-16 code units, and compare
 * as such. UTF-8 conversion is a pair of functions (Text) and the import of the read key a predicate; the theorems
 * state what they ask of the two. A read key is modelled by its raw bytes.
 */
module Capability {
  import opened Options
  import opened Base64Url

  type Bytes = seq<Byte>

  /** A JavaScript string: UTF-16 code units, lone surrogates included. */
  type CodeUnit = u: int | 0 <= u < 0x1_0000
  type JsString = seq<CodeUnit>

  // The labels r, i, k, a and the prefix n: of the channel labels.
  const READ_KEY: JsString := [114]
  const IPNS_KEY: JsString := [105]
  const ROTATION_KEY: JsString := [107]
  const PASSWORD: JsString := [97]
  const CHANNEL: JsString := [110, 58]

  datatype Keys = Keys(
    readKey: Option<Bytes>, ipnsKeyBytes: Option<Bytes>, rotationKey: Option<Bytes>, password: Option<JsString>,
    channelKeys: Option<map<JsString, Bytes>>)

  datatype Text = Text(encode: JsString -> Bytes, decode: Bytes -> JsString)

  datatype Error =
    | LabelTooLong(tag: JsString) | ValueTooLong(tag: JsString)
    | NotBase64 | TooShort | UnknownVersion(version: Byte) | Truncated(at: nat) | KeyImportFailed

  datatype Result<T> = Ok(value: T) | Err(error: Error)

  const VERSION: Byte := 0

  /** An entry to be written, and an entry on the wire with its label still in bytes. */
  datatype Entry = Entry(tag: JsString, value: Bytes)
  datatype Raw = Raw(tag: Bytes, value: Bytes)

  // ---- Collecting and sorting the entries ----

  function One(tag: JsString, value: Option<Bytes>): seq<Entry> {
    if value.Some? then [Entry(tag, value.value)] else []
  }

  /** order is the order in which the channel map happens to be iterated. */
  ghost predicate IsOrder(order: seq<JsString>, m: map<JsString, Bytes>) {
    && (forall name :: name in order <==> name in m)
    && (forall i, j | 0 <= i < j < |order| :: order[i] != order[j])
  }

  function ChannelEntries(order: seq<JsString>, m: map<JsString, Bytes>): seq<Entry>
    requires forall name | name in order :: name in m
  {
    seq(|order|, i requires 0 <= i < |order| => Entry(CHANNEL + order[i], m[order[i]]))
  }

  function ChannelMap(k: Keys): map<JsString, Bytes> {
    if k.channelKeys.Some? then k.channelKeys.value else map[]
  }

  function PasswordBytes(k: Keys, text: Text): Option<Bytes> {
    if k.password.Some? && k.password.value != [] then Some(text.encode(k.password.value)) else None
  }

  function Entries(k: Keys, order: seq<JsString>, text: Text): seq<Entry>
    requires forall name | name in order :: name in ChannelMap(k)
  {
    One(READ_KEY, k.readKey) + One(IPNS_KEY, k.ipnsKeyBytes) + One(ROTATION_KEY, k.rotationKey)
    + One(PASSWORD, PasswordBytes(k, text)) + ChannelEntries(order, ChannelMap(k))
  }

  predicate Less(a: JsString, b: JsString) {
    if b == [] then false else if a == [] then true
    else if a[0] != b[0] then a[0] < b[0] else Less(a[1..], b[1..])
  }

  function Insert(e: Entry, es: seq<Entry>): seq<Entry> {
    if es == [] || Less(e.tag, es[0].tag) then [e] + es else [es[0]] + Insert(e, es[1..])
  }

  function Sort(es: seq<Entry>): seq<Entry> {
    if es == [] then [] else Insert(es[0], Sort(es[1..]))
  }

  // ---- Writing ----

  function TooLong(e: Entry, text: Text): Option<Error> {
    if |text.encode(e.tag)| > 255 then Some(LabelTooLong(e.tag))
    else if |e.value| > 255 then Some(ValueTooLong(e.tag))
    else None
  }

  function FirstTooLong(es: seq<Entry>, text: Text): Option<Error> {
    if es == [] then None else TooLong(es[0], text).Or(FirstTooLong(es[1..], text))
  }

  function ToRaw(e: Entry, text: Text): Raw {
    Raw(text.encode(e.tag), e.value)
  }

  function ToRaws(es: seq<Entry>, text: Text): seq<Raw> {
    seq(|es|, i requires 0 <= i < |es| => ToRaw(es[i], text))
  }

  predicate Short(r: Raw) {
    |r.tag| <= 255 && |r.value| <= 255
  }

  ghost predicate AllShort(rs: seq<Raw>) {
    forall i | 0 <= i < |rs| :: Short(rs[i])
  }

  function PrintOne(r: Raw): Bytes
    requires Short(r)
  {
    [|r.tag|] + r.tag + [|r.value|] + r.value
  }

  ghost function Print(rs: seq<Raw>): Bytes
    requires AllShort(rs)
  {
    if rs == [] then [] else PrintOne(rs[0]) + Print(rs[1..])
  }

  lemma {:induction false} NoneTooLong(es: seq<Entry>, text: Text)
    ensures FirstTooLong(es, text).None? <==> AllShort(ToRaws(es, text))
  {
    if es != [] {
      NoneTooLong(es[1..], text);
      var rs := ToRaws(es, text);
      assert ToRaws(es[1..], text) == rs[1..];
      assert TooLong(es[0], text).None? <==> Short(rs[0]);
      assert AllShort(rs) <==> Short(rs[0]) && AllShort(rs[1..]) by {
        assert forall i | 0 < i < |rs| :: rs[i] == rs[1..][i - 1];
      }
    }
  }

  /** The buffer, or the first label or value in sorted order that does not fit its length byte. */
  ghost function EncodeBytes(es: seq<Entry>, text: Text): Result<Bytes> {
    NoneTooLong(es, text);
    var bad := FirstTooLong(es, text);
    if bad.Some? then Err(bad.value) else Ok([VERSION] + Print(ToRaws(es, text)))
  }

  ghost function EncodeFragment(k: Keys, order: seq<JsString>, text: Text): Result<string>
    requires forall name | name in order :: name in ChannelMap(k)
  {
    match EncodeBytes(Sort(Entries(k, order, text)), text)
    case Err(e) => Err(e)
    case Ok(buf) => Ok(Encode(buf))
  }

  // ---- Reading ----

  datatype Partial = Partial(keys: Keys, channels: map<JsString, Bytes>)

  const NOTHING: Partial := Partial(Keys(None, None, None, None, None), map[])

  /** One entry of the loop; None when the key import throws. */
  function AddEntry(p: Partial, r: Raw, text: Text, importable: Bytes -> bool): Option<Partial> {
    var tag := text.decode(r.tag);
    if tag == READ_KEY then
      if importable(r.value) then Some(p.(keys := p.keys.(readKey := Some(r.value)))) else None
    else if tag == IPNS_KEY then Some(p.(keys := p.keys.(ipnsKeyBytes := Some(r.value))))
    else if tag == ROTATION_KEY then Some(p.(keys := p.keys.(rotationKey := Some(r.value))))
    else if tag == PASSWORD then Some(p.(keys := p.keys.(password := Some(text.decode(r.value)))))
    else if CHANNEL <= tag then Some(p.(channels := p.channels[tag[2..] := r.value]))
    else Some(p)
  }

  function Finish(p: Partial): Keys {
    if p.channels != map[] then p.keys.(channelKeys := Some(p.channels)) else p.keys
  }

  function DecodeFrom(buf: Bytes, offset: nat, p: Partial, text: Text, importable: Bytes -> bool): Result<Partial>
    requires offset <= |buf|
    decreases |buf| - offset
  {
    if offset == |buf| then Ok(p) else
    var labelAt := offset + 1;
    var valueLenAt := labelAt + buf[offset];
    if valueLenAt > |buf| then Err(Truncated(labelAt)) else
    if valueLenAt + 1 > |buf| then Err(Truncated(valueLenAt)) else
    var valueAt := valueLenAt + 1;
    var end := valueAt + buf[valueLenAt];
    if end > |buf| then Err(Truncated(valueAt)) else
    match AddEntry(p, Raw(buf[labelAt..valueLenAt], buf[valueAt..end]), text, importable)
    case None => Err(KeyImportFailed)
    case Some(p') => DecodeFrom(buf, end, p', text, importable)
  }

  function DecodeBytes(buf: Bytes, text: Text, importable: Bytes -> bool): Result<Keys> {
    if |buf| < 1 then Err(TooShort)
    else if buf[0] != VERSION then Err(UnknownVersion(buf[0]))
    else match DecodeFrom(buf, 1, NOTHING, text, importable)
      case Err(e) => Err(e)
      case Ok(p) => Ok(Finish(p))
  }

  function DecodeFragment(fragment: string, text: Text, importable: Bytes -> bool): Result<Keys> {
    var buf := Decode(fragment);
    if buf.None? then Err(NotBase64) else DecodeBytes(buf.value, text, importable)
  }

  // ---- The two loops ----

  ghost function BufferLength(es: seq<Entry>, text: Text): nat {
    if es == [] then 1
    else BufferLength(es[..|es| - 1], text) + 2 + |text.encode(es[|es| - 1].tag)| + |es[|es| - 1].value|
  }

  lemma {:induction false} PrintSnoc(rs: seq<Raw>, r: Raw)
    requires AllShort(rs) && Short(r)
    ensures AllShort(rs + [r]) && Print(rs + [r]) == Print(rs) + PrintOne(r)
  {
    hide PrintOne;
    if rs == [] {
      assert [] + [r] == [r] && [r][1..] == [];
    } else {
      assert (rs + [r])[1..] == rs[1..] + [r];
      PrintSnoc(rs[1..], r);
    }
  }

  lemma {:induction false} FirstTooLongSnoc(es: seq<Entry>, n: nat, text: Text)
    requires n < |es|
    ensures FirstTooLong(es[..n + 1], text) == FirstTooLong(es[..n], text).Or(TooLong(es[n], text))
    ensures FirstTooLong(es[..n + 1], text).Some? ==> FirstTooLong(es, text) == FirstTooLong(es[..n + 1], text)
  {
    if n > 0 {
      FirstTooLongSnoc(es[1..], n - 1, text);
      assert es[..n + 1][1..] == es[1..][..n] && es[..n][1..] == es[1..][..n - 1];
    } else {
      assert es[..1][1..] == [] && es[..0] == [];
    }
  }

  lemma {:induction false} BufferLengthMonotone(es: seq<Entry>, n: nat, text: Text)
    requires n <= |es|
    ensures BufferLength(es[..n], text) <= BufferLength(es, text)
    decreases |es|
  {
    if n == |es| {
      assert es[..n] == es;
    } else {
      BufferLengthMonotone(es[..|es| - 1], n, text);
      assert es[..|es| - 1][..n] == es[..n];
    }
  }

  lemma BufferLengthStep(es: seq<Entry>, n: nat, text: Text)
    requires n < |es|
    ensures BufferLength(es[..n + 1], text) == BufferLength(es[..n], text) + 2 + |text.encode(es[n].tag)| + |es[n].value|
    ensures BufferLength(es[..n + 1], text) <= BufferLength(es, text)
  {
    assert es[..n + 1][..n] == es[..n];
    BufferLengthMonotone(es, n + 1, text);
  }

  lemma RawsStep(es: seq<Entry>, n: nat, text: Text)
    requires n < |es| && FirstTooLong(es[..n], text).None? && TooLong(es[n], text).None?
    ensures AllShort(ToRaws(es[..n], text)) && AllShort(ToRaws(es[..n + 1], text))
    ensures Print(ToRaws(es[..n + 1], text)) == Print(ToRaws(es[..n], text)) + PrintOne(ToRaw(es[n], text))
  {
    NoneTooLong(es[..n], text);
    PrintSnoc(ToRaws(es[..n], text), ToRaw(es[n], text));
    assert ToRaws(es[..n + 1], text) == ToRaws(es[..n], text) + [ToRaw(es[n], text)];
  }

  method SumLengths(es: seq<Entry>, text: Text) returns (total: nat)
    ensures total == BufferLength(es, text)
  {
    total := 1;
    assert es[..0] == [];
    for i := 0 to |es|
      invariant total == BufferLength(es[..i], text)
    {
      BufferLengthStep(es, i, text);
      total := total + 1 + |text.encode(es[i].tag)| + 1 + |es[i].value|;
    }
    assert es[..|es|] == es;
  }

  /** Uint8Array.set. */
  method Put(buf: array<Byte>, offset: nat, data: Bytes)
    requires offset + |data| <= buf.Length
    modifies buf
    ensures buf[..offset + |data|] == old(buf[..offset]) + data
    ensures buf[offset + |data|..] == old(buf[offset + |data|..])
  {
    for i := 0 to |data|
      invariant buf[..offset + i] == old(buf[..offset]) + data[..i]
      invariant buf[offset + i..] == old(buf[offset + i..])
    {
      buf[offset + i] := data[i];
    }
    assert data[..|data|] == data;
  }

  method PutByte(buf: array<Byte>, offset: nat, b: Byte)
    requires offset < buf.Length
    modifies buf
    ensures buf[..offset + 1] == old(buf[..offset]) + [b]
  {
    buf[offset] := b;
  }

  /** Writes one entry at an offset of the buffer and returns the offset after it. */
  method PutEntry(buf: array<Byte>, start: nat, r: Raw) returns (offset: nat)
    requires Short(r) && start + 2 + |r.tag| + |r.value| <= buf.Length
    modifies buf
    ensures offset == start + |PrintOne(r)| <= buf.Length
    ensures buf[..offset] == old(buf[..start]) + PrintOne(r)
  {
    ghost var pre := buf[..start];
    offset := start;
    PutByte(buf, offset, |r.tag|);
    offset := offset + 1;
    Put(buf, offset, r.tag);
    offset := offset + |r.tag|;
    PutByte(buf, offset, |r.value|);
    offset := offset + 1;
    Put(buf, offset, r.value);
    offset := offset + |r.value|;
    EntryLayout(pre, r);
  }

  lemma EntryLayout(pre: Bytes, r: Raw)
    requires Short(r)
    ensures pre + [|r.tag|] + r.tag + [|r.value|] + r.value == pre + PrintOne(r)
  {
  }

  /** The buffer loop of encodeFragment: the length computed beforehand is filled exactly. */
  method FillBuffer(es: seq<Entry>, text: Text) returns (r: Result<Bytes>)
    ensures r == EncodeBytes(es, text)
    ensures r.Ok? ==> |r.value| == BufferLength(es, text)
  {
    hide Print, PrintOne, FirstTooLong, BufferLength;
    var total := SumLengths(es, text);
    BufferStart(es, text);
    var buf := new Byte[total](_ => 0);
    var offset := 0;
    buf[offset] := VERSION;
    offset := offset + 1;
    for i := 0 to |es|
      invariant FirstTooLong(es[..i], text).None? && AllShort(ToRaws(es[..i], text))
      invariant offset == BufferLength(es[..i], text) <= total
      invariant buf[..offset] == [VERSION] + Print(ToRaws(es[..i], text))
    {
      FirstTooLongSnoc(es, i, text);
      BufferLengthStep(es, i, text);
      var tag := text.encode(es[i].tag);
      if |tag| > 255 {
        return Err(LabelTooLong(es[i].tag));
      }
      if |es[i].value| > 255 {
        return Err(ValueTooLong(es[i].tag));
      }
      RawsStep(es, i, text);
      ghost var before := buf[..offset];
      offset := PutEntry(buf, offset, Raw(tag, es[i].value));
      PrintOneLength(ToRaw(es[i], text));
      assert buf[..offset] == before + PrintOne(ToRaw(es[i], text));
    }
    assert es[..|es|] == es;
    assert buf[..offset] == buf[..];
    r := Ok(buf[..]);
  }

  lemma PrintOneLength(r: Raw)
    requires Short(r)
    ensures |PrintOne(r)| == 2 + |r.tag| + |r.value|
  {
  }

  lemma BufferStart(es: seq<Entry>, text: Text)
    ensures BufferLength(es[..0], text) == 1 <= BufferLength(es, text)
    ensures FirstTooLong(es[..0], text).None? && AllShort(ToRaws(es[..0], text)) && Print(ToRaws(es[..0], text)) == []
  {
    BufferLengthMonotone(es, 0, text);
  }

  /** The parsing loop of decodeFragment. */
  method ParseBuffer(buf: Bytes, text: Text, importable: Bytes -> bool) returns (r: Result<Keys>)
    ensures r == DecodeBytes(buf, text, importable)
  {
    hide AddEntry, Finish;
    if |buf| < 1 {
      return Err(TooShort);
    }
    if buf[0] != VERSION {
      return Err(UnknownVersion(buf[0]));
    }
    var p := NOTHING;
    var offset := 1;
    while offset < |buf|
      invariant 1 <= offset <= |buf|
      invariant DecodeFrom(buf, 1, NOTHING, text, importable) == DecodeFrom(buf, offset, p, text, importable)
    {
      var labelLen := buf[offset];
      offset := offset + 1;
      if offset + labelLen > |buf| {
        return Err(Truncated(offset));
      }
      var tag := buf[offset..offset + labelLen];
      offset := offset + labelLen;
      if offset + 1 > |buf| {
        return Err(Truncated(offset));
      }
      var valueLen := buf[offset];
      offset := offset + 1;
      if offset + valueLen > |buf| {
        return Err(Truncated(offset));
      }
      var value := buf[offset..offset + valueLen];
      offset := offset + valueLen;
      var next := AddEntry(p, Raw(tag, value), text, importable);
      if next.None? {
        return Err(KeyImportFailed);
      }
      p := next.value;
    }
    return Ok(Finish(p));
  }
}
