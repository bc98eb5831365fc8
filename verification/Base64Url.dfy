/**
 * Unpadded base64url: base64urlEncode of packages/crypto/src/index.ts and base64urlDecode of
 * packages/capability/src/index.ts, over btoa and atob.
 *
 * btoa is the base64 encoding of section 4 of RFC 4648; the two replaced characters are those of its
 * section 5. atob is the forgiving decoder of the web platform: it skips ASCII whitespace, drops up to two
 * trailing '=' when the length is a multiple of four, and otherwise rejects every foreign character.
 */
module Base64Url {
  import opened Options

  type Byte = x: int | 0 <= x < 256
  type Sextet = x: int | 0 <= x < 64

  // ---- The alphabet ----

  function SextetChar(v: Sextet): char {
    if v < 26 then (v + 65) as char          // A-Z
    else if v < 52 then (v + 71) as char     // a-z
    else if v < 62 then (v - 4) as char      // 0-9
    else if v == 62 then '+' else '/'
  }

  function CharSextet(c: char): Option<Sextet> {
    if 'A' <= c <= 'Z' then Some(c as int - 65)
    else if 'a' <= c <= 'z' then Some(c as int - 71)
    else if '0' <= c <= '9' then Some(c as int + 4)
    else if c == '+' then Some(62)
    else if c == '/' then Some(63)
    else None
  }

  /** Each sextet's character decodes to it, and is no padding, whitespace or URL-safe replacement. */
  lemma CharRoundTrip(v: Sextet)
    ensures CharSextet(SextetChar(v)) == Some(v)
    ensures SextetChar(v) !in {'=', '-', '_'} && !IsWhitespace(SextetChar(v))
  {
  }

  // ---- btoa ----

  function Btoa(bytes: seq<Byte>): string {
    if |bytes| == 0 then ""
    else if |bytes| == 1 then
      [SextetChar(bytes[0] / 4), SextetChar(bytes[0] % 4 * 16), '=', '=']
    else if |bytes| == 2 then
      [SextetChar(bytes[0] / 4), SextetChar(bytes[0] % 4 * 16 + bytes[1] / 16), SextetChar(bytes[1] % 16 * 4), '=']
    else
      [SextetChar(bytes[0] / 4), SextetChar(bytes[0] % 4 * 16 + bytes[1] / 16),
       SextetChar(bytes[1] % 16 * 4 + bytes[2] / 64), SextetChar(bytes[2] % 64)] + Btoa(bytes[3..])
  }

  function Replace(s: string, from: char, to: char): string {
    seq(|s|, i requires 0 <= i < |s| => if s[i] == from then to else s[i])
  }

  function StripPadding(s: string): string {
    if s != "" && s[|s| - 1] == '=' then StripPadding(s[..|s| - 1]) else s
  }

  function Encode(bytes: seq<Byte>): string {
    StripPadding(Replace(Replace(Btoa(bytes), '+', '-'), '/', '_'))
  }

  // ---- atob ----

  predicate IsWhitespace(c: char) {
    c == '\t' || c == '\n' || c as int == 12 || c == '\r' || c == ' '
  }

  function StripWhitespace(s: string): string {
    if s == "" then "" else
    (if IsWhitespace(s[0]) then "" else [s[0]]) + StripWhitespace(s[1..])
  }

  function DropPadding(s: string): string {
    if |s| % 4 != 0 then s
    else if |s| >= 2 && s[|s| - 1] == '=' && s[|s| - 2] == '=' then s[..|s| - 2]
    else if |s| >= 1 && s[|s| - 1] == '=' then s[..|s| - 1]
    else s
  }

  function CharsToSextets(s: string): Option<seq<Sextet>> {
    if s == "" then Some([]) else
    var head, tail := CharSextet(s[0]), CharsToSextets(s[1..]);
    if head.Some? && tail.Some? then Some([head.value] + tail.value) else None
  }

  /** Whole groups of four sextets, then the bytes of a last group of two or three; its spare bits are dropped. */
  function SextetsToBytes(xs: seq<Sextet>): seq<Byte> {
    if |xs| < 2 then [] else
    var a: int, b: int := xs[0], xs[1];
    if |xs| == 2 then [a * 4 + b / 16] else
    var c: int := xs[2];
    if |xs| == 3 then [a * 4 + b / 16, b % 16 * 16 + c / 4] else
    [a * 4 + b / 16, b % 16 * 16 + c / 4, c % 4 * 64 + xs[3]] + SextetsToBytes(xs[4..])
  }

  function Atob(s: string): Option<seq<Byte>> {
    var data := DropPadding(StripWhitespace(s));
    if |data| % 4 == 1 then None else
    var xs := CharsToSextets(data);
    if xs.None? then None else Some(SextetsToBytes(xs.value))
  }

  function Padding(n: nat): string {
    seq(n, i => '=')
  }

  function Decode(s: string): Option<seq<Byte>> {
    var padded := s + Padding((4 - |s| % 4) % 4);
    Atob(Replace(Replace(padded, '-', '+'), '_', '/'))
  }

  // ---- Both directions through the sextets ----

  function BytesToSextets(bytes: seq<Byte>): seq<Sextet> {
    if |bytes| == 0 then []
    else if |bytes| == 1 then [bytes[0] / 4, bytes[0] % 4 * 16]
    else if |bytes| == 2 then [bytes[0] / 4, bytes[0] % 4 * 16 + bytes[1] / 16, bytes[1] % 16 * 4]
    else [bytes[0] / 4, bytes[0] % 4 * 16 + bytes[1] / 16, bytes[1] % 16 * 4 + bytes[2] / 64, bytes[2] % 64]
         + BytesToSextets(bytes[3..])
  }

  function Chars(xs: seq<Sextet>): string {
    seq(|xs|, i requires 0 <= i < |xs| => SextetChar(xs[i]))
  }

  /** The two characters that section 5 of RFC 4648 replaces. */
  function UrlChar(c: char): char {
    if c == '+' then '-' else if c == '/' then '_' else c
  }

  function UrlChars(xs: seq<Sextet>): string {
    seq(|xs|, i requires 0 <= i < |xs| => UrlChar(SextetChar(xs[i])))
  }

  function PadOf(n: nat): string {
    if n % 3 == 0 then "" else if n % 3 == 1 then "==" else "="
  }

  lemma {:induction false} BtoaShape(bytes: seq<Byte>)
    ensures Btoa(bytes) == Chars(BytesToSextets(bytes)) + PadOf(|bytes|)
    decreases |bytes|
  {
    hide SextetChar;
    if |bytes| >= 3 {
      BtoaShape(bytes[3..]);
      var xs, rest := BytesToSextets(bytes), BytesToSextets(bytes[3..]);
      var head := xs[..4];
      assert xs == head + rest;
      CharsAppend(head, rest);
      assert Btoa(bytes) == Chars(head) + Btoa(bytes[3..]);
      assert Chars(head) + (Chars(rest) + PadOf(|bytes|)) == Chars(head) + Chars(rest) + PadOf(|bytes|);
    }
  }

  lemma CharsAppend(xs: seq<Sextet>, ys: seq<Sextet>)
    ensures Chars(xs + ys) == Chars(xs) + Chars(ys)
  {
  }

  lemma {:induction false} SextetRoundTrip(bytes: seq<Byte>)
    ensures SextetsToBytes(BytesToSextets(bytes)) == bytes
    ensures |BytesToSextets(bytes)| == (4 * |bytes| + 2) / 3
    decreases |bytes|
  {
    if |bytes| >= 3 {
      SextetRoundTrip(bytes[3..]);
      var xs := BytesToSextets(bytes);
      assert xs[4..] == BytesToSextets(bytes[3..]);
      GroupRoundTrip(bytes[0], bytes[1], bytes[2]);
      assert bytes == [bytes[0], bytes[1], bytes[2]] + bytes[3..];
    }
  }

  lemma GroupRoundTrip(a: Byte, b: Byte, c: Byte)
    ensures a / 4 * 4 + (a % 4 * 16 + b / 16) / 16 == a
    ensures (a % 4 * 16 + b / 16) % 16 * 16 + (b % 16 * 4 + c / 64) / 4 == b
    ensures (b % 16 * 4 + c / 64) % 4 * 64 + c % 64 == c
  {
  }

  lemma {:induction false} CharsParse(xs: seq<Sextet>)
    ensures CharsToSextets(Chars(xs)) == Some(xs)
    decreases |xs|
  {
    if xs != [] {
      CharRoundTrip(xs[0]);
      CharsParse(xs[1..]);
      assert Chars(xs)[1..] == Chars(xs[1..]);
      assert xs == [xs[0]] + xs[1..];
    }
  }

  lemma {:induction false} StripPaddingOf(s: string, pad: string)
    requires forall i | 0 <= i < |pad| :: pad[i] == '='
    requires s == "" || s[|s| - 1] != '='
    ensures StripPadding(s + pad) == s
    decreases |pad|
  {
    if pad == "" {
      assert s + pad == s;
    } else {
      assert (s + pad)[..|s + pad| - 1] == s + pad[..|pad| - 1];
      StripPaddingOf(s, pad[..|pad| - 1]);
    }
  }

  lemma {:induction false} NothingToStrip(s: string)
    requires forall i | 0 <= i < |s| :: !IsWhitespace(s[i])
    ensures StripWhitespace(s) == s
  {
    if s != "" {
      NothingToStrip(s[1..]);
    }
  }

  /** The encoding is the sextets in the URL-safe alphabet, with nothing after them. */
  lemma EncodeShape(bytes: seq<Byte>)
    ensures Encode(bytes) == UrlChars(BytesToSextets(bytes))
  {
    var xs, pad := BytesToSextets(bytes), PadOf(|bytes|);
    BtoaShape(bytes);
    assert Replace(Replace(Chars(xs) + pad, '+', '-'), '/', '_') == UrlChars(xs) + pad;
    StripPaddingOf(UrlChars(xs), pad);
  }

  lemma UndoReplace(xs: seq<Sextet>, pad: string)
    requires forall i | 0 <= i < |pad| :: pad[i] == '='
    ensures Replace(Replace(UrlChars(xs) + pad, '-', '+'), '_', '/') == Chars(xs) + pad
  {
    hide SextetChar;
    forall v: Sextet ensures SextetChar(v) !in {'=', '-', '_'} { CharRoundTrip(v); }
  }

  lemma NoWhitespace(xs: seq<Sextet>, pad: string)
    requires forall i | 0 <= i < |pad| :: pad[i] == '='
    ensures StripWhitespace(Chars(xs) + pad) == Chars(xs) + pad
  {
    hide SextetChar;
    forall v: Sextet ensures !IsWhitespace(SextetChar(v)) { CharRoundTrip(v); }
    NothingToStrip(Chars(xs) + pad);
  }

  lemma PaddingDropped(xs: seq<Sextet>)
    requires |xs| % 4 != 1
    ensures DropPadding(Chars(xs) + Padding((4 - |xs| % 4) % 4)) == Chars(xs)
  {
    hide SextetChar, CharSextet;
    forall v: Sextet ensures SextetChar(v) != '=' { CharRoundTrip(v); }
    var s := Chars(xs) + Padding((4 - |xs| % 4) % 4);
    assert s[..|xs|] == Chars(xs);
  }

  lemma SameLength(xs: seq<Sextet>)
    ensures |Chars(xs)| == |xs| && |UrlChars(xs)| == |xs|
  {
  }

  /** Decoding pads and maps an encoding back to what btoa produced. */
  lemma DecodeOfSextets(xs: seq<Sextet>)
    requires |xs| % 4 != 1
    ensures Decode(UrlChars(xs)) == Some(SextetsToBytes(xs))
  {
    hide SextetChar, SextetsToBytes, CharsToSextets, StripWhitespace, DropPadding, Replace, Chars, UrlChars;
    SameLength(xs);
    var pad := Padding((4 - |xs| % 4) % 4);
    UndoReplace(xs, pad);
    NoWhitespace(xs, pad);
    PaddingDropped(xs);
    CharsParse(xs);
  }

  const UPPER: string := "ABCDEFGHIJKLMNOPQRSTUVWXYZ"
  const LOWER: string := "abcdefghijklmnopqrstuvwxyz"
  const DIGITS: string := "0123456789"

  /** The character of a sextet is the one at its place in table 2 of RFC 4648, the URL-safe alphabet. */
  lemma AlphabetInOrder(v: Sextet)
    ensures v < 26 ==> UrlChar(SextetChar(v)) == UPPER[v]
    ensures 26 <= v < 52 ==> UrlChar(SextetChar(v)) == LOWER[v - 26]
    ensures 52 <= v < 62 ==> UrlChar(SextetChar(v)) == DIGITS[v - 52]
    ensures v == 62 ==> UrlChar(SextetChar(v)) == '-'
    ensures v == 63 ==> UrlChar(SextetChar(v)) == '_'
  {
    assert forall i: nat | i < 26 :: UPPER[i] as int == 65 + i;
    assert forall i: nat | i < 26 :: LOWER[i] as int == 97 + i;
    assert forall i: nat | i < 10 :: DIGITS[i] as int == 48 + i;
  }

  /** The test vectors of section 10 of RFC 4648, without padding, and the two characters that replace + and /. */
  lemma TestVectors()
    ensures Encode([]) == ""
    ensures Encode([102]) == "Zg"
    ensures Encode([102, 111]) == "Zm8"
    ensures Encode([102, 111, 111]) == "Zm9v"
    ensures Encode([251, 255]) == "-_8"
  {
    hide Encode;
    EncodeShape([]);
    EncodeShape([102]);
    EncodeShape([102, 111]);
    EncodeShape([102, 111, 111]);
    EncodeShape([251, 255]);
  }

  /** No encoding leaves a single character over. */
  lemma AdmissibleLength(n: nat, k: nat)
    requires k == (4 * n + 2) / 3
    ensures k % 4 != 1
  {
    var q, r := n / 3, n % 3;
    assert n == 3 * q + r;
    assert k == 4 * q + (4 * r + 2) / 3;
  }

  /** Decoding undoes encoding, for every length modulo three. */
  lemma RoundTrip(bytes: seq<Byte>)
    ensures Decode(Encode(bytes)) == Some(bytes)
    ensures |Encode(bytes)| == (4 * |bytes| + 2) / 3
  {
    hide Encode, Decode, BytesToSextets, SextetsToBytes, UrlChars, Chars;
    EncodeShape(bytes);
    SextetRoundTrip(bytes);
    SameLength(BytesToSextets(bytes));
    AdmissibleLength(|bytes|, |BytesToSextets(bytes)|);
    DecodeOfSextets(BytesToSextets(bytes));
  }
}
