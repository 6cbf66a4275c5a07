/** The base64 encoding of sections 4 and 3.5 of RFC 4648, and the decoder that accepts nothing else. */
module Base64 {
  import opened Wrappers
  import opened Text

  type Byte = b: int | 0 <= b < 256

  type Sextet = v: int | 0 <= v < 64

  predicate IsSymbol(c: char) {
    'A' <= c <= 'Z' || 'a' <= c <= 'z' || '0' <= c <= '9' || c == '+' || c == '/'
  }

  /** Table 1 of RFC 4648. */
  function Symbol(v: Sextet): (c: char)
    ensures IsSymbol(c)
  {
    if v < 26 then 'A' + v as char
    else if v < 52 then 'a' + (v - 26) as char
    else if v < 62 then '0' + (v - 52) as char
    else if v == 62 then '+' else '/'
  }

  function SymbolValue(c: char): Sextet
    requires IsSymbol(c)
  {
    if 'A' <= c <= 'Z' then c as int - 'A' as int
    else if 'a' <= c <= 'z' then c as int - 'a' as int + 26
    else if '0' <= c <= '9' then c as int - '0' as int + 52
    else if c == '+' then 62 else 63
  }

  /** The alphabet, by character codes. */
  lemma SymbolCodes(v: Sextet)
    ensures v < 26 ==> Symbol(v) as int == 65 + v
    ensures 26 <= v < 52 ==> Symbol(v) as int == 97 + (v - 26)
    ensures 52 <= v < 62 ==> Symbol(v) as int == 48 + (v - 52)
    ensures v == 62 ==> Symbol(v) == '+'
    ensures v == 63 ==> Symbol(v) == '/'
  {
  }

  lemma SymbolRoundTrip(v: Sextet)
    ensures SymbolValue(Symbol(v)) == v
  {
  }

  predicate AllSymbols(s: string) {
    forall i :: 0 <= i < |s| ==> IsSymbol(s[i])
  }

  function Symbols(v: seq<Sextet>): (s: string)
    ensures |s| == |v| && AllSymbols(s)
  {
    seq(|v|, i requires 0 <= i < |v| => Symbol(v[i]))
  }

  function Values(s: string): (v: seq<Sextet>)
    requires AllSymbols(s)
    ensures |v| == |s|
  {
    seq(|s|, i requires 0 <= i < |s| => SymbolValue(s[i]))
  }

  lemma ValuesOfSymbols(v: seq<Sextet>)
    ensures Values(Symbols(v)) == v
  {
    forall i | 0 <= i < |v|
      ensures Values(Symbols(v))[i] == v[i]
    {
      SymbolRoundTrip(v[i]);
    }
  }

  /** Three bytes to four sextets; spare bits at the end are zero. */
  function Sextets(b: seq<Byte>): seq<Sextet> {
    if |b| == 0 then []
    else if |b| == 1 then [b[0] / 4, b[0] % 4 * 16]
    else if |b| == 2 then [b[0] / 4, b[0] % 4 * 16 + b[1] / 16, b[1] % 16 * 4]
    else [b[0] / 4, b[0] % 4 * 16 + b[1] / 16, b[1] % 16 * 4 + b[2] / 64, b[2] % 64] + Sextets(b[3..])
  }

  function FirstByte(v0: int, v1: int): Byte
    requires 0 <= v0 < 64 && 0 <= v1 < 64
  {
    v0 * 4 + v1 / 16
  }

  function SecondByte(v1: int, v2: int): Byte
    requires 0 <= v1 < 64 && 0 <= v2 < 64
  {
    v1 % 16 * 16 + v2 / 4
  }

  function ThirdByte(v2: int, v3: int): Byte
    requires 0 <= v2 < 64 && 0 <= v3 < 64
  {
    v2 % 4 * 64 + v3
  }

  /** The platform's lenient reading of sextets: a lone last sextet and spare bits are dropped. */
  function Bytes(v: seq<Sextet>): seq<Byte> {
    if |v| <= 1 then []
    else if |v| == 2 then [FirstByte(v[0], v[1])]
    else if |v| == 3 then [FirstByte(v[0], v[1]), SecondByte(v[1], v[2])]
    else [FirstByte(v[0], v[1]), SecondByte(v[1], v[2]), ThirdByte(v[2], v[3])] + Bytes(v[4..])
  }

  function Padding(n: nat): string {
    if n % 3 == 0 then "" else if n % 3 == 1 then "==" else "="
  }

  /** Canonical padded base64. */
  function Encode(b: seq<Byte>): string {
    Symbols(Sextets(b)) + Padding(|b|)
  }

  /** Dropping every trailing '='. */
  function Strip(s: string): (r: string)
    ensures r <= s && forall i :: |r| <= i < |s| ==> s[i] == '='
  {
    if s != "" && s[|s| - 1] == '=' then Strip(s[..|s| - 1]) else s
  }

  /** Symbols, then at most two '='. */
  predicate WellFormed(s: string) {
    AllSymbols(Strip(s)) && |s| - |Strip(s)| <= 2
  }

  function DecodeStrict(value: string): Option<seq<Byte>> {
    if !WellFormed(value) then None
    else if |value| == 0 || |value| % 4 != 0 then None
    else
      var decoded := Bytes(Values(Strip(value)));
      if |decoded| == 0 then None
      else if Strip(value) == Strip(Encode(decoded)) then Some(decoded)
      else None
  }

  lemma Parts(h: int, l: int)
    ensures 0 <= l < 4 ==> (h * 4 + l) / 4 == h && (h * 4 + l) % 4 == l
    ensures 0 <= l < 16 ==> (h * 16 + l) / 16 == h && (h * 16 + l) % 16 == l
  {
  }

  lemma FirstBack(b: Byte, y: int)
    requires 0 <= y < 16
    ensures FirstByte(b / 4, b % 4 * 16 + y) == b
  {
    Parts(b % 4, y);
  }

  lemma SecondBack(b: Byte, x: int, y: int)
    requires 0 <= x < 4 && 0 <= y < 4
    ensures SecondByte(x * 16 + b / 16, b % 16 * 4 + y) == b
  {
    Parts(x, b / 16);
    Parts(b % 16, y);
  }

  lemma ThirdBack(b: Byte, x: int)
    requires 0 <= x < 16
    ensures ThirdByte(x * 4 + b / 64, b % 64) == b
  {
    Parts(x, b / 64);
  }

  lemma BytesOfQuartet(v0: Sextet, v1: Sextet, v2: Sextet, v3: Sextet, rest: seq<Sextet>)
    ensures Bytes([v0, v1, v2, v3] + rest) == [FirstByte(v0, v1), SecondByte(v1, v2), ThirdByte(v2, v3)] + Bytes(rest)
  {
    assert ([v0, v1, v2, v3] + rest)[4..] == rest;
  }

  lemma ThreeBack(x: Byte, y: Byte, z: Byte)
    ensures var v0, v1, v2, v3 := x / 4, x % 4 * 16 + y / 16, y % 16 * 4 + z / 64, z % 64;
      FirstByte(v0, v1) == x && SecondByte(v1, v2) == y && ThirdByte(v2, v3) == z
  {
    FirstBack(x, y / 16);
    SecondBack(y, x % 4, z / 64);
    ThirdBack(z, y % 16);
  }

  lemma SextetsOfThree(x: Byte, y: Byte, z: Byte, rest: seq<Byte>)
    ensures Sextets([x, y, z]) == [x / 4, x % 4 * 16 + y / 16, y % 16 * 4 + z / 64, z % 64]
    ensures Sextets([x, y, z] + rest) == Sextets([x, y, z]) + Sextets(rest)
  {
    assert [x, y, z][3..] == [];
    assert ([x, y, z] + rest)[3..] == rest;
  }

  lemma GroupBack(x: Byte, y: Byte, z: Byte, rest: seq<Byte>)
    ensures Bytes(Sextets([x, y, z] + rest)) == [x, y, z] + Bytes(Sextets(rest))
  {
    SextetsOfThree(x, y, z, rest);
    ThreeBack(x, y, z);
    hide Sextets, FirstByte, SecondByte, ThirdByte;
    var v := Sextets(rest);
    BytesOfQuartet(x / 4, x % 4 * 16 + y / 16, y % 16 * 4 + z / 64, z % 64, v);
  }

  lemma ShortBytes(v: Sextet, w: Sextet, u: Sextet)
    ensures Bytes([]) == [] && Bytes([v, w]) == [FirstByte(v, w)] && Bytes([v, w, u]) == [FirstByte(v, w), SecondByte(w, u)]
  {
    hide FirstByte, SecondByte;
  }

  lemma ShortSextets(x: Byte, y: Byte)
    ensures Sextets([]) == [] && Sextets([x]) == [x / 4, x % 4 * 16] && Sextets([x, y]) == [x / 4, x % 4 * 16 + y / 16, y % 16 * 4]
  {
  }

  lemma OneBack(x: Byte)
    ensures Bytes(Sextets([])) == [] && Bytes(Sextets([x])) == [x]
  {
    FirstBack(x, 0);
    ShortSextets(x, 0);
    hide Sextets, Bytes, FirstByte, SecondByte;
    ShortBytes(x / 4, x % 4 * 16, 0);
  }

  lemma TwoBack(x: Byte, y: Byte)
    ensures Bytes(Sextets([x, y])) == [x, y]
  {
    FirstBack(x, y / 16);
    SecondBack(y, x % 4, 0);
    ShortSextets(x, y);
    hide Sextets, Bytes, FirstByte, SecondByte;
    ShortBytes(x / 4, x % 4 * 16 + y / 16, y % 16 * 4);
  }

  lemma {:induction false} BytesOfSextets(b: seq<Byte>)
    ensures Bytes(Sextets(b)) == b
  {
    hide Sextets, Bytes;
    if |b| > 2 {
      BytesOfSextets(b[3..]);
      GroupBack(b[0], b[1], b[2], b[3..]);
      assert b == [b[0], b[1], b[2]] + b[3..];
    } else if |b| == 2 {
      TwoBack(b[0], b[1]);
      assert b == [b[0], b[1]];
    } else {
      OneBack(if b == [] then 0 else b[0]);
      assert b == [] || b == [b[0]];
    }
  }

  lemma {:induction false} SextetsLength(b: seq<Byte>)
    ensures (|Sextets(b)| + |Padding(|b|)|) % 4 == 0 && |Sextets(b)| >= |b|
  {
    if |b| > 2 {
      SextetsLength(b[3..]);
      assert |b| % 3 == |b[3..]| % 3;
      assert |Sextets(b)| == 4 + |Sextets(b[3..])|;
    }
  }

  lemma {:induction false} SextetsAppend(b: seq<Byte>, t: seq<Byte>)
    requires |b| % 3 == 0
    ensures Sextets(b + t) == Sextets(b) + Sextets(t)
  {
    if b == [] {
      assert b + t == t;
    } else {
      var rest := b[3..];
      assert |rest| % 3 == 0;
      SextetsAppend(rest, t);
      SextetsOfThree(b[0], b[1], b[2], rest);
      SextetsOfThree(b[0], b[1], b[2], rest + t);
      assert b == [b[0], b[1], b[2]] + rest;
      Regroup([b[0], b[1], b[2]], rest, t);
      Regroup(Sextets([b[0], b[1], b[2]]), Sextets(rest), Sextets(t));
    }
  }

  /** The encoding goes group by group, three bytes at a time. */
  lemma EncodeAppend(b: seq<Byte>, t: seq<Byte>)
    requires |b| % 3 == 0
    ensures Encode(b + t) == Encode(b) + Encode(t)
  {
    SextetsAppend(b, t);
    SameRemainder(|b|, |t|);
    hide Sextets, Symbols;
    SymbolsAppend(Sextets(b), Sextets(t));
    Regroup(Symbols(Sextets(b)), Symbols(Sextets(t)), Padding(|t|));
    assert Symbols(Sextets(b)) + "" == Symbols(Sextets(b));
  }

  lemma SameRemainder(m: nat, n: nat)
    requires m % 3 == 0
    ensures (m + n) % 3 == n % 3
  {
  }

  lemma SymbolsAppend(v: seq<Sextet>, w: seq<Sextet>)
    ensures Symbols(v + w) == Symbols(v) + Symbols(w)
  {
  }

  /**
   A group of three bytes is four symbols of six bits each, from the high bits down; a last group of
   two or one is filled up with zero bits and padded.
   */
  lemma EncodeGroup(x: Byte, y: Byte, z: Byte)
    ensures Encode([]) == ""
    ensures Encode([x, y, z]) == [Symbol(x / 4), Symbol(x % 4 * 16 + y / 16), Symbol(y % 16 * 4 + z / 64), Symbol(z % 64)]
    ensures Encode([x, y]) == [Symbol(x / 4), Symbol(x % 4 * 16 + y / 16), Symbol(y % 16 * 4), '=']
    ensures Encode([x]) == [Symbol(x / 4), Symbol(x % 4 * 16), '=', '=']
  {
    EncodePair(x, y);
    EncodeTriple(x, y, z);
    hide Symbol;
    assert Sextets([]) == [];
  }

  lemma EncodeTriple(x: Byte, y: Byte, z: Byte)
    ensures Encode([x, y, z]) == [Symbol(x / 4), Symbol(x % 4 * 16 + y / 16), Symbol(y % 16 * 4 + z / 64), Symbol(z % 64)]
  {
    SextetsOfThree(x, y, z, []);
    hide Sextets, Symbol;
    var v: seq<Sextet> := [x / 4, x % 4 * 16 + y / 16, y % 16 * 4 + z / 64, z % 64];
    assert Sextets([x, y, z]) == v;
    assert Symbols(v) == [Symbol(v[0]), Symbol(v[1]), Symbol(v[2]), Symbol(v[3])];
  }

  lemma EncodePair(x: Byte, y: Byte)
    ensures Encode([x, y]) == [Symbol(x / 4), Symbol(x % 4 * 16 + y / 16), Symbol(y % 16 * 4), '=']
    ensures Encode([x]) == [Symbol(x / 4), Symbol(x % 4 * 16), '=', '=']
  {
    assert Sextets([x, y]) == [x / 4, x % 4 * 16 + y / 16, y % 16 * 4];
    assert Sextets([x]) == [x / 4, x % 4 * 16];
    hide Sextets, Symbol;
  }

  lemma {:induction false} StripIs(s: string, pads: string)
    requires (s == "" || s[|s| - 1] != '=') && forall i :: 0 <= i < |pads| ==> pads[i] == '='
    ensures Strip(s + pads) == s
  {
    if pads == "" {
      assert s + pads == s;
    } else {
      StripIs(s, pads[..|pads| - 1]);
      assert (s + pads)[..|s + pads| - 1] == s + pads[..|pads| - 1];
    }
  }

  lemma StripEncode(b: seq<Byte>)
    ensures Strip(Encode(b)) == Symbols(Sextets(b)) && WellFormed(Encode(b)) && |Encode(b)| % 4 == 0
  {
    SextetsLength(b);
    var s := Symbols(Sextets(b));
    assert s != "" ==> IsSymbol(s[|s| - 1]);
    StripIs(s, Padding(|b|));
  }

  /** The decoder returns b for v exactly when b is nonempty and v is the one canonical encoding of b. */
  lemma StrictIsCanonical(v: string, b: seq<Byte>)
    ensures DecodeStrict(v) == Some(b) <==> b != [] && v == Encode(b)
  {
    StripEncode(b);
    SextetsLength(b);
    if b != [] && v == Encode(b) {
      ValuesOfSymbols(Sextets(b));
      BytesOfSextets(b);
    } else if DecodeStrict(v) == Some(b) {
      PaddingIsForced(v, Encode(b));
    }
  }

  lemma SameWholeLength(k: nat, m: nat, n: nat)
    requires k % 4 == m % 4 == 0 && n <= k <= n + 2 && n <= m <= n + 2
    ensures k == m
  {
  }

  /** Strings of whole quartets with at most two '=' are equal once they agree before the padding. */
  lemma PaddingIsForced(v: string, w: string)
    requires WellFormed(v) && WellFormed(w) && |v| % 4 == |w| % 4 == 0 && Strip(v) == Strip(w)
    ensures v == w
  {
    var n := |Strip(v)|;
    assert n <= |v| <= n + 2 && n <= |w| <= n + 2;
    assert v[..n] == Strip(v) && w[..n] == Strip(w);
    hide WellFormed, Strip;
    SameWholeLength(|v|, |w|, n);
    SamePads(v, w, n);
  }

  lemma SamePads(v: string, w: string, n: nat)
    requires |v| == |w| && n <= |v| && v[..n] == w[..n]
    requires forall i :: n <= i < |v| ==> v[i] == '=' && w[i] == '='
    ensures v == w
  {
    assert v[n..] == w[n..];
    assert v == v[..n] + v[n..] && w == w[..n] + w[n..];
  }
}

/** What image bytes are told by. */
module ImageBytes {
  import opened Wrappers
  import opened Text
  import opened Base64

  const MIME_ALLOWLIST: seq<string> := ["image/png", "image/jpeg", "image/jpg", "image/gif", "image/webp", "image/svg+xml"]
  const PNG_MAGIC: seq<Byte> := [0x89, 0x50, 0x4E, 0x47, 0x0D, 0x0A, 0x1A, 0x0A]
  const JPEG_MAGIC: seq<Byte> := [0xFF, 0xD8, 0xFF]
  const GIF87A: seq<Byte> := [0x47, 0x49, 0x46, 0x38, 0x37, 0x61]
  const GIF89A: seq<Byte> := [0x47, 0x49, 0x46, 0x38, 0x39, 0x61]
  const RIFF: seq<Byte> := [0x52, 0x49, 0x46, 0x46]
  const WEBP: seq<Byte> := [0x57, 0x45, 0x42, 0x50]
  const SVG_SNIFF_WINDOW := 8 * 1024

  function CanonicalMime(mime: string): string {
    if mime == "image/jpg" then "image/jpeg" else mime
  }

  predicate SvgTagAt(text: string, i: nat) {
    && i + 4 < |text| && Lower(text[i..i + 4]) == "<svg"
    && (IsSpace(text[i + 4]) || text[i + 4] == '/' || text[i + 4] == '>')
  }

  /** `head` is the decoded start of the payload. */
  predicate OpensAsSvg(head: string) {
    var text := if head != "" && head[0] as int == 0xFEFF then head[1..] else head;
    && "<" <= TrimStart(text)
    && exists i :: 0 <= i < |text| && SvgTagAt(text, i)
  }

  predicate LooksLikeSvg(bytes: seq<Byte>, utf8: seq<Byte> -> string) {
    OpensAsSvg(utf8(bytes[..if |bytes| < SVG_SNIFF_WINDOW then |bytes| else SVG_SNIFF_WINDOW]))
  }

  /** `utf8` is the platform's text decoder. */
  function SniffMime(bytes: seq<Byte>, utf8: seq<Byte> -> string): Option<string> {
    if PNG_MAGIC <= bytes then Some("image/png")
    else if JPEG_MAGIC <= bytes then Some("image/jpeg")
    else if GIF87A <= bytes || GIF89A <= bytes then Some("image/gif")
    else if |bytes| >= 12 && bytes[..4] == RIFF && bytes[8..12] == WEBP then Some("image/webp")
    else if LooksLikeSvg(bytes, utf8) then Some("image/svg+xml")
    else None
  }

  predicate IsPng(bytes: seq<Byte>) {
    [0x89, 0x50, 0x4E, 0x47, 0x0D, 0x0A, 0x1A, 0x0A] <= bytes
  }

  predicate IsJpeg(bytes: seq<Byte>) {
    [0xFF, 0xD8, 0xFF] <= bytes
  }

  predicate IsGif(bytes: seq<Byte>) {
    [0x47, 0x49, 0x46, 0x38, 0x37, 0x61] <= bytes || [0x47, 0x49, 0x46, 0x38, 0x39, 0x61] <= bytes
  }

  predicate IsWebp(bytes: seq<Byte>) {
    |bytes| >= 12 && bytes[..4] == [0x52, 0x49, 0x46, 0x46] && bytes[8..12] == [0x57, 0x45, 0x42, 0x50]
  }

  predicate IsSvg(bytes: seq<Byte>, utf8: seq<Byte> -> string) {
    && !IsPng(bytes) && !IsJpeg(bytes) && !IsGif(bytes) && !IsWebp(bytes)
    && OpensAsSvg(utf8(bytes[..if |bytes| < 8192 then |bytes| else 8192]))
  }

  /** Which bytes are which type. No bytes have two of the binary signatures; SVG text is looked for last. */
  lemma SniffIff(bytes: seq<Byte>, utf8: seq<Byte> -> string)
    ensures SniffMime(bytes, utf8) == Some("image/png") <==> [0x89, 0x50, 0x4E, 0x47, 0x0D, 0x0A, 0x1A, 0x0A] <= bytes
    ensures SniffMime(bytes, utf8) == Some("image/jpeg") <==> [0xFF, 0xD8, 0xFF] <= bytes
    ensures SniffMime(bytes, utf8) == Some("image/gif") <==>
      [0x47, 0x49, 0x46, 0x38, 0x37, 0x61] <= bytes || [0x47, 0x49, 0x46, 0x38, 0x39, 0x61] <= bytes
    ensures SniffMime(bytes, utf8) == Some("image/webp") <==>
      |bytes| >= 12 && bytes[..4] == [0x52, 0x49, 0x46, 0x46] && bytes[8..12] == [0x57, 0x45, 0x42, 0x50]
    ensures SniffMime(bytes, utf8) == Some("image/svg+xml") <==> IsSvg(bytes, utf8)
    ensures SniffMime(bytes, utf8).None? <==>
      !IsPng(bytes) && !IsJpeg(bytes) && !IsGif(bytes) && !IsWebp(bytes) && !IsSvg(bytes, utf8)
  {
    assert IsPng(bytes) ==> bytes[0] == 0x89;
    assert IsJpeg(bytes) ==> bytes[0] == 0xFF;
    assert IsGif(bytes) ==> bytes[0] == 0x47;
    assert IsWebp(bytes) ==> bytes[0] == bytes[..4][0] == 0x52;
    hide OpensAsSvg;
  }

  lemma SvgTagIff(text: string, i: nat)
    ensures SvgTagAt(text, i) <==>
      && i + 4 < |text|
      && text[i] == '<' && text[i + 1] in ['s', 'S'] && text[i + 2] in ['v', 'V'] && text[i + 3] in ['g', 'G']
      && (IsSpace(text[i + 4]) || text[i + 4] == '/' || text[i + 4] == '>')
  {
    hide IsSpace, Lower;
    if i + 4 < |text| {
      SvgLetters(text[i..i + 4]);
    }
  }

  /**
   SVG text: after a byte order mark and white space it opens with `<`, and somewhere in it `<svg`
   ends a word (`SvgTagIff` spells that out).
   */
  lemma OpensAsSvgIff(head: string)
    ensures OpensAsSvg(head) <==>
      var text := if head != "" && head[0] as int == 0xFEFF then head[1..] else head;
      && (exists n :: 0 <= n < |text| && text[n] == '<' && forall i :: 0 <= i < n ==> IsSpace(text[i]))
      && (exists n :: 0 <= n < |text| && SvgTagAt(text, n))
  {
    var text := if head != "" && head[0] as int == 0xFEFF then head[1..] else head;
    FirstIsLess(text);
    if "<" <= TrimStart(text) && exists n :: 0 <= n < |text| && SvgTagAt(text, n) {
      var n: nat :| n < |text| && SvgTagAt(text, n);
      assert 0 <= n < |text| && SvgTagAt(text, n);
      assert OpensAsSvg(head);
    }
  }

  lemma LowersTo(c: char, d: char, e: char)
    requires 'a' <= d <= 'z' && e as int + 32 == d as int
    ensures LowerChar(c) == d <==> c in [d, e]
  {
    if 'A' <= c <= 'Z' {
      assert LowerChar(c) as int == c as int + 32;
    }
    assert c as int == e as int <==> c == e;
  }

  lemma SvgLetters(s: string)
    requires |s| == 4
    ensures Lower(s) == "<svg" <==> s[0] == '<' && s[1] in ['s', 'S'] && s[2] in ['v', 'V'] && s[3] in ['g', 'G']
  {
    assert Lower(s) == [LowerChar(s[0]), LowerChar(s[1]), LowerChar(s[2]), LowerChar(s[3])];
    LowersTo(s[1], 's', 'S');
    LowersTo(s[2], 'v', 'V');
    LowersTo(s[3], 'g', 'G');
    assert LowerChar(s[0]) == '<' <==> s[0] == '<';
    hide LowerChar, Lower;
  }

  lemma FirstIsLess(text: string)
    ensures "<" <= TrimStart(text) <==>
      exists n :: 0 <= n < |text| && text[n] == '<' && forall i :: 0 <= i < n ==> IsSpace(text[i])
  {
    var cut := TrimStartCuts(text);
    var rest := TrimStart(text);
    assert forall i :: 0 <= i < |cut| ==> text[i] == cut[i];
    if "<" <= rest {
      assert text[|cut|] == '<';
    }
    forall n | 0 <= n < |text| && text[n] == '<' && forall i :: 0 <= i < n ==> IsSpace(text[i])
      ensures "<" <= rest
    {
      assert !IsSpace('<');
      assert n >= |cut|;
      assert rest != "" && rest[0] == text[|cut|];
      assert n == |cut|;
    }
  }

  /** The image types that may be declared, and the signature that each asks for. */
  ghost predicate MatchesType(declared: string, bytes: seq<Byte>, utf8: seq<Byte> -> string) {
    || (declared == "image/png" && IsPng(bytes))
    || ((declared == "image/jpeg" || declared == "image/jpg") && IsJpeg(bytes))
    || (declared == "image/gif" && IsGif(bytes))
    || (declared == "image/webp" && IsWebp(bytes))
    || (declared == "image/svg+xml" && IsSvg(bytes, utf8))
  }

  lemma SniffMatches(declared: string, bytes: seq<Byte>, utf8: seq<Byte> -> string)
    requires declared in MIME_ALLOWLIST
    ensures MatchesType(declared, bytes, utf8) <==> SniffMime(bytes, utf8) == Some(CanonicalMime(declared))
  {
    SniffIff(bytes, utf8);
    hide SniffMime, IsSvg;
  }

  lemma DeclaredIsAllowed(declared: string, b: seq<Byte>, utf8: seq<Byte> -> string)
    requires MatchesType(declared, b, utf8)
    ensures declared in MIME_ALLOWLIST
  {
  }
}

/** The shape of a data URL: a scheme, a media type, parameters, a comma, and the payload. */
module DataUrls {
  import opened Wrappers
  import opened Text

  predicate IsAlnum(c: char) {
    'a' <= c <= 'z' || 'A' <= c <= 'Z' || '0' <= c <= '9'
  }

  predicate IsTokenChar(c: char) {
    IsAlnum(c) || c in "!#$&^_.+-"
  }

  predicate IsToken(s: string) {
    forall i :: 0 <= i < |s| ==> IsTokenChar(s[i])
  }

  predicate IsMediaType(s: string) {
    var slash := IndexOf(s, '/');
    && 0 < slash && slash + 1 < |s|
    && IsToken(s[..slash]) && IsToken(s[slash + 1..])
    && IsAlnum(s[0]) && IsAlnum(s[slash + 1])
  }

  /** A token, or a token, '=' and anything. */
  predicate IsParamText(text: string) {
    var name := text[..IndexOf(text, '=')];
    name != "" && IsToken(name)
  }

  /** Parameters, each introduced by a semicolon. */
  predicate AreParams(s: string)
    decreases |s|
  {
    s == "" || (
      && s[0] == ';'
      && var rest := s[1..];
      var end := IndexOf(rest, ';');
      IsParamText(rest[..end]) && AreParams(rest[end..]))
  }

  datatype Parts = Parts(mime: string, params: string, payload: string)

  /** `data:`, a media type, parameters, a comma, and the payload: the shape the check insists on first. */
  function MatchDataUrl(s: string): Option<Parts> {
    if |s| < 5 || Lower(s[..5]) != "data:" then None
    else
      var body := s[5..];
      var comma := IndexOf(body, ',');
      if comma == |body| then None
      else
        var head := body[..comma];
        var semi := IndexOf(head, ';');
        if IsMediaType(head[..semi]) && AreParams(head[semi..])
        then Some(Parts(head[..semi], head[semi..], body[comma + 1..])) else None
  }

  lemma MediaTypeChars(mime: string)
    requires IsMediaType(mime)
    ensures forall i :: 0 <= i < |mime| ==> mime[i] != ',' && mime[i] != ';'
  {
    var slash := IndexOf(mime, '/');
    forall i | 0 <= i < |mime|
      ensures mime[i] != ',' && mime[i] != ';'
    {
      if i < slash {
        assert IsTokenChar(mime[..slash][i]);
      } else if i > slash {
        assert IsTokenChar(mime[slash + 1..][i - slash - 1]);
      }
    }
  }

  lemma MediaTypeLower(mime: string)
    requires IsMediaType(mime)
    ensures IsMediaType(Lower(mime))
  {
    var slash, low := IndexOf(mime, '/'), Lower(mime);
    assert forall i :: 0 <= i < |mime| ==> (low[i] == '/' <==> mime[i] == '/');
    assert IndexOf(low, '/') == slash;
    forall i | 0 <= i < |low| && i != slash
      ensures IsTokenChar(low[i])
    {
      if i < slash {
        assert IsTokenChar(mime[..slash][i]);
      } else {
        assert IsTokenChar(mime[slash + 1..][i - slash - 1]);
      }
    }
  }

  lemma Base64Params()
    ensures AreParams(";base64") && Lower(";base64") == ";base64"
  {
    var s := ";base64";
    assert s[1..] == "base64";
    assert IndexOf("base64", ';') == 6 && "base64"[..6] == "base64" && "base64"[6..] == "";
    assert IndexOf("base64", '=') == 6;
    assert IsToken("base64");
  }

  lemma RenderedHead(mime: string)
    requires IsMediaType(mime)
    ensures var head := mime + ";base64";
      && IndexOf(head, ';') == |mime| && head[..|mime|] == mime && head[|mime|..] == ";base64"
      && IndexOf(head, ',') == |head|
  {
    MediaTypeChars(mime);
    IndexOfAppend(mime, ";base64", ';');
    IndexOfAppend(mime, ";base64", ',');
    assert ";base64"[0] == ';';
  }

  lemma RenderedBody(head: string, payload: string)
    requires IndexOf(head, ',') == |head|
    ensures var body := head + "," + payload;
      IndexOf(body, ',') == |head| && body[..|head|] == head && body[|head| + 1..] == payload
  {
    assert head + "," + payload == head + ("," + payload);
    IndexOfAppend(head, "," + payload, ',');
    assert ("," + payload)[0] == ',';
  }

  lemma ImageType(sub: string)
    requires sub != "" && forall i :: 0 <= i < |sub| ==> 'a' <= sub[i] <= 'z' || (sub[i] == '+' && i > 0)
    ensures IsMediaType("image/" + sub) && Lower("image/" + sub) == "image/" + sub
  {
    var mime := "image/" + sub;
    assert mime[5] == '/' && IndexOf(mime, '/') == 5;
    assert mime[6..] == sub && IsToken(sub);
    assert mime[..5] == "image" && IsToken("image");
  }

  lemma MediaTypeUnlower(mime: string)
    requires IsMediaType(Lower(mime))
    ensures IsMediaType(mime)
  {
    var low := Lower(mime);
    var slash := IndexOf(low, '/');
    assert forall i :: 0 <= i < |mime| ==> (low[i] == '/' <==> mime[i] == '/');
    assert IndexOf(mime, '/') == slash;
    forall i | 0 <= i < |low| && i != slash
      ensures IsTokenChar(mime[i])
    {
      if i < slash {
        assert IsTokenChar(low[..slash][i]);
      } else {
        assert IsTokenChar(low[slash + 1..][i - slash - 1]);
      }
    }
  }

  lemma TokenUnlower(s: string)
    requires IsToken(Lower(s))
    ensures IsToken(s)
  {
    forall i | 0 <= i < |s|
      ensures IsTokenChar(s[i])
    {
      assert IsTokenChar(Lower(s)[i]);
    }
  }

  lemma FreeUnlower(s: string, c: char)
    requires Free(Lower(s), c) && !('A' <= c <= 'Z') && !('a' <= c <= 'z')
    ensures Free(s, c)
  {
    forall i | 0 <= i < |s|
      ensures s[i] != c
    {
      assert Lower(s)[i] != c;
    }
  }

  lemma OneToken(s: string)
    requires s != "" && s[0] == ';' && s[1..] != "" && IsToken(s[1..]) && Free(s[1..], ';') && Free(s[1..], '=')
    ensures AreParams(s)
  {
    var rest := s[1..];
    assert IndexOf(rest, ';') == |rest| && rest[..|rest|] == rest && IndexOf(rest, '=') == |rest| && rest[|rest|..] == "";
  }

  lemma Base64Word()
    ensures IsToken("base64") && Free("base64", ';') && Free("base64", '=') && Free(";base64", ',')
  {
  }

  lemma Base64ParamsAnyCase(params: string)
    requires Lower(params) == ";base64"
    ensures params != "" && params[0] == ';' && AreParams(params) && Free(params, ',')
  {
    var rest := params[1..];
    assert Lower(params)[0] == ';';
    assert Lower(rest) == Lower(params)[1..] == "base64";
    Base64Word();
    FreeUnlower(params, ',');
    hide IsToken, Free, AreParams;
    TokenUnlower(rest);
    FreeUnlower(rest, ';');
    FreeUnlower(rest, '=');
    assert |rest| == |Lower(rest)|;
    OneToken(params);
  }

  lemma Assemble(scheme: string, mime: string, params: string, payload: string)
    ensures scheme + (mime + params + "," + payload) == scheme + mime + params + "," + payload
  {
    Regroup(scheme, mime + params + ",", payload);
    Regroup(scheme, mime + params, ",");
    Regroup(scheme, mime, params);
  }

  lemma HeadOfUrl(mime: string, params: string)
    requires IsMediaType(mime) && params != "" && params[0] == ';' && Free(params, ',')
    ensures var head := mime + params;
      IndexOf(head, ';') == |mime| && head[..|mime|] == mime && head[|mime|..] == params && IndexOf(head, ',') == |head|
  {
    MediaTypeChars(mime);
    hide IsMediaType;
    IndexOfAppend(mime, params, ';');
    IndexOfAppend(mime, params, ',');
    assert IndexOf(params, ';') == 0 && IndexOf(mime, ';') == |mime|;
    assert IndexOf(mime, ',') == |mime| && IndexOf(params, ',') == |params|;
  }

  lemma MatchOf(scheme: string, body: string)
    requires Lower(scheme) == "data:"
    ensures (scheme + body)[5..] == body && (scheme + body)[..5] == scheme
  {
    assert |scheme| == |Lower(scheme)|;
  }

  /** What a data URL is read back as, whatever the case of its head. */
  lemma PartsOfUrl(scheme: string, mime: string, params: string, payload: string)
    requires Lower(scheme) == "data:" && IsMediaType(mime) && Lower(params) == ";base64"
    ensures MatchDataUrl(scheme + mime + params + "," + payload) == Some(Parts(mime, params, payload))
  {
    Base64ParamsAnyCase(params);
    HeadOfUrl(mime, params);
    RenderedBody(mime + params, payload);
    Assemble(scheme, mime, params, payload);
    MatchOf(scheme, mime + params + "," + payload);
    hide IsMediaType, AreParams, Lower, IndexOf, Free;
    assert |scheme| == 5;
  }

  lemma CommaSplits(body: string)
    requires IndexOf(body, ',') < |body|
    ensures var comma := IndexOf(body, ','); body == body[..comma] + "," + body[comma + 1..]
  {
  }

  lemma PartsMakeUrl(s: string)
    requires MatchDataUrl(s).Some?
    ensures var p := MatchDataUrl(s).value;
      |s| >= 5 && Lower(s[..5]) == "data:" && IsMediaType(p.mime) && s == s[..5] + p.mime + p.params + "," + p.payload
  {
    hide IsMediaType, AreParams, Lower, Free;
    var p, body := MatchDataUrl(s).value, s[5..];
    var comma := IndexOf(body, ',');
    var head := body[..comma];
    CommaSplits(body);
    assert p.payload == body[comma + 1..];
    assert head == p.mime + p.params;
    hide MatchDataUrl, IndexOf;
    Assemble(s[..5], p.mime, p.params, p.payload);
    assert s == s[..5] + body;
  }

  lemma TokenIsFree(s: string, c: char)
    requires IsToken(s) && !IsTokenChar(c)
    ensures Free(s, c)
  {
  }

  lemma CutAtFirst(t: string, c: char, u: string)
    requires Free(t, c)
    ensures var s := t + [c] + u; IndexOf(s, c) == |t| && s[..|t|] == t && s[|t| + 1..] == u
  {
    var s := t + [c] + u;
    assert s == t + ([c] + u);
    assert IndexOf(t, c) == |t| && IndexOf([c] + u, c) == 0;
    IndexOfAppend(t, [c] + u, c);
  }

  lemma MediaTypeOf(t: string, u: string)
    requires t != "" && u != "" && IsAlnum(t[0]) && IsAlnum(u[0]) && IsToken(t) && IsToken(u)
    ensures IsMediaType(t + "/" + u)
  {
    SlashIsNoToken();
    TokenIsFree(t, '/');
    CutAtFirst(t, '/', u);
    hide IsToken, IsAlnum, IndexOf;
    var s := t + "/" + u;
    assert s == t + ['/'] + u;
    assert s[0] == t[0] && s[|t| + 1] == u[0];
  }

  /** A type and a subtype, each of token characters that begin with a letter or a digit. */
  lemma MediaTypeIff(s: string)
    ensures IsMediaType(s) <==>
      exists t: string, u: string ::
        s == t + "/" + u && t != "" && u != "" && IsAlnum(t[0]) && IsAlnum(u[0]) && IsToken(t) && IsToken(u)
  {
    if IsMediaType(s) {
      var slash := IndexOf(s, '/');
      var t, u := s[..slash], s[slash + 1..];
      assert s == t + "/" + u && t[0] == s[0] && u[0] == s[slash + 1];
    }
    hide IsToken, IsAlnum, IsMediaType, IndexOf;
    forall t: string, u: string |
      s == t + "/" + u && t != "" && u != "" && IsAlnum(t[0]) && IsAlnum(u[0]) && IsToken(t) && IsToken(u)
      ensures IsMediaType(s)
    {
      MediaTypeOf(t, u);
    }
  }

  lemma SlashIsNoToken()
    ensures !IsTokenChar('/') && !IsTokenChar(';') && !IsTokenChar(',') && !IsTokenChar('=')
  {
  }

  /** Which characters those are. */
  lemma TokenChars(c: char)
    ensures IsAlnum(c) <==> 97 <= c as int <= 122 || 65 <= c as int <= 90 || 48 <= c as int <= 57
    ensures IsTokenChar(c) <==> IsAlnum(c) || c in ['!', '#', '$', '&', '^', '_', '.', '+', '-']
  {
    assert "!#$&^_.+-" == ['!', '#', '$', '&', '^', '_', '.', '+', '-'];
  }

  /** A parameter: a name, and where there is an `=`, a value that is any text without `;`. */
  datatype Param = Bare(name: string) | Valued(name: string, value: string)

  function ParamText(p: Param): string {
    if p.Bare? then p.name else p.name + "=" + p.value
  }

  function ParamsText(list: seq<Param>): string {
    if list == [] then "" else ";" + ParamText(list[0]) + ParamsText(list[1..])
  }

  ghost predicate IsParam(p: Param) {
    p.name != "" && IsToken(p.name) && (p.Valued? ==> Free(p.value, ';'))
  }

  lemma NameOfParam(p: Param)
    requires IsParam(p)
    ensures ParamText(p)[..IndexOf(ParamText(p), '=')] == p.name
  {
    SlashIsNoToken();
    TokenIsFree(p.name, '=');
    if p.Valued? {
      CutAtFirst(p.name, '=', p.value);
      assert ParamText(p) == p.name + ['='] + p.value;
    } else {
      assert IndexOf(p.name, '=') == |p.name| && p.name[..|p.name|] == p.name;
    }
  }

  lemma ParamOfText(text: string) returns (p: Param)
    requires Free(text, ';') && IsParamText(text)
    ensures IsParam(p) && text == ParamText(p)
  {
    hide IsToken;
    var end := IndexOf(text, '=');
    if end == |text| {
      p := Bare(text);
      assert text[..end] == text;
    } else {
      p := Valued(text[..end], text[end + 1..]);
      FreeTail(text, end + 1);
    }
  }

  lemma FreeTail(text: string, n: nat)
    requires Free(text, ';') && n <= |text|
    ensures Free(text[n..], ';')
  {
  }

  lemma ParamIff(text: string)
    requires Free(text, ';')
    ensures IsParamText(text) <==> exists p: Param :: IsParam(p) && text == ParamText(p)
  {
    if IsParamText(text) {
      var p := ParamOfText(text);
    }
    forall p: Param | IsParam(p) && text == ParamText(p)
      ensures IsParamText(text)
    {
      NameOfParam(p);
    }
  }

  lemma ParamTextIsFree(p: Param)
    requires IsParam(p)
    ensures Free(ParamText(p), ';')
  {
    SlashIsNoToken();
    var text := ParamText(p);
    forall i | 0 <= i < |text|
      ensures text[i] != ';'
    {
      if i < |p.name| {
        assert text[i] == p.name[i];
      } else if i > |p.name| {
        assert text[i] == p.value[i - |p.name| - 1];
      }
    }
  }

  lemma FirstParamText(s: string) returns (text: string, tail: string)
    requires AreParams(s) && s != ""
    ensures s == ";" + text + tail && Free(text, ';') && AreParams(tail) && IsParamText(text)
  {
    hide IsParamText;
    var rest := s[1..];
    var end := IndexOf(rest, ';');
    text, tail := rest[..end], rest[end..];
    assert s == ";" + rest && rest == text + tail;
    Regroup(";", text, tail);
  }

  lemma FirstParam(s: string) returns (p: Param, tail: string)
    requires AreParams(s) && s != ""
    ensures IsParam(p) && AreParams(tail) && |tail| < |s| && s == ";" + ParamText(p) + tail
  {
    hide AreParams, IsParam, ParamText, IsParamText, Free;
    var text;
    text, tail := FirstParamText(s);
    p := ParamOfText(text);
  }

  lemma {:induction false} ParamsFromText(s: string) returns (list: seq<Param>)
    requires AreParams(s)
    ensures s == ParamsText(list) && forall p <- list :: IsParam(p)
    decreases |s|
  {
    hide AreParams, IsParam, ParamText;
    if s == "" {
      list := [];
    } else {
      var p, tail := FirstParam(s);
      var others := ParamsFromText(tail);
      list := [p] + others;
      assert list[1..] == others;
    }
  }

  lemma ParamsUnfold(s: string, end: nat)
    requires s != "" && s[0] == ';' && end == IndexOf(s[1..], ';')
    requires IsParamText(s[1..][..end]) && AreParams(s[1..][end..])
    ensures AreParams(s)
  {
    hide IsParamText, IndexOf;
  }

  lemma ParamsStart(s: string)
    requires AreParams(s)
    ensures s == "" || s[0] == ';'
  {
    hide IsParamText;
  }

  lemma OneMoreParam(p: Param, tail: string)
    requires IsParam(p) && AreParams(tail)
    ensures AreParams(";" + ParamText(p) + tail)
  {
    hide *;
    var text := ParamText(p);
    ParamTextIsFree(p);
    ParamIff(text);
    ParamsStart(tail);
    SplitsAtTail(text, tail);
    var s := ";" + text + tail;
    assert s[1..] == text + tail && s[0] == ';';
    ParamsUnfold(s, |text|);
  }

  lemma SplitsAtTail(text: string, tail: string)
    requires Free(text, ';') && (tail == "" || tail[0] == ';')
    ensures var rest := text + tail; IndexOf(rest, ';') == |text| && rest[..|text|] == text && rest[|text|..] == tail
  {
    IndexOfAppend(text, tail, ';');
    assert IndexOf(text, ';') == |text|;
    assert tail != "" ==> IndexOf(tail, ';') == 0;
    assert tail == "" ==> text + tail == text;
  }

  lemma {:induction false} TextOfParams(list: seq<Param>)
    requires forall p <- list :: IsParam(p)
    ensures AreParams(ParamsText(list))
  {
    if list != [] {
      assert list[0] in list && forall p <- list[1..] :: p in list;
      hide AreParams, IsParam, ParamText;
      TextOfParams(list[1..]);
      OneMoreParam(list[0], ParamsText(list[1..]));
    } else {
      assert AreParams("");
    }
  }

  /** Parameters are a list of them, each after a semicolon. */
  lemma ParamsIff(s: string)
    ensures AreParams(s) <==> exists list: seq<Param> :: s == ParamsText(list) && forall p <- list :: IsParam(p)
  {
    if AreParams(s) {
      var list := ParamsFromText(s);
    }
    forall list: seq<Param> | s == ParamsText(list) && forall p <- list :: IsParam(p)
      ensures AreParams(s)
    {
      TextOfParams(list);
    }
  }

  /** The shape of a data URL: a scheme in any case, a media type, parameters, the first comma, and the payload. */
  lemma MatchIff(s: string, parts: Parts)
    ensures MatchDataUrl(s) == Some(parts) <==>
      && IsMediaType(parts.mime) && AreParams(parts.params) && Free(parts.params, ',')
      && exists scheme: string :: Lower(scheme) == "data:" && s == scheme + parts.mime + parts.params + "," + parts.payload
  {
    if MatchDataUrl(s) == Some(parts) {
      PartsMakeUrl(s);
      MatchedParams(s);
    }
    forall scheme: string |
      && IsMediaType(parts.mime) && AreParams(parts.params) && Free(parts.params, ',')
      && Lower(scheme) == "data:" && s == scheme + parts.mime + parts.params + "," + parts.payload
      ensures MatchDataUrl(s) == Some(parts)
    {
      HeadOfAnyUrl(parts.mime, parts.params);
      RenderedBody(parts.mime + parts.params, parts.payload);
      Assemble(scheme, parts.mime, parts.params, parts.payload);
      MatchOf(scheme, parts.mime + parts.params + "," + parts.payload);
      hide IsMediaType, AreParams, Lower, IndexOf, Free;
      assert |scheme| == 5;
    }
  }

  lemma MatchedParams(s: string)
    requires MatchDataUrl(s).Some?
    ensures var p := MatchDataUrl(s).value; AreParams(p.params) && Free(p.params, ',')
  {
    hide IsMediaType, AreParams, Lower;
  }

  lemma HeadOfAnyUrl(mime: string, params: string)
    requires IsMediaType(mime) && AreParams(params) && Free(params, ',')
    ensures var head := mime + params;
      && IndexOf(head, ';') == |mime| && head[..|mime|] == mime && head[|mime|..] == params
      && IndexOf(head, ',') == |head|
  {
    if params == "" {
      MediaTypeChars(mime);
      assert mime + params == mime;
      assert IndexOf(mime, ';') == |mime| && IndexOf(mime, ',') == |mime|;
    } else {
      assert params[0] == ';';
      HeadOfUrl(mime, params);
    }
  }

  /** Text after the comma only ever makes the payload longer. */
  lemma MatchAppend(front: string, payload: string)
    requires front != "" && front[|front| - 1] == ','
    ensures var m := MatchDataUrl(front);
      MatchDataUrl(front + payload) == if m.None? then None else Some(m.value.(payload := m.value.payload + payload))
  {
    var s := front + payload;
    if |front| <= 5 {
      if |s| >= 5 {
        assert Lower(s[..5])[|front| - 1] == ',';
        assert "data:"[|front| - 1] != ',';
      }
      if |front| == 5 {
        assert Lower(front[..5])[4] == ',';
      }
    } else {
      assert s[..5] == front[..5];
      var rest := front[5..];
      assert s[5..] == rest + payload;
      assert rest[|rest| - 1] == ',';
      var comma := IndexOf(rest, ',');
      IndexOfAppend(rest, payload, ',');
      assert (rest + payload)[..comma] == rest[..comma];
      assert (rest + payload)[comma + 1..] == rest[comma + 1..] + payload;
    }
  }
}

/** Icon data URLs: the write-path check and the normal form. */
module IconDataUrl {
  import opened Wrappers
  import opened Text
  import opened Base64
  import opened ImageBytes
  import opened DataUrls

  datatype Reason = NotDataUrl | NotAnImageType | NotJustBase64 | BadBase64 | NotAnImage | Mismatch(declared: string, sniffed: string)

  datatype Verdict = Accepted(mime: string, normalized: string) | Refused(reason: Reason)

  function Render(mime: string, payload: string): string {
    "data:" + mime + ";base64," + payload
  }

  function ValidateParts(parts: Parts, utf8: seq<Byte> -> string): Verdict {
    var declared := Lower(parts.mime);
    if declared !in MIME_ALLOWLIST then Refused(NotAnImageType)
    else if Lower(parts.params) != ";base64" then Refused(NotJustBase64)
    else ValidatePayload(declared, RemoveSpaces(parts.payload), utf8)
  }

  function ValidatePayload(declared: string, compact: string, utf8: seq<Byte> -> string): Verdict {
    var bytes := DecodeStrict(compact);
    if bytes.None? then Refused(BadBase64)
    else
      var sniffed := SniffMime(bytes.value, utf8);
      if sniffed.None? then Refused(NotAnImage)
      else if sniffed.value != CanonicalMime(declared) then Refused(Mismatch(declared, sniffed.value))
      else Accepted(sniffed.value, Render(declared, compact))
  }

  function Validate(value: string, utf8: seq<Byte> -> string): Verdict {
    var parts := MatchDataUrl(Trim(value));
    if parts.None? then Refused(NotDataUrl) else ValidateParts(parts.value, utf8)
  }

  lemma DecodableHasNoSpace(s: string)
    requires DecodeStrict(s).Some?
    ensures NoSpace(s) && s != ""
  {
    forall i | 0 <= i < |s|
      ensures !IsSpace(s[i])
    {
      assert i < |Strip(s)| ==> s[i] == Strip(s)[i] && IsSymbol(s[i]);
    }
  }

  /** What a rendered URL is read back as. */
  lemma RenderedParts(mime: string, payload: string)
    requires IsMediaType(mime) && NoSpace(payload) && payload != ""
    ensures MatchDataUrl(Trim(Render(mime, payload))) == Some(Parts(mime, ";base64", payload))
  {
    var s, head := Render(mime, payload), mime + ";base64";
    assert s[0] == 'd' && s[|s| - 1] == payload[|payload| - 1];
    TrimNoSpace(s);
    assert s[..5] == "data:" && Lower("data:") == "data:";
    assert s[5..] == head + "," + payload;
    RenderedHead(mime);
    RenderedBody(head, payload);
    Base64Params();
  }

  lemma ValidateRendered(mime: string, payload: string, utf8: seq<Byte> -> string)
    requires IsMediaType(mime) && Lower(mime) == mime && mime in MIME_ALLOWLIST && DecodeStrict(payload).Some?
    ensures Validate(Render(mime, payload), utf8) == ValidatePayload(mime, payload, utf8)
  {
    DecodableHasNoSpace(payload);
    RenderedParts(mime, payload);
    RemoveSpacesNoSpace(payload);
    Base64Params();
  }

  /** Why a URL is turned away, in the order of the checks. */
  lemma ReasonIff(value: string, utf8: seq<Byte> -> string)
    ensures Validate(value, utf8) == Refused(NotDataUrl) <==> MatchDataUrl(Trim(value)).None?
    ensures MatchDataUrl(Trim(value)).Some? ==>
      var p := MatchDataUrl(Trim(value)).value;
      var image := Lower(p.mime) in ["image/png", "image/jpeg", "image/jpg", "image/gif", "image/webp", "image/svg+xml"];
      && (Validate(value, utf8) == Refused(NotAnImageType) <==> !image)
      && (Validate(value, utf8) == Refused(NotJustBase64) <==> image && Lower(p.params) != ";base64")
      && (Validate(value, utf8) == Refused(BadBase64) <==>
          image && Lower(p.params) == ";base64" && forall b: seq<Byte> :: b != [] ==> RemoveSpaces(p.payload) != Encode(b))
  {
    hide MatchDataUrl, Trim, DecodeStrict, Encode, Lower, RemoveSpaces, ValidatePayload;
    if MatchDataUrl(Trim(value)).Some? {
      var p := MatchDataUrl(Trim(value)).value;
      PayloadReason(Lower(p.mime), RemoveSpaces(p.payload), utf8);
    }
  }

  lemma PayloadReason(declared: string, compact: string, utf8: seq<Byte> -> string)
    ensures var v := ValidatePayload(declared, compact, utf8);
      && v != Refused(NotDataUrl) && v != Refused(NotAnImageType) && v != Refused(NotJustBase64)
      && (v == Refused(BadBase64) <==> forall b: seq<Byte> :: b != [] ==> compact != Encode(b))
  {
    forall b: seq<Byte>
      ensures DecodeStrict(compact) == Some(b) <==> b != [] && compact == Encode(b)
    {
      StrictIsCanonical(compact, b);
    }
    hide DecodeStrict, Encode, SniffMime;
  }

  lemma PayloadAcceptedIff(declared: string, compact: string, utf8: seq<Byte> -> string)
    requires declared in MIME_ALLOWLIST
    ensures ValidatePayload(declared, compact, utf8).Accepted? <==>
      exists b: seq<Byte> :: b != [] && compact == Encode(b) && MatchesType(declared, b, utf8)
  {
    forall b: seq<Byte>
      ensures DecodeStrict(compact) == Some(b) <==> b != [] && compact == Encode(b)
    {
      StrictIsCanonical(compact, b);
    }
    if DecodeStrict(compact).Some? {
      SniffMatches(declared, DecodeStrict(compact).value, utf8);
    }
    hide DecodeStrict, Encode, SniffMime, MatchesType;
  }

  lemma AllowedIsMediaType(mime: string)
    requires mime in MIME_ALLOWLIST
    ensures IsMediaType(mime)
  {
    ImageType(mime[6..]);
    assert mime == "image/" + mime[6..];
  }

  lemma AcceptedHasShape(value: string, utf8: seq<Byte> -> string)
    returns (scheme: string, parts: Parts, b: seq<Byte>)
    requires Validate(value, utf8).Accepted?
    ensures Trim(value) == scheme + parts.mime + parts.params + "," + parts.payload
    ensures Lower(scheme) == "data:" && Lower(parts.params) == ";base64"
    ensures b != [] && RemoveSpaces(parts.payload) == Encode(b) && MatchesType(Lower(parts.mime), b, utf8)
  {
    hide MatchDataUrl, ValidatePayload, MatchesType, Trim, Encode;
    var s := Trim(value);
    parts := MatchDataUrl(s).value;
    PartsMakeUrl(s);
    scheme := s[..5];
    PayloadAcceptedIff(Lower(parts.mime), RemoveSpaces(parts.payload), utf8);
    b :| b != [] && RemoveSpaces(parts.payload) == Encode(b) && MatchesType(Lower(parts.mime), b, utf8);
  }

  lemma ShapeIsAccepted(value: string, scheme: string, mime: string, params: string, payload: string, b: seq<Byte>, utf8: seq<Byte> -> string)
    requires Trim(value) == scheme + mime + params + "," + payload && Lower(scheme) == "data:" && Lower(params) == ";base64"
    requires b != [] && RemoveSpaces(payload) == Encode(b) && MatchesType(Lower(mime), b, utf8)
    ensures Validate(value, utf8).Accepted?
  {
    DeclaredIsAllowed(Lower(mime), b, utf8);
    AllowedIsMediaType(Lower(mime));
    hide MatchDataUrl, ValidatePayload, MatchesType, Trim, Encode, Lower, RemoveSpaces, IsMediaType;
    MediaTypeUnlower(mime);
    PartsOfUrl(scheme, mime, params, payload);
    PayloadAcceptedIff(Lower(mime), RemoveSpaces(payload), utf8);
  }

  /**
   The whole of the check: a URL is accepted exactly when, trimmed, it is `data:`, one of the image
   types, `;base64` and a comma, in any letter case, and a payload that is, white space aside, the
   canonical encoding of bytes with that type's signature.
   */
  lemma AcceptedIff(value: string, utf8: seq<Byte> -> string)
    ensures Validate(value, utf8).Accepted? <==>
      exists scheme: string, mime: string, params: string, payload: string, b: seq<Byte> ::
        && Trim(value) == scheme + mime + params + "," + payload
        && Lower(scheme) == "data:" && Lower(params) == ";base64"
        && b != [] && RemoveSpaces(payload) == Encode(b) && MatchesType(Lower(mime), b, utf8)
  {
    hide *;
    if Validate(value, utf8).Accepted? {
      var scheme, parts, b := AcceptedHasShape(value, utf8);
    }
    forall scheme: string, mime: string, params: string, payload: string, b: seq<Byte> |
      && Trim(value) == scheme + mime + params + "," + payload
      && Lower(scheme) == "data:" && Lower(params) == ";base64"
      && b != [] && RemoveSpaces(payload) == Encode(b) && MatchesType(Lower(mime), b, utf8)
      ensures Validate(value, utf8).Accepted?
    {
      ShapeIsAccepted(value, scheme, mime, params, payload, b, utf8);
    }
  }

  /** For a URL in normal form: the verdict for each declared type, and which types are sniffed instead. */
  lemma DeclaredVerdict(declared: string, b: seq<Byte>, utf8: seq<Byte> -> string)
    requires b != []
    requires declared in ["image/png", "image/jpeg", "image/jpg", "image/gif", "image/webp", "image/svg+xml"]
    ensures var url := "data:" + declared + ";base64," + Encode(b);
      var canonical := if declared == "image/jpg" then "image/jpeg" else declared;
      Validate(url, utf8) ==
        if MatchesType(declared, b, utf8) then Accepted(canonical, url)
        else if IsPng(b) then Refused(Mismatch(declared, "image/png"))
        else if IsJpeg(b) then Refused(Mismatch(declared, "image/jpeg"))
        else if IsGif(b) then Refused(Mismatch(declared, "image/gif"))
        else if IsWebp(b) then Refused(Mismatch(declared, "image/webp"))
        else if IsSvg(b, utf8) then Refused(Mismatch(declared, "image/svg+xml"))
        else Refused(NotAnImage)
  {
    StrictIsCanonical(Encode(b), b);
    DeclaredLower(declared);
    hide Encode, DecodeStrict, Validate, Lower;
    ValidateRendered(declared, Encode(b), utf8);
    SniffMatches(declared, b, utf8);
    SniffIff(b, utf8);
    hide SniffMime, IsSvg, MatchesType, IsPng, IsJpeg, IsGif, IsWebp;
  }

  lemma DeclaredLower(declared: string)
    requires declared in MIME_ALLOWLIST
    ensures Lower(declared) == declared && IsMediaType(declared)
  {
    var sub := declared[6..];
    assert declared == "image/" + sub;
    ImageType(sub);
  }

  lemma AcceptedShape(value: string, utf8: seq<Byte> -> string) returns (mime: string, payload: string)
    requires Validate(value, utf8).Accepted?
    ensures IsMediaType(mime) && Lower(mime) == mime && mime in MIME_ALLOWLIST && DecodeStrict(payload).Some?
    ensures Validate(value, utf8) == ValidatePayload(mime, payload, utf8)
    ensures Validate(value, utf8).normalized == Render(mime, payload)
  {
    var parts := MatchDataUrl(Trim(value)).value;
    mime, payload := Lower(parts.mime), RemoveSpaces(parts.payload);
    MediaTypeLower(parts.mime);
    LowerTwice(parts.mime);
  }

  /** What is stored for an accepted URL is accepted again, and is its own normal form. */
  lemma NormalFormIsFixed(value: string, utf8: seq<Byte> -> string)
    ensures var v := Validate(value, utf8); v.Accepted? ==> Validate(v.normalized, utf8) == v
  {
    if Validate(value, utf8).Accepted? {
      var mime, payload := AcceptedShape(value, utf8);
      ValidateRendered(mime, payload, utf8);
    }
  }

  /** The verdict and the normal form depend on a payload's characters other than white space only. */
  lemma PayloadSpacesDoNotMatter(pre: string, payload: string, payload': string, utf8: seq<Byte> -> string)
    requires RemoveSpaces(payload) == RemoveSpaces(payload')
    ensures Validate(pre + "," + payload, utf8) == Validate(pre + "," + payload', utf8)
  {
    var front := TrimStart(pre) + ",";
    TrimAround(pre, ',', payload);
    TrimAround(pre, ',', payload');
    MatchAppend(front, TrimEnd(payload));
    MatchAppend(front, TrimEnd(payload'));
    RemoveSpacesTrimEnd(payload);
    RemoveSpacesTrimEnd(payload');
    if MatchDataUrl(front).Some? {
      var tail := MatchDataUrl(front).value.payload;
      RemoveSpacesAppend(tail, TrimEnd(payload));
      RemoveSpacesAppend(tail, TrimEnd(payload'));
    }
  }

  // ----- raw base64 -----

  datatype RawImage = RawImage(mime: string, compact: string)

  function SniffRaw(value: string, utf8: seq<Byte> -> string): Option<RawImage> {
    var trimmed := Trim(value);
    if |trimmed| < 16 || !WellFormed(trimmed) || Strip(trimmed) == "" then None
    else
      var bytes := DecodeStrict(trimmed);
      if bytes.None? then None
      else
        var mime := SniffMime(bytes.value, utf8);
        if mime.None? then None else Some(RawImage(mime.value, trimmed))
  }

  /** Raw base64 is taken for an image exactly when, trimmed, it is the canonical encoding of an image and long enough. */
  lemma SniffRawIff(value: string, mime: string, compact: string, utf8: seq<Byte> -> string)
    ensures SniffRaw(value, utf8) == Some(RawImage(mime, compact)) <==>
      && compact == Trim(value) && |compact| >= 16 && mime != "image/jpg"
      && exists b: seq<Byte> :: b != [] && compact == Encode(b) && MatchesType(mime, b, utf8)
  {
    forall b: seq<Byte>
      ensures DecodeStrict(compact) == Some(b) <==> b != [] && compact == Encode(b)
      ensures SniffMime(b, utf8) == Some(mime) <==> mime != "image/jpg" && MatchesType(mime, b, utf8)
    {
      StrictIsCanonical(compact, b);
      SniffIff(b, utf8);
    }
    if compact == Trim(value) && DecodeStrict(compact).Some? {
      DecodedIsWellFormed(compact);
    }
    hide DecodeStrict, Encode, SniffMime, MatchesType, Trim;
  }

  lemma DecodedIsWellFormed(s: string)
    requires DecodeStrict(s).Some?
    ensures WellFormed(s) && Strip(s) != ""
  {
    StrictIsCanonical(s, DecodeStrict(s).value);
  }

  function NormalizeRaw(value: string, utf8: seq<Byte> -> string): string {
    var raw := SniffRaw(value, utf8);
    if raw.None? then value else Render(raw.value.mime, raw.value.compact)
  }

  lemma SniffedIsCanonical(bytes: seq<Byte>, utf8: seq<Byte> -> string)
    requires SniffMime(bytes, utf8).Some?
    ensures var mime := SniffMime(bytes, utf8).value;
      mime in MIME_ALLOWLIST && CanonicalMime(mime) == mime && IsMediaType(mime) && Lower(mime) == mime
  {
    var mime := SniffMime(bytes, utf8).value;
    var sub := mime[6..];
    assert mime == "image/" + sub;
    ImageType(sub);
    assert mime in MIME_ALLOWLIST && mime != "image/jpg";
  }

  /** A wrapped raw image always validates, with the type that was sniffed, and is a normal form. */
  lemma WrappedRawValidates(value: string, utf8: seq<Byte> -> string)
    requires SniffRaw(value, utf8).Some?
    ensures Validate(NormalizeRaw(value, utf8), utf8) == Accepted(SniffRaw(value, utf8).value.mime, NormalizeRaw(value, utf8))
  {
    var trimmed := Trim(value);
    SniffedIsCanonical(DecodeStrict(trimmed).value, utf8);
    ValidateRendered(SniffRaw(value, utf8).value.mime, trimmed, utf8);
  }

  lemma RenderedIsNotRaw(mime: string, payload: string)
    requires NoSpace(payload) && payload != ""
    ensures !WellFormed(Trim(Render(mime, payload)))
  {
    var url := Render(mime, payload);
    assert url[0] == 'd' && url[|url| - 1] == payload[|payload| - 1];
    TrimNoSpace(url);
    assert url[4] == ':' && !IsSymbol(':');
    assert |Strip(url)| > 4 ==> Strip(url)[4] == ':';
  }

  /** Wrapping twice is wrapping once: a data URL is never taken for raw base64. */
  lemma NormalizeRawTwice(value: string, utf8: seq<Byte> -> string)
    ensures NormalizeRaw(NormalizeRaw(value, utf8), utf8) == NormalizeRaw(value, utf8)
  {
    if SniffRaw(value, utf8).Some? {
      var raw := SniffRaw(value, utf8).value;
      DecodableHasNoSpace(raw.compact);
      RenderedIsNotRaw(raw.mime, raw.compact);
    }
  }
}
