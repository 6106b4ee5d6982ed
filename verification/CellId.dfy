/** Cell ids (lbc-dashboard/src/store.ts) over percent-encoded segments. */
module CellId {
  import opened Optional
  import opened Strings

  // --- encodeURIComponent and decodeURIComponent (section 19.2.6 of ECMA-262) ---

  predicate Unreserved(c: char) {
    || 'A' <= c <= 'Z' || 'a' <= c <= 'z' || '0' <= c <= '9'
    || c in {'-', '_', '.', '!', '~', '*', '\'', '(', ')'}
  }

  type Octet = n: int | 0 <= n < 256

  function Utf8(c: char): seq<Octet> {
    var n := c as int;
    if n < 0x80 then [n]
    else if n < 0x800 then [0xC0 + n / 64, 0x80 + n % 64]
    else if n < 0x10000 then [0xE0 + n / 4096, 0x80 + n / 64 % 64, 0x80 + n % 64]
    else [0xF0 + n / 262144, 0x80 + n / 4096 % 64, 0x80 + n / 64 % 64, 0x80 + n % 64]
  }

  function HexDigit(d: int): char
    requires 0 <= d < 16
  {
    if d < 10 then '0' + d as char else 'A' + (d - 10) as char
  }

  function HexValue(c: char): Option<int> {
    if '0' <= c <= '9' then Some(c as int - '0' as int)
    else if 'A' <= c <= 'F' then Some(c as int - 'A' as int + 10)
    else if 'a' <= c <= 'f' then Some(c as int - 'a' as int + 10)
    else None
  }

  function PercentOne(b: Octet): string {
    ['%', HexDigit(b / 16), HexDigit(b % 16)]
  }

  function Percent(octets: seq<Octet>): string {
    if octets == [] then "" else PercentOne(octets[0]) + Percent(octets[1..])
  }

  function EncodeChar(c: char): string {
    if Unreserved(c) then [c] else Percent(Utf8(c))
  }

  function Encode(s: string): string {
    if s == "" then "" else EncodeChar(s[0]) + Encode(s[1..])
  }

  /** The octet that `text` spells at `at` as "%XX". */
  function OctetAt(text: string, at: nat): Option<int> {
    if at + 3 <= |text| && text[at] == '%' && HexValue(text[at + 1]).Some? && HexValue(text[at + 2]).Some?
    then Some(HexValue(text[at + 1]).value * 16 + HexValue(text[at + 2]).value) else None
  }

  /** The low six bits of a continuation octet. */
  function ContinuationAt(text: string, at: nat): Option<int> {
    match OctetAt(text, at)
    case Some(b) => if 0x80 <= b < 0xC0 then Some(b - 0x80) else None
    case None => None
  }

  /** A code point the number of octets is right for; overlong forms and surrogates are malformed. */
  function CodePoint(n: int, least: int, length: nat): Option<(char, nat)> {
    if 0 <= n && least <= n < 0x110000 && !(0xD800 <= n < 0xE000) then Some((n as char, length)) else None
  }

  /** The character a lead octet and the continuation octets after it stand for, and how much text that takes. */
  function Assemble(b: int, c1: Option<int>, c2: Option<int>, c3: Option<int>): Option<(char, nat)> {
    if b < 0x80 then CodePoint(b, 0, 3)
    else if b < 0xC0 || b >= 0xF8 || c1.None? then None
    else if b < 0xE0 then CodePoint((b - 0xC0) * 64 + c1.value, 0x80, 6)
    else if c2.None? then None
    else if b < 0xF0 then CodePoint((b - 0xE0) * 4096 + c1.value * 64 + c2.value, 0x800, 9)
    else if c3.None? then None
    else CodePoint((b - 0xF0) * 262144 + c1.value * 4096 + c2.value * 64 + c3.value, 0x10000, 12)
  }

  /** The first character and how much text it takes; `None` where a URIError is thrown. */
  function DecodeFirst(text: string): Option<(char, nat)>
    requires text != ""
  {
    if text[0] != '%' then Some((text[0], 1)) else
      match OctetAt(text, 0)
      case None => None
      case Some(b) => Assemble(b, ContinuationAt(text, 3), ContinuationAt(text, 6), ContinuationAt(text, 9))
  }

  function Decode(text: string): Option<string> {
    if text == "" then Some("") else
      match DecodeFirst(text)
      case None => None
      case Some((c, length)) =>
        if length == 0 || length > |text| then None else
          match Decode(text[length..])
          case None => None
          case Some(rest) => Some([c] + rest)
  }

  lemma HexRoundTrip(d: int)
    requires 0 <= d < 16
    ensures HexValue(HexDigit(d)) == Some(d) && HexDigit(d) != ':' && HexDigit(d) != '%'
  {
  }

  lemma OctetHead(b: Octet, rest: string)
    ensures OctetAt(PercentOne(b) + rest, 0) == Some(b)
  {
    HexRoundTrip(b / 16);
    HexRoundTrip(b % 16);
  }

  lemma OctetShift(prefix: string, text: string, at: nat)
    ensures OctetAt(prefix + text, |prefix| + at) == OctetAt(text, at)
  {
    assert at + 3 <= |text| ==> (prefix + text)[|prefix| + at..|prefix| + at + 3] == text[at..at + 3];
    assert forall k :: 0 <= k < |text| ==> (prefix + text)[|prefix| + k] == text[k];
  }

  /** Any octet of a percent-encoded run is read back where it was written. */
  lemma {:induction false} OctetRoundTrip(octets: seq<Octet>, rest: string, i: nat)
    requires i < |octets|
    ensures OctetAt(Percent(octets) + rest, 3 * i) == Some(octets[i])
    decreases |octets|
  {
    var text := Percent(octets[1..]) + rest;
    assert Percent(octets) + rest == PercentOne(octets[0]) + text;
    if i == 0 {
      OctetHead(octets[0], text);
    } else {
      OctetRoundTrip(octets[1..], rest, i - 1);
      OctetShift(PercentOne(octets[0]), text, 3 * (i - 1));
    }
  }

  lemma {:induction false} PercentShape(octets: seq<Octet>)
    ensures |Percent(octets)| == 3 * |octets| && ':' !in Percent(octets)
    ensures octets != [] ==> Percent(octets)[0] == '%'
  {
    if octets != [] {
      HexRoundTrip(octets[0] / 16);
      HexRoundTrip(octets[0] % 16);
      PercentShape(octets[1..]);
    }
  }

  /** UTF-8 in both directions: whatever follows the last octet is not looked at. */
  lemma AssembleRoundTrip(c: char, c1: Option<int>, c2: Option<int>, c3: Option<int>)
    requires var octets := Utf8(c);
             && (1 < |octets| ==> c1 == Some(octets[1] - 0x80))
             && (2 < |octets| ==> c2 == Some(octets[2] - 0x80))
             && (3 < |octets| ==> c3 == Some(octets[3] - 0x80))
    ensures Assemble(Utf8(c)[0], c1, c2, c3) == Some((c, 3 * |Utf8(c)|))
  {
    hide CodePoint;
    var n := c as int;
    SixBitGroups(n);
    CodePointOf(c, 0, 3);
    if n >= 0x80 { CodePointOf(c, 0x80, 6); }
    if n >= 0x800 { CodePointOf(c, 0x800, 9); }
    if n >= 0x10000 { CodePointOf(c, 0x10000, 12); }
  }

  lemma CodePointOf(c: char, least: nat, length: nat)
    requires least <= c as int
    ensures CodePoint(c as int, least, length) == Some((c, length))
  {
  }

  lemma SixBits(n: nat)
    ensures n == n / 64 * 64 + n % 64 && n % 64 < 64
  {
  }

  /** A number is the sum of its six-bit groups. */
  lemma SixBitGroups(n: nat)
    ensures n == n / 64 * 64 + n % 64
    ensures n / 64 == n / 4096 * 64 + n / 64 % 64
    ensures n / 4096 == n / 262144 * 64 + n / 4096 % 64
  {
    SixBits(n);
    SixBits(n / 64);
    assert n / 64 / 64 == n / 4096;
    SixBits(n / 4096);
    assert n / 4096 / 64 == n / 262144;
  }

  lemma ContinuationRoundTrip(c: char, rest: string, i: nat)
    requires 0 < i < |Utf8(c)|
    ensures ContinuationAt(Percent(Utf8(c)) + rest, 3 * i) == Some(Utf8(c)[i] - 0x80)
  {
    OctetRoundTrip(Utf8(c), rest, i);
  }

  lemma EscapedCharRoundTrip(c: char, rest: string)
    ensures DecodeFirst(Percent(Utf8(c)) + rest) == Some((c, |Percent(Utf8(c))|))
  {
    var octets, text := Utf8(c), Percent(Utf8(c)) + rest;
    PercentShape(octets);
    OctetRoundTrip(octets, rest, 0);
    forall i | 0 < i < |octets| ensures ContinuationAt(text, 3 * i) == Some(octets[i] - 0x80) {
      ContinuationRoundTrip(c, rest, i);
    }
    var c1, c2, c3 := ContinuationAt(text, 3), ContinuationAt(text, 6), ContinuationAt(text, 9);
    assert 1 < |octets| ==> ContinuationAt(text, 3 * 1) == c1;
    assert 2 < |octets| ==> ContinuationAt(text, 3 * 2) == c2;
    assert 3 < |octets| ==> ContinuationAt(text, 3 * 3) == c3;
    AssembleRoundTrip(c, c1, c2, c3);
  }

  lemma CharRoundTrip(c: char, rest: string)
    ensures DecodeFirst(EncodeChar(c) + rest) == Some((c, |EncodeChar(c)|))
    ensures ':' !in EncodeChar(c) && 0 < |EncodeChar(c)|
  {
    if !Unreserved(c) {
      PercentShape(Utf8(c));
      EscapedCharRoundTrip(c, rest);
    }
  }

  /** decodeURIComponent undoes encodeURIComponent, and an encoded segment never holds the delimiter. */
  lemma {:induction false} SegmentRoundTrip(s: string)
    ensures Decode(Encode(s)) == Some(s) && ':' !in Encode(s)
  {
    if s != "" {
      var head, tail := EncodeChar(s[0]), Encode(s[1..]);
      CharRoundTrip(s[0], tail);
      SegmentRoundTrip(s[1..]);
      assert Encode(s) == head + tail && (head + tail)[|head|..] == tail;
      assert [s[0]] + s[1..] == s;
    }
  }

  // --- cell ids ---

  function CellIdFor(runTs: string, target: string, condition: string): string {
    Encode(runTs) + ":" + Encode(target) + ":" + Encode(condition)
  }

  predicate IsSafeSegment(s: string) {
    s != "" && s != "." && s != ".." && '/' !in s && '\\' !in s
  }

  datatype CellPath = CellPath(runTs: string, target: string, condition: string)

  function ParseCellId(cellId: string): Option<CellPath> {
    var parts := Split(':', cellId);
    if |parts| != 3 then None else
      var a, b, c := Decode(parts[0]), Decode(parts[1]), Decode(parts[2]);
      if a.None? || b.None? || c.None? then None
      else if !(IsSafeSegment(a.value) && IsSafeSegment(b.value) && IsSafeSegment(c.value)) then None
      else Some(CellPath(a.value, b.value, c.value))
  }

  lemma SplitsInThree(a: string, b: string, c: string)
    requires ':' !in a && ':' !in b && ':' !in c
    ensures Split(':', a + ":" + b + ":" + c) == [a, b, c]
  {
    assert a + ":" + b + ":" + c == a + [':'] + (b + [':'] + c);
    SplitFirst(':', a, b + [':'] + c);
    SplitFirst(':', b, c);
    SplitFirst(':', c, "");
  }

  /** Parsing gives back exactly the three segments when all are safe, and nothing otherwise. */
  lemma CellIdRoundTrip(runTs: string, target: string, condition: string)
    ensures ParseCellId(CellIdFor(runTs, target, condition))
            == if IsSafeSegment(runTs) && IsSafeSegment(target) && IsSafeSegment(condition)
               then Some(CellPath(runTs, target, condition)) else None
  {
    SegmentRoundTrip(runTs);
    SegmentRoundTrip(target);
    SegmentRoundTrip(condition);
    SplitsInThree(Encode(runTs), Encode(target), Encode(condition));
  }

  /** Different paths, safe or not, never share an id. */
  lemma CellIdIsInjective(p: CellPath, q: CellPath)
    requires CellIdFor(p.runTs, p.target, p.condition) == CellIdFor(q.runTs, q.target, q.condition)
    ensures p == q
  {
    SegmentRoundTrip(p.runTs);
    SegmentRoundTrip(p.target);
    SegmentRoundTrip(p.condition);
    SegmentRoundTrip(q.runTs);
    SegmentRoundTrip(q.target);
    SegmentRoundTrip(q.condition);
    SplitsInThree(Encode(p.runTs), Encode(p.target), Encode(p.condition));
    SplitsInThree(Encode(q.runTs), Encode(q.target), Encode(q.condition));
    assert [Encode(p.runTs), Encode(p.target), Encode(p.condition)]
           == [Encode(q.runTs), Encode(q.target), Encode(q.condition)];
  }

  // --- what ids look like ---

  /** Letters, digits and the marks that section 19.2.6 of ECMA-262 leaves alone. */
  predicate IsPlain(c: char) {
    || 'a' <= c <= 'z' || 'A' <= c <= 'Z' || '0' <= c <= '9'
    || c == '-' || c == '_' || c == '.' || c == '!' || c == '~' || c == '*' || c == '\'' || c == '(' || c == ')'
  }

  lemma {:induction false} PlainIsKept(s: string)
    requires forall i :: 0 <= i < |s| ==> IsPlain(s[i])
    ensures Encode(s) == s
  {
    if s != "" {
      PlainIsKept(s[1..]);
      assert s == [s[0]] + s[1..];
    }
  }

  /** The id of plain segments is the segments joined by ':'. */
  lemma PlainIdIsJoined(runTs: string, target: string, condition: string)
    requires forall i :: 0 <= i < |runTs| ==> IsPlain(runTs[i])
    requires forall i :: 0 <= i < |target| ==> IsPlain(target[i])
    requires forall i :: 0 <= i < |condition| ==> IsPlain(condition[i])
    ensures CellIdFor(runTs, target, condition) == runTs + ":" + target + ":" + condition
  {
    PlainIsKept(runTs);
    PlainIsKept(target);
    PlainIsKept(condition);
  }

  /** Anything else becomes a '%' and two upper-case hexadecimal digits for each octet of its UTF-8 form. */
  lemma EscapedIsPercent(c: char, i: nat)
    requires !IsPlain(c) && i < |Utf8(c)|
    ensures |EncodeChar(c)| == 3 * |Utf8(c)|
    ensures EncodeChar(c)[3 * i..3 * i + 3]
            == ['%', "0123456789ABCDEF"[Utf8(c)[i] / 16], "0123456789ABCDEF"[Utf8(c)[i] % 16]]
  {
    PercentShape(Utf8(c));
    PercentAt(Utf8(c), i);
    HexDigitIs(Utf8(c)[i] / 16);
    HexDigitIs(Utf8(c)[i] % 16);
  }

  lemma {:induction false} PercentAt(octets: seq<Octet>, i: nat)
    requires i < |octets|
    ensures |Percent(octets)| == 3 * |octets| && Percent(octets)[3 * i..3 * i + 3] == PercentOne(octets[i])
  {
    hide HexDigit;
    var first, rest := PercentOne(octets[0]), Percent(octets[1..]);
    PercentShape(octets[1..]);
    assert Percent(octets) == first + rest;
    if i > 0 {
      PercentAt(octets[1..], i - 1);
      assert (first + rest)[3 * i..3 * i + 3] == rest[3 * (i - 1)..3 * (i - 1) + 3];
    }
  }

  lemma HexDigitIs(d: int)
    requires 0 <= d < 16
    ensures HexDigit(d) == "0123456789ABCDEF"[d]
  {
  }

  /** The octets of one character of each length. */
  lemma Utf8Examples()
    ensures Utf8(':') == [0x3A] && Utf8('\U{00E9}') == [0xC3, 0xA9]
    ensures Utf8('\U{20AC}') == [0xE2, 0x82, 0xAC] && Utf8('\U{1F600}') == [0xF0, 0x9F, 0x98, 0x80]
  {
  }

  /** No segment of a parsed id is empty, names a directory up or here, or holds a separator. */
  lemma ParsedSegmentsAreSafe(cellId: string, path: CellPath, s: string)
    requires ParseCellId(cellId) == Some(path) && s in [path.runTs, path.target, path.condition]
    ensures s != "" && s != "." && s != ".." && '/' !in s && '\\' !in s
  {
  }

  /** An id that parses holds exactly two colons. */
  lemma ParsedIdHasTwoColons(cellId: string)
    requires ParseCellId(cellId).Some?
    ensures Count(':', cellId) == 2
  {
    SplitCounts(':', cellId);
  }

  ghost predicate IsHex(c: char) {
    '0' <= c <= '9' || 'a' <= c <= 'f' || 'A' <= c <= 'F'
  }

  /** A '%' without two hexadecimal digits after it makes the whole text malformed, wherever it stands. */
  lemma {:induction false} BadEscapeIsRejected(before: string, rest: string)
    requires forall i :: 0 <= i < |before| ==> before[i] != '%'
    requires |rest| < 2 || !IsHex(rest[0]) || !IsHex(rest[1])
    ensures Decode(before + "%" + rest) == None
  {
    var text := before + "%" + rest;
    if before == "" {
      assert text[0] == '%' && (|rest| >= 2 ==> text[1] == rest[0] && text[2] == rest[1]);
    } else {
      BadEscapeIsRejected(before[1..], rest);
      assert text[1..] == before[1..] + "%" + rest;
    }
  }

  /** A first octet that no character starts with, an overlong form, a surrogate and a number too large. */
  lemma MalformedUtf8()
    ensures Assemble(0x80, None, None, None) == None && Assemble(0xF8, Some(0), Some(0), Some(0)) == None
    ensures Assemble(0xC1, Some(0x3F), None, None) == None && Assemble(0xE0, Some(0x1F), Some(0x3F), None) == None
    ensures Assemble(0xED, Some(0x20), Some(0), None) == None && Assemble(0xF4, Some(0x10), Some(0), Some(0)) == None
    ensures Assemble(0xC3, None, None, None) == None
  {
  }
}
