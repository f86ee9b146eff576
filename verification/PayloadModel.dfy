/** Sizes of DingTalk payloads as JSON, and cuts of a text that leave whole characters. */
module PayloadModel {
  import opened Base

  const MAX_PAYLOAD: nat := 20000
  const NEWLINE: Byte := 10

  /** The truncation notice in UTF-8. */
  const NOTICE: seq<Byte> := [10, 10, 46, 46, 46, 32, 40, 0xE5, 0xB7, 0xB2, 0xE6, 0x88, 0xAA, 0xE6, 0x96, 0xAD, 41]

  // ----- UTF-8 (section 3 of RFC 3629) -----

  predicate RuneStart(b: Byte) {
    !(0x80 <= b < 0xC0)
  }

  predicate Second(a: Byte, b: Byte) {
    if a == 0xE0 then 0xA0 <= b <= 0xBF
    else if a == 0xED then 0x80 <= b <= 0x9F
    else if a == 0xF0 then 0x90 <= b <= 0xBF
    else if a == 0xF4 then 0x80 <= b <= 0x8F
    else 0x80 <= b <= 0xBF
  }

  /** The length of a well-formed character at the head of `s`, or 0. */
  function RuneLength(s: seq<Byte>): (n: nat)
    requires s != []
    ensures n <= |s| && n <= 4
  {
    if s[0] < 0x80 then 1
    else if 0xC2 <= s[0] <= 0xDF && |s| >= 2 && Second(s[0], s[1]) then 2
    else if 0xE0 <= s[0] <= 0xEF && |s| >= 3 && Second(s[0], s[1]) && !RuneStart(s[2]) then 3
    else if 0xF0 <= s[0] <= 0xF4 && |s| >= 4 && Second(s[0], s[1]) && !RuneStart(s[2]) && !RuneStart(s[3]) then 4
    else 0
  }

  /** A malformed byte is taken alone. */
  function Unit(s: seq<Byte>): (n: nat)
    requires s != []
    ensures 1 <= n <= |s|
  {
    Max(RuneLength(s), 1)
  }

  predicate ValidUTF8(s: seq<Byte>) {
    s != [] ==> RuneLength(s) > 0 && ValidUTF8(s[RuneLength(s)..])
  }

  lemma ByteSplit(u: nat)
    ensures u == u / 64 * 64 + u % 64 && u / 64 == u / 4096 * 64 + u / 64 % 64
    ensures u / 4096 == u / 262144 * 64 + u / 4096 % 64
  {
  }

  /** A character is the encoding of a code point that is one, and every such encoding is read
      as a character, whatever follows. */
  lemma ScalarIsRune(u: nat, tail: seq<Byte>)
    requires IsScalar(u)
    ensures RuneLength(Utf8(u) + tail) == |Utf8(u)|
  {
    ByteSplit(u);
    var s := Utf8(u) + tail;
    assert s[0] == Utf8(u)[0];
    if |Utf8(u)| > 1 { assert s[1] == Utf8(u)[1]; }
    if |Utf8(u)| > 2 { assert s[2] == Utf8(u)[2]; }
    if |Utf8(u)| > 3 { assert s[3] == Utf8(u)[3]; }
  }

  lemma TwoBytes(a: Byte, b: Byte)
    requires 0xC2 <= a <= 0xDF && 0x80 <= b <= 0xBF
    ensures var u := (a as int - 0xC0) * 64 + (b as int - 0x80); 0 <= u && IsScalar(u) && Utf8(u) == [a, b]
  {
  }

  lemma ThreeBytes(a: Byte, b: Byte, c: Byte)
    requires 0xE0 <= a <= 0xEF && Second(a, b) && 0x80 <= c <= 0xBF
    ensures var u := ((a as int - 0xE0) * 64 + (b as int - 0x80)) * 64 + (c as int - 0x80);
            0 <= u && IsScalar(u) && Utf8(u) == [a, b, c]
  {
  }

  lemma FourBytes(a: Byte, b: Byte, c: Byte, d: Byte)
    requires 0xF0 <= a <= 0xF4 && Second(a, b) && 0x80 <= c <= 0xBF && 0x80 <= d <= 0xBF
    ensures var u := (((a as int - 0xF0) * 64 + (b as int - 0x80)) * 64 + (c as int - 0x80)) * 64 + (d as int - 0x80);
            0 <= u && IsScalar(u) && Utf8(u) == [a, b, c, d]
  {
    var u := (((a as int - 0xF0) * 64 + (b as int - 0x80)) * 64 + (c as int - 0x80)) * 64 + (d as int - 0x80);
    assert u / 64 == ((a as int - 0xF0) * 64 + (b as int - 0x80)) * 64 + (c as int - 0x80);
    assert u / 4096 == (a as int - 0xF0) * 64 + (b as int - 0x80);
  }

  lemma RuneIsScalar(s: seq<Byte>) returns (u: nat)
    requires s != [] && RuneLength(s) > 0
    ensures IsScalar(u) && s[..RuneLength(s)] == Utf8(u)
  {
    hide Utf8, IsScalar;
    var n := RuneLength(s);
    if n == 1 {
      u := s[0];
      OneByte(s[0]);
      assert s[..1] == [s[0]];
    } else if n == 2 {
      TwoBytes(s[0], s[1]);
      u := (s[0] as int - 0xC0) * 64 + (s[1] as int - 0x80);
      assert s[..2] == [s[0], s[1]];
    } else if n == 3 {
      ThreeBytes(s[0], s[1], s[2]);
      u := ((s[0] as int - 0xE0) * 64 + (s[1] as int - 0x80)) * 64 + (s[2] as int - 0x80);
      assert s[..3] == [s[0], s[1], s[2]];
    } else {
      FourBytes(s[0], s[1], s[2], s[3]);
      u := (((s[0] as int - 0xF0) * 64 + (s[1] as int - 0x80)) * 64 + (s[2] as int - 0x80)) * 64 + (s[3] as int - 0x80);
      assert s[..4] == [s[0], s[1], s[2], s[3]];
    }
  }

  lemma OneByte(a: Byte)
    requires a < 0x80
    ensures IsScalar(a) && Utf8(a) == [a]
  {
  }

  // ----- JSON strings (section 7 of RFC 8259), as encoding/json writes them -----

  function HexDigit(n: int): Byte
    requires 0 <= n < 16
  {
    if n < 10 then 48 + n else 87 + n
  }

  /** What is written for the first unit of `s`: short escapes, six-byte escapes for other
      control characters, HTML characters, the two line separators and malformed bytes. */
  function EncodeUnit(s: seq<Byte>): (e: seq<Byte>)
    requires s != []
    ensures e != []
  {
    if s[0] < 0x80 then
      if s[0] == 34 || s[0] == 92 then [92, s[0]]
      else if s[0] == 8 then [92, 98]
      else if s[0] == 9 then [92, 116]
      else if s[0] == 10 then [92, 110]
      else if s[0] == 12 then [92, 102]
      else if s[0] == 13 then [92, 114]
      else if s[0] < 32 || s[0] in [38, 60, 62] then [92, 117, 48, 48, HexDigit(s[0] / 16), HexDigit(s[0] % 16)]
      else [s[0]]
    else if RuneLength(s) == 0 then [92, 117, 102, 102, 102, 100]
    else if RuneLength(s) == 3 && s[0] == 0xE2 && s[1] == 0x80 && (s[2] == 0xA8 || s[2] == 0xA9) then
      [92, 117, 50, 48, 50, HexDigit(s[2] % 16)]
    else s[..RuneLength(s)]
  }

  /** `s` as a JSON string, without the quotes. */
  function EncodeString(s: seq<Byte>): seq<Byte>
    decreases |s|
  {
    if s == [] then [] else EncodeUnit(s) + EncodeString(s[Unit(s)..])
  }

  function StringSize(s: seq<Byte>): nat {
    |EncodeString(s)|
  }

  // ----- reading a JSON string back -----

  function HexValue(b: Byte): Option<nat> {
    if 48 <= b <= 57 then Some(b - 48)
    else if 97 <= b <= 102 then Some(b - 87)
    else if 65 <= b <= 70 then Some(b - 55)
    else None
  }

  /** A two-character escape. */
  function ShortEscape(c: Byte): Option<Byte> {
    if c == 34 || c == 92 || c == 47 then Some(c)
    else if c == 98 then Some(8)
    else if c == 102 then Some(12)
    else if c == 110 then Some(10)
    else if c == 114 then Some(13)
    else if c == 116 then Some(9)
    else None
  }

  /** The character of a six-character escape; surrogates are not read. */
  function LongEscape(e: seq<Byte>): Option<seq<Byte>>
    requires |e| >= 6
  {
    var a, b, c, d := HexValue(e[2]), HexValue(e[3]), HexValue(e[4]), HexValue(e[5]);
    if e[1] != 117 || a.None? || b.None? || c.None? || d.None? then None
    else
      var u: nat := ((a.value * 16 + b.value) * 16 + c.value) * 16 + d.value;
      if u >= 0x1_0000 || 0xD800 <= u < 0xE000 then None else Some(Utf8(u))
  }

  /** The text of a JSON string, without the quotes; none if it is not well formed. */
  function DecodeString(e: seq<Byte>): Option<seq<Byte>> {
    if e == [] then Some([])
    else if e[0] == 92 then
      if |e| >= 2 && ShortEscape(e[1]).Some? then Before([ShortEscape(e[1]).value], DecodeString(e[2..]))
      else if |e| >= 6 && LongEscape(e).Some? then Before(LongEscape(e).value, DecodeString(e[6..]))
      else None
    else if e[0] < 32 || e[0] == 34 then None
    else Before([e[0]], DecodeString(e[1..]))
  }

  function Before(c: seq<Byte>, rest: Option<seq<Byte>>): Option<seq<Byte>> {
    if rest.Some? then Some(c + rest.value) else None
  }

  /** The text with each malformed byte replaced by U+FFFD. */
  function Repaired(s: seq<Byte>): seq<Byte>
    decreases |s|
  {
    if s == [] then []
    else (if RuneLength(s) == 0 then [0xEF, 0xBF, 0xBD] else s[..RuneLength(s)]) + Repaired(s[Unit(s)..])
  }

  lemma ReadPlain(b: Byte, tail: seq<Byte>)
    requires b >= 32 && b != 34 && b != 92
    ensures DecodeString([b] + tail) == Before([b], DecodeString(tail))
  {
    assert ([b] + tail)[1..] == tail;
  }

  lemma ReadShort(c: Byte, tail: seq<Byte>)
    requires ShortEscape(c).Some?
    ensures DecodeString([92, c] + tail) == Before([ShortEscape(c).value], DecodeString(tail))
  {
    assert ([92, c] + tail)[2..] == tail;
  }

  lemma ReadLong(e: seq<Byte>, tail: seq<Byte>)
    requires |e| == 6 && e[0] == 92 && LongEscape(e).Some?
    ensures DecodeString(e + tail) == Before(LongEscape(e).value, DecodeString(tail))
  {
    assert (e + tail)[6..] == tail && e[1] == 117 && ShortEscape(117).None?;
  }

  lemma {:induction false} ReadAll(c: seq<Byte>, tail: seq<Byte>)
    requires forall b :: b in c ==> b >= 32 && b != 34 && b != 92
    ensures DecodeString(c + tail) == Before(c, DecodeString(tail))
  {
    hide DecodeString;
    if c == [] {
      assert c + tail == tail;
      if DecodeString(tail).Some? { assert [] + DecodeString(tail).value == DecodeString(tail).value; }
    } else {
      assert c[0] in c && forall b :: b in c[1..] ==> b in c;
      assert c + tail == [c[0]] + (c[1..] + tail);
      ReadPlain(c[0], c[1..] + tail);
      ReadAll(c[1..], tail);
      assert c == [c[0]] + c[1..];
      if DecodeString(tail).Some? {
        assert [c[0]] + (c[1..] + DecodeString(tail).value) == c + DecodeString(tail).value;
      }
    }
  }

  lemma ReadUnit(s: seq<Byte>, tail: seq<Byte>)
    requires s != []
    ensures DecodeString(EncodeUnit(s) + tail)
         == Before(if RuneLength(s) == 0 then [0xEF, 0xBF, 0xBD] else s[..RuneLength(s)], DecodeString(tail))
  {
    hide DecodeString;
    var e := EncodeUnit(s);
    if s[0] < 0x80 {
      assert s[..1] == [s[0]];
      if |e| == 2 {
        ReadShort(e[1], tail);
      } else if |e| == 6 {
        AsciiEscape(s[0]);
        ReadLong(e, tail);
      } else {
        ReadPlain(s[0], tail);
      }
    } else if RuneLength(s) == 0 {
      MalformedEscape();
      ReadLong(e, tail);
    } else if |e| == 6 {
      SeparatorEscape(s[2]);
      assert s[..3] == [0xE2, 0x80, s[2]];
      ReadLong(e, tail);
    } else {
      WideBytes(s);
      assert e == s[..RuneLength(s)];
      ReadAll(e, tail);
    }
  }

  lemma MalformedEscape()
    ensures LongEscape([92, 117, 102, 102, 102, 100]) == Some([0xEF, 0xBF, 0xBD])
  {
  }

  lemma SeparatorEscape(b: Byte)
    requires b == 0xA8 || b == 0xA9
    ensures LongEscape([92, 117, 50, 48, 50, HexDigit(b % 16)]) == Some([0xE2, 0x80, b])
  {
  }

  lemma AsciiEscape(b: Byte)
    requires b < 0x80
    ensures LongEscape([92, 117, 48, 48, HexDigit(b / 16), HexDigit(b % 16)]) == Some([b])
  {
  }

  lemma WideBytes(s: seq<Byte>)
    requires s != [] && s[0] >= 0x80
    ensures forall b :: b in s[..RuneLength(s)] ==> b >= 0x80
  {
  }

  /** Round trip (section 7 of RFC 8259): what is written for a text reads back as the text,
      with U+FFFD for each malformed byte. */
  lemma {:induction false} EncodedReadsBack(s: seq<Byte>)
    ensures DecodeString(EncodeString(s)) == Some(Repaired(s))
    ensures ValidUTF8(s) ==> Repaired(s) == s
    decreases |s|
  {
    hide EncodeUnit, RuneLength;
    if s != [] {
      var rest := s[Unit(s)..];
      EncodedReadsBack(rest);
      ReadUnit(s, EncodeString(rest));
      assert s == s[..Unit(s)] + rest;
    }
  }

  /** And nothing in it could end the string, or be taken for markup. */
  lemma {:induction false} EncodedIsSafe(s: seq<Byte>)
    ensures forall b :: b in EncodeString(s) ==> b >= 32 && b !in [38, 60, 62]
    decreases |s|
  {
    if s != [] {
      EncodedIsSafe(s[Unit(s)..]);
      UnitIsSafe(s);
      hide EncodeUnit, Unit;
    }
  }

  lemma UnitIsSafe(s: seq<Byte>)
    requires s != []
    ensures forall b :: b in EncodeUnit(s) ==> b >= 32 && b !in [38, 60, 62]
  {
    if s[0] >= 0x80 { WideBytes(s); }
  }

  /** A following rune start does not change how a text is read up to there. */
  lemma UnitIsLocal(a: seq<Byte>, b: seq<Byte>)
    requires a != [] && (b == [] || RuneStart(b[0]))
    ensures RuneLength(a + b) == RuneLength(a) && Unit(a + b) == Unit(a) && EncodeUnit(a + b) == EncodeUnit(a)
  {
    assert (a + b)[0] == a[0];
    if b == [] {
      assert a + b == a;
    } else {
      assert (a + b)[|a|] == b[0];
    }
  }

  lemma {:induction false} EncodingSplits(a: seq<Byte>, b: seq<Byte>)
    requires b == [] || RuneStart(b[0])
    ensures EncodeString(a + b) == EncodeString(a) + EncodeString(b)
    decreases |a|
  {
    hide EncodeUnit, Unit, RuneLength, EncodeString;
    if a == [] {
      assert a + b == b;
      EncodeNothing(b);
    } else {
      EncodingSplits(a[Unit(a)..], b);
      EncodingSplitsFirst(a, b);
    }
  }

  lemma EncodeNothing(b: seq<Byte>)
    ensures EncodeString(b) == EncodeString([]) + EncodeString(b)
  {
  }

  lemma EncodingSplitsFirst(a: seq<Byte>, b: seq<Byte>)
    requires a != [] && (b == [] || RuneStart(b[0]))
    requires EncodeString(a[Unit(a)..] + b) == EncodeString(a[Unit(a)..]) + EncodeString(b)
    ensures EncodeString(a + b) == EncodeString(a) + EncodeString(b)
  {
    hide EncodeUnit, Unit, RuneLength, EncodeString;
    UnitIsLocal(a, b);
    EncodeFirst(a);
    EncodeFirst(a + b);
    DropOfConcat(a, b, Unit(a));
    Associative(EncodeUnit(a), EncodeString(a[Unit(a)..]), EncodeString(b));
  }

  lemma EncodeFirst(s: seq<Byte>)
    requires s != []
    ensures EncodeString(s) == EncodeUnit(s) + EncodeString(s[Unit(s)..])
  {
  }

  lemma {:induction false} ValidSplits(a: seq<Byte>, b: seq<Byte>)
    requires (b == [] || RuneStart(b[0])) && ValidUTF8(a + b)
    ensures ValidUTF8(a)
    decreases |a|
  {
    if a != [] {
      UnitIsLocal(a, b);
      var n := RuneLength(a);
      assert (a + b)[n..] == a[n..] + b;
      ValidSplits(a[n..], b);
    }
  }

  // ----- cuts -----

  function TrimNewlines(s: seq<Byte>): (r: seq<Byte>)
    ensures r <= s && (r == [] || r[|r| - 1] != 10)
    ensures forall i :: |r| <= i < |s| ==> s[i] == 10
  {
    if s != [] && s[|s| - 1] == NEWLINE then TrimNewlines(s[..|s| - 1]) else s
  }

  /** Where a cut asked for at `limit` falls: back to the start of a character. */
  function CutAt(text: seq<Byte>, limit: int): (n: nat)
    ensures n <= |text|
    decreases limit
  {
    if limit <= 0 then 0
    else if |text| <= limit then |text|
    else if RuneStart(text[limit]) then limit
    else CutAt(text, limit - 1)
  }

  predicate Aligned(text: seq<Byte>, n: nat) {
    n == 0 || n == |text| || (n < |text| && RuneStart(text[n]))
  }

  /** `CutAt` is the last aligned position not beyond the limit. */
  lemma {:induction false} CutIsLastAligned(text: seq<Byte>, limit: int)
    ensures Aligned(text, CutAt(text, limit)) && (limit >= 0 ==> CutAt(text, limit) <= limit)
    ensures forall n: nat :: Aligned(text, n) && n <= |text| && n <= limit ==> n <= CutAt(text, limit)
    decreases limit
  {
    if 0 < limit < |text| && !RuneStart(text[limit]) {
      CutIsLastAligned(text, limit - 1);
    }
  }

  /** A cut never splits a character. */
  lemma CutKeepsCharacters(text: seq<Byte>, limit: int)
    requires ValidUTF8(text)
    ensures ValidUTF8(text[..CutAt(text, limit)])
  {
    CutIsLastAligned(text, limit);
    var n := CutAt(text, limit);
    assert text == text[..n] + text[n..];
    if n > 0 { ValidSplits(text[..n], text[n..]); }
  }

  lemma LongerReadsTheSame(text: seq<Byte>, n: nat)
    requires 0 < n <= |text| && RuneLength(text[..n]) > 0
    ensures RuneLength(text) == RuneLength(text[..n])
  {
  }

  /** In well-formed text the aligned positions are those where a well-formed prefix ends. */
  lemma {:induction false} AlignedMeansWhole(text: seq<Byte>, n: nat)
    requires ValidUTF8(text) && n <= |text|
    ensures Aligned(text, n) <==> ValidUTF8(text[..n])
    decreases |text|
  {
    if Aligned(text, n) && n > 0 {
      assert text == text[..n] + text[n..];
      ValidSplits(text[..n], text[n..]);
    }
    if ValidUTF8(text[..n]) && 0 < n < |text| {
      hide ValidUTF8;
      WholePrefix(text, n);
    }
  }

  lemma {:induction false} WholePrefix(text: seq<Byte>, n: nat)
    requires ValidUTF8(text) && n < |text| && ValidUTF8(text[..n])
    ensures RuneStart(text[n])
    decreases |text|
  {
    hide RuneLength;
    if n == 0 {
      FirstIsStart(text);
    } else {
      LongerReadsTheSame(text, n);
      var k := RuneLength(text);
      assert text[..n][k..] == text[k..][..n - k];
      WholePrefix(text[k..], n - k);
    }
  }

  lemma FirstIsStart(text: seq<Byte>)
    requires text != [] && RuneLength(text) > 0
    ensures RuneStart(text[0])
  {
  }

  /** What a cut at `limit` turns the text into. */
  function Shortened(text: seq<Byte>, limit: int): seq<Byte> {
    TrimNewlines(text[..CutAt(text, limit)]) + NOTICE
  }

  lemma {:induction false} TrimIsMonotone(s: seq<Byte>, n: nat)
    requires n <= |s|
    ensures TrimNewlines(s[..n]) <= TrimNewlines(s)
    decreases |s|
  {
    if n < |s| {
      assert s[..|s| - 1][..n] == s[..n];
      if s[|s| - 1] == NEWLINE {
        TrimIsMonotone(s[..|s| - 1], n);
      }
    } else {
      assert s[..n] == s;
    }
  }

  lemma {:induction false} TrimEndsAtNewline(s: seq<Byte>)
    ensures |TrimNewlines(s)| < |s| ==> s[|TrimNewlines(s)|] == NEWLINE
  {
    if s != [] && s[|s| - 1] == NEWLINE { TrimEndsAtNewline(s[..|s| - 1]); }
  }

  /** The end of a trimmed cut is aligned as well. */
  lemma TrimmedCutIsAligned(text: seq<Byte>, limit: int)
    ensures Aligned(text, |TrimNewlines(text[..CutAt(text, limit)])|)
  {
    CutIsLastAligned(text, limit);
    TrimEndsAtNewline(text[..CutAt(text, limit)]);
  }

  /** A later cut is longer, and costs no less. */
  lemma ShortenedIsMonotone(text: seq<Byte>, a: int, b: int)
    requires a <= b
    ensures |Shortened(text, a)| <= |Shortened(text, b)|
    ensures StringSize(Shortened(text, a)) <= StringSize(Shortened(text, b))
  {
    hide EncodeString, TrimNewlines;
    CutIsLastAligned(text, a);
    CutIsLastAligned(text, b);
    var m, n := CutAt(text, a), CutAt(text, b);
    assert m <= n;
    assert text[..n][..m] == text[..m];
    TrimIsMonotone(text[..n], m);
    var p, q := TrimNewlines(text[..m]), TrimNewlines(text[..n]);
    TrimmedCutIsAligned(text, a);
    TrimmedCutIsAligned(text, b);
    PrefixCostsLess(text, |p|, |q|);
    assert p == text[..|p|] && q == text[..|q|];
    EncodingSplits(p, NOTICE);
    EncodingSplits(q, NOTICE);
  }

  lemma PrefixCostsLess(text: seq<Byte>, m: nat, n: nat)
    requires m <= n <= |text| && Aligned(text, m)
    ensures StringSize(text[..m]) <= StringSize(text[..n])
  {
    if m > 0 {
      assert text[..n] == text[..m] + text[m..n];
      EncodingSplits(text[..m], text[m..n]);
    }
  }

  // ----- payloads -----

  datatype Payload = Payload(msgType: seq<Byte>, title: seq<Byte>, markdown: seq<Byte>, text: seq<Byte>,
                             atMobiles: Option<seq<seq<Byte>>>, isAtAll: bool)

  function ListSize(items: seq<seq<Byte>>): nat {
    if items == [] then 0
    else |"\"\""| + StringSize(items[0]) + (if |items| > 1 then |","| else 0) + ListSize(items[1..])
  }

  /** The number of bytes `json.Marshal` writes. */
  function EncodedSize(p: Payload): nat {
    |"{\"msgtype\":\""| + StringSize(p.msgType)
    + |"\",\"markdown\":{\"title\":\""| + StringSize(p.title) + |"\",\"text\":\""| + StringSize(p.markdown)
    + |"\"},\"text\":{\"content\":\""| + StringSize(p.text)
    + |"\"},\"at\":{\"atMobiles\":"| + (if p.atMobiles.None? then |"null"| else |"[]"| + ListSize(p.atMobiles.value))
    + |",\"isAtAll\":"| + (if p.isAtAll then |"true"| else |"false"|) + |"}}"|
  }

  const MARKDOWN: seq<Byte> := [109, 97, 114, 107, 100, 111, 119, 110]
  const TEXT: seq<Byte> := [116, 101, 120, 116]

  /** The string a payload of this type can be cut in. */
  function Body(p: Payload): Option<seq<Byte>> {
    if p.msgType == MARKDOWN then Some(p.markdown) else if p.msgType == TEXT then Some(p.text) else None
  }

  function WithBody(p: Payload, content: seq<Byte>): Payload {
    if p.msgType == MARKDOWN then p.(markdown := content) else p.(text := content)
  }

  /** The bytes of an ASCII literal. */
  function Ascii(s: string): (b: seq<Byte>)
    ensures |b| == |s|
  {
    seq(|s|, i requires 0 <= i < |s| => s[i] as int % 128)
  }

  /** The notice: two newlines, three dots, a blank, and in brackets U+5DF2 U+622A U+65AD. */
  lemma NoticeText()
    ensures NOTICE == Ascii("\n\n... (") + Utf8(0x5DF2) + Utf8(0x622A) + Utf8(0x65AD) + Ascii(")")
  {
  }

  /** Only the body of the payload's type is set, the text of its markdown or its text. */
  lemma WithBodySets(p: Payload, content: seq<Byte>)
    ensures MARKDOWN == Ascii("markdown") && TEXT == Ascii("text")
    ensures p.msgType == MARKDOWN ==> WithBody(p, content) == p.(markdown := content) && Body(p) == Some(p.markdown)
    ensures p.msgType == TEXT ==> WithBody(p, content) == p.(text := content) && Body(p) == Some(p.text)
    ensures p.msgType != MARKDOWN && p.msgType != TEXT ==> Body(p) == None
    ensures Body(p).Some? ==> Body(WithBody(p, content)) == Some(content) && WithBody(p, Body(p).value) == p
  {
  }

  function Quoted(s: seq<Byte>): seq<Byte> {
    Ascii("\"") + EncodeString(s) + Ascii("\"")
  }

  function EncodeList(items: seq<seq<Byte>>): seq<Byte> {
    if items == [] then []
    else Quoted(items[0]) + (if |items| > 1 then Ascii(",") else []) + EncodeList(items[1..])
  }

  /** What `json.Marshal` writes. */
  function Encode(p: Payload): seq<Byte> {
    Ascii("{\"msgtype\":") + Quoted(p.msgType)
    + Ascii(",\"markdown\":{\"title\":") + Quoted(p.title) + Ascii(",\"text\":") + Quoted(p.markdown)
    + Ascii("},\"text\":{\"content\":") + Quoted(p.text)
    + Ascii("},\"at\":{\"atMobiles\":")
    + (if p.atMobiles.None? then Ascii("null") else Ascii("[") + EncodeList(p.atMobiles.value) + Ascii("]"))
    + Ascii(",\"isAtAll\":") + (if p.isAtAll then Ascii("true") else Ascii("false")) + Ascii("}}")
  }

  lemma {:induction false} ListSizeIsLength(items: seq<seq<Byte>>)
    ensures |EncodeList(items)| == ListSize(items)
  {
    hide EncodeString;
    if items != [] {
      ListSizeIsLength(items[1..]);
    }
  }

  lemma EncodedSizeIsLength(p: Payload)
    ensures |Encode(p)| == EncodedSize(p)
  {
    hide EncodeString, EncodeList, ListSize, Ascii;
    if p.atMobiles.Some? { ListSizeIsLength(p.atMobiles.value); }
  }

  lemma BodyIsAdditive(p: Payload, a: seq<Byte>, b: seq<Byte>)
    requires StringSize(a) <= StringSize(b)
    ensures EncodedSize(WithBody(p, a)) <= EncodedSize(WithBody(p, b))
  {
    hide StringSize, ListSize;
  }

  predicate FitsAt(p: Payload, candidate: seq<Byte>, limit: int) {
    EncodedSize(WithBody(p, Shortened(candidate, limit))) <= MAX_PAYLOAD
  }

  /** If a cut fits, every earlier cut fits: this is what the binary search rests on. */
  lemma EarlierCutFits(p: Payload, candidate: seq<Byte>, a: int, b: int)
    requires a <= b && FitsAt(p, candidate, b)
    ensures FitsAt(p, candidate, a)
  {
    hide StringSize, EncodedSize, WithBody, Shortened;
    ShortenedIsMonotone(candidate, a, b);
    BodyIsAdditive(p, Shortened(candidate, a), Shortened(candidate, b));
  }

  /** `best` fits, is an aligned, newline-trimmed prefix of the trimmed content with the
      notice, and no longer one of these fits. */
  ghost predicate IsBestCut(p: Payload, content: seq<Byte>, best: seq<Byte>) {
    var text := TrimNewlines(content);
    && EncodedSize(WithBody(p, best)) <= MAX_PAYLOAD
    && (exists n: nat :: n <= |text| && Aligned(text, n) && best == TrimNewlines(text[..n]) + NOTICE)
    && forall n: nat | n <= |text| && Aligned(text, n) ::
         EncodedSize(WithBody(p, TrimNewlines(text[..n]) + NOTICE)) <= MAX_PAYLOAD ==>
           |TrimNewlines(text[..n]) + NOTICE| <= |best|
  }
}
