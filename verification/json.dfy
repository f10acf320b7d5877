/** JSON string literals as Python's `json.dumps` writes them with its
    default `ensure_ascii=True`: quote and backslash are escaped, the five
    short control escapes are used, every other character outside printable
    ASCII becomes `\uXXXX` with lower-case hex digits, and characters beyond
    the Basic Multilingual Plane become a UTF-16 surrogate pair.
    `DecodeString` reads such a literal back; the round-trip lemma is what
    makes the trade encodings injective. */
module Json {
  import opened Wrappers
  import opened Text

  /** Printable ASCII, the characters `ensure_ascii` output is made of. */
  predicate IsPrintableAscii(c: char) {
    0x20 <= c as int <= 0x7e
  }

  predicate AllPrintableAscii(s: string) {
    forall i :: 0 <= i < |s| ==> IsPrintableAscii(s[i])
  }

  lemma PrintableConcat(a: string, b: string)
    requires AllPrintableAscii(a) && AllPrintableAscii(b)
    ensures AllPrintableAscii(a + b)
  {
  }

  lemma PrintableConcat4(a: string, b: string, c: string, d: string)
    requires AllPrintableAscii(a) && AllPrintableAscii(b) && AllPrintableAscii(c) && AllPrintableAscii(d)
    ensures AllPrintableAscii(a + b + c + d)
  {
    PrintableConcat(a, b);
    PrintableConcat(a + b, c);
    PrintableConcat(a + b + c, d);
  }

  lemma PrintableConcat5(a: string, b: string, c: string, d: string, e: string)
    requires AllPrintableAscii(a) && AllPrintableAscii(b) && AllPrintableAscii(c) && AllPrintableAscii(d)
    requires AllPrintableAscii(e)
    ensures AllPrintableAscii(a + b + c + d + e)
  {
    PrintableConcat4(a, b, c, d);
    PrintableConcat(a + b + c + d, e);
  }

  function HexDigit(d: nat): (c: char)
    requires d < 16
    ensures IsPrintableAscii(c)
  {
    if d < 10 then ('0' as int + d) as char else ('a' as int + (d - 10)) as char
  }

  predicate IsHexDigit(c: char) {
    '0' <= c <= '9' || 'a' <= c <= 'f' || 'A' <= c <= 'F'
  }

  function HexValue(c: char): (v: nat)
    ensures v < 16
  {
    if '0' <= c <= '9' then c as int - '0' as int
    else if 'a' <= c <= 'f' then c as int - 'a' as int + 10
    else if 'A' <= c <= 'F' then c as int - 'A' as int + 10
    else 0
  }

  lemma HexValueOfDigit(d: nat)
    requires d < 16
    ensures IsHexDigit(HexDigit(d)) && HexValue(HexDigit(d)) == d
  {
  }

  /** Four lower-case hex digits, as `'\\u{0:04x}'` formats a code unit. */
  function Hex4(v: nat): (r: string)
    requires v < 0x10000
    ensures |r| == 4 && AllPrintableAscii(r)
  {
    [HexDigit(v / 0x1000), HexDigit(v / 0x100 % 0x10), HexDigit(v / 0x10 % 0x10), HexDigit(v % 0x10)]
  }

  predicate IsHex4(s: string) {
    |s| == 4 && IsHexDigit(s[0]) && IsHexDigit(s[1]) && IsHexDigit(s[2]) && IsHexDigit(s[3])
  }

  function ParseHex4(s: string): (v: nat)
    requires |s| == 4
    ensures v < 0x10000
  {
    HexValue(s[0]) * 0x1000 + HexValue(s[1]) * 0x100 + HexValue(s[2]) * 0x10 + HexValue(s[3])
  }

  /** Four base-16 digits taken apart and put back together. */
  lemma Hex4Digits(v: nat)
    requires v < 0x10000
    ensures v / 0x1000 < 16
    ensures (v / 0x1000) * 0x1000 + (v / 0x100 % 0x10) * 0x100 + (v / 0x10 % 0x10) * 0x10 + v % 0x10 == v
  {
    var a, b, c, d := v / 0x1000, v / 0x100 % 0x10, v / 0x10 % 0x10, v % 0x10;
    assert v / 0x100 == a * 0x10 + b;
    assert v / 0x10 == (v / 0x100) * 0x10 + c;
    assert v == (v / 0x10) * 0x10 + d;
  }

  lemma ParseHex4OfHex4(v: nat)
    requires v < 0x10000
    ensures IsHex4(Hex4(v)) && ParseHex4(Hex4(v)) == v
  {
    Hex4Digits(v);
    HexValueOfDigit(v / 0x1000);
    HexValueOfDigit(v / 0x100 % 0x10);
    HexValueOfDigit(v / 0x10 % 0x10);
    HexValueOfDigit(v % 0x10);
  }

  /** `\uXXXX` for one UTF-16 code unit. */
  function UnicodeEscape(v: nat): (r: string)
    requires v < 0x10000
    ensures |r| == 6 && AllPrintableAscii(r) && r[0] == '\\'
  {
    ['\\', 'u'] + Hex4(v)
  }

  /** What a decoder sees at the head of `UnicodeEscape(v) + rest`. */
  lemma UnicodeEscapeParts(v: nat, rest: string)
    requires v < 0x10000
    ensures |UnicodeEscape(v) + rest| >= 6
    ensures (UnicodeEscape(v) + rest)[0] == '\\' && (UnicodeEscape(v) + rest)[1] == 'u'
    ensures (UnicodeEscape(v) + rest)[2..6] == Hex4(v)
    ensures (UnicodeEscape(v) + rest)[6..] == rest
  {
  }

  /** The escape `json` writes for one character. */
  function EscapeChar(c: char): (r: string)
    ensures 0 < |r| && AllPrintableAscii(r)
    ensures r[0] != '"'
  {
    if c == '"' then ['\\', '"']
    else if c == '\\' then ['\\', '\\']
    else if c == '\n' then ['\\', 'n']
    else if c == '\r' then ['\\', 'r']
    else if c == '\t' then ['\\', 't']
    else if c as int == 0x08 then ['\\', 'b']
    else if c as int == 0x0c then ['\\', 'f']
    else if IsPrintableAscii(c) then [c]
    else if c as int < 0x10000 then UnicodeEscape(c as int)
    else UnicodeEscape(HighSurrogate(c)) + UnicodeEscape(LowSurrogate(c))
  }

  /** The body of a JSON string literal: every character escaped in turn. */
  function Escape(s: string): (r: string)
    ensures AllPrintableAscii(r)
    ensures |r| >= |s|
    decreases |s|
  {
    if |s| == 0 then "" else EscapeChar(s[0]) + Escape(s[1..])
  }

  /** The JSON string literal for `s`. */
  function JsonString(s: string): (r: string)
    ensures AllPrintableAscii(r)
    ensures |r| >= |s| + 2 && r[0] == '"' && r[|r| - 1] == '"'
  {
    "\"" + Escape(s) + "\""
  }

  /** Decodes the escape or plain character at the head of `s` (which is not
      the closing quote); answers the character and how much was consumed. */
  function DecodeChar(s: string): (r: Option<(char, nat)>)
    ensures r.Some? ==> 0 < r.value.1 <= |s|
  {
    if |s| == 0 || s[0] == '"' then None
    else if s[0] != '\\' then (if s[0] as int < 0x20 then None else Some((s[0], 1)))
    else if |s| < 2 then None
    else if s[1] == '"' then Some(('"', 2))
    else if s[1] == '\\' then Some(('\\', 2))
    else if s[1] == '/' then Some(('/', 2))
    else if s[1] == 'n' then Some(('\n', 2))
    else if s[1] == 'r' then Some(('\r', 2))
    else if s[1] == 't' then Some(('\t', 2))
    else if s[1] == 'b' then Some((0x08 as char, 2))
    else if s[1] == 'f' then Some((0x0c as char, 2))
    else if s[1] != 'u' || |s| < 6 || !IsHex4(s[2..6]) then None
    else
      var hi := ParseHex4(s[2..6]);
      if 0xd800 <= hi < 0xdc00 then
        if |s| < 12 || s[6] != '\\' || s[7] != 'u' || !IsHex4(s[8..12]) then None
        else
          var lo := ParseHex4(s[8..12]);
          if 0xdc00 <= lo < 0xe000 then Some(((0x10000 + (hi - 0xd800) * 0x400 + (lo - 0xdc00)) as char, 12))
          else None
      else if 0xdc00 <= hi < 0xe000 then None
      else Some((hi as char, 6))
  }

  /** Decodes characters up to the first unescaped quote; answers the decoded
      text and what follows the quote. */
  function DecodeChars(s: string): Option<(string, string)>
    decreases |s|
  {
    if |s| == 0 then None
    else if s[0] == '"' then Some(("", s[1..]))
    else
      var (c, k) :- DecodeChar(s);
      var (body, rest) :- DecodeChars(s[k..]);
      Some(([c] + body, rest))
  }

  /** Decodes a JSON string literal at the head of `s`. */
  function DecodeString(s: string): Option<(string, string)> {
    if |s| == 0 || s[0] != '"' then None else DecodeChars(s[1..])
  }

  /** The surrogate-pair branch of `DecodeChar`. */
  lemma DecodeSurrogateStep(s: string, hi: nat, lo: nat)
    requires |s| >= 12 && s[0] == '\\' && s[1] == 'u' && s[6] == '\\' && s[7] == 'u'
    requires IsHex4(s[2..6]) && ParseHex4(s[2..6]) == hi && 0xd800 <= hi < 0xdc00
    requires IsHex4(s[8..12]) && ParseHex4(s[8..12]) == lo && 0xdc00 <= lo < 0xe000
    ensures DecodeChar(s) == Some(((0x10000 + (hi - 0xd800) * 0x400 + (lo - 0xdc00)) as char, 12))
  {
  }

  /** The leading UTF-16 code unit of a character beyond the Basic Multilingual Plane. */
  function HighSurrogate(c: char): (v: nat)
    requires c as int >= 0x10000
    ensures 0xd800 <= v < 0xdc00
  {
    0xd800 + (c as int - 0x10000) / 0x400
  }

  /** The trailing UTF-16 code unit of a character beyond the Basic Multilingual Plane. */
  function LowSurrogate(c: char): (v: nat)
    requires c as int >= 0x10000
    ensures 0xdc00 <= v < 0xe000
  {
    0xdc00 + (c as int - 0x10000) % 0x400
  }

  /** The two code units recombine into the character. */
  lemma SurrogatesRecombine(c: char)
    requires c as int >= 0x10000
    ensures 0x10000 + (HighSurrogate(c) - 0xd800) * 0x400 + (LowSurrogate(c) - 0xdc00) == c as int
  {
  }

  lemma DecodeSurrogatePair(hi: nat, lo: nat, rest: string)
    requires 0xd800 <= hi < 0xdc00 && 0xdc00 <= lo < 0xe000
    ensures DecodeChar(UnicodeEscape(hi) + UnicodeEscape(lo) + rest)
            == Some(((0x10000 + (hi - 0xd800) * 0x400 + (lo - 0xdc00)) as char, 12))
  {
    ParseHex4OfHex4(hi);
    ParseHex4OfHex4(lo);
    var t := UnicodeEscape(lo) + rest;
    var s := UnicodeEscape(hi) + t;
    Regroup2(UnicodeEscape(hi), UnicodeEscape(lo), rest);
    UnicodeEscapeParts(hi, t);
    UnicodeEscapeParts(lo, rest);
    assert s[8..12] == t[2..6];
    DecodeSurrogateStep(s, hi, lo);
  }

  lemma DecodeEscapedSurrogates(c: char, rest: string)
    requires c as int >= 0x10000
    ensures DecodeChar(EscapeChar(c) + rest) == Some((c, 12))
  {
    SurrogatesRecombine(c);
    DecodeSurrogatePair(HighSurrogate(c), LowSurrogate(c), rest);
  }

  /** Each character's escape decodes back to it, consuming exactly the escape. */
  lemma DecodeEscapedChar(c: char, rest: string)
    ensures DecodeChar(EscapeChar(c) + rest) == Some((c, |EscapeChar(c)|))
  {
    var s := EscapeChar(c) + rest;
    if c == '"' || c == '\\' || c == '\n' || c == '\r' || c == '\t' || c as int == 0x08 || c as int == 0x0c {
    } else if IsPrintableAscii(c) {
    } else if c as int < 0x10000 {
      ParseHex4OfHex4(c as int);
      UnicodeEscapeParts(c as int, rest);
    } else {
      DecodeEscapedSurrogates(c, rest);
    }
  }

  /** One step of `DecodeChars`: a decoded character followed by the rest. */
  lemma DecodeCharsStep(s: string, c: char, k: nat, body: string, rest: string)
    requires |s| > 0 && s[0] != '"'
    requires DecodeChar(s) == Some((c, k))
    requires DecodeChars(s[k..]) == Some((body, rest))
    ensures DecodeChars(s) == Some(([c] + body, rest))
  {
  }

  lemma {:induction false} DecodeEscaped(x: string, rest: string)
    ensures DecodeChars(Escape(x) + "\"" + rest) == Some((x, rest))
    decreases |x|
  {
    if |x| == 0 {
      assert Escape(x) + "\"" + rest == "\"" + rest;
    } else {
      var e := EscapeChar(x[0]);
      var t := Escape(x[1..]) + "\"" + rest;
      assert Escape(x) + "\"" + rest == e + t;
      DecodeEscapedChar(x[0], t);
      assert (e + t)[|e|..] == t;
      DecodeEscaped(x[1..], rest);
      DecodeCharsStep(e + t, x[0], |e|, x[1..], rest);
      assert [x[0]] + x[1..] == x;
    }
  }

  /** Reading back the literal `json` wrote yields the original text and
      leaves whatever followed it untouched. */
  lemma DecodeJsonString(x: string, rest: string)
    ensures DecodeString(JsonString(x) + rest) == Some((x, rest))
  {
    var q := "\"";
    var t := Escape(x) + q + rest;
    Regroup3(q, Escape(x), q, rest);
    Regroup2(Escape(x), q, rest);
    SliceConcat(q, t);
    DecodeEscaped(x, rest);
    DecodeStringStep(q + t, Some((x, rest)));
  }

  lemma DecodeStringStep(s: string, r: Option<(string, string)>)
    requires |s| > 0 && s[0] == '"' && DecodeChars(s[1..]) == r
    ensures DecodeString(s) == r
  {
  }
}
