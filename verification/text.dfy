/** Text helpers shared by the compiler and the header patcher: Python's
    decimal rendering of integers (`str(int)`, also what `json.dumps` and
    f-strings produce), a decoder that inverts it, literal matching,
    `str.join`, `str.startswith`, `str.endswith` and `str.removesuffix`. */
module Text {
  import opened Wrappers

  predicate IsDigit(c: char) {
    '0' <= c <= '9'
  }

  predicate AllDigits(s: string) {
    forall i :: 0 <= i < |s| ==> IsDigit(s[i])
  }

  function DigitChar(d: nat): (c: char)
    requires d < 10
    ensures IsDigit(c)
  {
    ('0' as int + d) as char
  }

  function DigitValue(c: char): nat {
    if IsDigit(c) then c as int - '0' as int else 0
  }

  /** Decimal digits of a natural number, most significant first, no leading zero. */
  function NatToString(n: nat): (r: string)
    ensures |r| > 0 && AllDigits(r)
    decreases n
  {
    if n < 10 then [DigitChar(n)] else NatToString(n / 10) + [DigitChar(n % 10)]
  }

  /** Python's `str(i)` for an `int`: an optional minus sign, then the digits. */
  function IntToString(i: int): (r: string)
    ensures |r| > 0
    ensures i >= 0 ==> AllDigits(r)
    ensures i < 0 ==> r[0] == '-' && AllDigits(r[1..])
  {
    if i < 0 then "-" + NatToString(-i) else NatToString(i)
  }

  /** Value of a string of digits read as a decimal number. */
  function ParseNat(s: string): nat
    decreases |s|
  {
    if |s| == 0 then 0 else ParseNat(s[..|s| - 1]) * 10 + DigitValue(s[|s| - 1])
  }

  lemma {:induction false} ParseNatToString(n: nat)
    ensures ParseNat(NatToString(n)) == n
    decreases n
  {
    if n >= 10 {
      var s := NatToString(n);
      assert s[..|s| - 1] == NatToString(n / 10);
      ParseNatToString(n / 10);
    }
  }

  /** The rendering never starts with a zero digit unless the number is zero. */
  lemma {:induction false} NatToStringNoLeadingZero(n: nat)
    ensures NatToString(n)[0] == '0' <==> n == 0
    decreases n
  {
    if n >= 10 {
      NatToStringNoLeadingZero(n / 10);
      assert NatToString(n)[0] == NatToString(n / 10)[0];
    }
  }

  /** Length of the longest prefix of `s` made of digits. */
  function DigitPrefixLength(s: string): (k: nat)
    ensures k <= |s|
    ensures AllDigits(s[..k])
    ensures k < |s| ==> !IsDigit(s[k])
    decreases |s|
  {
    if |s| == 0 || !IsDigit(s[0]) then 0 else 1 + DigitPrefixLength(s[1..])
  }

  /** Reads a maximal, non-empty run of digits at the head of `s`. */
  function DecodeNat(s: string): (r: Option<(nat, string)>)
    ensures r.None? <==> (|s| == 0 || !IsDigit(s[0]))
    ensures r.Some? ==> |r.value.1| < |s| && r.value.1 == s[|s| - |r.value.1|..]
  {
    var k := DigitPrefixLength(s);
    if k == 0 then None else Some((ParseNat(s[..k]), s[k..]))
  }

  /** Reads an optional minus sign followed by a run of digits. */
  function DecodeInt(s: string): Option<(int, string)> {
    if |s| > 0 && s[0] == '-' then
      var (n, rest) :- DecodeNat(s[1..]);
      var r: (int, string) := (0 - n, rest);
      Some(r)
    else
      var (n, rest) :- DecodeNat(s);
      var r: (int, string) := (n, rest);
      Some(r)
  }

  /** True when `rest` cannot extend a number rendered just before it. */
  predicate EndsNumber(rest: string) {
    |rest| == 0 || !IsDigit(rest[0])
  }

  lemma {:induction false} DigitPrefixOfDigits(x: string, y: string)
    requires AllDigits(x) && EndsNumber(y)
    ensures DigitPrefixLength(x + y) == |x|
    decreases |x|
  {
    if |x| > 0 {
      assert (x + y)[1..] == x[1..] + y;
      DigitPrefixOfDigits(x[1..], y);
    }
  }

  lemma DecodeNatToString(n: nat, rest: string)
    requires EndsNumber(rest)
    ensures DecodeNat(NatToString(n) + rest) == Some((n, rest))
  {
    DigitPrefixOfDigits(NatToString(n), rest);
    SliceConcat(NatToString(n), rest);
    ParseNatToString(n);
  }

  lemma DecodeIntStep(s: string, n: nat, rest: string)
    requires DecodeNat(s) == Some((n, rest))
    ensures s[0] != '-'
    ensures DecodeInt(s) == Some((n, rest))
  {
  }

  lemma DecodeNegativeStep(s: string, n: nat, rest: string)
    requires |s| > 0 && s[0] == '-'
    requires DecodeNat(s[1..]) == Some((n, rest))
    ensures DecodeInt(s) == Some((0 - n, rest))
  {
  }

  /** Decoding inverts `str(i)`, whatever digit-free text follows it. */
  lemma DecodeIntToString(i: int, rest: string)
    requires EndsNumber(rest)
    ensures DecodeInt(IntToString(i) + rest) == Some((i, rest))
  {
    if i < 0 {
      var x := NatToString(-i) + rest;
      Regroup2("-", NatToString(-i), rest);
      SliceConcat("-", x);
      DecodeNatToString(-i, rest);
      DecodeNegativeStep("-" + x, -i, rest);
    } else {
      DecodeNatToString(i, rest);
      DecodeIntStep(NatToString(i) + rest, i, rest);
    }
  }

  /** Consumes the literal `lit` at the head of `s`. */
  function Expect(s: string, lit: string): (r: Option<string>)
    ensures r.Some? <==> lit <= s
    ensures r.Some? ==> lit + r.value == s
  {
    if lit <= s then Some(s[|lit|..]) else None
  }

  lemma ExpectLiteral(lit: string, rest: string)
    ensures Expect(lit + rest, lit) == Some(rest)
  {
    assert lit <= lit + rest;
    assert (lit + rest)[|lit|..] == rest;
  }

  /** Python's `s.startswith(prefix)`. */
  predicate StartsWith(s: string, prefix: string) {
    prefix <= s
  }

  /** Python's `s.endswith(suffix)`. */
  predicate EndsWith(s: string, suffix: string) {
    |suffix| <= |s| && s[|s| - |suffix|..] == suffix
  }

  /** Python's `s.removesuffix(suffix)`: one copy of `suffix` is dropped when present. */
  function RemoveSuffix(s: string, suffix: string): (r: string)
    ensures EndsWith(s, suffix) ==> r + suffix == s
    ensures !EndsWith(s, suffix) ==> r == s
  {
    if |suffix| > 0 && EndsWith(s, suffix) then s[..|s| - |suffix|] else s
  }

  /** Python's `sep.join(parts)`. */
  function Join(parts: seq<string>, sep: string): string
    decreases |parts|
  {
    if |parts| == 0 then ""
    else if |parts| == 1 then parts[0]
    else parts[0] + sep + Join(parts[1..], sep)
  }

  /* Regrouping of concatenations, proved once over plain sequences. */

  lemma SliceConcat<T>(a: seq<T>, b: seq<T>)
    ensures (a + b)[..|a|] == a && (a + b)[|a|..] == b
  {
  }

  lemma Regroup2<T>(a: seq<T>, b: seq<T>, rest: seq<T>)
    ensures a + b + rest == a + (b + rest)
  {
  }

  lemma Regroup3<T>(a: seq<T>, b: seq<T>, c: seq<T>, rest: seq<T>)
    ensures a + b + c + rest == a + (b + (c + rest))
  {
  }

  lemma Regroup4<T>(a: seq<T>, b: seq<T>, c: seq<T>, d: seq<T>, rest: seq<T>)
    ensures a + b + c + d + rest == a + (b + (c + (d + rest)))
  {
  }

  lemma Regroup5<T>(a: seq<T>, b: seq<T>, c: seq<T>, d: seq<T>, e: seq<T>, rest: seq<T>)
    ensures a + b + c + d + e + rest == a + (b + (c + (d + (e + rest))))
  {
  }
}
