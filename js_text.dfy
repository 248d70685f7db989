/**
 * The few JavaScript string and number primitives the widgets rely on:
 * `String(n)`, `padStart(2, "0")`, `Number(s)`, `parseInt(s, 10)`,
 * `s.split(c)`, `parts.join(sep)` and the relational operators on strings.
 * JavaScript compares strings by UTF-16 code unit; here a string is a
 * sequence of `char` (Unicode scalar values) compared by code point. The two
 * orders agree on the Basic Multilingual Plane, which holds every string
 * these widgets compare (clock times, digits, option values).
 */
module JsText {

  /** A JavaScript number as far as these widgets use one: an integer or NaN. */
  datatype Num = Finite(value: int) | NaN

  /** `a <= b` on numbers: false whenever either side is NaN. */
  predicate NumLe(a: Num, b: Num) {
    a.Finite? && b.Finite? && a.value <= b.value
  }

  /** `a >= b` on numbers: false whenever either side is NaN. */
  predicate NumGe(a: Num, b: Num) {
    a.Finite? && b.Finite? && a.value >= b.value
  }

  predicate IsDigit(c: char) {
    '0' <= c <= '9'
  }

  predicate AllDigits(s: string) {
    forall i :: 0 <= i < |s| ==> IsDigit(s[i])
  }

  function DigitValue(c: char): (d: nat)
    requires IsDigit(c)
    ensures d < 10
  {
    c as int - '0' as int
  }

  function DigitChar(d: nat): (c: char)
    requires d < 10
    ensures IsDigit(c) && DigitValue(c) == d
  {
    ('0' as int + d) as char
  }

  /** The decimal value of a string of ASCII digits, most significant first. */
  function DecimalValue(s: string): nat
    requires AllDigits(s)
  {
    if |s| == 0 then 0 else 10 * DecimalValue(s[..|s| - 1]) + DigitValue(s[|s| - 1])
  }

  /** `String(n)` for a non-negative integer: its decimal digits, without leading zeros. */
  function NatToString(n: nat): (s: string)
    ensures 1 <= |s| && AllDigits(s)
    ensures n < 10 <==> |s| == 1
    ensures (|s| == 1 ==> s[0] == DigitChar(n)) && (|s| > 1 ==> s[0] != '0')
  {
    if n < 10 then [DigitChar(n)] else NatToString(n / 10) + [DigitChar(n % 10)]
  }

  /** Reading back what `String(n)` wrote gives n again. */
  lemma {:induction false} NatToStringValue(n: nat)
    ensures DecimalValue(NatToString(n)) == n
  {
    if n >= 10 {
      var s := NatToString(n);
      assert s[..|s| - 1] == NatToString(n / 10);
      NatToStringValue(n / 10);
    }
  }

  /** `String(n)` for any integer: a minus sign before the digits of a negative one. */
  function IntToString(n: int): string {
    if n >= 0 then NatToString(n) else "-" + NatToString(-n)
  }

  /** `s.padStart(2, "0")`. */
  function PadStart2(s: string): (r: string)
    ensures |r| == if |s| < 2 then 2 else |s|
    ensures |s| < 2 ==> r[2 - |s|..] == s && forall i :: 0 <= i < 2 - |s| ==> r[i] == '0'
    ensures |s| >= 2 ==> r == s
  {
    if |s| == 0 then "00" else if |s| == 1 then "0" + s else s
  }

  /** `String(n).padStart(2, "0")` for n < 100 is exactly the two decimal digits of n. */
  lemma TwoDigits(n: nat)
    requires n < 100
    ensures PadStart2(NatToString(n)) == [DigitChar(n / 10), DigitChar(n % 10)]
  {
    if n >= 10 {
      assert NatToString(n / 10) == [DigitChar(n / 10)];
    }
  }

  /** The two characters of `String(n).padStart(2, "0")`, for n < 100, are digits worth n. */
  lemma TwoDigitsValue(n: nat)
    requires n < 100
    ensures |PadStart2(NatToString(n))| == 2 && AllDigits(PadStart2(NatToString(n)))
    ensures 10 * DigitValue(PadStart2(NatToString(n))[0]) + DigitValue(PadStart2(NatToString(n))[1]) == n
  {
    var p := PadStart2(NatToString(n));
    TwoDigits(n);
    var hi, lo := n / 10, n % 10;
    assert p == [DigitChar(hi), DigitChar(lo)];
    assert DigitValue(p[0]) == hi && DigitValue(p[1]) == lo;
    assert 10 * hi + lo == n;
  }

  /**
   * `Number(s)`: the empty string reads as 0, a string of ASCII digits as its
   * decimal value, and anything else as NaN.
   */
  function ToNumber(s: string): (r: Num)
    ensures s == "" ==> r == Finite(0)
    ensures r.Finite? <==> AllDigits(s)
    ensures r.Finite? ==> r.value >= 0
  {
    if AllDigits(s) then Finite(DecimalValue(s)) else NaN
  }

  /** `Number(String(n))` is n: a decimal rendering of a count round-trips. */
  lemma NumberOfString(n: nat)
    ensures ToNumber(NatToString(n)) == Finite(n)
  {
    NatToStringValue(n);
  }

  /** The longest prefix of s made of ASCII digits. */
  function LeadingDigits(s: string): (p: string)
    ensures |p| <= |s| && p == s[..|p|] && AllDigits(p)
    ensures |p| < |s| ==> !IsDigit(s[|p|])
  {
    if |s| == 0 || !IsDigit(s[0]) then "" else [s[0]] + LeadingDigits(s[1..])
  }

  /** The leading digits of a digit string followed by a non-digit are that digit string. */
  lemma {:induction false} LeadingDigitsOfDigitsThen(d: string, rest: string)
    requires AllDigits(d)
    requires |rest| == 0 || !IsDigit(rest[0])
    ensures LeadingDigits(d + rest) == d
  {
    if |d| > 0 {
      assert (d + rest)[1..] == d[1..] + rest;
      LeadingDigitsOfDigitsThen(d[1..], rest);
      assert [d[0]] + d[1..] == d;
    } else {
      assert d + rest == rest;
    }
  }

  /** `parseInt(s, 10)`: the value of the leading digits, NaN when there are none. */
  function ParseInt(s: string): (r: Num)
    ensures r.NaN? <==> (|s| == 0 || !IsDigit(s[0]))
    ensures AllDigits(s) && |s| > 0 ==> r == Finite(DecimalValue(s))
  {
    var p := LeadingDigits(s);
    assert AllDigits(s) ==> p == s;
    if |p| == 0 then NaN else Finite(DecimalValue(p))
  }

  /** `parseInt` of `String(n)` followed by a non-digit reads back n. */
  lemma ParseIntOfNatThen(n: nat, rest: string)
    requires |rest| == 0 || !IsDigit(rest[0])
    ensures ParseInt(NatToString(n) + rest) == Finite(n)
  {
    LeadingDigitsOfDigitsThen(NatToString(n), rest);
    NatToStringValue(n);
  }

  /** `s.split(sep)` for a one-character separator. */
  function Split(s: string, sep: char): (parts: seq<string>)
    ensures |parts| >= 1
    ensures forall k :: 0 <= k < |parts| ==> sep !in parts[k]
  {
    if |s| == 0 then [""]
    else
      var rest := Split(s[1..], sep);
      if s[0] == sep then [""] + rest else [[s[0]] + rest[0]] + rest[1..]
  }

  /** A string without the separator is not split at all. */
  lemma {:induction false} SplitNoSeparator(s: string, sep: char)
    requires sep !in s
    ensures Split(s, sep) == [s]
  {
    if |s| > 0 {
      SplitNoSeparator(s[1..], sep);
      assert [s[0]] + s[1..] == s;
    }
  }

  /** Splitting `a + sep + b` with no separator in a yields a, then the parts of b. */
  lemma {:induction false} SplitAtFirst(a: string, sep: char, b: string)
    requires sep !in a
    ensures Split(a + [sep] + b, sep) == [a] + Split(b, sep)
  {
    var s := a + [sep] + b;
    if |a| > 0 {
      assert s[1..] == a[1..] + [sep] + b;
      SplitAtFirst(a[1..], sep, b);
      assert [a[0]] + a[1..] == a;
    } else {
      assert s[1..] == b;
    }
  }

  /** `parts.join(sep)`. */
  function Join(parts: seq<string>, sep: string): (r: string)
    ensures |parts| == 0 ==> r == ""
    ensures |parts| == 1 ==> r == parts[0]
    ensures |parts| >= 1 ==> |parts[0]| <= |r| && r[..|parts[0]|] == parts[0]
  {
    if |parts| == 0 then ""
    else if |parts| == 1 then parts[0]
    else parts[0] + sep + Join(parts[1..], sep)
  }

  /** `a < b` on strings: lexicographic by character, a proper prefix first. */
  predicate StrLt(a: string, b: string) {
    if |b| == 0 then false
    else if |a| == 0 then true
    else if a[0] != b[0] then a[0] < b[0]
    else StrLt(a[1..], b[1..])
  }

  /** `a <= b` on strings, which JavaScript evaluates as `!(b < a)`. */
  predicate StrLe(a: string, b: string) {
    !StrLt(b, a)
  }

  /** `<` on strings is irreflexive, so `a <= a` holds. */
  lemma {:induction false} StrLtIrreflexive(a: string)
    ensures !StrLt(a, a) && StrLe(a, a)
  {
    if |a| > 0 {
      StrLtIrreflexive(a[1..]);
    }
  }
}
