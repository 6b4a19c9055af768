/** Python's string and sequence built-ins that the agent's code relies on:
    `str.isspace`, `str.strip`, `str.join`, `str.replace` of one character,
    the prefix slice `s[:k]` and decimal formatting of integers. */
module Strings {

  /** `c.isspace()` in Python 3; the same characters are matched by `\s` in a
      `str` regular expression and removed by `str.strip()`. */
  predicate IsSpace(c: char) {
    ('\t' <= c <= '\r') || ('\U{1C}' <= c <= '\U{1F}') || c == ' '
    || c == '\U{85}' || c == '\U{A0}' || c == '\U{1680}'
    || ('\U{2000}' <= c <= '\U{200A}') || c == '\U{2028}' || c == '\U{2029}'
    || c == '\U{202F}' || c == '\U{205F}' || c == '\U{3000}'
  }

  predicate IsBlank(s: string) {
    forall i :: 0 <= i < |s| ==> IsSpace(s[i])
  }

  /** The first position at or after `i` that is not whitespace (or `|s|`). */
  function SkipSpaces(s: string, i: nat): (k: nat)
    requires i <= |s|
    ensures i <= k <= |s|
    ensures forall m :: i <= m < k ==> IsSpace(s[m])
    ensures k < |s| ==> !IsSpace(s[k])
    decreases |s| - i
  {
    if i < |s| && IsSpace(s[i]) then SkipSpaces(s, i + 1) else i
  }

  /** The position just after the last non-whitespace character before `j` (or 0). */
  function SkipSpacesBack(s: string, j: nat): (k: nat)
    requires j <= |s|
    ensures k <= j
    ensures forall m :: k <= m < j ==> IsSpace(s[m])
    ensures k > 0 ==> !IsSpace(s[k - 1])
  {
    if j > 0 && IsSpace(s[j - 1]) then SkipSpacesBack(s, j - 1) else j
  }

  /** `s.strip()`: the slice of `s` left after removing a blank prefix and a blank
      suffix, such that it neither starts nor ends with whitespace; it is empty
      exactly when `s` is blank. */
  function Strip(s: string): (r: string)
    ensures |r| <= |s|
    ensures exists i, j :: 0 <= i <= j <= |s| && r == s[i..j] && IsBlank(s[..i]) && IsBlank(s[j..])
    ensures r == [] || (!IsSpace(r[0]) && !IsSpace(r[|r| - 1]))
    ensures r == [] <==> IsBlank(s)
  {
    var start := SkipSpaces(s, 0);
    if start == |s| then
      assert s[|s|..|s|] == [] && IsBlank(s[..|s|]) && IsBlank(s[|s|..]);
      []
    else
      var stop := SkipSpacesBack(s, |s|);
      assert IsBlank(s[..start]) && IsBlank(s[stop..]);
      s[start..stop]
  }

  /** `sep.join(parts)` */
  function Join(sep: string, parts: seq<string>): string
  {
    if |parts| == 0 then ""
    else if |parts| == 1 then parts[0]
    else parts[0] + sep + Join(sep, parts[1..])
  }

  lemma {:induction false} JoinAppend(sep: string, a: seq<string>, b: seq<string>)
    requires a != [] && b != []
    ensures Join(sep, a + b) == Join(sep, a) + sep + Join(sep, b)
  {
    if |a| == 1 {
      assert (a + b)[1..] == b;
    } else {
      assert (a + b)[1..] == a[1..] + b;
      JoinAppend(sep, a[1..], b);
    }
  }

  lemma AppendAssoc<T>(a: seq<T>, b: seq<T>, c: seq<T>)
    ensures (a + b) + c == a + (b + c)
  {
  }

  lemma AppendEmpty<T>(a: seq<T>)
    ensures a + [] == a
  {
  }

  lemma JoinCons(sep: string, x: string, rest: seq<string>)
    requires rest != []
    ensures Join(sep, [x] + rest) == x + sep + Join(sep, rest)
  {
    assert ([x] + rest)[1..] == rest;
  }

  /** `s.replace(from, to)` for single characters. */
  function ReplaceChar(s: string, from: char, to: char): (r: string)
    ensures |r| == |s|
    ensures forall i :: 0 <= i < |s| ==> r[i] == (if s[i] == from then to else s[i])
  {
    seq(|s|, i requires 0 <= i < |s| => if s[i] == from then to else s[i])
  }

  /** Python's prefix slice `s[:k]`; a negative `k` drops `-k` items from the end. */
  function SliceTo<T>(s: seq<T>, k: int): (r: seq<T>)
    ensures r <= s
    ensures k >= 0 ==> |r| == (if k <= |s| then k else |s|)
    ensures k < 0 ==> |r| == (if |s| + k >= 0 then |s| + k else 0)
  {
    if k >= 0 then (if k <= |s| then s[..k] else s)
    else if |s| + k >= 0 then s[..|s| + k]
    else []
  }

  // ---------------------------------------------------------------- numbers

  predicate IsDigit(c: char) {
    '0' <= c <= '9'
  }

  predicate AllDigits(s: string) {
    forall i :: 0 <= i < |s| ==> IsDigit(s[i])
  }

  function DigitChar(d: nat): (c: char)
    requires d < 10
    ensures IsDigit(c) && c as int - '0' as int == d
  {
    ('0' as int + d) as char
  }

  /** `str(n)` for a natural number: decimal digits without leading zeros, so
      the first digit is `0` only for `n == 0` itself. */
  function NatToDecimal(n: nat): (r: string)
    ensures |r| >= 1 && AllDigits(r)
    ensures r[0] == '0' <==> n == 0
    ensures |r| == 1 || r[0] != '0'
    decreases n
  {
    if n < 10 then [DigitChar(n)] else NatToDecimal(n / 10) + [DigitChar(n % 10)]
  }

  /** `str(i)` for any integer. */
  function IntToDecimal(i: int): string {
    if i < 0 then "-" + NatToDecimal(-i) else NatToDecimal(i)
  }

  /** `[x] * n`: `n` copies of `x`, and none when `n` is not positive. */
  function Fill<T>(x: T, n: int): (r: seq<T>)
    ensures |r| == (if n > 0 then n else 0)
    ensures forall j :: 0 <= j < |r| ==> r[j] == x
  {
    seq(if n > 0 then n else 0, _ => x)
  }

  /** A run of `z` zero digits. */
  function ZeroDigits(z: nat): (r: string)
    ensures |r| == z && forall i :: 0 <= i < z ==> r[i] == '0'
  {
    Fill('0', z)
  }

  /** `d` preceded by as many zeros as bring it to `width` characters. */
  function PadLeft(d: string, width: nat): (r: string)
    ensures |r| == if |d| < width then width else |d|
  {
    if |d| < width then ZeroDigits(width - |d|) + d else d
  }

  /** `f"{n:0{width}d}"` for a natural number. */
  function ZeroPad(n: nat, width: nat): (r: string)
    ensures |r| == if |NatToDecimal(n)| < width then width else |NatToDecimal(n)|
    ensures AllDigits(r)
  {
    PadZerosKeepsDigits(NatToDecimal(n), width);
    PadLeft(NatToDecimal(n), width)
  }

  /** The number a string of decimal digits denotes (leading zeros allowed). */
  function DecimalValue(s: string): nat
    requires AllDigits(s)
  {
    if s == [] then 0 else DecimalValue(s[..|s| - 1]) * 10 + (s[|s| - 1] as int - '0' as int)
  }

  lemma {:induction false} DecimalRoundTrip(n: nat)
    ensures DecimalValue(NatToDecimal(n)) == n
    decreases n
  {
    if n >= 10 {
      var d := NatToDecimal(n);
      assert d[..|d| - 1] == NatToDecimal(n / 10);
      DecimalRoundTrip(n / 10);
    }
  }

  lemma {:induction false} LeadingZerosValue(z: nat, s: string)
    requires AllDigits(s)
    ensures AllDigits(ZeroDigits(z) + s)
    ensures DecimalValue(ZeroDigits(z) + s) == DecimalValue(s)
    decreases |s|
  {
    var zs := ZeroDigits(z);
    if s == [] {
      ZerosValue(z);
      assert zs + s == zs;
    } else {
      var t := zs + s;
      assert t[..|t| - 1] == zs + s[..|s| - 1];
      LeadingZerosValue(z, s[..|s| - 1]);
    }
  }

  lemma {:induction false} ZerosValue(z: nat)
    ensures DecimalValue(ZeroDigits(z)) == 0
  {
    if z > 0 {
      var zs := ZeroDigits(z);
      assert zs[..z - 1] == ZeroDigits(z - 1);
      ZerosValue(z - 1);
    }
  }

  /** Leading zeros change neither the digit shape nor the value. */
  lemma PadZerosKeepsDigits(d: string, width: nat)
    requires AllDigits(d)
    ensures AllDigits(PadLeft(d, width)) && DecimalValue(PadLeft(d, width)) == DecimalValue(d)
  {
    if |d| < width {
      LeadingZerosValue(width - |d|, d);
    }
  }

  /** Zero padding loses nothing: the padded digits still denote `n`. */
  lemma ZeroPadRoundTrip(n: nat, width: nat)
    ensures DecimalValue(ZeroPad(n, width)) == n
  {
    DecimalRoundTrip(n);
    PadZerosKeepsDigits(NatToDecimal(n), width);
  }

  /** `f"{1:03d}"` is `"001"` and `f"{1234:03d}"` is `"1234"`. */
  lemma ZeroPadExamples()
    ensures ZeroPad(1, 3) == "001"
    ensures ZeroPad(1234, 3) == "1234"
  {
    DecimalExamples();
    assert ZeroDigits(2) == "00";
    assert ZeroPad(1, 3) == ZeroDigits(2) + "1";
  }

  /** `str(1)` is `"1"` and `str(1234)` is `"1234"`. */
  lemma DecimalExamples()
    ensures NatToDecimal(1) == "1" && NatToDecimal(1234) == "1234"
  {
    assert NatToDecimal(12) == NatToDecimal(1) + "2";
    assert NatToDecimal(123) == NatToDecimal(12) + "3";
    assert NatToDecimal(1234) == NatToDecimal(123) + "4";
  }

  /** Two digit strings of the same length that denote the same number are the
      same string, so the length and the value of `ZeroPad(n, width)` determine it. */
  lemma {:induction false} SameDigits(a: string, b: string)
    requires AllDigits(a) && AllDigits(b) && |a| == |b|
    requires DecimalValue(a) == DecimalValue(b)
    ensures a == b
    decreases |a|
  {
    if a != [] {
      var n := |a| - 1;
      LastDigitSplit(a);
      LastDigitSplit(b);
      var p, q := a[..n], b[..n];
      LastDigit(DecimalValue(p), a[n] as int - '0' as int, DecimalValue(q), b[n] as int - '0' as int);
      SameDigits(p, q);
      assert a == p + [a[n]] && b == q + [b[n]];
    }
  }

  /** A non-empty digit string is its leading digits followed by one last digit. */
  lemma LastDigitSplit(s: string)
    requires AllDigits(s) && s != []
    ensures AllDigits(s[..|s| - 1])
    ensures 0 <= s[|s| - 1] as int - '0' as int < 10
    ensures DecimalValue(s) == DecimalValue(s[..|s| - 1]) * 10 + (s[|s| - 1] as int - '0' as int)
  {
    assert IsDigit(s[|s| - 1]);
  }

  lemma LastDigit(p: int, x: int, q: int, y: int)
    requires 0 <= x < 10 && 0 <= y < 10 && p * 10 + x == q * 10 + y
    ensures p == q && x == y
  {
  }

  /** If two strings agree and each ends with `-` followed by digits only, the digit
      suffixes agree: the last `-` of the string separates them. */
  lemma DigitSuffixAfterDash(a: string, p: string, b: string, q: string)
    requires AllDigits(p) && AllDigits(q)
    requires a + "-" + p == b + "-" + q
    ensures p == q
  {
    var s := a + "-" + p;
    var t := b + "-" + q;
    assert forall m :: |t| - |q| <= m < |t| ==> t[m] == q[m - |b| - 1] && t[m] != '-';
    assert s[|s| - |p| - 1] == '-';
    assert forall m :: |s| - |p| <= m < |s| ==> s[m] == p[m - |a| - 1] && s[m] != '-';
    assert t[|t| - |q| - 1] == '-';
    assert p == s[|s| - |p|..];
    assert q == t[|t| - |q|..];
  }
}
