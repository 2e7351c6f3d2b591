/**
 * Decimal numerals: Python's `str(n)`, `"%0Nd" % n` and `int(s)` on plain
 * decimal text, with the value a numeral denotes as the reference.
 */
module Numerals {

  import opened Results
  import opened Text

  function DigitChar(d: nat): (c: char)
    requires d < 10
    ensures IsDigit(c)
  {
    ('0' as int + d) as char
  }

  function DigitValue(c: char): (d: nat)
    requires IsDigit(c)
    ensures d < 10 && DigitChar(d) == c
  {
    c as int - '0' as int
  }

  predicate AllDigits(s: string) {
    forall i :: 0 <= i < |s| ==> IsDigit(s[i])
  }

  /** The number a string of decimal digits denotes; the empty string denotes 0. */
  function Value(s: string): nat
    requires AllDigits(s)
  {
    if s == [] then 0 else 10 * Value(s[..|s| - 1]) + DigitValue(s[|s| - 1])
  }

  /** `str(n)` for a natural number. */
  function NatToString(n: nat): (s: string)
    ensures s != [] && AllDigits(s)
    ensures Value(s) == n
    ensures |s| > 1 ==> s[0] != '0'
  {
    if n < 10 then [DigitChar(n)]
    else
      var s := NatToString(n / 10) + [DigitChar(n % 10)];
      assert s[..|s| - 1] == NatToString(n / 10);
      s
  }

  /** `str(i)` for any integer. */
  function IntToString(i: int): (s: string)
    ensures s != []
    ensures i >= 0 ==> AllDigits(s) && Value(s) == i
    ensures i < 0 ==> s[0] == '-' && AllDigits(s[1..]) && Value(s[1..]) == -i
  {
    if i < 0 then "-" + NatToString(-i) else NatToString(i)
  }

  /** Leading zeros do not change the value of a numeral. */
  lemma {:induction false} ValueLeadingZeros(k: nat, s: string)
    requires AllDigits(s)
    ensures AllDigits(Repeat('0', k) + s)
    ensures Value(Repeat('0', k) + s) == Value(s)
    decreases |s|
  {
    var z := Repeat('0', k);
    if s == [] {
      assert z + s == z;
      ZerosValue(k);
    } else {
      var t := z + s;
      assert t[..|t| - 1] == z + s[..|s| - 1];
      ValueLeadingZeros(k, s[..|s| - 1]);
    }
  }

  lemma {:induction false} ZerosValue(k: nat)
    ensures AllDigits(Repeat('0', k)) && Value(Repeat('0', k)) == 0
  {
    if k > 0 {
      var z := Repeat('0', k);
      assert z[..|z| - 1] == Repeat('0', k - 1);
      ZerosValue(k - 1);
    }
  }

  /** `"%0{width}d" % n` for a natural number. */
  function ZeroPad(n: nat, width: nat): (s: string)
    ensures |s| == if |NatToString(n)| < width then width else |NatToString(n)|
    ensures AllDigits(s) && Value(s) == n
  {
    var d := NatToString(n);
    var s := if |d| < width then Repeat('0', width - |d|) + d else d;
    ValueLeadingZeros(if |d| < width then width - |d| else 0, d);
    assert |d| >= width ==> Repeat('0', 0) + d == d;
    s
  }

  /** A number below `10^width` is written in exactly `width` characters. */
  lemma {:induction false} ZeroPadWidth(n: nat, width: nat)
    requires width >= 1 && n < Pow10(width)
    ensures |ZeroPad(n, width)| == width
  {
    NatToStringLength(n, width);
  }

  /** A padded number followed by `_` and a name: the digits read back as `n` and the rest is untouched. */
  lemma PaddedParts(n: nat, width: nat, name: string)
    ensures var fn, k := ZeroPad(n, width) + "_" + name, |ZeroPad(n, width)|;
      width <= k <= |fn| && AllDigits(fn[..k]) && Value(fn[..k]) == n && fn[k..] == "_" + name
  {
    var p := ZeroPad(n, width);
    assert (p + "_" + name)[..|p|] == p;
    assert (p + "_" + name)[|p|..] == "_" + name;
  }

  /** In digits followed by `_`, the first `_` is the one after the digits. */
  lemma FirstUnderscore(p: string, a: string)
    requires AllDigits(p)
    ensures IndexOfChar(p + "_" + a, '_') == |p|
  {
    var s := p + "_" + a;
    assert forall i :: 0 <= i < |p| ==> s[i] == p[i] && IsDigit(p[i]);
    IndexOfFirst(s, '_', |p|);
  }

  /** Different numbers never give the same padded name: the first `_` ends the digits. */
  lemma PaddedInjective(n: nat, m: nat, width: nat, a: string, b: string)
    requires ZeroPad(n, width) + "_" + a == ZeroPad(m, width) + "_" + b
    ensures n == m && a == b
  {
    var p, q := ZeroPad(n, width), ZeroPad(m, width);
    var s := p + "_" + a;
    FirstUnderscore(p, a);
    FirstUnderscore(q, b);
    assert p == s[..|p|] == q;
    assert a == s[|p| + 1..] == b;
  }

  function Pow10(k: nat): (p: nat)
    ensures p >= 1
  {
    if k == 0 then 1 else 10 * Pow10(k - 1)
  }

  lemma {:induction false} NatToStringLength(n: nat, width: nat)
    requires width >= 1 && n < Pow10(width)
    ensures |NatToString(n)| <= width
    decreases n
  {
    if n >= 10 {
      assert width >= 2;
      NatToStringLength(n / 10, width - 1);
    }
  }

  /**
   * `int(s)` for an optional sign followed by decimal digits; anything else
   * is Python's ValueError, here None.
   */
  function ParseInt(s: string): (r: Option<int>)
    ensures AllDigits(s) && s != [] ==> r == Some(Value(s))
  {
    if s == [] then None
    else if (s[0] == '-' || s[0] == '+') && |s| > 1 && AllDigits(s[1..]) then
      var v: int := Value(s[1..]);
      Some(if s[0] == '-' then -v else v)
    else if AllDigits(s) then Some(Value(s))
    else None
  }

  /** `int(str(i)) == i` */
  lemma {:induction false} ParseIntToString(i: int)
    ensures ParseInt(IntToString(i)) == Some(i)
  {
    var s := IntToString(i);
    if i < 0 {
      assert s[1..] == NatToString(-i);
    }
  }
}
