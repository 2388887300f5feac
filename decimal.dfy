/** Decimal integers as text: how a template string renders a number and a
    simplified `parseInt` that reads one back. */
module Decimal {
  import opened Wrappers

  predicate IsDigit(c: char) {
    '0' <= c <= '9'
  }

  predicate AllDigits(s: string) {
    forall k :: 0 <= k < |s| ==> IsDigit(s[k])
  }

  function DigitChar(d: nat): (c: char)
    requires d < 10
    ensures IsDigit(c) && c as int - '0' as int == d
  {
    ('0' as int + d) as char
  }

  /** The decimal text of a natural number, without leading zeros. */
  function NatText(n: nat): (s: string)
    ensures |s| >= 1 && AllDigits(s)
    ensures s[0] == '0' ==> n == 0
    decreases n
  {
    if n < 10 then [DigitChar(n)]
    else NatText(n / 10) + [DigitChar(n % 10)]
  }

  /** How `${n}` renders an integer: a minus sign before negative values. */
  function IntText(i: int): (s: string)
    ensures |s| >= 1 && (i < 0 <==> s[0] == '-')
    ensures '/' !in s && ' ' !in s
  {
    if i < 0 then "-" + NatText(-i) else NatText(i)
  }

  /** The value of a run of decimal digits, most significant first. */
  function DigitsValue(ds: string): nat
    requires AllDigits(ds)
    decreases |ds|
  {
    if ds == [] then 0
    else DigitsValue(ds[..|ds| - 1]) * 10 + (ds[|ds| - 1] as int - '0' as int)
  }

  /** Length of the run of digits that `s` begins with. */
  function DigitRun(s: string): (r: nat)
    ensures r <= |s| && AllDigits(s[..r])
    ensures r < |s| ==> !IsDigit(s[r])
    decreases |s|
  {
    if s != [] && IsDigit(s[0]) then
      var r := 1 + DigitRun(s[1..]);
      assert s[..r] == [s[0]] + s[1..][..r - 1];
      r
    else 0
  }

  /** The text that follows an optional leading sign. */
  function Unsigned(s: string): string {
    if |s| > 0 && (s[0] == '-' || s[0] == '+') then s[1..] else s
  }

  /** `parseInt(s, 10)` on text without leading white space: an optional sign
      and the longest run of digits after it; anything after that run is
      ignored. `None` stands for `NaN`, the result when no digit follows the
      sign. */
  function ParseInt(s: string): (r: Option<int>)
    ensures r.Some? <==> |Unsigned(s)| > 0 && IsDigit(Unsigned(s)[0])
    ensures r.Some? && r.value < 0 ==> s[0] == '-'
  {
    var body := Unsigned(s);
    var k := DigitRun(body);
    if k == 0 then None
    else
      var v := DigitsValue(body[..k]);
      Some(if |s| > 0 && s[0] == '-' then -(v as int) else v)
  }

  lemma {:induction false} NatTextValue(n: nat)
    ensures DigitsValue(NatText(n)) == n
    decreases n
  {
    if n >= 10 {
      var t := NatText(n);
      NatTextValue(n / 10);
      assert t[..|t| - 1] == NatText(n / 10);
    }
  }

  /** The digit run of a digit text followed by anything that does not start
      with a digit is exactly that text. */
  lemma {:induction false} DigitRunOfText(t: string, rest: string)
    requires AllDigits(t)
    requires rest == [] || !IsDigit(rest[0])
    ensures DigitRun(t + rest) == |t|
    decreases |t|
  {
    if t != [] {
      assert (t + rest)[1..] == t[1..] + rest;
      DigitRunOfText(t[1..], rest);
    }
  }

  /** Reading back a rendered integer gives the integer, even when other
      text follows it (as `parseInt("3x")` gives 3). */
  lemma ParseIntText(i: int, rest: string)
    requires rest == [] || !IsDigit(rest[0])
    ensures ParseInt(IntText(i) + rest) == Some(i)
  {
    if i < 0 {
      ParseNegativeText(-i, rest);
    } else {
      ParseNatText(i, rest);
    }
  }

  lemma ParseNatText(n: nat, rest: string)
    requires rest == [] || !IsDigit(rest[0])
    ensures ParseInt(NatText(n) + rest) == Some(n)
  {
    var t := NatText(n);
    NatTextValue(n);
    assert IsDigit((t + rest)[0]);
    ParseDigitsAfterSign(t + rest, t, rest);
  }

  lemma ParseNegativeText(n: nat, rest: string)
    requires rest == [] || !IsDigit(rest[0])
    ensures ParseInt("-" + NatText(n) + rest) == Some(-(n as int))
  {
    var t := NatText(n);
    NatTextValue(n);
    var u := t + rest;
    assert "-" + t + rest == ['-'] + u;
    assert (['-'] + u)[1..] == u;
    ParseDigitsAfterSign(['-'] + u, t, rest);
  }

  /** Text whose digits after the optional sign are exactly `t` reads as the
      value of `t`, negated after a minus sign. */
  lemma ParseDigitsAfterSign(s: string, t: string, rest: string)
    requires |t| >= 1 && AllDigits(t)
    requires rest == [] || !IsDigit(rest[0])
    requires Unsigned(s) == t + rest
    ensures ParseInt(s) == Some(if |s| > 0 && s[0] == '-' then -(DigitsValue(t) as int) else DigitsValue(t))
  {
    DigitRunOfText(t, rest);
    assert (t + rest)[..|t|] == t;
  }

  /** Rendering is one-to-one. */
  lemma IntTextInjective(i: int, j: int)
    requires IntText(i) == IntText(j)
    ensures i == j
  {
    ParseIntText(i, []);
    ParseIntText(j, []);
    assert IntText(i) + [] == IntText(i);
    assert IntText(j) + [] == IntText(j);
  }
}
