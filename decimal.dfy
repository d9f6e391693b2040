/**
 * Decimal text for integers, as the message map's JSON keys hold them:
 * `str(k)` on the way out and Python's `int(s)` on the way back.
 */
module Decimal {
  import opened Wrappers

  predicate IsDigit(c: char) {
    '0' <= c <= '9'
  }

  /** The ASCII whitespace `int()` strips: space, tab, line feed, vertical tab, form feed, carriage return. */
  predicate IsSpace(c: char) {
    c == ' ' || c == '\t' || c == '\n' || c == '\r' || c == '\U{000B}' || c == '\U{000C}'
  }

  function DigitChar(d: nat): (c: char)
    requires d < 10
    ensures IsDigit(c) && c as int - '0' as int == d
  {
    (d + '0' as int) as char
  }

  function DigitValue(c: char): (d: nat)
    requires IsDigit(c)
    ensures d < 10
  {
    c as int - '0' as int
  }

  /** Shortest decimal digits of a natural number. */
  function NatToString(n: nat): (s: string)
    ensures |s| > 0
    ensures forall i :: 0 <= i < |s| ==> IsDigit(s[i])
    decreases n
  {
    if n < 10 then [DigitChar(n)] else NatToString(n / 10) + [DigitChar(n % 10)]
  }

  /** Python's `str(i)` for an integer. */
  function IntToString(i: int): (s: string)
    ensures |s| > 0 && (s[0] == '-' <==> i < 0)
    ensures forall k :: (if i < 0 then 1 else 0) <= k < |s| ==> IsDigit(s[k])
  {
    if i < 0 then "-" + NatToString(-i) else NatToString(i)
  }

  /**
   * A base-10 digit string as `int()` admits it: digits, with single
   * underscores allowed between two digits.
   */
  predicate WellFormedDigits(s: string) {
    && |s| > 0
    && IsDigit(s[0])
    && IsDigit(s[|s| - 1])
    && (forall i :: 0 <= i < |s| ==> IsDigit(s[i]) || s[i] == '_')
    && (forall i :: 0 <= i < |s| - 1 ==> !(s[i] == '_' && s[i + 1] == '_'))
  }

  /** The value of a digit string, underscores ignored. */
  function DigitsValue(s: string): (n: nat)
    requires forall i :: 0 <= i < |s| ==> IsDigit(s[i]) || s[i] == '_'
    decreases |s|
  {
    if s == [] then 0
    else
      var c := s[|s| - 1];
      if c == '_' then DigitsValue(s[..|s| - 1])
      else DigitsValue(s[..|s| - 1]) * 10 + DigitValue(c)
  }

  function TrimLeft(s: string): (r: string)
    ensures |r| <= |s| && r == s[|s| - |r|..]
    ensures r == [] || !IsSpace(r[0])
    decreases |s|
  {
    if s != [] && IsSpace(s[0]) then TrimLeft(s[1..]) else s
  }

  function TrimRight(s: string): (r: string)
    ensures |r| <= |s| && r == s[..|r|]
    ensures r == [] || !IsSpace(r[|r| - 1])
    decreases |s|
  {
    if s != [] && IsSpace(s[|s| - 1]) then TrimRight(s[..|s| - 1]) else s
  }

  /** `s.strip()` on ASCII whitespace. */
  function Trim(s: string): string {
    TrimRight(TrimLeft(s))
  }

  /** An optional sign and then the digits, on text already stripped; None where `int()` raises. */
  function ParseTrimmed(t: string): Option<int> {
    if |t| > 0 && (t[0] == '-' || t[0] == '+') then
      var digits := t[1..];
      if WellFormedDigits(digits) then
        var n: int := DigitsValue(digits);
        Some(if t[0] == '-' then -n else n)
      else None
    else if WellFormedDigits(t) then Some(DigitsValue(t))
    else None
  }

  /**
   * Python's `int(s)` for a string: surrounding whitespace is ignored, an
   * optional sign may precede the digits; anything else raises (None here).
   */
  function ParseInt(s: string): (r: Option<int>)
    ensures Trim(s) == [] ==> r.None?
    ensures r.Some? ==>
      var t := Trim(s);
      forall k :: 0 <= k < |t| ==> IsDigit(t[k]) || t[k] == '_' || (k == 0 && (t[0] == '-' || t[0] == '+'))
    ensures r.Some? && r.value < 0 ==> Trim(s)[0] == '-'
  {
    ParseTrimmed(Trim(s))
  }

  lemma {:induction false} DigitsValueOfNatToString(n: nat)
    ensures DigitsValue(NatToString(n)) == n
    decreases n
  {
    var s := NatToString(n);
    if n < 10 {
      assert s[..0] == [];
    } else {
      DigitsValueOfNatToString(n / 10);
      assert s[..|s| - 1] == NatToString(n / 10);
    }
  }

  lemma TrimOfUnpadded(s: string)
    requires |s| > 0 && !IsSpace(s[0]) && !IsSpace(s[|s| - 1])
    ensures Trim(s) == s
  {
  }

  lemma PlainDigitsParse(d: string)
    requires |d| > 0 && forall i :: 0 <= i < |d| ==> IsDigit(d[i])
    ensures ParseTrimmed(d) == Some(DigitsValue(d))
    ensures ParseTrimmed("-" + d) == Some(-(DigitsValue(d) as int))
  {
    assert WellFormedDigits(d);
    var t := "-" + d;
    assert t[0] == '-' && t[1..] == d;
  }

  /** The keys `save_map` writes are read back by `load_map` as the same integers. */
  lemma ParseIntOfIntToString(i: int)
    ensures ParseInt(IntToString(i)) == Some(i)
  {
    var s := IntToString(i);
    var n: nat := if i < 0 then -i else i;
    var d := NatToString(n);
    PlainDigitsParse(d);
    DigitsValueOfNatToString(n);
    assert s == (if i < 0 then "-" + d else d);
    TrimOfUnpadded(s);
  }

  /** Distinct integers are written as distinct keys. */
  lemma IntToStringInjective(i: int, j: int)
    ensures IntToString(i) == IntToString(j) <==> i == j
  {
    if IntToString(i) == IntToString(j) {
      ParseIntOfIntToString(i);
      ParseIntOfIntToString(j);
    }
  }

  predicate AllSpace(s: string) {
    forall i :: 0 <= i < |s| ==> IsSpace(s[i])
  }

  lemma {:induction false} TrimLeftSkipsPadding(pre: string, x: string)
    requires AllSpace(pre)
    ensures TrimLeft(pre + x) == TrimLeft(x)
    decreases |pre|
  {
    if pre != [] {
      var s := pre + x;
      assert s[0] == pre[0] && IsSpace(s[0]);
      assert s[1..] == pre[1..] + x;
      assert TrimLeft(s) == TrimLeft(s[1..]);
      TrimLeftSkipsPadding(pre[1..], x);
    } else {
      assert pre + x == x;
    }
  }

  lemma {:induction false} TrimRightSkipsPadding(x: string, post: string)
    requires AllSpace(post)
    ensures TrimRight(x + post) == TrimRight(x)
    decreases |post|
  {
    if post != [] {
      var init := post[..|post| - 1];
      var s := x + post;
      assert s[|s| - 1] == post[|post| - 1] && IsSpace(s[|s| - 1]);
      assert s[..|s| - 1] == x + init;
      assert TrimRight(s) == TrimRight(s[..|s| - 1]);
      TrimRightSkipsPadding(x, init);
    } else {
      assert x + post == x;
    }
  }

  lemma IntToStringIsUnpadded(i: int)
    ensures var s := IntToString(i); |s| > 0 && !IsSpace(s[0]) && !IsSpace(s[|s| - 1])
  {
    var n: nat := if i < 0 then -i else i;
    var d := NatToString(n);
    assert IntToString(i) == (if i < 0 then "-" + d else d);
    assert IsDigit(d[|d| - 1]);
  }

  /** `int()` ignores whitespace around a key: a padded `str(i)` still reads back as `i`. */
  lemma ParseIntIgnoresPadding(pre: string, i: int, post: string)
    requires AllSpace(pre) && AllSpace(post)
    ensures ParseInt(pre + IntToString(i) + post) == Some(i)
  {
    var s := IntToString(i);
    IntToStringIsUnpadded(i);
    assert pre + s + post == pre + (s + post);
    TrimLeftSkipsPadding(pre, s + post);
    assert (s + post)[0] == s[0];
    assert TrimLeft(s + post) == s + post;
    TrimRightSkipsPadding(s, post);
    assert TrimRight(s) == s;
    assert Trim(pre + s + post) == s;
    ParseIntOfIntToString(i);
    TrimOfUnpadded(s);
  }

  /** `int()` accepts a leading plus sign. */
  lemma ParseIntAcceptsPlusSign(n: nat)
    ensures ParseInt("+" + NatToString(n)) == Some(n)
  {
    var d := NatToString(n);
    var t := "+" + d;
    TrimOfUnpadded(t);
    assert t[0] == '+' && t[1..] == d;
    assert WellFormedDigits(d);
    DigitsValueOfNatToString(n);
  }

  lemma OneSeparatorZero()
    ensures WellFormedDigits("1_0") && DigitsValue("1_0") == 10
  {
    var d := "1_0";
    assert forall i :: 0 <= i < |d| ==> IsDigit(d[i]) || d[i] == '_';
    assert d[..2] == "1_";
    assert d[..2][..1] == "1";
    assert d[..2][..1][..0] == "";
    assert DigitsValue("1") == 1;
    assert DigitsValue("1_") == 1;
  }

  lemma ParseTrimmedSeparated()
    ensures ParseTrimmed("-1_0") == Some(-10)
  {
    assert "-1_0"[1..] == "1_0";
    OneSeparatorZero();
  }

  /** Single underscores between digits are separators. */
  lemma ParseIntAcceptsSeparators()
    ensures ParseInt("-1_0") == Some(-10)
  {
    TrimOfUnpadded("-1_0");
    ParseTrimmedSeparated();
  }

  /** A key with a trailing letter makes `int()` raise. */
  lemma ParseIntRejectsTrailingLetter(n: nat)
    ensures ParseInt(NatToString(n) + "a") == None
  {
    var d := NatToString(n);
    var t := d + "a";
    TrimOfUnpadded(t);
    assert t[0] == d[0];
    assert t[|t| - 1] == 'a';
  }

  /** Unsigned text that `int()` sees unchanged is accepted iff its digits are well formed. */
  lemma ParseIntOfUnsigned(t: string)
    requires |t| > 0 && IsDigit(t[0]) && IsDigit(t[|t| - 1])
    ensures ParseInt(t) == if WellFormedDigits(t) then Some(DigitsValue(t)) else None
  {
    TrimOfUnpadded(t);
  }

  lemma DoubledSeparatorIsMalformed(t: string, k: int)
    requires 0 <= k < |t| - 1 && t[k] == '_' && t[k + 1] == '_'
    ensures !WellFormedDigits(t)
  {
  }

  /** A doubled underscore between digits makes `int()` raise. */
  lemma ParseIntRejectsDoubledSeparator(a: nat, b: nat)
    ensures ParseInt(NatToString(a) + "__" + NatToString(b)) == None
  {
    var x, y := NatToString(a), NatToString(b);
    var t := x + "__" + y;
    var k := |x|;
    assert t[0] == x[0];
    assert t[|t| - 1] == y[|y| - 1];
    assert t[k] == '_' && t[k + 1] == '_';
    DoubledSeparatorIsMalformed(t, k);
    ParseIntOfUnsigned(t);
  }
}
