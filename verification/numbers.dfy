/**
 * The part of JavaScript's global `parseInt(string)` (no radix argument)
 * that `getposts` relies on for `startIndex` and `limit`, and the `|| d`
 * default that follows it. A query parameter that is absent parses as NaN,
 * modelled as `None`; so does a string with no digits where digits must
 * start.
 */
module Numbers {
  import opened Wrappers

  /** The code points of StrWhiteSpaceChar: the white space and line terminators parseInt skips. */
  const WhiteSpaceCodes: set<int> := {
    0x09, 0x0A, 0x0B, 0x0C, 0x0D, 0x20, 0xA0, 0x1680,
    0x2000, 0x2001, 0x2002, 0x2003, 0x2004, 0x2005, 0x2006, 0x2007, 0x2008, 0x2009, 0x200A,
    0x2028, 0x2029, 0x202F, 0x205F, 0x3000, 0xFEFF}

  predicate IsWhiteSpace(c: char) {
    c as int in WhiteSpaceCodes
  }

  function TrimStart(s: string): (r: string)
    ensures |r| <= |s| && r == s[|s| - |r|..]
    ensures forall i :: 0 <= i < |s| - |r| ==> IsWhiteSpace(s[i])
    ensures r != [] ==> !IsWhiteSpace(r[0])
  {
    if s != [] && IsWhiteSpace(s[0]) then TrimStart(s[1..]) else s
  }

  /** The value of `c` as a digit in base 36, or 36 when it is no digit at all. */
  function DigitValue(c: char): (v: nat)
    ensures v <= 36
  {
    if '0' <= c <= '9' then c as int - '0' as int
    else if 'a' <= c <= 'z' then c as int - 'a' as int + 10
    else if 'A' <= c <= 'Z' then c as int - 'A' as int + 10
    else 36
  }

  predicate IsDigitIn(c: char, radix: nat) { DigitValue(c) < radix }

  /** Length of the longest prefix of `s` made of digits of base `radix`. */
  function DigitPrefixLength(s: string, radix: nat): (n: nat)
    ensures n <= |s|
    ensures forall i :: 0 <= i < n ==> IsDigitIn(s[i], radix)
    ensures n < |s| ==> !IsDigitIn(s[n], radix)
  {
    if s != [] && IsDigitIn(s[0], radix) then 1 + DigitPrefixLength(s[1..], radix) else 0
  }

  /** The number the digits `z` denote in base `radix`, most significant first. */
  function DigitsValue(z: string, radix: nat): nat
    decreases |z|
  {
    if z == [] then 0
    else DigitsValue(z[..|z| - 1], radix) * radix + DigitValue(z[|z| - 1])
  }

  /** Parse the digit prefix of `s` in base `radix`; `None` if it is empty. */
  function ParseDigits(s: string, radix: nat): (r: Option<nat>)
    ensures r.None? <==> (s == [] || !IsDigitIn(s[0], radix))
  {
    var n := DigitPrefixLength(s, radix);
    if n == 0 then None else Some(DigitsValue(s[..n], radix))
  }

  /** The unsigned part: hexadecimal after "0x" or "0X", decimal otherwise. */
  function ParseMagnitude(u: string): Option<nat> {
    if |u| >= 2 && u[0] == '0' && (u[1] == 'x' || u[1] == 'X') then ParseDigits(u[2..], 16)
    else ParseDigits(u, 10)
  }

  function Signed(m: Option<nat>, negative: bool): (r: Option<int>)
    ensures r.None? <==> m.None?
    ensures m.Some? ==> r.value == if negative then -(m.value as int) else m.value as int
  {
    match m
    case None => None
    case Some(v) => Some(if negative then -(v as int) else v as int)
  }

  /** The text after white space starts with a minus sign. */
  predicate IsNegative(t: string) { t != [] && t[0] == '-' }

  /** The text after white space, without its sign. */
  function Unsigned(t: string): (u: string)
    ensures (t != [] && (t[0] == '-' || t[0] == '+')) ==> u == t[1..]
    ensures !(t != [] && (t[0] == '-' || t[0] == '+')) ==> u == t
  {
    if t != [] && (t[0] == '-' || t[0] == '+') then t[1..] else t
  }

  /**
   * `parseInt(s)`, with `None` both for an absent parameter and for NaN:
   * NaN exactly when no digit follows the white space and the sign; else
   * the magnitude of the digit prefix, negated after a '-'.
   */
  function ParseInt(s: Option<string>): (r: Option<int>)
    ensures s.None? ==> r.None?
    ensures s.Some? ==> (r.None? <==> ParseMagnitude(Unsigned(TrimStart(s.value))).None?)
    ensures r.Some? ==> var m := ParseMagnitude(Unsigned(TrimStart(s.value))).value;
      r.value == if IsNegative(TrimStart(s.value)) then -(m as int) else m as int
  {
    match s
    case None => None
    case Some(text) =>
      var t := TrimStart(text);
      Signed(ParseMagnitude(Unsigned(t)), IsNegative(t))
  }

  /**
   * `parseInt(s) || d`: NaN and zero (including -0) are falsy, so both give
   * the default.
   */
  function ParseIntOr(s: Option<string>, d: int): (r: int)
    ensures ParseInt(s).None? ==> r == d
    ensures ParseInt(s) == Some(0) ==> r == d
    ensures ParseInt(s).Some? && ParseInt(s).value != 0 ==> r == ParseInt(s).value
    ensures d != 0 ==> r != 0
  {
    match ParseInt(s)
    case Some(n) => if n != 0 then n else d
    case None => d
  }

  // ---------------------------------------------------------------------
  // Decimal numerals and the round trip

  function DecimalDigit(k: nat): (c: char)
    requires k < 10
    ensures '0' <= c <= '9' && DigitValue(c) == k
  {
    ('0' as int + k) as char
  }

  /** The decimal numeral of `n`, without leading zeros. */
  function Decimal(n: nat): (s: string)
    ensures s != []
    ensures forall i :: 0 <= i < |s| ==> '0' <= s[i] <= '9'
    decreases n
  {
    if n < 10 then [DecimalDigit(n)] else Decimal(n / 10) + [DecimalDigit(n % 10)]
  }

  lemma {:induction false} DecimalValue(n: nat)
    ensures DigitsValue(Decimal(n), 10) == n
    decreases n
  {
    var s := Decimal(n);
    if n >= 10 {
      assert s[..|s| - 1] == Decimal(n / 10);
      DecimalValue(n / 10);
    }
  }

  lemma DecimalPrefix(s: string)
    requires forall i :: 0 <= i < |s| ==> '0' <= s[i] <= '9'
    ensures DigitPrefixLength(s, 10) == |s|
  {
    var n := DigitPrefixLength(s, 10);
    if n < |s| {
      assert IsDigitIn(s[n], 10);
    }
  }

  /** Decimal digits read in full give the number they denote. */
  lemma ParseAllDigits(s: string)
    requires s != [] && forall i :: 0 <= i < |s| ==> '0' <= s[i] <= '9'
    ensures ParseMagnitude(s) == Some(DigitsValue(s, 10))
  {
    DecimalPrefix(s);
    assert s[..|s|] == s;
  }

  /** Nothing is trimmed from a string that starts with no white space. */
  lemma TrimStartKeeps(s: string)
    requires s != [] && !IsWhiteSpace(s[0])
    ensures TrimStart(s) == s
  {
  }

  lemma DecimalStartsWithDigit(n: nat)
    ensures !IsWhiteSpace(Decimal(n)[0])
    ensures Decimal(n)[0] != '-' && Decimal(n)[0] != '+'
  {
    var s := Decimal(n);
    assert '0' <= s[0] <= '9';
  }

  lemma DecimalMagnitude(n: nat)
    ensures ParseMagnitude(Decimal(n)) == Some(n)
  {
    ParseAllDigits(Decimal(n));
    DecimalValue(n);
  }

  /** `parseInt` reads back the decimal numeral of every natural number. */
  lemma ParseDecimal(n: nat)
    ensures ParseInt(Some(Decimal(n))) == Some(n)
  {
    var s := Decimal(n);
    DecimalStartsWithDigit(n);
    TrimStartKeeps(s);
    assert Unsigned(s) == s && !IsNegative(s);
    DecimalMagnitude(n);
  }

  /** ... and of every negative number written with a leading '-'. */
  lemma ParseNegativeDecimal(n: nat)
    ensures ParseInt(Some("-" + Decimal(n))).Some?
    ensures ParseInt(Some("-" + Decimal(n))).value == -(n as int)
  {
    var s := Decimal(n);
    var t := "-" + s;
    assert t[0] == '-' && t[1..] == s;
    TrimStartKeeps(t);
    assert Unsigned(t) == s && IsNegative(t);
    DecimalMagnitude(n);
  }

  lemma DigitPrefixOfTwelveAbc()
    ensures DigitPrefixLength("12abc", 10) == 2
  {
    var t := "12abc";
    assert !IsDigitIn(t[2], 10);
    assert IsDigitIn(t[0], 10) && IsDigitIn(t[1], 10);
    assert DigitPrefixLength(t[2..], 10) == 0;
    assert DigitPrefixLength(t[1..], 10) == 1 + DigitPrefixLength(t[1..][1..], 10);
    assert t[1..][1..] == t[2..];
  }

  lemma DigitsValueOfTwelve()
    ensures DigitsValue("12", 10) == 12
  {
    assert "12"[..1] == "1";
    assert DigitsValue("1", 10) == 1 by {
      assert "1"[..0] == "";
    }
  }

  /** Digits stop at the first non-digit: "12abc" parses as 12. */
  lemma ParseStopsAtNonDigit()
    ensures ParseInt(Some("12abc")) == Some(12)
  {
    var t := "12abc";
    TrimStartKeeps(t);
    assert Unsigned(t) == t && !IsNegative(t);
    assert t[1] != 'x' && t[1] != 'X';
    DigitPrefixOfTwelveAbc();
    assert t[..2] == "12";
    DigitsValueOfTwelve();
    assert ParseMagnitude(t) == Some(12);
  }

  /** A parameter with no leading digit is NaN. */
  lemma ParseNoDigits()
    ensures ParseInt(Some("abc")) == None
  {
    var t := "abc";
    TrimStartKeeps(t);
    assert Unsigned(t) == t && !IsNegative(t);
    assert !IsDigitIn(t[0], 10) && t[0] != '0';
    assert ParseMagnitude(t) == None;
  }

  /** An empty or absent parameter is NaN too. */
  lemma ParseEmpty()
    ensures ParseInt(Some("")) == None
    ensures ParseInt(None) == None
  {
    assert TrimStart("") == "" && Unsigned("") == "";
  }

  /** "0" parses as 0, which `|| 9` turns into 9. */
  lemma ZeroTakesDefault()
    ensures ParseIntOr(Some("0"), 9) == 9
  {
    ParseDecimal(0);
  }
}
