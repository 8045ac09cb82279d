/** Decimal text of integers: Python's `str(n)` and `int(s)` for base-10 ASCII literals. */
module Decimal {
  import opened Results
  import opened Strings

  predicate IsDigit(c: char) {
    '0' <= c <= '9'
  }

  predicate AllDigits(s: string) {
    forall i :: 0 <= i < |s| ==> IsDigit(s[i])
  }

  function DigitChar(d: nat): (c: char)
    requires d < 10
    ensures IsDigit(c) && c as int - '0' as int == d
  {
    ('0' as int + d) as char
  }

  /** The decimal digits of `n`, most significant first, without leading zeros. */
  function NatToDecimal(n: nat): (r: string)
    ensures |r| >= 1 && AllDigits(r)
  {
    if n < 10 then [DigitChar(n)] else NatToDecimal(n / 10) + [DigitChar(n % 10)]
  }

  /** Python's `str(n)` for an integer `n`. */
  function IntToDecimal(n: int): string {
    if n < 0 then "-" + NatToDecimal(-n) else NatToDecimal(n)
  }

  /** The number a string of decimal digits denotes. */
  function DigitsValue(ds: string): nat
    requires AllDigits(ds)
  {
    if ds == [] then 0
    else DigitsValue(ds[..|ds| - 1]) * 10 + (ds[|ds| - 1] as int - '0' as int)
  }

  /** The digit part of a Python integer literal, `digit ("_"? digit)*`: digits, with
      single underscores allowed only between two digits. */
  predicate IsDigitGroup(s: string) {
    |s| >= 1 && IsDigit(s[0]) && IsGroupTail(s[1..])
  }

  /** `("_"? digit)*` */
  predicate IsGroupTail(s: string)
    decreases |s|
  {
    || s == []
    || (IsDigit(s[0]) && IsGroupTail(s[1..]))
    || (|s| >= 2 && s[0] == '_' && IsDigit(s[1]) && IsGroupTail(s[2..]))
  }

  predicate OnlyDigitsAndUnderscores(s: string) {
    forall i :: 0 <= i < |s| ==> IsDigit(s[i]) || s[i] == '_'
  }

  function WithoutUnderscores(s: string): (r: string)
    ensures OnlyDigitsAndUnderscores(s) ==> AllDigits(r)
    ensures AllDigits(s) ==> r == s
  {
    if s == [] then []
    else (if s[0] == '_' then [] else [s[0]]) + WithoutUnderscores(s[1..])
  }

  /** Python's `int(s)` for ASCII decimal literals: surrounding whitespace, an optional
      sign, then a digit group; anything else is the ValueError, here `None`. */
  function ParseIntLiteral(s: string): Option<int> {
    ParseSigned(Strip(s))
  }

  /** An optional sign followed by a digit group. */
  function ParseSigned(t: string): Option<int> {
    if |t| > 0 && (t[0] == '-' || t[0] == '+') then
      match ParseGroup(t[1..])
      case None => None
      case Some(v) => Some(if t[0] == '-' then -(v as int) else v as int)
    else ParseGroup(t)
  }

  function ParseGroup(body: string): Option<nat> {
    if IsDigitGroup(body) && OnlyDigitsAndUnderscores(body) then Some(DigitsValue(WithoutUnderscores(body))) else None
  }

  lemma {:induction false} DigitsValueOfDecimal(n: nat)
    ensures DigitsValue(NatToDecimal(n)) == n
  {
    if n >= 10 {
      DigitsValueOfDecimal(n / 10);
      var ds := NatToDecimal(n);
      assert ds[..|ds| - 1] == NatToDecimal(n / 10);
    }
  }

  lemma DigitsAreNotSpace(c: char)
    requires IsDigit(c)
    ensures !IsSpace(c) && c != '-' && c != '+' && c != '_'
  {
  }

  /** A non-empty run of digits is a digit group with nothing to drop. */
  lemma DigitRunIsGroup(ds: string)
    requires |ds| >= 1 && AllDigits(ds)
    ensures IsDigitGroup(ds) && OnlyDigitsAndUnderscores(ds) && WithoutUnderscores(ds) == ds
  {
    DigitRunIsTail(ds[1..]);
  }

  lemma {:induction false} DigitRunIsTail(ds: string)
    requires AllDigits(ds)
    ensures IsGroupTail(ds)
    decreases |ds|
  {
    if ds != [] {
      DigitRunIsTail(ds[1..]);
    }
  }

  lemma ParseDigitRun(ds: string)
    requires |ds| >= 1 && AllDigits(ds)
    ensures ParseIntLiteral(ds) == Some(DigitsValue(ds))
  {
    DigitsAreNotSpace(ds[|ds| - 1]);
    DigitsAreNotSpace(ds[0]);
    DigitRunIsGroup(ds);
    StripOfTrimmed(ds);
  }

  lemma ParseMinus(s: string, v: nat)
    requires |s| > 0 && s[0] == '-' && ParseGroup(s[1..]) == Some(v)
    ensures ParseSigned(s) == Some(-(v as int))
  {
  }

  lemma StripNegativeLiteral(ds: string)
    requires |ds| >= 1 && AllDigits(ds)
    ensures Strip("-" + ds) == "-" + ds
  {
    var s := "-" + ds;
    DigitsAreNotSpace(ds[|ds| - 1]);
    assert s[|s| - 1] == ds[|ds| - 1];
    StripOfTrimmed(s);
  }

  lemma SignedNegativeDigitRun(s: string)
    requires |s| >= 2 && s[0] == '-' && AllDigits(s[1..])
    ensures ParseSigned(s) == Some(-(DigitsValue(s[1..]) as int))
  {
    ParseGroupDigitRun(s[1..]);
    ParseMinus(s, DigitsValue(s[1..]));
  }

  lemma ParseGroupDigitRun(ds: string)
    requires |ds| >= 1 && AllDigits(ds)
    ensures ParseGroup(ds) == Some(DigitsValue(ds))
  {
    DigitRunIsGroup(ds);
  }

  lemma NegativeLiteral(m: nat, ds: string)
    requires |ds| >= 1 && AllDigits(ds) && DigitsValue(ds) == m
    ensures ParseIntLiteral("-" + ds) == Some(-(m as int))
  {
    var s := "-" + ds;
    assert s[1..] == ds;
    calc {
      ParseIntLiteral(s);
      { StripNegativeLiteral(ds); TrimmedLiteral(s); }
      ParseSigned(s);
      { SignedNegativeDigitRun(s); }
      Some(-(DigitsValue(s[1..]) as int));
      Some(-(m as int));
    }
  }

  lemma TrimmedLiteral(s: string)
    requires Strip(s) == s
    ensures ParseIntLiteral(s) == ParseSigned(s)
  {
  }

  lemma RoundTripNegative(n: int)
    requires n < 0
    ensures ParseIntLiteral(IntToDecimal(n)) == Some(n)
  {
    DigitsValueOfDecimal(-n);
    NegativeLiteral(-n, NatToDecimal(-n));
  }

  /** `int(str(n)) == n`: the literal Python prints for an integer parses back to it. */
  lemma ParseIntRoundTrip(n: int)
    ensures ParseIntLiteral(IntToDecimal(n)) == Some(n)
  {
    if n < 0 {
      RoundTripNegative(n);
    } else {
      DigitsValueOfDecimal(n);
      ParseDigitRun(NatToDecimal(n));
    }
  }

  /** `n` zero characters. */
  function Zeros(n: nat): (r: string)
    ensures |r| == n && forall i :: 0 <= i < n ==> r[i] == '0'
  {
    seq(n, _ => '0')
  }

  /** Python's `f"{n:0{w}d}"` for a non-negative `n`: its decimal digits, left-padded with
      zeros to at least `w` characters (a longer number is not cut). */
  function ZeroPad(n: nat, w: nat): (r: string)
    ensures AllDigits(r)
  {
    var d := NatToDecimal(n);
    if |d| >= w then d else Zeros(w - |d|) + d
  }

  lemma {:induction false} ZerosValue(z: string)
    requires forall i :: 0 <= i < |z| ==> z[i] == '0'
    ensures AllDigits(z) && DigitsValue(z) == 0
  {
    if z != [] {
      ZerosValue(z[..|z| - 1]);
    }
  }

  /** Leading zeros do not change the value of a digit string. */
  lemma {:induction false} LeadingZeros(z: string, d: string)
    requires AllDigits(d) && forall i :: 0 <= i < |z| ==> z[i] == '0'
    ensures AllDigits(z + d) && DigitsValue(z + d) == DigitsValue(d)
    decreases |d|
  {
    if d == [] {
      assert z + d == z;
      ZerosValue(z);
    } else {
      var d' := d[..|d| - 1];
      assert (z + d)[..|z + d| - 1] == z + d';
      LeadingZeros(z, d');
    }
  }

  /** The padded text is at least `w` long, only as long as needed, and denotes `n`. */
  lemma ZeroPadValue(n: nat, w: nat)
    ensures var d := NatToDecimal(n);
      |ZeroPad(n, w)| == (if |d| >= w then |d| else w) && DigitsValue(ZeroPad(n, w)) == n
  {
    var d := NatToDecimal(n);
    DigitsValueOfDecimal(n);
    if |d| < w {
      LeadingZeros(Zeros(w - |d|), d);
    }
  }

  /** Different numbers get different padded texts, so numbered file names never collide. */
  lemma ZeroPadInjective(a: nat, b: nat, w: nat)
    requires ZeroPad(a, w) == ZeroPad(b, w)
    ensures a == b
  {
    ZeroPadValue(a, w);
    ZeroPadValue(b, w);
  }
}
