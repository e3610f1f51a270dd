/** Decimal text of integers: how `String.format("%s", n)` prints an int, how
    `Integer.parseInt` reads one, and the lemmas that tie printing to reading. */
module Decimal {
  import opened Errors

  const INT_MIN := -2147483648
  const INT_MAX := 2147483647

  predicate IsDigit(c: char) {
    '0' <= c <= '9'
  }

  predicate AllDigits(s: string) {
    forall k :: 0 <= k < |s| ==> IsDigit(s[k])
  }

  function DigitValue(c: char): (d: nat)
    requires IsDigit(c)
    ensures d < 10
  {
    c as int - '0' as int
  }

  function DigitChar(d: nat): (c: char)
    requires d < 10
    ensures IsDigit(c) && DigitValue(c) == d
  {
    ('0' as int + d) as char
  }

  /** Shortest decimal text of a natural number (no leading zero). */
  function NatToString(n: nat): (s: string)
    ensures |s| > 0 && AllDigits(s)
    ensures s[0] == '0' ==> n == 0 && |s| == 1
    decreases n
  {
    if n < 10 then [DigitChar(n)] else NatToString(n / 10) + [DigitChar(n % 10)]
  }

  /** Decimal text of an int as Java prints an Integer: a minus sign for negatives. */
  function IntToString(n: int): (s: string)
    ensures |s| > 0
  {
    if n < 0 then "-" + NatToString(-n) else NatToString(n)
  }

  /** Value of a string of digits, read left to right. */
  function DigitsValue(s: string): nat
    requires AllDigits(s)
    decreases |s|
  {
    if s == [] then 0 else DigitsValue(s[..|s| - 1]) * 10 + DigitValue(s[|s| - 1])
  }

  /** Length of the longest prefix of `s` made of digits. */
  function DigitPrefixLength(s: string): (k: nat)
    ensures k <= |s|
    ensures AllDigits(s[..k])
    ensures k < |s| ==> !IsDigit(s[k])
    decreases |s|
  {
    if s == [] || !IsDigit(s[0]) then 0
    else
      var k := 1 + DigitPrefixLength(s[1..]);
      assert s[..k] == [s[0]] + s[1..][..k - 1];
      k
  }

  /** Reads a maximal non-empty run of digits at the front of `s`. */
  function ReadNat(s: string): Option<(nat, string)> {
    var k := DigitPrefixLength(s);
    if k == 0 then None else Some((DigitsValue(s[..k]), s[k..]))
  }

  /** Reads an optional minus sign and a maximal run of digits at the front of `s`. */
  function ReadInt(s: string): Option<(int, string)> {
    if |s| > 0 && s[0] == '-' then
      match ReadNat(s[1..])
      case Some((n, rest)) => Some((0 - n, rest))
      case None => None
    else
      match ReadNat(s)
      case Some((n, rest)) => Some((n, rest))
      case None => None
  }

  /** `Integer.parseInt` on ASCII text: an optional sign, at least one digit,
      and a value in the range of a 32-bit int; anything else fails. */
  function ParseInt(s: string): (r: Option<int>)
    ensures r.Some? ==> INT_MIN <= r.value <= INT_MAX
  {
    if |s| > 0 && (s[0] == '-' || s[0] == '+') then
      var body := s[1..];
      if body != [] && AllDigits(body) then
        var v: int := if s[0] == '-' then 0 - DigitsValue(body) else DigitsValue(body);
        if INT_MIN <= v <= INT_MAX then Some(v) else None
      else None
    else if s != [] && AllDigits(s) && DigitsValue(s) <= INT_MAX then Some(DigitsValue(s))
    else None
  }

  lemma {:induction false} NatToStringValue(n: nat)
    ensures DigitsValue(NatToString(n)) == n
    decreases n
  {
    if n >= 10 {
      var s := NatToString(n);
      NatToStringValue(n / 10);
      assert s[..|s| - 1] == NatToString(n / 10);
    }
  }

  lemma {:induction false} DigitPrefixOfDigits(s: string, rest: string)
    requires AllDigits(s)
    requires rest == [] || !IsDigit(rest[0])
    ensures DigitPrefixLength(s + rest) == |s|
    decreases |s|
  {
    if s != [] {
      assert (s + rest)[1..] == s[1..] + rest;
      DigitPrefixOfDigits(s[1..], rest);
    }
  }

  /** Printing a natural number and reading it back gives the number and the rest. */
  lemma ReadNatString(n: nat, rest: string)
    requires rest == [] || !IsDigit(rest[0])
    ensures ReadNat(NatToString(n) + rest) == Some((n, rest))
  {
    var s := NatToString(n);
    DigitPrefixOfDigits(s, rest);
    assert (s + rest)[..|s|] == s;
    assert (s + rest)[|s|..] == rest;
    NatToStringValue(n);
  }

  /** Printing an int the way Java does and reading it back gives the int. */
  lemma ReadIntString(n: int, rest: string)
    requires rest == [] || !IsDigit(rest[0])
    ensures ReadInt(IntToString(n) + rest) == Some((n, rest))
  {
    if n < 0 {
      ReadNegativeString(-n, rest);
    } else {
      ReadUnsignedString(n, rest);
    }
  }

  /** The digits of `m` with no sign before them read back as `m`. */
  lemma ReadUnsignedString(m: nat, rest: string)
    requires rest == [] || !IsDigit(rest[0])
    ensures ReadInt(NatToString(m) + rest) == Some((m, rest))
  {
    var s := NatToString(m) + rest;
    assert IsDigit(s[0]);
    ReadNatString(m, rest);
  }

  /** A minus sign before the digits of `m` reads back as `-m`. */
  lemma ReadNegativeString(m: nat, rest: string)
    requires rest == [] || !IsDigit(rest[0])
    ensures ReadInt("-" + NatToString(m) + rest) == Some((0 - m, rest))
  {
    var digits := NatToString(m) + rest;
    var s := "-" + NatToString(m) + rest;
    assert s[0] == '-' && s[1..] == digits;
    ReadNatString(m, rest);
  }

  /** `Integer.parseInt` on a plain string of digits succeeds exactly when the
      value fits an int, and then gives that value. */
  lemma ParseDigits(s: string)
    requires s != [] && AllDigits(s)
    ensures ParseInt(s) == if DigitsValue(s) <= INT_MAX then Some(DigitsValue(s)) else None
  {
  }

  /** `Integer.parseInt` of the shortest decimal text of an int-sized natural number. */
  lemma ParseNatToString(n: nat)
    requires n <= INT_MAX
    ensures ParseInt(NatToString(n)) == Some(n)
  {
    NatToStringValue(n);
  }
}
