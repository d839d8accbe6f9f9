/**
  `std::stoi` as the rule builder uses it on a rule's parameter text: leading
  white space is skipped, an optional sign is read, then the longest run of
  decimal digits; the characters after that run are ignored. No digit at all,
  or a value outside the range of a 32-bit `int`, makes `std::stoi` throw, which
  is modelled here as `None`.
 */
module Numbers {
  import opened Wrappers

  const IntMin: int := -0x8000_0000
  const IntMax: int := 0x7FFF_FFFF

  predicate IsDigit(c: char) {
    '0' <= c <= '9'
  }

  /** White space in the C locale: space, tab, newline, vertical tab, form feed, return. */
  predicate IsSpace(c: char) {
    c == ' ' || 9 <= c as int <= 13
  }

  predicate AllDigits(s: string) {
    forall i :: 0 <= i < |s| ==> IsDigit(s[i])
  }

  function DigitValue(c: char): (v: nat)
    requires IsDigit(c)
    ensures v < 10
  {
    c as int - '0' as int
  }

  function DigitChar(v: nat): (c: char)
    requires v < 10
    ensures IsDigit(c) && DigitValue(c) == v
  {
    ('0' as int + v) as char
  }

  /** The number a string of decimal digits denotes, most significant digit first. */
  function DigitsValue(s: string): nat
    requires AllDigits(s)
  {
    if |s| == 0 then 0 else DigitsValue(s[..|s| - 1]) * 10 + DigitValue(s[|s| - 1])
  }

  /** The length of the longest prefix of `s` made of digits. */
  function DigitCount(s: string): (n: nat)
    ensures n <= |s|
    ensures forall i :: 0 <= i < n ==> IsDigit(s[i])
    ensures n < |s| ==> !IsDigit(s[n])
  {
    if |s| > 0 && IsDigit(s[0]) then 1 + DigitCount(s[1..]) else 0
  }

  /** The number of white-space characters `s` starts with. */
  function SpaceCount(s: string): (n: nat)
    ensures n <= |s|
    ensures forall i :: 0 <= i < n ==> IsSpace(s[i])
    ensures n < |s| ==> !IsSpace(s[n])
  {
    if |s| > 0 && IsSpace(s[0]) then 1 + SpaceCount(s[1..]) else 0
  }

  /**
    An optional sign followed by at least one digit, read up to the last digit
    of the run: the signed value, or `None` when no digit follows.
   */
  function SignedValue(t: string): Option<int>
  {
    var signed := |t| > 0 && (t[0] == '-' || t[0] == '+');
    var u := if signed then t[1..] else t;
    var n := DigitCount(u);
    if n == 0 then None
    else
      var magnitude: int := DigitsValue(u[..n]);
      Some(if signed && t[0] == '-' then -magnitude else magnitude)
  }

  /** The conversion `std::stoi` performs; `None` where it would throw. */
  function Stoi(s: string): (r: Option<int>)
    ensures r.Some? ==> IntMin <= r.value <= IntMax
  {
    match SignedValue(s[SpaceCount(s)..])
    case None => None
    case Some(v) => if IntMin <= v <= IntMax then Some(v) else None
  }

  /** The decimal rendering of a natural number, without sign or leading zeros. */
  function ShowNat(n: nat): (s: string)
    ensures |s| > 0 && AllDigits(s)
  {
    if n < 10 then [DigitChar(n)] else ShowNat(n / 10) + [DigitChar(n % 10)]
  }

  lemma {:induction false} DigitsValueOfShowNat(n: nat)
    ensures DigitsValue(ShowNat(n)) == n
  {
    if n >= 10 {
      var s := ShowNat(n);
      assert s[..|s| - 1] == ShowNat(n / 10);
      DigitsValueOfShowNat(n / 10);
    }
  }

  lemma SignedValueOfDigits(s: string)
    requires |s| > 0 && AllDigits(s)
    ensures SignedValue(s) == Some(DigitsValue(s) as int)
  {
    assert IsDigit(s[0]);
    assert DigitCount(s) == |s|;
    assert s[..|s|] == s;
  }

  /** A plain digit string converts to the number it denotes, if that fits in an `int`. */
  lemma StoiOfDigits(s: string)
    requires |s| > 0 && AllDigits(s)
    ensures Stoi(s) == if DigitsValue(s) <= IntMax then Some(DigitsValue(s)) else None
  {
    assert IsDigit(s[0]) && !IsSpace(s[0]);
    assert SpaceCount(s) == 0;
    SignedValueOfDigits(s);
  }

  /**
    Reading back a rendered number gives the number when it fits in an `int`,
    and a conversion failure when it does not.
   */
  lemma StoiOfShowNat(n: nat)
    ensures Stoi(ShowNat(n)) == if n <= IntMax then Some(n) else None
  {
    DigitsValueOfShowNat(n);
    StoiOfDigits(ShowNat(n));
  }

  lemma SpaceCountOfPrefix(ws: string, t: string)
    requires forall i :: 0 <= i < |ws| ==> IsSpace(ws[i])
    requires |t| > 0 && !IsSpace(t[0])
    ensures SpaceCount(ws + t) == |ws|
  {
    var s := ws + t;
    assert forall i :: 0 <= i < |ws| ==> s[i] == ws[i];
    assert s[|ws|] == t[0];
  }

  lemma DigitCountOfPrefix(d: string, rest: string)
    requires AllDigits(d)
    requires |rest| > 0 ==> !IsDigit(rest[0])
    ensures DigitCount(d + rest) == |d|
    ensures (d + rest)[..|d|] == d
  {
    var u := d + rest;
    assert forall i :: 0 <= i < |d| ==> u[i] == d[i];
    if |rest| > 0 {
      assert u[|d|] == rest[0];
    }
  }

  /** The value the sign and the digits denote. */
  function SignedDigits(sign: string, d: string): int
    requires AllDigits(d)
  {
    if sign == "-" then -(DigitsValue(d) as int) else DigitsValue(d)
  }

  lemma SignedValueOfPrefix(sign: string, d: string, rest: string)
    requires sign == "" || sign == "+" || sign == "-"
    requires |d| > 0 && AllDigits(d)
    requires |rest| > 0 ==> !IsDigit(rest[0])
    ensures SignedValue(sign + d + rest) == Some(SignedDigits(sign, d))
  {
    var t := sign + d + rest;
    DigitCountOfPrefix(d, rest);
    assert IsDigit(d[0]);
    if sign == "" {
      assert t == d + rest;
    } else {
      assert t[0] == sign[0];
      assert t[1..] == d + rest;
    }
  }

  /**
    The general reading: white space, an optional sign, a run of digits, then
    anything that does not continue the run. The result is the signed value of
    the digits when it fits in an `int`, and a conversion failure otherwise;
    the trailing text plays no part.
   */
  lemma StoiOfSignedDigits(ws: string, sign: string, d: string, rest: string)
    requires forall i :: 0 <= i < |ws| ==> IsSpace(ws[i])
    requires sign == "" || sign == "+" || sign == "-"
    requires |d| > 0 && AllDigits(d)
    requires |rest| > 0 ==> !IsDigit(rest[0])
    ensures Stoi(ws + sign + d + rest) ==
      if IntMin <= SignedDigits(sign, d) <= IntMax then Some(SignedDigits(sign, d)) else None
  {
    var t := sign + d + rest;
    assert ws + sign + d + rest == ws + t;
    assert IsDigit(d[0]);
    assert t[0] == if sign == "" then d[0] else sign[0];
    SpaceCountOfPrefix(ws, t);
    assert (ws + t)[|ws|..] == t;
    SignedValueOfPrefix(sign, d, rest);
  }

  /** Text with no digit in it, the empty parameter included, is always a conversion failure. */
  lemma StoiNeedsDigit(s: string)
    requires forall i :: 0 <= i < |s| ==> !IsDigit(s[i])
    ensures Stoi(s) == None
  {
    var t := s[SpaceCount(s)..];
    assert forall i :: 0 <= i < |t| ==> t[i] == s[SpaceCount(s) + i];
    if |t| > 0 && (t[0] == '-' || t[0] == '+') {
      assert DigitCount(t[1..]) == 0 by {
        if |t| > 1 { assert t[1..][0] == t[1]; }
      }
    } else {
      assert DigitCount(t) == 0 by {
        if |t| > 0 { assert !IsDigit(t[0]); }
      }
    }
  }
}
