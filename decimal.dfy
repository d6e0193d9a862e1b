/** Decimal text of integers: the digit strings `std::stoi` reads back in the
    number atom (src/parser.cpp) and the line numbers and columns the error
    renderers write with `operator<<` and `std::setw`. */
module Decimal {

  predicate IsDigitChar(c: char) { '0' <= c <= '9' }

  predicate AllDigits(s: string) {
    forall i :: 0 <= i < |s| ==> IsDigitChar(s[i])
  }

  /** The text that signedNumber produces: an optional '-' and one or more digits. */
  predicate IsSignedNumeral(s: string) {
    || (|s| > 0 && AllDigits(s))
    || (|s| > 1 && s[0] == '-' && AllDigits(s[1..]))
  }

  function DigitValue(c: char): nat
    requires IsDigitChar(c)
  {
    c as int - '0' as int
  }

  /** Value of a digit string, most significant digit first. */
  function DigitsValue(s: string): nat
    requires AllDigits(s)
  {
    if |s| == 0 then 0 else DigitsValue(s[..|s| - 1]) * 10 + DigitValue(s[|s| - 1])
  }

  /** `std::stoi` on the text of a signed numeral (overflow is not modelled). */
  function Stoi(s: string): (v: int)
    requires IsSignedNumeral(s)
    ensures s[0] == '-' ==> v == 0 - DigitsValue(s[1..]) as int && v <= 0
    ensures s[0] != '-' ==> v == DigitsValue(s) && v >= 0
  {
    if s[0] == '-' then 0 - DigitsValue(s[1..]) as int else DigitsValue(s)
  }

  function DigitChar(d: nat): (c: char)
    requires d < 10
    ensures IsDigitChar(c) && DigitValue(c) == d
  {
    ('0' as int + d) as char
  }

  /** What `os << n` writes for a non-negative integer: no leading zeros. */
  function NatToString(n: nat): (s: string)
    ensures |s| > 0 && AllDigits(s)
    ensures |s| > 1 ==> s[0] != '0'
    decreases n
  {
    if n < 10 then [DigitChar(n)] else NatToString(n / 10) + [DigitChar(n % 10)]
  }

  /** Reading the decimal text of `n` back gives `n`. */
  lemma {:induction false} NatToStringRoundTrip(n: nat)
    ensures DigitsValue(NatToString(n)) == n
    decreases n
  {
    if n >= 10 {
      NatToStringRoundTrip(n / 10);
      var s := NatToString(n);
      assert s[..|s| - 1] == NatToString(n / 10);
    }
  }

  /** `std::stoi` reads the text of any integer back to that integer. */
  lemma StoiRoundTrip(v: int)
    ensures IsSignedNumeral(if v < 0 then "-" + NatToString(-v) else NatToString(v))
    ensures Stoi(if v < 0 then "-" + NatToString(-v) else NatToString(v)) == v
  {
    if v < 0 {
      var s := "-" + NatToString(-v);
      assert s[1..] == NatToString(-v);
      NatToStringRoundTrip(-v);
    } else {
      NatToStringRoundTrip(v);
    }
  }

  function Spaces(n: nat): (s: string)
    ensures |s| == n && forall i :: 0 <= i < n ==> s[i] == ' '
  {
    if n == 0 then "" else Spaces(n - 1) + " "
  }

  /** `std::setw(w)` before a string: right-aligned in a field of width `w`,
      never truncated. */
  function PadLeft(s: string, w: nat): (r: string)
    ensures |r| == if |s| < w then w else |s|
    ensures r[|r| - |s|..] == s
    ensures forall i :: 0 <= i < |r| - |s| ==> r[i] == ' '
  {
    if |s| < w then Spaces(w - |s|) + s else s
  }
}
