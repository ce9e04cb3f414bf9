/**
  Decimal integer conversion as the ingestion uses it: `Atoi` reads an
  optionally signed run of ASCII digits and yields 0 for anything else,
  since the caller discards the error. `Itoa` is its partner, used to
  state the round trip.
 */
module Strconv {

  predicate IsDigit(c: char) {
    '0' <= c <= '9'
  }

  predicate IsDigits(s: string) {
    forall i :: 0 <= i < |s| ==> IsDigit(s[i])
  }

  function DigitValue(c: char): nat
    requires IsDigit(c)
  {
    (c as int) - ('0' as int)
  }

  function DigitChar(d: nat): (c: char)
    requires d < 10
    ensures IsDigit(c) && DigitValue(c) == d
  {
    (('0' as int) + d) as char
  }

  /** The value of a run of digits, most significant first. */
  function DigitsValue(s: string): nat
    requires IsDigits(s)
    decreases |s|
  {
    if |s| == 0 then 0 else 10 * DigitsValue(s[..|s| - 1]) + DigitValue(s[|s| - 1])
  }

  predicate HasSign(s: string) {
    |s| > 0 && (s[0] == '+' || s[0] == '-')
  }

  /** The text after an optional leading sign. */
  function Magnitude(s: string): string {
    if HasSign(s) then s[1..] else s
  }

  /** The accepted syntax: an optional sign followed by at least one digit. */
  predicate IsDecimal(s: string) {
    |Magnitude(s)| > 0 && IsDigits(Magnitude(s))
  }

  /** Go's `strconv.Atoi` with its error discarded: the value of a well-formed
      decimal, and 0 for text that is not one (empty, a lone sign, spaces,
      a fraction, any other character). */
  function Atoi(s: string): (n: int)
    ensures !IsDecimal(s) ==> n == 0
    ensures n < 0 ==> IsDecimal(s) && s[0] == '-'
    ensures IsDecimal(s) && s[0] == '-' ==> n <= 0
  {
    if !IsDecimal(s) then 0
    else if s[0] == '-' then -(DigitsValue(Magnitude(s)) as int)
    else DigitsValue(Magnitude(s))
  }

  /** The shortest digit string of a natural number. */
  function NatDigits(n: nat): (s: string)
    ensures |s| > 0 && IsDigits(s)
    ensures DigitsValue(s) == n
    ensures s[0] != '+' && s[0] != '-'
    decreases n
  {
    if n < 10 then [DigitChar(n)]
    else
      var front := NatDigits(n / 10);
      var s := front + [DigitChar(n % 10)];
      assert s[..|s| - 1] == front;
      s
  }

  /** Decimal rendering of an integer (Go's `strconv.Itoa`); `Atoi` inverts it. */
  function Itoa(n: int): (s: string)
    ensures IsDecimal(s)
    ensures Atoi(s) == n
  {
    if n < 0 then
      var d := NatDigits(-n);
      var s := "-" + d;
      assert Magnitude(s) == d;
      s
    else
      var d := NatDigits(n);
      assert Magnitude(d) == d;
      d
  }

  /** Leading zeros and a '+' sign do not change the value. */
  lemma {:induction false} LeadingZerosIgnored(s: string)
    requires IsDigits(s)
    ensures Atoi("0" + s) == DigitsValue(s)
    ensures |s| > 0 ==> Atoi("+" + s) == DigitsValue(s)
    decreases |s|
  {
    var z := "0" + s;
    assert Magnitude(z) == z;
    assert IsDigits(z);
    ZeroPrefixValue(s);
    if |s| > 0 {
      var p := "+" + s;
      assert Magnitude(p) == s;
    }
  }

  lemma {:induction false} ZeroPrefixValue(s: string)
    requires IsDigits(s)
    ensures IsDigits("0" + s) && DigitsValue("0" + s) == DigitsValue(s)
    decreases |s|
  {
    var z := "0" + s;
    if |s| > 0 {
      var init := s[..|s| - 1];
      assert z[..|z| - 1] == "0" + init;
      ZeroPrefixValue(init);
    } else {
      assert z[..|z| - 1] == [];
    }
  }
}
