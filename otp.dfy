/**
 * The one-time code of a shared bundle: `String.format("%06d", new Random().nextInt(999999))`.
 * The random draw is a parameter; the formatting is modelled with ASCII digits, as the
 * default locale prints them when its zero digit is `0`.
 */
module Otp {

  /** `nextInt(999999)` draws from 0 .. 999998. */
  const DrawBound: nat := 999999

  /** The code column has length 6. */
  const Length: nat := 6

  predicate IsDigit(c: char) {
    '0' <= c <= '9'
  }

  predicate IsDigits(s: string) {
    forall i :: 0 <= i < |s| ==> IsDigit(s[i])
  }

  function DigitChar(d: nat): (c: char)
    requires d < 10
    ensures IsDigit(c) && c as int - '0' as int == d
  {
    ('0' as int + d) as char
  }

  function Pow10(n: nat): (p: nat)
    ensures p >= 1
  {
    if n == 0 then 1 else 10 * Pow10(n - 1)
  }

  /** The number a string of decimal digits denotes, most significant digit first. */
  function ValueOf(s: string): (v: nat)
    requires IsDigits(s)
  {
    if s == [] then 0
    else ValueOf(s[..|s| - 1]) * 10 + (s[|s| - 1] as int - '0' as int)
  }

  /** `%0<width>d` for a number of at most `width` digits: its digits, padded on the left with zeros. */
  function PadDecimal(k: nat, width: nat): (s: string)
    requires k < Pow10(width)
    ensures |s| == width && IsDigits(s)
  {
    if width == 0 then "" else PadDecimal(k / 10, width - 1) + [DigitChar(k % 10)]
  }

  /** Reading back a padded number gives the number, leading zeros included, when it fits the width. */
  lemma {:induction false} PadDecimalRoundTrip(k: nat, width: nat)
    requires k < Pow10(width)
    ensures ValueOf(PadDecimal(k, width)) == k
  {
    if width > 0 {
      PadDecimalRoundTrip(k / 10, width - 1);
      var s := PadDecimal(k, width);
      assert s[..|s| - 1] == PadDecimal(k / 10, width - 1);
    }
  }

  /** The code of a bundle created with random draw `k`: six digits whose value is `k`. */
  function Format(k: nat): (otp: string)
    requires k < DrawBound
    ensures |otp| == Length && IsDigits(otp)
    ensures ValueOf(otp) == k
  {
    PadDecimalRoundTrip(k, Length);
    PadDecimal(k, Length)
  }

  /** Distinct draws give distinct codes, and the code "999999" is never issued. */
  lemma FormatInjective(a: nat, b: nat)
    requires a < DrawBound && b < DrawBound
    ensures Format(a) == Format(b) <==> a == b
    ensures Format(a) != "999999"
  {
    var nines := "999999";
    assert ValueOf(nines[..1]) == 9;
    assert nines[..2][..1] == nines[..1];
    assert ValueOf(nines[..2]) == 99;
    assert nines[..3][..2] == nines[..2];
    assert ValueOf(nines[..3]) == 999;
    assert nines[..4][..3] == nines[..3];
    assert ValueOf(nines[..4]) == 9999;
    assert nines[..5][..4] == nines[..4];
    assert ValueOf(nines[..5]) == 99999;
    assert nines[..5] == nines[..|nines| - 1];
    assert ValueOf(nines) == 999999;
  }
}
