/** The heading readout of the compass handler: a heading in whole degrees
    shown as a fixed-point count of half turns ("multiples of pi") with two
    decimals. Degrees are non-negative, so C's truncating `/` and `%` agree
    with Dafny's. */
module Readout {

  /** The units field, `(deg * 2) / 360`: the whole number of half turns,
      that is, the integer part of deg / 180. */
  function Units(deg: nat): (u: nat)
    ensures u * 180 <= deg < (u + 1) * 180
    ensures deg < 360 ==> (u == 0 <==> deg < 180) && (u == 1 <==> 180 <= deg)
  {
    (deg * 2) / 360
  }

  /** The hundredths field, `((deg * 200) / 360) % 100`: together with the
      units field it is deg / 180 truncated to two decimals. */
  function Hundredths(deg: nat): (h: nat)
    ensures 0 <= h <= 99
    ensures Units(deg) * 100 + h == (deg * 200) / 360
    ensures (Units(deg) * 100 + h) * 180 <= deg * 100 < (Units(deg) * 100 + h + 1) * 180
  {
    var c := (deg * 200) / 360;
    ScaledQuotient(deg);
    c % 100
  }

  /** `(deg * 200) / 360` counts hundredths of a half turn and splits into
      the units field and a remainder below 100. */
  lemma ScaledQuotient(deg: nat)
    ensures ((deg * 200) / 360) / 100 == (deg * 2) / 360
    ensures ((deg * 200) / 360) * 180 <= deg * 100 < ((deg * 200) / 360 + 1) * 180
  {
  }

  /** Within one turn the units field is a single digit, 0 or 1. */
  lemma UnitsIsOneDigit(deg: nat)
    requires deg < 360
    ensures Units(deg) == 0 || Units(deg) == 1
  {
  }

  /** The readout is monotonic in the heading: turning further never shows a
      smaller number of half turns. */
  lemma ReadoutMonotonic(d1: nat, d2: nat)
    requires d1 <= d2
    ensures Units(d1) * 100 + Hundredths(d1) <= Units(d2) * 100 + Hundredths(d2)
  {
  }

  /** 185 degrees reads as 1.02 half turns. */
  lemma Readout185()
    ensures Units(185) == 1 && Hundredths(185) == 2
  {
  }
}
