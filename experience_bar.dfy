/** The experience bar's fill: the share of the needed experience the user
    has, as a percentage clamped to 0..100, and 0 when nothing is needed. */
module ExperienceBar {

  function Min(a: real, b: real): (r: real) { if a <= b then a else b }

  function Max(a: real, b: real): (r: real) { if a >= b then a else b }

  function Percentage(current: real, needed: real): (p: real)
    ensures 0.0 <= p <= 100.0
    ensures needed <= 0.0 ==> p == 0.0
    ensures needed > 0.0 && current <= 0.0 ==> p == 0.0
    ensures needed > 0.0 && current >= needed ==> p == 100.0
    ensures needed > 0.0 && 0.0 <= current <= needed ==> p == current / needed * 100.0
  {
    if needed <= 0.0 then 0.0
    else
      assert current >= needed ==> current / needed >= needed / needed;
      Min(Max(0.0, current / needed * 100.0), 100.0)
  }

  /** More experience never shrinks the bar. */
  lemma PercentageMonotonic(c1: real, c2: real, needed: real)
    requires c1 <= c2
    ensures Percentage(c1, needed) <= Percentage(c2, needed)
  {
    if needed > 0.0 {
      assert c1 / needed <= c2 / needed;
    }
  }
}
