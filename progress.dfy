/** Progress percentages: `(double) part / total * 100`, with `0.0` when the
    total is zero (the services test the total first). */
module Progress {

  function Percent(part: nat, total: nat): (r: real)
    ensures total == 0 ==> r == 0.0
    ensures total > 0 ==> r * (total as real) == (part as real) * 100.0
  {
    if total == 0 then 0.0 else (part as real) / (total as real) * 100.0
  }

  /** A part of a total is between 0 and 100 percent: 0 exactly when the part
      is empty, 100 exactly when it is the whole total. */
  lemma PercentBounds(part: nat, total: nat)
    requires part <= total
    ensures 0.0 <= Percent(part, total) <= 100.0
    ensures total > 0 ==> (Percent(part, total) == 0.0 <==> part == 0)
    ensures total > 0 ==> (Percent(part, total) == 100.0 <==> part == total)
  {
    if total > 0 {
      var r, t := Percent(part, total), total as real;
      assert r * t == (part as real) * 100.0;
      assert r * t <= t * 100.0;
      if r == 100.0 {
        assert (part as real) * 100.0 == (total as real) * 100.0;
      }
    }
  }

  /** More of the same total is a larger percentage. */
  lemma PercentMonotone(a: nat, b: nat, total: nat)
    requires a <= b
    ensures Percent(a, total) <= Percent(b, total)
  {
    if total > 0 {
      var t := total as real;
      var ra, rb := Percent(a, total), Percent(b, total);
      assert ra * t <= rb * t;
    }
  }
}
