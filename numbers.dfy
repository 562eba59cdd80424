/** `roundNumber` (two decimal places, `Math.round` rounding halves upwards) over exact reals. */
module Numbers {

  /** True of a number with at most two decimal places. */
  predicate TwoDecimal(x: real) {
    (x * 100.0).Floor as real == x * 100.0
  }

  /** `Math.round(x * 100) / 100`: the two-decimal number nearest to `x`, halves going up. */
  function Round2(x: real): (r: real)
    ensures TwoDecimal(r)
    ensures x - 0.005 < r <= x + 0.005
  {
    var k := (x * 100.0 + 0.5).Floor;
    assert (k as real / 100.0) * 100.0 == k as real;
    k as real / 100.0
  }

  lemma {:induction false} Round2Monotone(x: real, y: real)
    requires x <= y
    ensures Round2(x) <= Round2(y)
  {
    var a := (x * 100.0 + 0.5).Floor;
    var b := (y * 100.0 + 0.5).Floor;
    assert x * 100.0 + 0.5 <= y * 100.0 + 0.5;
    assert a <= b;
  }

  /** Rounding leaves a two-decimal number alone, so rounding twice is rounding once. */
  lemma {:induction false} Round2Fixes(x: real)
    requires TwoDecimal(x)
    ensures Round2(x) == x
  {
    var k := (x * 100.0).Floor;
    assert (x * 100.0 + 0.5).Floor == k;
  }

  lemma Round2Idempotent(x: real)
    ensures Round2(Round2(x)) == Round2(x)
  {
    Round2Fixes(Round2(x));
  }

  /** The 120% headroom: 1.2 times a non-negative two-decimal number, rounded, is never
      below the number itself. */
  lemma {:induction false} Headroom(x: real)
    requires TwoDecimal(x) && x >= 0.0
    ensures Round2(x * 1.2) >= x
  {
    var k := (x * 100.0).Floor;
    assert x * 100.0 == k as real;
    assert x * 1.2 * 100.0 + 0.5 == k as real * 1.2 + 0.5;
    assert k as real * 1.2 + 0.5 >= k as real;
    assert (x * 1.2 * 100.0 + 0.5).Floor >= k;
  }
}
