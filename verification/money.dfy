/**
 * `round2` from the money helpers, over exact reals. JavaScript's
 * `Math.round(y)` is `floor(y + 1/2)` (halves go towards +infinity), so
 * `round2(n) = Math.round(100 n) / 100` becomes `Floor(100 x + 1/2) / 100`.
 */
module Money {

  /** A whole number of cents: 100 x is an integer. */
  predicate IsWholeCents(x: real) {
    (100.0 * x).Floor as real == 100.0 * x
  }

  function Round2(x: real): (r: real)
    ensures IsWholeCents(r)
    ensures x - 0.005 < r <= x + 0.005
    ensures x == 0.0 ==> r == 0.0
  {
    var k := (100.0 * x + 0.5).Floor;
    assert (100.0 * (k as real / 100.0)) == k as real;
    k as real / 100.0
  }

  /** A value that already is a whole number of cents is not moved. */
  lemma Round2WholeCents(x: real)
    requires IsWholeCents(x)
    ensures Round2(x) == x
  {
    var k := (100.0 * x).Floor;
    assert 100.0 * x + 0.5 == k as real + 0.5;
    assert (k as real + 0.5).Floor == k;
  }

  /** Rounding twice is rounding once. */
  lemma Round2Idempotent(x: real)
    ensures Round2(Round2(x)) == Round2(x)
  {
    Round2WholeCents(Round2(x));
  }

  /** Whole cents are closed under addition (so sums of rounded fields stay in cents). */
  lemma WholeCentsAdd(a: real, b: real)
    requires IsWholeCents(a) && IsWholeCents(b)
    ensures IsWholeCents(a + b)
  {
    var i := (100.0 * a).Floor;
    var j := (100.0 * b).Floor;
    assert 100.0 * (a + b) == (i + j) as real;
  }
}
