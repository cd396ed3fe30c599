/**
  * Rounding a length to a grid of `meters` with Math.Round's even tie-break,
  * and the facts about it over exact reals.
  */
module Grid {
  import opened Ieee

  /** A length in units of `scale` metres, in metres. */
  function ToMetres(x: real, scale: real): real {
    x * scale
  }

  /** A length in metres, in units of `scale` metres. */
  function FromMetres(g: real, scale: real): real
    requires scale != 0.0
  {
    g / scale
  }

  /** `meters * Math.Round(a / meters)`: `a` rounded to a multiple of `meters`, a tie going to the even multiple. */
  function GridMeters(a: real, meters: real): real
    requires meters != 0.0
  {
    meters * RoundHalfEven(a / meters) as real
  }

  lemma AbsOfProduct(a: real, b: real)
    ensures Abs(a * b) == Abs(a) * Abs(b)
  {
  }

  lemma ScaleMonotone(c: real, a: real, b: real)
    requires c >= 0.0 && a <= b
    ensures c * a <= c * b
  {
  }

  lemma QuotientTimes(a: real, b: real)
    requires b != 0.0
    ensures a / b * b == a
  {
  }

  lemma ProductsOrdered(p: real, q: real, x: real, y: real, z: real)
    requires p == x * y && q == x * z && x * y <= x * z
    ensures p <= q
  {
  }

  lemma ProductHalved(p: real, x: real, y: real)
    requires p == x * y && x * y <= x * 0.5
    ensures p <= x / 2.0
  {
  }

  /** The distance from `m*k` to `a` is |m| times the distance from `a/m` to `k`. */
  lemma ScaledDistance(m: real, k: real, a: real)
    requires m != 0.0
    ensures Abs(m * k - a) == Abs(m) * Abs(a / m - k)
  {
    var d := a / m - k;
    assert m * d == a - m * k;
    AbsOfProduct(m, d);
  }

  /** `g = m*k` with `k` within half of `a/m` is within half a grid step of `a`. */
  lemma WithinHalfStep(m: real, k: real, a: real, g: real)
    requires m != 0.0 && g == m * k && Abs(a / m - k) <= 0.5
    ensures Abs(g - a) <= Abs(m) / 2.0
  {
    ScaledDistance(m, k, a);
    ScaleMonotone(Abs(m), Abs(a / m - k), 0.5);
    ProductHalved(Abs(m * k - a), Abs(m), Abs(a / m - k));
  }

  /** `g = m*k` with `k` nearer to `a/m` than `j` is nearer to `a` than `h = m*j`. */
  lemma NearerStep(m: real, k: real, j: real, a: real, g: real, h: real)
    requires m != 0.0 && g == m * k && h == m * j && Abs(a / m - k) <= Abs(a / m - j)
    ensures Abs(g - a) <= Abs(h - a)
  {
    ScaledDistance(m, k, a);
    ScaledDistance(m, j, a);
    ScaleMonotone(Abs(m), Abs(a / m - k), Abs(a / m - j));
    ProductsOrdered(Abs(m * k - a), Abs(m * j - a), Abs(m), Abs(a / m - k), Abs(a / m - j));
  }

  /** GridMeters moves `a` by at most half a grid step. */
  lemma GridMetersWithinHalfStep(a: real, meters: real)
    requires meters != 0.0
    ensures Abs(GridMeters(a, meters) - a) <= Abs(meters) / 2.0
  {
    WithinHalfStep(meters, RoundHalfEven(a / meters) as real, a, GridMeters(a, meters));
  }

  /** No multiple of `meters` is closer to `a` than the one GridMeters picks. */
  lemma GridMetersNearest(a: real, meters: real, j: int)
    requires meters != 0.0
    ensures Abs(GridMeters(a, meters) - a) <= Abs(meters * j as real - a)
  {
    RoundHalfEvenNearest(a / meters, j);
    NearerStep(meters, RoundHalfEven(a / meters) as real, j as real, a, GridMeters(a, meters), meters * j as real);
  }

  /** Of two equally near multiples, GridMeters picks the even one. */
  lemma GridMetersTie(a: real, meters: real)
    requires meters != 0.0
    ensures Abs(a / meters - RoundHalfEven(a / meters) as real) == 0.5 ==> RoundHalfEven(a / meters) % 2 == 0
  {
    RoundHalfEvenTie(a / meters);
  }

  /** A multiple of `meters` is its own rounding. */
  lemma GridMetersOfMultiple(meters: real, k: int, g: real)
    requires meters != 0.0 && g == meters * k as real
    ensures GridMeters(g, meters) == g
  {
    assert g / meters == k as real;
    RoundHalfEvenOfInteger(k);
  }

  /** Rounding to the grid twice is rounding once. */
  lemma GridMetersIdempotent(a: real, meters: real)
    requires meters != 0.0
    ensures GridMeters(GridMeters(a, meters), meters) == GridMeters(a, meters)
  {
    GridMetersOfMultiple(meters, RoundHalfEven(a / meters), GridMeters(a, meters));
  }

  /** Converting rounded metres to units of `scale` and back gives the same metres, and so the same rounding. */
  lemma GridMetersBack(a: real, scale: real, meters: real)
    requires scale != 0.0 && meters != 0.0
    ensures ToMetres(FromMetres(GridMeters(a, meters), scale), scale) == GridMeters(a, meters)
    ensures GridMeters(ToMetres(FromMetres(GridMeters(a, meters), scale), scale), meters) == GridMeters(a, meters)
  {
    QuotientTimes(GridMeters(a, meters), scale);
    GridMetersIdempotent(a, meters);
  }
}
