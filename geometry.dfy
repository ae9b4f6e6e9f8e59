/**
 * Screen geometry of the game: Go's truncating math.Mod on reals, the two
 * wrap-arounds the update loop builds from it (one for asteroids, one for
 * stars), and the bullet-versus-asteroid hit test.
 *
 * Reals stand for float64 values, as an exact idealisation.
 */
module Geometry {

  const ScreenWidth: real := 640.0
  const ScreenHeight: real := 480.0

  /** The two moduli the game wraps by: the screen's width and its height. */
  predicate IsScreenSide(m: real) {
    m == ScreenWidth || m == ScreenHeight
  }

  /** A point inside the screen rectangle [0, 640) x [0, 480). */
  predicate OnScreen(x: real, y: real) {
    0.0 <= x < ScreenWidth && 0.0 <= y < ScreenHeight
  }

  // ---------------------------------------------------------------------
  // Truncation and Go's math.Mod.

  /** Truncation toward zero, as Go's conversion of a float to an int does. */
  function Trunc(v: real): (n: int)
    ensures 0.0 <= v ==> 0 <= n && n as real <= v < n as real + 1.0
    ensures v < 0.0 ==> n <= 0 && n as real - 1.0 < v <= n as real
  {
    if v >= 0.0 then v.Floor else -((-v).Floor)
  }

  /** The fractional part of q; it has the sign of q. */
  function Frac(q: real): (f: real)
    ensures 0.0 <= q ==> 0.0 <= f < 1.0
    ensures q < 0.0 ==> -1.0 < f <= 0.0
  {
    q - Trunc(q) as real
  }

  /** v is a whole number of m's: v / m has no fractional part. */
  predicate IsMultiple(v: real, m: real)
    requires m > 0.0
  {
    Frac(v / m) == 0.0
  }

  /** Go's math.Mod(v, m) for m > 0: v minus m times the quotient v / m truncated toward zero. */
  function GoMod(v: real, m: real): real
    requires m > 0.0
  {
    v - m * Trunc(v / m) as real
  }

  /**
   * math.Mod by a screen side takes the sign of its dividend, is smaller
   * than the modulus in magnitude, and is zero exactly when the dividend is
   * a whole number of moduli.
   */
  lemma GoModRange(v: real, m: real)
    requires IsScreenSide(m)
    ensures 0.0 <= v ==> 0.0 <= GoMod(v, m) < m
    ensures v < 0.0 ==> -m < GoMod(v, m) <= 0.0
    ensures GoMod(v, m) == 0.0 <==> IsMultiple(v, m)
  {
    if m == ScreenWidth {
      assert GoMod(v, m) == 640.0 * Frac(v / 640.0);
    } else {
      assert GoMod(v, m) == 480.0 * Frac(v / 480.0);
    }
  }

  // ---------------------------------------------------------------------
  // The two wrap-arounds.

  /**
   * The asteroid wrap: math.Mod(v + m, m), plus one more m when that is
   * negative. It lands in [0, m) whatever v is, and leaves an in-range
   * value alone.
   */
  function WrapAsteroid(v: real, m: real): (r: real)
    requires IsScreenSide(m)
    ensures 0.0 <= r < m
    ensures 0.0 <= v < m ==> r == v
  {
    var w := GoMod(v + m, m);
    GoModRange(v + m, m);
    WrapIdentity(v, m);
    if w < 0.0 then w + m else w
  }

  lemma WrapIdentity(v: real, m: real)
    requires IsScreenSide(m)
    ensures 0.0 <= v < m ==> GoMod(v + m, m) == v
  {
    if 0.0 <= v < m {
      assert Trunc((v + m) / m) == 1;
    }
  }

  /**
   * The star wrap: math.Mod(v + m, m), with no fix-up for a negative
   * result. It stays strictly within one screen of zero, it lands in
   * [0, m) exactly when v is at least -m or v + m is a whole number of m's
   * (math.Mod returns a zero then), and it leaves an in-range value alone.
   */
  function WrapStar(v: real, m: real): (r: real)
    requires IsScreenSide(m)
    ensures -m < r < m
    ensures 0.0 <= r < m <==> -m <= v || IsMultiple(v + m, m)
    ensures 0.0 <= v < m ==> r == v
  {
    GoModRange(v + m, m);
    WrapIdentity(v, m);
    GoMod(v + m, m)
  }

  // ---------------------------------------------------------------------
  // The hit test.

  /**
   * math.Sqrt, passed in: a function that returns the square root of every
   * non-negative real. The quantifier fires on Root terms only, so that a
   * proof that is not about square roots mentions no Root and never sees it.
   */
  ghost predicate IsSqrt(sqrt: real -> real) {
    forall v: real {:trigger Root(sqrt, v)} :: 0.0 <= v ==> 0.0 <= Root(sqrt, v) && Root(sqrt, v) * Root(sqrt, v) == v
  }

  /** What sqrt returns for v. */
  function Root(sqrt: real -> real, v: real): real {
    sqrt(v)
  }

  /** The source's distance(x1, y1, x2, y2), over a supplied square root. */
  function Distance(sqrt: real -> real, x1: real, y1: real, x2: real, y2: real): real {
    sqrt((x1 - x2) * (x1 - x2) + (y1 - y2) * (y1 - y2))
  }

  /**
   * distance(ax, ay, px, py) < size / 2 without the square root: the squared
   * distance, times four, is below the squared size, and the size is positive.
   */
  predicate Hit(ax: real, ay: real, px: real, py: real, size: real) {
    0.0 < size && 4.0 * ((ax - px) * (ax - px) + (ay - py) * (ay - py)) < size * size
  }

  lemma MulMono(m: real, a: real, b: real)
    requires 0.0 < m && a <= b
    ensures m * a <= m * b
  {
    assert m * b - m * a == m * (b - a);
  }

  lemma MulStrict(m: real, a: real, b: real)
    requires 0.0 < m && a < b
    ensures m * a < m * b
  {
    assert m * b - m * a == m * (b - a);
  }

  /** Between non-negative numbers, squaring keeps the order. */
  lemma SquareLess(d: real, h: real)
    requires 0.0 <= d && 0.0 < h
    ensures d < h <==> d * d < h * h
  {
    if d < h {
      MulStrict(d + h, d, h);
    } else {
      MulMono(h, h, d);
      MulMono(d, h, d);
    }
  }

  /** For any true square root, Hit is exactly the source's distance test. */
  lemma HitIsDistanceTest(sqrt: real -> real, ax: real, ay: real, px: real, py: real, size: real)
    requires IsSqrt(sqrt)
    ensures Hit(ax, ay, px, py, size) <==> Distance(sqrt, ax, ay, px, py) < size / 2.0
  {
    var d2 := (ax - px) * (ax - px) + (ay - py) * (ay - py);
    var d := Distance(sqrt, ax, ay, px, py);
    assert d == Root(sqrt, d2);
    var h := size / 2.0;
    if 0.0 < size {
      assert size * size == 4.0 * (h * h);
      SquareLess(d, h);
    }
  }
}
