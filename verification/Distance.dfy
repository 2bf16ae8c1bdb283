/** The distance without a square root: shifts and sums on 32-bit integers. */
module Distance {

  const HALF := 0x8000_0000

  /** Rust's `i32`. */
  type i32 = x: int | -0x8000_0000 <= x < 0x8000_0000

  predicate Fits(x: int) {
    -HALF <= x < HALF
  }

  /** What a 32-bit register keeps of a whole number. */
  function Wrap(x: int): (r: i32) {
    (x + HALF) % 0x1_0000_0000 - HALF
  }

  function Power(n: nat): (p: nat)
    ensures p > 0
  {
    if n == 0 then 1 else 2 * Power(n - 1)
  }

  /** `<<`: what is shifted out is dropped. */
  function Shl(x: i32, n: nat): (r: i32)
    requires n < 32
  {
    Wrap(x * Power(n))
  }

  function Magnitude(x: int): (r: nat) {
    if x < 0 then -x else x
  }

  /** The four terms of the larger magnitude, each sum wrapped in turn. */
  function MaxTerms(max: i32): (r: i32) {
    Wrap(Wrap(Wrap(Shl(max, 8) + Shl(max, 3)) - Shl(max, 4)) - Shl(max, 1))
  }

  /** Then the four terms of the smaller one. */
  function MinTerms(a: i32, min: i32): (r: i32) {
    Wrap(Wrap(Wrap(Wrap(a + Shl(min, 7)) - Shl(min, 5)) + Shl(min, 3)) - Shl(min, 1))
  }

  function Terms(max: i32, min: i32): (r: i32) {
    MinTerms(MaxTerms(max), min)
  }

  /** `distance_approx` with the arithmetic of a release build: `abs` wraps too,
      and `>> 8` rounds down. */
  function Approx(dx: i32, dy: i32): (d: i32)
    ensures d < 0x80_0000
  {
    Ordered(Wrap(Magnitude(dx)), Wrap(Magnitude(dy))) / 256
  }

  function Ordered(x: i32, y: i32): (t: i32) {
    if x < y then Terms(y, x) else Terms(x, y)
  }

  // ------------------------------------------------- the formula it stands for

  function Larger(dx: int, dy: int): (r: nat) {
    if Magnitude(dx) < Magnitude(dy) then Magnitude(dy) else Magnitude(dx)
  }

  function Smaller(dx: int, dy: int): (r: nat) {
    if Magnitude(dx) < Magnitude(dy) then Magnitude(dx) else Magnitude(dy)
  }

  /** 256 times the approximate distance. */
  function Formula(dx: int, dy: int): (n: nat) {
    246 * Larger(dx, dy) + 102 * Smaller(dx, dy)
  }

  /** Equal up to multiples of 2^32. */
  predicate Same(x: int, y: int) {
    (x - y) % 0x1_0000_0000 == 0
  }

  lemma WrapSame(x: int)
    ensures Same(Wrap(x), x)
  {
    var q := (x + HALF) / 0x1_0000_0000;
    assert Wrap(x) - x == 0x1_0000_0000 * -q;
  }

  lemma SumSame(x: int, y: int, z: int, w: int)
    requires Same(x, y) && Same(z, w)
    ensures Same(Wrap(x + z), y + w) && Same(Wrap(x - z), y - w)
  {
    SameTransitive(Wrap(x + z), x + z, y + w);
    SameTransitive(Wrap(x - z), x - z, y - w);
  }

  lemma SameTransitive(v: int, x: int, y: int)
    requires v == Wrap(x) && Same(x, y)
    ensures Same(v, y)
  {
    WrapSame(x);
  }

  lemma ShlSame(x: i32, n: nat, p: nat)
    requires n < 32 && Power(n) == p
    ensures Same(Shl(x, n), x * p)
  {
    WrapSame(x * p);
  }

  lemma ThreeSteps(a: int, b: int, c: int, d: int, p: int, q: int, r: int, s: int)
    requires Same(a, p) && Same(b, q) && Same(c, r) && Same(d, s)
    ensures Same(Wrap(Wrap(Wrap(a + b) - c) - d), p + q - r - s)
  {
    SumSame(a, p, b, q);
    SumSame(Wrap(a + b), p + q, c, r);
    SumSame(Wrap(Wrap(a + b) - c), p + q - r, d, s);
  }

  lemma FourSteps(a: int, b: int, c: int, d: int, e: int, p: int, q: int, r: int, s: int, t: int)
    requires Same(a, p) && Same(b, q) && Same(c, r) && Same(d, s) && Same(e, t)
    ensures Same(Wrap(Wrap(Wrap(Wrap(a + b) - c) + d) - e), p + q - r + s - t)
  {
    SumSame(a, p, b, q);
    SumSame(Wrap(a + b), p + q, c, r);
    SumSame(Wrap(Wrap(a + b) - c), p + q - r, d, s);
    SumSame(Wrap(Wrap(Wrap(a + b) - c) + d), p + q - r + s, e, t);
  }

  lemma MaxTermsSame(max: i32)
    ensures Same(MaxTerms(max), 246 * max)
  {
    ShlSame(max, 8, 256);
    ShlSame(max, 3, 8);
    ShlSame(max, 4, 16);
    ShlSame(max, 1, 2);
    ThreeSteps(Shl(max, 8), Shl(max, 3), Shl(max, 4), Shl(max, 1), max * 256, max * 8, max * 16, max * 2);
  }

  lemma MinTermsSame(a: i32, p: int, min: i32)
    requires Same(a, p)
    ensures Same(MinTerms(a, min), p + 102 * min)
  {
    ShlSame(min, 7, 128);
    ShlSame(min, 5, 32);
    ShlSame(min, 3, 8);
    ShlSame(min, 1, 2);
    FourSteps(a, Shl(min, 7), Shl(min, 5), Shl(min, 3), Shl(min, 1), p, min * 128, min * 32, min * 8, min * 2);
  }

  /** The wrapped terms agree with the formula up to multiples of 2^32. */
  lemma TermsSame(max: i32, min: i32)
    ensures Same(Terms(max, min), 246 * max + 102 * min)
  {
    MaxTermsSame(max);
    MinTermsSame(MaxTerms(max), 246 * max, min);
  }

  lemma TermsFit(max: i32, min: i32)
    requires Fits(246 * max + 102 * min)
    ensures Terms(max, min) == 246 * max + 102 * min
  {
    TermsSame(max, min);
    SameFits(Terms(max, min), 246 * max + 102 * min);
  }

  lemma OrderedFits(dx: i32, dy: i32)
    requires Formula(dx, dy) < HALF
    ensures Ordered(Wrap(Magnitude(dx)), Wrap(Magnitude(dy))) == Formula(dx, dy)
  {
    assert Wrap(Magnitude(dx)) == Magnitude(dx) && Wrap(Magnitude(dy)) == Magnitude(dy);
    TermsFit(Larger(dx, dy), Smaller(dx, dy));
  }

  lemma SameFits(x: int, y: int)
    requires Same(x, y) && Fits(x) && Fits(y)
    ensures x == y
  {
  }

  /** The shifts compute the formula, rounded down, exactly when the formula
      itself fits the register: for every pair of 32-bit differences. */
  lemma ApproxExact(dx: i32, dy: i32)
    ensures Approx(dx, dy) == Formula(dx, dy) / 256 <==> Formula(dx, dy) < HALF
  {
    if Formula(dx, dy) < HALF {
      OrderedFits(dx, dy);
    }
  }

  /** Every shifted term and every partial sum, in the order of evaluation, fits:
      a checked build does not stop and no shift loses a bit. */
  predicate NothingLost(dx: int, dy: int) {
    var max, min := Larger(dx, dy), Smaller(dx, dy);
    Fits(max) && Fits(min) &&
    Fits(max * 256) && Fits(max * 8) && Fits(max * 256 + max * 8) && Fits(max * 16) &&
    Fits(max * 256 + max * 8 - max * 16) && Fits(max * 2) && Fits(max * 246) && Fits(min * 128) &&
    Fits(max * 246 + min * 128) && Fits(min * 32) && Fits(max * 246 + min * 96) && Fits(min * 8) &&
    Fits(max * 246 + min * 104) && Fits(min * 2) && Fits(max * 246 + min * 102)
  }

  /** The two peaks of the evaluation decide; coordinates up to 5,000,000 are
      well below them, and then the result is exact. */
  lemma NothingLostExactly(dx: i32, dy: i32)
    ensures NothingLost(dx, dy) <==>
            264 * Larger(dx, dy) < HALF && 246 * Larger(dx, dy) + 128 * Smaller(dx, dy) < HALF
    ensures NothingLost(dx, dy) ==> Approx(dx, dy) == Formula(dx, dy) / 256
    ensures Magnitude(dx) <= 5_000_000 && Magnitude(dy) <= 5_000_000 ==> NothingLost(dx, dy)
  {
    ApproxExact(dx, dy);
  }

  // --------------------------------------------------- what the formula means

  /** Only the magnitudes count, in either order; wrapped results included. */
  lemma Symmetric(dx: i32, dy: i32)
    ensures Approx(dx, dy) == Approx(dy, dx)
    ensures dx > -HALF ==> Approx(-dx, dy) == Approx(dx, dy)
  {
  }

  /** Farther along both axes is never nearer, while the far one fits. */
  lemma Monotone(dx: i32, dy: i32, ex: i32, ey: i32)
    requires Magnitude(dx) <= Magnitude(ex) && Magnitude(dy) <= Magnitude(ey)
    requires Formula(ex, ey) < HALF
    ensures Approx(dx, dy) <= Approx(ex, ey)
  {
    assert Formula(dx, dy) == 144 * Larger(dx, dy) + 102 * (Magnitude(dx) + Magnitude(dy));
    assert Formula(ex, ey) == 144 * Larger(ex, ey) + 102 * (Magnitude(ex) + Magnitude(ey));
    ApproxExact(dx, dy);
    ApproxExact(ex, ey);
  }

  function Square(x: int): (s: nat) {
    SquareSign(x);
    x * x
  }

  lemma SquareSign(x: int)
    ensures x * x >= 0 && x * x == -x * -x
  {
  }

  lemma SquareGap(x: nat, gap: nat)
    ensures Square(x + gap) == Square(x) + gap * (2 * x + gap)
    ensures gap > 0 ==> gap * (2 * x + gap) > 0
  {
  }

  lemma SquareOrder(x: nat, y: nat)
    requires x <= y
    ensures Square(x) <= Square(y)
    ensures x < y ==> Square(x) < Square(y)
  {
    SquareGap(x, y - x);
  }

  /** The square of the formula, above and below, in terms of the true square of
      the distance. */
  lemma FormulaSquare(m: nat, n: nat)
    requires n <= m
    ensures Square(246 * m + 102 * n) <= 70920 * (Square(m) + Square(n))
    ensures Square(246 * m + 102 * n) >= 60516 * (Square(m) + Square(n))
  {
    var mn := m * n;
    assert Square(246 * m + 102 * n) == 60516 * Square(m) + 50184 * mn + 10404 * Square(n);
    assert Square(102 * m - 246 * n) == 10404 * Square(m) - 50184 * mn + 60516 * Square(n);
    assert mn >= Square(n) by { assert mn == Square(n) + (m - n) * n; }
  }

  /** The result is at most 1.0403 times the true distance, and one more than
      the result is above 0.9609 times it. */
  lemma WithinBounds(dx: i32, dy: i32)
    requires Formula(dx, dy) < HALF
    ensures var d := Approx(dx, dy);
            65536 * Square(d) <= 70920 * (Square(dx) + Square(dy)) &&
            65536 * Square(d + 1) > 60516 * (Square(dx) + Square(dy))
  {
    ApproxExact(dx, dy);
    var d, f := Approx(dx, dy), Formula(dx, dy);
    Sandwich(d, f);
    FormulaSquare(Larger(dx, dy), Smaller(dx, dy));
    SquareSign(dx);
    SquareSign(dy);
  }

  lemma Sandwich(d: nat, f: nat)
    requires d == f / 256
    ensures 65536 * Square(d) <= Square(f) < 65536 * Square(d + 1)
  {
    SquareOrder(256 * d, f);
    SquareOrder(f, 256 * (d + 1));
    assert Square(256 * d) == 65536 * Square(d);
    assert Square(256 * (d + 1)) == 65536 * Square(d + 1);
  }
}
