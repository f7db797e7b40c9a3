/** What the root finders interpolate: the zero of a chord, or the value at zero of the parabola that
    gives the abscissa as a function of the value, and when Brent's method takes it. */
module Interpolation {
  import opened EventTypes
  import opened RootFinding

  // ----- the interpolated points ---------------------------------------------------------------------

  /** The chord through `(a, fa)` and `(c, fc)` is zero at `x`. */
  ghost predicate ChordZero(x: real, a: real, fa: real, c: real, fc: real) {
    fa != fc && (x - a) * (fc - fa) == -fa * (c - a)
  }

  lemma SecantIsChordZero(a: real, fa: real, c: real, fc: real)
    requires fa != fc
    ensures ChordZero(Secant(a, fa, c, fc), a, fa, c, fc)
  {
    var x := Secant(a, fa, c, fc);
    assert x * (fc - fa) == a * fc - c * fa;
  }

  /** The abscissa at value `y` of the parabola with these coefficients. */
  function Parabola(x: real, al: real, be: real, y: real): real {
    x + al * y + be * y * y
  }

  ghost predicate Passes(x: real, al: real, be: real, s: BracketState) {
    && s.a == Parabola(x, al, be, s.fa)
    && s.b == Parabola(x, al, be, s.fb)
    && s.c == Parabola(x, al, be, s.fc)
  }

  ghost predicate DistinctValues(s: BracketState) {
    s.fa != s.fb && s.fb != s.fc && s.fa != s.fc
  }

  /** `x` is where the chord through the two points, or the parabola through the three, puts zero. */
  ghost predicate Interpolates(s: BracketState, x: real) {
    if s.a == s.c then ChordZero(x, s.b, s.fb, s.c, s.fc)
    else DistinctValues(s) && exists al: real, be: real :: Passes(x, al, be, s)
  }

  /** Three points with distinct values have such a parabola. */
  lemma ParabolaExists(s: BracketState) returns (x: real, al: real, be: real)
    requires DistinctValues(s)
    ensures Passes(x, al, be, s)
  {
    var A, B, C := s.fa, s.fb, s.fc;
    var p := (s.b - s.a) / (B - A);
    var q := (s.c - s.b) / (C - B);
    be := (q - p) / (C - A);
    al := p - be * (A + B);
    x := s.b - al * B - be * B * B;
    assert p * (B - A) == s.b - s.a && q * (C - B) == s.c - s.b && be * (C - A) == q - p;
    NewtonForm(al, be, p, A, B);
    assert q == al + be * (B + C);
    NewtonForm(al, be, q, B, C);
  }

  lemma NewtonForm(al: real, be: real, slope: real, y: real, z: real)
    requires slope == al + be * (y + z)
    ensures Parabola(0.0, al, be, z) - Parabola(0.0, al, be, y) == slope * (z - y)
  {
  }

  // ----- Brent's quotient is the interpolated point ----------------------------------------------------

  /** The step that a numerator and a denominator stand for, however their signs are arranged. */
  lemma StepOf(p0: real, q0: real)
    requires q0 != 0.0
    ensures var q := if p0 > 0.0 then -q0 else q0;
      Abs(p0) / q == -(p0 / q0)
  {
    if p0 > 0.0 {
      Quotient(p0, -q0, -(p0 / q0));
    } else {
      Quotient(-p0, q0, -(p0 / q0));
    }
  }

  lemma Quotient(n: real, d: real, x: real)
    requires d != 0.0 && x * d == n
    ensures n / d == x
  {
  }

  lemma SecantStep(s: BracketState, xm: real, x: real)
    requires s.a == s.c && s.fa == s.fc != 0.0 && xm == 0.5 * (s.c - s.b) && ChordZero(x, s.b, s.fb, s.c, s.fc)
    ensures var (p0, q0) := Interpolant(s.a, s.fa, s.b, s.fb, s.c, s.fc, xm);
      q0 != 0.0 && p0 == -(x - s.b) * q0
  {
    var r, d := s.fb / s.fa, x - s.b;
    assert r * s.fa == s.fb;
    assert d * (s.fa - s.fb) == -s.fb * (s.c - s.b);
    assert (d * (1.0 - r) + r * (s.c - s.b)) * s.fa == 0.0;
    assert d * (1.0 - r) + r * (s.c - s.b) == 0.0;
  }

  /** Numerator and denominator without their divisions, and the factor that clears these. */
  function Top(s: BracketState): real {
    (s.c - s.b) * s.fa * (s.fa - s.fb) - (s.b - s.a) * (s.fb - s.fc) * s.fc
  }

  function Product(x: real, y: real, z: real): real {
    x * y * z
  }

  function Bottom(s: BracketState): real {
    Product(s.fa - s.fc, s.fb - s.fc, s.fb - s.fa)
  }

  function Scale(s: BracketState): real {
    Product(s.fa, s.fc, s.fc)
  }

  lemma NonzeroProduct(x: real, y: real)
    requires x != 0.0 && y != 0.0
    ensures x * y != 0.0
  {
  }

  lemma Nonzero(s: BracketState)
    requires s.fa != 0.0 && s.fc != 0.0 && DistinctValues(s)
    ensures Bottom(s) != 0.0 && Scale(s) != 0.0
  {
    hide Product;
    ThreeFactors(s.fa, s.fc, s.fc);
    ThreeFactors(s.fa - s.fc, s.fb - s.fc, s.fb - s.fa);
  }

  lemma ThreeFactors(x: real, y: real, z: real)
    requires x != 0.0 && y != 0.0 && z != 0.0
    ensures Product(x, y, z) != 0.0
  {
    NonzeroProduct(x, y);
    var w := x * y;
    NonzeroProduct(w, z);
  }

  lemma Numerator(s: BracketState, r: real, q: real, t: real)
    requires r * s.fa == s.fb && q * s.fc == s.fa && t * s.fc == s.fb
    ensures r * ((s.c - s.b) * q * (q - t) - (s.b - s.a) * (t - 1.0)) * Scale(s) == s.fb * Top(s)
  {
    var A, B, C := s.fa, s.fb, s.fc;
    assert q * (q - t) * (C * C) == A * (A - B) by {
      assert q * (q - t) * (C * C) == (q * C) * (q * C - t * C);
    }
    assert (t - 1.0) * C == B - C;
    var n := (s.c - s.b) * q * (q - t) - (s.b - s.a) * (t - 1.0);
    assert n * (C * C) == (s.c - s.b) * (q * (q - t) * (C * C)) - (s.b - s.a) * ((t - 1.0) * C) * C;
    assert n * (C * C) == Top(s);
    assert r * n * (A * C * C) == (r * A) * (n * (C * C));
  }

  lemma Denominator(s: BracketState, r: real, q: real, t: real)
    requires r * s.fa == s.fb && q * s.fc == s.fa && t * s.fc == s.fb
    ensures (q - 1.0) * (t - 1.0) * (r - 1.0) * Scale(s) == Bottom(s)
  {
    var A, B, C := s.fa, s.fb, s.fc;
    assert (q - 1.0) * C == A - C && (t - 1.0) * C == B - C && (r - 1.0) * A == B - A;
    assert (q - 1.0) * (t - 1.0) * (r - 1.0) * (A * C * C) == ((q - 1.0) * C) * ((t - 1.0) * C) * ((r - 1.0) * A);
  }

  lemma TopBySlopes(s: BracketState, u: real, v: real)
    requires s.c - s.b == u * (s.fc - s.fb) && s.b - s.a == v * (s.fb - s.fa)
    ensures Top(s) == (s.fb - s.fc) * (s.fb - s.fa) * (s.fa * u - s.fc * v)
  {
    Collected(s.fa, s.fb, s.fc, u, v);
  }

  lemma SlopesDiffer(A: real, B: real, C: real, al: real, be: real, u: real, v: real, m: real)
    requires u == al + be * (B + C) && v == al + be * (A + B) && m == al + be * B
    ensures A * u - C * v == (A - C) * m
  {
  }

  lemma SlopesAre(s: BracketState, x: real, al: real, be: real, u: real, v: real, m: real)
    requires Passes(x, al, be, s)
    requires u == al + be * (s.fb + s.fc) && v == al + be * (s.fa + s.fb) && m == al + be * s.fb
    ensures s.c - s.b == u * (s.fc - s.fb) && s.b - s.a == v * (s.fb - s.fa) && x - s.b == -s.fb * m
  {
    NewtonForm(al, be, u, s.fb, s.fc);
    NewtonForm(al, be, v, s.fa, s.fb);
  }

  /** On the parabola the numerator is the denominator times the slope towards zero. */
  lemma OnParabola(s: BracketState, x: real, al: real, be: real, m: real)
    requires Passes(x, al, be, s) && m == al + be * s.fb
    ensures Top(s) == Bottom(s) * m && x - s.b == -s.fb * m
  {
    hide Top, Product, Passes;
    var u, v := al + be * (s.fb + s.fc), al + be * (s.fa + s.fb);
    SlopesAre(s, x, al, be, u, v, m);
    TopBySlopes(s, u, v);
    SlopesDiffer(s.fa, s.fb, s.fc, al, be, u, v, m);
    Regrouped(s.fa - s.fc, s.fb - s.fc, s.fb - s.fa, m, s.fa * u - s.fc * v);
  }

  lemma Collected(A: real, B: real, C: real, u: real, v: real)
    ensures u * (C - B) * A * (A - B) - v * (B - A) * (B - C) * C == (B - C) * (B - A) * (A * u - C * v)
  {
  }

  lemma Regrouped(x: real, y: real, z: real, k: real, w: real)
    requires w == x * k
    ensures y * z * w == Product(x, y, z) * k
  {
  }

  lemma CancelFactor(x: real, y: real, k: real)
    requires k != 0.0 && x * k == y * k
    ensures x == y
  {
  }

  lemma SameRatio(p: real, q: real, k: real, b: real, m: real, n: real, d: real, y: real)
    requires p * k == b * n && q * k == d && n == d * m && d != 0.0 && k != 0.0 && y == -b * m
    ensures q != 0.0 && p == -y * q
  {
    assert p * k == b * (d * m);
    assert b * (q * k * m) == b * m * q * k;
    CancelFactor(p, b * m * q, k);
  }

  lemma Interpolated(s: BracketState, xm: real, r: real, q: real, t: real)
    requires s.a != s.c && s.fa != 0.0 && s.fc != 0.0 && xm == 0.5 * (s.c - s.b)
    requires r == s.fb / s.fa && q == s.fa / s.fc && t == s.fb / s.fc
    ensures var (p0, q0) := Interpolant(s.a, s.fa, s.b, s.fb, s.c, s.fc, xm);
      && p0 == r * ((s.c - s.b) * q * (q - t) - (s.b - s.a) * (t - 1.0))
      && q0 == (q - 1.0) * (t - 1.0) * (r - 1.0)
      && r * s.fa == s.fb && q * s.fc == s.fa && t * s.fc == s.fb
  {
    assert 2.0 * xm == s.c - s.b;
  }

  lemma ClearedStep(s: BracketState, xm: real)
    requires s.a != s.c && s.fa != 0.0 && s.fc != 0.0 && xm == 0.5 * (s.c - s.b)
    ensures var (p0, q0) := Interpolant(s.a, s.fa, s.b, s.fb, s.c, s.fc, xm);
      p0 * Scale(s) == s.fb * Top(s) && q0 * Scale(s) == Bottom(s)
  {
    hide Interpolant, Top, Bottom, Scale;
    var r, q, t := s.fb / s.fa, s.fa / s.fc, s.fb / s.fc;
    Interpolated(s, xm, r, q, t);
    Numerator(s, r, q, t);
    Denominator(s, r, q, t);
  }

  lemma QuadraticStep(s: BracketState, xm: real, x: real, al: real, be: real)
    requires s.a != s.c && s.fa != 0.0 && s.fc != 0.0 && xm == 0.5 * (s.c - s.b) && DistinctValues(s)
    requires Passes(x, al, be, s)
    ensures var (p0, q0) := Interpolant(s.a, s.fa, s.b, s.fb, s.c, s.fc, xm);
      q0 != 0.0 && p0 == -(x - s.b) * q0
  {
    hide Interpolant, Passes, Top, Bottom, Scale, DistinctValues;
    var (p0, q0) := Interpolant(s.a, s.fa, s.b, s.fb, s.c, s.fc, xm);
    ClearedStep(s, xm);
    var m := al + be * s.fb;
    OnParabola(s, x, al, be, m);
    Nonzero(s);
    SameRatio(p0, q0, Scale(s), s.fb, m, Top(s), Bottom(s), x - s.b);
  }

  /** The interpolated step leads exactly to the interpolated point. */
  lemma InterpolantLeads(s: BracketState, xm: real, x: real)
    requires s.fa != 0.0 && s.fc != 0.0 && xm == 0.5 * (s.c - s.b) && (s.a == s.c ==> s.fa == s.fc)
    requires Interpolates(s, x)
    ensures var (p0, q0) := Interpolant(s.a, s.fa, s.b, s.fb, s.c, s.fc, xm);
      q0 != 0.0 && p0 == -(x - s.b) * q0 && p0 / q0 == -(x - s.b)
  {
    hide Interpolant;
    if s.a == s.c {
      SecantStep(s, xm, x);
    } else {
      var al: real, be: real :| Passes(x, al, be, s);
      QuadraticStep(s, xm, x, al, be);
    }
    var (p0, q0) := Interpolant(s.a, s.fa, s.b, s.fb, s.c, s.fc, xm);
    Quotient(p0, q0, -(x - s.b));
  }

  // ----- when Brent takes it ---------------------------------------------------------------------------

  lemma Scaled(x: real, y: real, k: real)
    requires k > 0.0
    ensures x * k < y * k <==> x < y
  {
    assert (y - x) * k == y * k - x * k;
    assert x < y ==> (y - x) * k > 0.0;
    assert x >= y ==> (y - x) * k <= 0.0;
  }

  /** The acceptance test, by the step it is about: towards the other end, less than three quarters
      of the way to it, and less than half the step before last. */
  ghost predicate Short(d: real, e: real, tol1: real, xm: real) {
    SameSign(d, xm) && Abs(d) < 1.5 * Abs(xm) - 0.5 * tol1 && Abs(d) < 0.5 * Abs(e)
  }

  lemma AcceptsBoth(p: real, q: real, e: real, tol1: real, xm: real)
    ensures Accepts(p, q, e, tol1, xm) <==> 2.0 * p < 3.0 * xm * q - Abs(tol1 * q) && 2.0 * p < Abs(e * q)
  {
  }

  lemma AcceptsForward(d: real, q: real, e: real, tol1: real, xm: real)
    requires q > 0.0 && d > 0.0 && tol1 > 0.0
    ensures Accepts(d * q, q, e, tol1, xm) <==> Short(d, e, tol1, xm)
  {
    hide Accepts;
    AcceptsBoth(d * q, q, e, tol1, xm);
    AbsProduct(tol1, q);
    AbsProduct(e, q);
    Factored(xm, tol1, d, q);
    Scaled(2.0 * d, 3.0 * xm - tol1, q);
    Scaled(2.0 * d, Abs(e), q);
  }

  lemma Factored(xm: real, tol1: real, d: real, q: real)
    ensures 3.0 * xm * q - tol1 * q == (3.0 * xm - tol1) * q && 2.0 * (d * q) == (2.0 * d) * q
  {
  }

  lemma AbsProduct(x: real, k: real)
    ensures Abs(x * k) == Abs(x) * Abs(k)
  {
    if x < 0.0 {
      assert -(x * k) == (-x) * k;
    }
    if k < 0.0 {
      assert -(x * k) == x * (-k);
    }
    if x < 0.0 && k < 0.0 {
      assert x * k == (-x) * (-k) >= 0.0;
    } else if x >= 0.0 && k >= 0.0 {
      assert x * k >= 0.0;
    } else if x < 0.0 {
      assert (-x) * k >= 0.0;
    } else {
      assert x * (-k) >= 0.0;
    }
  }

  /** The test does not notice a change of direction. */
  lemma AcceptsMirrored(p: real, q: real, e: real, tol1: real, xm: real)
    ensures Accepts(p, q, e, tol1, xm) <==> Accepts(p, -q, e, tol1, -xm)
  {
    AbsProduct(tol1, q);
    AbsProduct(tol1, -q);
    AbsProduct(e, q);
    AbsProduct(e, -q);
    assert 3.0 * xm * q == 3.0 * (-xm) * (-q);
  }

  lemma ShortMirrored(d: real, e: real, tol1: real, xm: real)
    ensures Short(d, e, tol1, xm) <==> Short(-d, e, tol1, -xm)
  {
  }

  lemma Negated(d: real, q: real, p: real)
    requires d * q == p
    ensures (-d) * (-q) == p
  {
  }

  lemma AcceptsByStep(p: real, q: real, d: real, e: real, tol1: real, xm: real)
    requires p > 0.0 && tol1 > 0.0 && q != 0.0 && d * q == p
    ensures Accepts(p, q, e, tol1, xm) <==> Short(d, e, tol1, xm)
  {
    hide Accepts, Short;
    if q > 0.0 {
      SignOf(d, q, p);
      AcceptsForward(d, q, e, tol1, xm);
    } else {
      var b, w := -d, -q;
      Negated(d, q, p);
      SignOf(b, w, p);
      AcceptsMirrored(p, q, e, tol1, xm);
      ShortMirrored(d, e, tol1, xm);
      AcceptsForward(b, w, e, tol1, -xm);
    }
  }

  lemma AcceptsExactly(p: real, q: real, e: real, tol1: real, xm: real)
    requires p > 0.0 && tol1 > 0.0 && q != 0.0
    ensures Accepts(p, q, e, tol1, xm) <==> Short(p / q, e, tol1, xm)
  {
    hide Accepts, Short;
    var d := p / q;
    assert d * q == p;
    AcceptsByStep(p, q, d, e, tol1, xm);
  }

  lemma SignOf(d: real, q: real, p: real)
    requires q > 0.0 && p > 0.0 && d * q == p
    ensures d > 0.0
  {
  }

  /** The interpolated point is worth a probe: the last steps were long enough, the residual is
      falling, and the step is short enough. */
  ghost predicate Worthwhile(s: BracketState, x: real, tol1: real, xm: real) {
    Abs(s.e) >= tol1 && Abs(s.fa) > Abs(s.fb) && Short(x - s.b, s.e, tol1, xm)
  }

  /** The step taken is the one to the interpolated point if that is worthwhile, and half way to the
      other end otherwise. */
  lemma ChosenStepIs(s: BracketState, tol1: real, xm: real, x: real)
    requires s.fc != 0.0 && tol1 > 0.0 && xm == 0.5 * (s.c - s.b) && (s.a == s.c ==> s.fa == s.fc)
    requires Interpolates(s, x) && x != s.b
    ensures ChooseStep(s, tol1, xm) == if Worthwhile(s, x, tol1, xm) then (x - s.b, s.d) else (xm, xm)
  {
    if Abs(s.e) >= tol1 && Abs(s.fa) > Abs(s.fb) {
      InterpolantLeads(s, xm, x);
      hide Interpolant, Accepts, Interpolates, Short;
      var (p0, q0) := Interpolant(s.a, s.fa, s.b, s.fb, s.c, s.fc, xm);
      var q := if p0 > 0.0 then -q0 else q0;
      StepOf(p0, q0);
      NonzeroProduct(x - s.b, q0);
      assert -(x - s.b) * q0 == -((x - s.b) * q0);
      AcceptsExactly(Abs(p0), q, s.e, tol1, xm);
    }
  }

  /** With two values equal there is nothing to interpolate. */
  lemma NothingToInterpolate(s: BracketState, tol1: real, xm: real)
    requires s.fc != 0.0 && tol1 > 0.0
    requires if s.a == s.c then s.fa == s.fb else !DistinctValues(s)
    ensures ChooseStep(s, tol1, xm) == (xm, xm)
  {
    hide Interpolant, Accepts;
    if Abs(s.e) >= tol1 && Abs(s.fa) > Abs(s.fb) {
      ZeroDenominator(s, xm);
      var (p0, q0) := Interpolant(s.a, s.fa, s.b, s.fb, s.c, s.fc, xm);
      NeverAccepts(Abs(p0), s.e, tol1, xm);
    }
  }

  lemma ZeroDenominator(s: BracketState, xm: real)
    requires s.a != s.c && s.fa != 0.0 && s.fc != 0.0 && (s.fa == s.fc || s.fb == s.fc)
    ensures Interpolant(s.a, s.fa, s.b, s.fb, s.c, s.fc, xm).1 == 0.0
  {
    var q, t := s.fa / s.fc, s.fb / s.fc;
    if s.fa == s.fc {
      Quotient(s.fa, s.fc, 1.0);
    } else {
      Quotient(s.fb, s.fc, 1.0);
    }
    ZeroFactor(q - 1.0, t - 1.0, s.fb / s.fa - 1.0);
  }

  lemma NeverAccepts(p: real, e: real, tol1: real, xm: real)
    requires p >= 0.0
    ensures !Accepts(p, 0.0, e, tol1, xm)
  {
  }

  lemma ZeroFactor(x: real, y: real, z: real)
    requires x == 0.0 || y == 0.0
    ensures x * y * z == 0.0
  {
  }

  // ----- whole steps -----------------------------------------------------------------------------------

  /** Brent's method stops when the other end is within tolerance, or the residual is zero or small. */
  ghost predicate Settled(s: BracketState) {
    || Abs(s.c - s.b) <= s.tol + 4.0 * DBL_EPSILON * Abs(s.b)
    || s.fb == 0.0
    || (s.vtol > 0.0 && Abs(s.fb) <= s.vtol)
  }

  /** Where a step to `x` leads if it may not be shorter than `least`. */
  function AtLeast(b: real, x: real, least: real, c: real): real {
    if Abs(x - b) > least then x else if c >= b then b + least else b - least
  }

  /** `s` is `br` turned so that `b` is the better of the two ends of its bracket. */
  ghost predicate Oriented(br: BracketState, s: BracketState) {
    var repaired := SameSign(br.fb, br.fc);
    var other, value := if repaired then br.a else br.c, if repaired then br.fa else br.fc;
    && Abs(s.fb) <= Abs(s.fc)
    && s.d == (if repaired then br.b - br.a else br.d) && s.e == (if repaired then br.b - br.a else br.e)
    && (if Abs(value) < Abs(br.fb)
        then s.b == other && s.fb == value && s.c == br.b && s.fc == br.fb && s.a == br.b && s.fa == br.fb
        else s.b == br.b && s.fb == br.fb && s.c == other && s.fc == value && s.a == br.a && s.fa == br.fa)
  }

  lemma OrientIs(br: BracketState)
    ensures Oriented(br, Favour(Rebracket(br)))
  {
  }

  /** `t` keeps the bracket and probes the interpolated point if that is worthwhile, no closer than
      `least`, and the midpoint if it is not; the step before last is remembered. */
  ghost predicate StepsTo(s: BracketState, x: real, least: real, t: BracketState) {
    && t.a == s.b && t.fa == s.fb && t.c == s.c && t.fc == s.fc && t.iterations == s.iterations + 1
    && (if Worthwhile(s, x, least, 0.5 * (s.c - s.b))
        then t.b == AtLeast(s.b, x, least, s.c) && t.d == x - s.b && t.e == s.d
        else t.b == Midpoint(s.b, s.c) && t.d == t.e == 0.5 * (s.c - s.b))
  }

  /** What Brent's method asks for: it stops exactly when settled or out of iterations; otherwise it
      asks for the interpolated point if that is worthwhile, no closer than the step floor, and for
      the midpoint if it is not. */
  lemma BrentAsksFor(br: BracketState, g: real -> real, x: real)
    requires Ready(br, g) && br.finder.Brent?
    ensures var s := Favour(Rebracket(br));
      && Oriented(br, s)
      && (NextStep(br).more <==> !Settled(s) && br.iterations < br.maxIterations)
      && (NextStep(br).more && Interpolates(s, x) && x != s.b ==>
            var least := 0.5 * s.tol + 2.0 * DBL_EPSILON * Abs(s.b);
            StepsTo(s, x, least, NextStep(br).br))
  {
    hide Rebracket, Favour, Interpolates, Oriented, StepsTo, BrentProbe, Settled, BrentDone;
    OrientIs(br);
    BrentOrients(br, g);
    var s := Favour(Rebracket(br));
    SettledIsDone(s);
    if !BrentDone(s) && Interpolates(s, x) && x != s.b {
      ProbeIs(s, x);
    }
  }

  lemma SettledIsDone(s: BracketState)
    ensures Settled(s) <==> BrentDone(s)
  {
  }

  lemma ProbeIs(s: BracketState, x: real)
    requires s.fc != 0.0 && s.tol > 0.0 && (s.a == s.c ==> s.fa == s.fc) && !BrentDone(s)
    requires Interpolates(s, x) && x != s.b
    ensures var least := 0.5 * s.tol + 2.0 * DBL_EPSILON * Abs(s.b); StepsTo(s, x, least, BrentProbe(s))
  {
    hide Worthwhile, ChooseStep, Interpolates;
    ChosenStepIs(s, StepFloor(s), 0.5 * (s.c - s.b), x);
  }

  /** On a straight line Brent's method asks for the root itself as soon as it interpolates. */
  lemma BrentFindsStraightRoot(br: BracketState, g: real -> real, m: real, root: real)
    requires Ready(br, g) && br.finder.Brent? && m != 0.0 && Straight(g, m, root)
    requires var s := Favour(Rebracket(br));
      var least := 0.5 * s.tol + 2.0 * DBL_EPSILON * Abs(s.b);
      && NextStep(br).more && (s.a == s.c || s.a != s.b)
      && Worthwhile(s, root, least, 0.5 * (s.c - s.b)) && Abs(root - s.b) > least
    ensures NextStep(br).br.b == root
  {
    hide Rebracket, Favour, Interpolates, NextStep, Ready, Worthwhile, Straight, Oriented, Settled;
    BrentAsksFor(br, g, root);
    EndsOnLine(br, g, m, root);
    StraightInterpolates(Favour(Rebracket(br)), m, root);
  }

  ghost predicate Straight(g: real -> real, m: real, root: real) {
    forall t: real :: g(t) == m * (t - root)
  }

  lemma EndsOnLine(br: BracketState, g: real -> real, m: real, root: real)
    requires Ready(br, g) && br.finder.Brent? && NextStep(br).more && Straight(g, m, root)
    ensures var s := Favour(Rebracket(br));
      && s.fa == m * (s.a - root) && s.fb == m * (s.b - root) && s.fc == m * (s.c - root)
      && s.b != s.c && 0.5 * s.tol + 2.0 * DBL_EPSILON * Abs(s.b) > 0.0
  {
    hide Rebracket, Favour;
    BrentOrients(br, g);
  }

  lemma StraightInterpolates(s: BracketState, m: real, root: real)
    requires m != 0.0 && s.fa == m * (s.a - root) && s.fb == m * (s.b - root) && s.fc == m * (s.c - root)
    requires s.b != s.c && (s.a == s.c || s.a != s.b)
    ensures Interpolates(s, root)
  {
    if s.a == s.c {
      assert s.fc - s.fb == m * (s.c - s.b);
      NonzeroProduct(m, s.c - s.b);
      assert (root - s.b) * (m * (s.c - s.b)) == -(m * (s.b - root)) * (s.c - s.b);
    } else {
      var al := 1.0 / m;
      assert al * m == 1.0;
      StraightParabola(root, al, m, s.a);
      StraightParabola(root, al, m, s.b);
      StraightParabola(root, al, m, s.c);
      assert Passes(root, al, 0.0, s);
      NonzeroProduct(m, s.a - s.b);
      NonzeroProduct(m, s.b - s.c);
      NonzeroProduct(m, s.a - s.c);
    }
  }

  lemma StraightParabola(root: real, al: real, m: real, x: real)
    requires al * m == 1.0
    ensures Parabola(root, al, 0.0, m * (x - root)) == x
  {
    assert al * (m * (x - root)) == (al * m) * (x - root);
  }

  /** The first probe of a fresh bracket on [0, 2] with values -1 and 1/2 is at 4/3. */
  lemma FirstProbe(br: BracketState, tol: real)
    requires 0.0 < tol < 0.01 && br.finder.Brent? && br.maxIterations > 0 && br.iterations == 0 && br.vtol == 0.0
    requires br.tol == tol && br.a == 0.0 && br.fa == -1.0 && br.b == br.c == 2.0 && br.fb == br.fc == 0.5
    ensures NextStep(br).more && NextStep(br).br.b == 4.0 / 3.0
  {
    var s := Favour(Rebracket(br));
    var least := StepFloor(s);
    assert s.a == s.c == 0.0 && s.b == 2.0 && s.e == 2.0;
    assert 0.0 < least < 0.01;
    assert Interpolates(s, 4.0 / 3.0);
    ChosenStepIs(s, least, -1.0, 4.0 / 3.0);
  }

  // ----- bisection and Illinois ------------------------------------------------------------------------

  /** The other methods stop exactly at a zero or small residual or a bracket within tolerance, or
      out of iterations; otherwise bisection asks for the midpoint and Illinois for the chord's zero. */
  lemma FalsiAsksFor(br: BracketState, g: real -> real)
    requires Ready(br, g) && !br.finder.Brent?
    ensures var n := Narrow(br);
      var small := n.vtol > 0.0 && n.iterations > 0 && Abs(n.fb) <= n.vtol;
      var settled := n.fb == 0.0 || small || Abs(n.c - n.a) <= n.tol;
      && (NextStep(br).more <==> !settled && br.iterations < br.maxIterations)
      && (NextStep(br).more && br.finder.Bisection? ==> NextStep(br).br.b == Midpoint(n.a, n.c))
      && (NextStep(br).more && br.finder.Illinois? ==> ChordZero(NextStep(br).br.b, n.a, n.fa, n.c, n.fc))
      && (!NextStep(br).more && settled && br.iterations > 0 ==> NextStep(br).br.b == br.b)
      && (!NextStep(br).more && !(settled && br.iterations > 0) ==> NextStep(br).br.b == Midpoint(n.a, n.c))
  {
    var n := Narrow(br);
    if n.fb != 0.0 {
      assert Bracketing(n, g) && n.a != n.c;
      SecantIsInside(n);
      SecantIsChordZero(n.a, n.fa, n.c, n.fc);
    }
  }

  /** A bracket is opened on its sample interval with the finder that was asked for, except that Brent's
      method gives way to bisection where the function is only piecewise smooth. */
  lemma OpenedAsAsked(component: nat, tolerance: real, policy: RootPolicy, continuity: Continuity,
                      tLo: real, gLo: real, tHi: real, gHi: real, direction: int)
    ensures var br := Opened(component, tolerance, policy, continuity, tLo, gLo, tHi, gHi, direction);
      && (policy.finder != Brent || continuity != Piecewise ==> br.finder == policy.finder)
      && (policy.finder == Brent && continuity == Piecewise ==> br.finder == Bisection)
      && br.a == tLo && br.fa == gLo && br.b == br.c == tHi && br.fb == br.fc == gHi
      && br.tol == tolerance && br.vtol == policy.valueTolerance && br.maxIterations == policy.maxIterations
      && br.iterations == br.evaluations == 0 && br.direction == direction && br.component == component
  {
  }

  /** The values kept at the ends, halved `i` and `j` times. */
  ghost predicate Weighted(br: BracketState, g: real -> real, i: nat, j: nat) {
    br.fa * Pow2(i) == g(br.a) && br.fc * Pow2(j) == g(br.c)
  }

  /** Narrowing moves one end to the probe with its true value; Illinois halves the other's once
      more, and bisection leaves it. */
  lemma NarrowWeighs(br: BracketState, g: real -> real, i: nat, j: nat)
    requires Ready(br, g) && !br.finder.Brent? && br.iterations > 0 && br.fb != 0.0 && Weighted(br, g, i, j)
    ensures var n, more := Narrow(br), if br.finder.Illinois? then 1 else 0;
      if SameSign(br.fb, br.fa) then n.a == br.b && n.c == br.c && Weighted(n, g, 0, j + more)
      else n.c == br.b && n.a == br.a && Weighted(n, g, i + more, 0)
  {
    assert Pow2(0) == 1.0;
    var n := Narrow(br);
    assert n.finder == br.finder;
    HalvedOnce(br.fa, i, g(br.a));
    HalvedOnce(br.fc, j, g(br.c));
    hide Pow2;
  }

  lemma HalvedOnce(f: real, k: nat, y: real)
    requires f * Pow2(k) == y
    ensures f * 0.5 * Pow2(k + 1) == y
  {
    var w := Pow2(k);
    assert Pow2(k + 1) == 2.0 * w;
    assert f * 0.5 * (2.0 * w) == f * w;
  }
}
