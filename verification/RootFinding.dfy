/** The suspended root finders: Brent, bisection and Illinois, each stopped at every
    function evaluation so that a consumer can supply the value. */
module RootFinding {
  import opened EventTypes

  /** 2^-52, as the source spells it. */
  const DBL_EPSILON: real := 0.0000000000000002220446049250313

  /** A snapshot of one bracketed root in mid-refinement. */
  datatype BracketState = BracketState(
    a: real, b: real, c: real,
    fa: real, fb: real, fc: real,
    d: real, e: real,
    tol: real, vtol: real,
    component: nat,
    iterations: nat,
    maxIterations: nat,
    evaluations: nat,
    direction: int,
    finder: RootMethod,
    status: RootStatus)

  /** `more`: `br.b` is the next abscissa to evaluate.  Otherwise `br.b` is the root. */
  datatype Step = Step(more: bool, br: BracketState)

  // ----- bisection and Illinois ---------------------------------------------------

  /** Replace the end whose sign the last probe shares.  Illinois halves the value
      kept at the other end. */
  function Narrow(br: BracketState): BracketState {
    if br.iterations == 0 then br
    else if (br.fb > 0.0) == (br.fa > 0.0) then
      br.(a := br.b, fa := br.fb, fc := if br.finder.Illinois? then br.fc * 0.5 else br.fc)
    else
      br.(c := br.b, fc := br.fb, fa := if br.finder.Illinois? then br.fa * 0.5 else br.fa)
  }

  /** Where the chord through `(a, fa)` and `(c, fc)` crosses zero. */
  function Secant(a: real, fa: real, c: real, fc: real): real
    requires fc != fa
  {
    (a * fc - c * fa) / (fc - fa)
  }

  function FalsiProbe(br: BracketState): real {
    if br.finder.Bisection? || br.fc == br.fa then Midpoint(br.a, br.c)
    else
      var x := Secant(br.a, br.fa, br.c, br.fc);
      if (if br.a < br.c then br.a else br.c) < x < (if br.a < br.c then br.c else br.a) then x
      else Midpoint(br.a, br.c)
  }

  predicate FalsiDone(br: BracketState) {
    || br.fb == 0.0
    || (br.vtol > 0.0 && br.iterations > 0 && Abs(br.fb) <= br.vtol)
    || Abs(br.c - br.a) <= br.tol
  }

  function FalsiAdvance(br: BracketState): Step {
    var n := Narrow(br);
    if FalsiDone(n) then
      Step(false, n.(status := Converged, b := if n.iterations > 0 then n.b else Midpoint(n.a, n.c)))
    else if n.iterations >= n.maxIterations then
      Step(false, n.(status := MaxIterations, b := Midpoint(n.a, n.c)))
    else
      Step(true, n.(iterations := n.iterations + 1, b := FalsiProbe(n)))
  }

  // ----- Brent --------------------------------------------------------------------

  /** Make `c` the end opposite in sign to `b`. */
  function Rebracket(br: BracketState): BracketState {
    if (br.fb > 0.0 && br.fc > 0.0) || (br.fb < 0.0 && br.fc < 0.0) then
      br.(c := br.a, fc := br.fa, e := br.b - br.a, d := br.b - br.a)
    else br
  }

  /** Make `b` the end with the smaller residual. */
  function Favour(br: BracketState): BracketState {
    if Abs(br.fc) < Abs(br.fb) then
      br.(a := br.b, b := br.c, c := br.b, fa := br.fb, fb := br.fc, fc := br.fb)
    else br
  }

  function StepFloor(br: BracketState): real {
    2.0 * DBL_EPSILON * Abs(br.b) + 0.5 * br.tol
  }

  /** Numerator and denominator of the interpolated step: secant when only two points
      are distinct, inverse quadratic otherwise. */
  function Interpolant(a: real, fa: real, b: real, fb: real, c: real, fc: real, xm: real): (real, real)
    requires fa != 0.0 && fc != 0.0
  {
    var s := fb / fa;
    if a == c then
      (2.0 * xm * s, 1.0 - s)
    else
      var q := fa / fc;
      var r := fb / fc;
      (s * (2.0 * xm * q * (q - r) - (b - a) * (r - 1.0)),
       (q - 1.0) * (r - 1.0) * (s - 1.0))
  }

  /** Brent's acceptance test on the interpolated step `p / q`. */
  predicate Accepts(p: real, q: real, e: real, tol1: real, xm: real) {
    var min1 := 3.0 * xm * q - Abs(tol1 * q);
    var min2 := Abs(e * q);
    2.0 * p < if min1 < min2 then min1 else min2
  }

  /** The new `(d, e)`: the interpolated step when it passes the acceptance test, the
      bisection step otherwise. */
  function ChooseStep(br: BracketState, tol1: real, xm: real): (real, real)
    requires br.fc != 0.0
  {
    if Abs(br.e) >= tol1 && Abs(br.fa) > Abs(br.fb) then
      var (p0, q0) := Interpolant(br.a, br.fa, br.b, br.fb, br.c, br.fc, xm);
      var q := if p0 > 0.0 then -q0 else q0;
      if Accepts(Abs(p0), q, br.e, tol1, xm) then
        assert q != 0.0;
        (Abs(p0) / q, br.d)
      else (xm, xm)
    else (xm, xm)
  }

  function BrentDone(br: BracketState): bool {
    || Abs(0.5 * (br.c - br.b)) <= StepFloor(br)
    || br.fb == 0.0
    || (br.vtol > 0.0 && Abs(br.fb) <= br.vtol)
  }

  function BrentProbe(br: BracketState): BracketState
    requires br.fc != 0.0
  {
    var tol1 := StepFloor(br);
    var xm := 0.5 * (br.c - br.b);
    var (d, e) := ChooseStep(br, tol1, xm);
    br.(iterations := br.iterations + 1, d := d, e := e, a := br.b, fa := br.fb,
        b := br.b + if Abs(d) > tol1 then d else if xm >= 0.0 then tol1 else -tol1)
  }

  function BrentAdvance(br: BracketState): Step
    requires br.fa != 0.0 && br.fc != 0.0
  {
    var s := Favour(Rebracket(br));
    if BrentDone(s) then Step(false, s.(status := Converged))
    else if s.iterations >= s.maxIterations then Step(false, s.(status := MaxIterations))
    else Step(true, BrentProbe(s))
  }

  /** One resumption of the refinement. */
  function NextStep(br: BracketState): Step
    requires br.fa != 0.0 && br.fc != 0.0
  {
    if br.finder.Brent? then BrentAdvance(br) else FalsiAdvance(br)
  }

  /** A freshly opened bracket on a sample interval. */
  function Opened(component: nat, tolerance: real, policy: RootPolicy, continuity: Continuity,
                  tLo: real, gLo: real, tHi: real, gHi: real, direction: int): BracketState
  {
    BracketState(tLo, tHi, tHi, gLo, gHi, gHi, 0.0, 0.0, tolerance, policy.valueTolerance,
                 component, 0, policy.maxIterations, 0, direction,
                 if continuity.Piecewise? && policy.finder.Brent? then Bisection else policy.finder,
                 Converged)
  }

  // ----- the bracketing invariant ---------------------------------------------------

  /** The two ends `a` and `c` bracket a sign change of `g`.  Brent keeps the values of
      `g` at the ends; the other methods keep only their signs. */
  ghost predicate Bracketing(br: BracketState, g: real -> real) {
    && br.tol > 0.0
    && br.vtol >= 0.0
    && SameSign(br.fa, g(br.a))
    && SameSign(br.fc, g(br.c))
    && OppositeSign(br.fa, br.fc)
    && (br.finder.Brent? ==> br.fa == g(br.a) && br.fc == g(br.c))
  }

  /** The bracket is about to be advanced: `fb` is `g` at the last abscissa, which is
      strictly inside the bracket, or is the end `c` itself before the first probe. */
  ghost predicate Ready(br: BracketState, g: real -> real) {
    && Bracketing(br, g)
    && br.fb == g(br.b)
    && br.iterations <= br.maxIterations
    && (Inside(br.b, br.a, br.c) || (br.iterations == 0 && br.b == br.c))
  }

  /** The bracket waits for `g` at `b`, and `b` is strictly inside the bracket. */
  ghost predicate Awaiting(br: BracketState, g: real -> real) {
    && Bracketing(br, g)
    && 0 < br.iterations <= br.maxIterations
    && Inside(br.b, br.a, br.c)
  }

  /** The value at `b` arrives. */
  function Supplied(br: BracketState, g: real -> real): BracketState {
    br.(fb := g(br.b), evaluations := br.evaluations + 1)
  }

  /** Fields a refinement step never touches. */
  ghost predicate SameTask(x: BracketState, y: BracketState) {
    && x.tol == y.tol && x.vtol == y.vtol
    && x.component == y.component && x.direction == y.direction
    && x.finder == y.finder
    && x.maxIterations == y.maxIterations && x.evaluations == y.evaluations
  }

  /** The interval spanned by `y`'s ends is contained in that spanned by `x`'s ends. */
  ghost predicate Nested(x: BracketState, y: BracketState) {
    Within(y.a, x.a, x.c) && Within(y.c, x.a, x.c)
  }

  lemma SecantIsInside(br: BracketState)
    requires OppositeSign(br.fa, br.fc) && br.a != br.c
    ensures Inside(Secant(br.a, br.fa, br.c, br.fc), br.a, br.c)
  {
    var x := Secant(br.a, br.fa, br.c, br.fc);
    var w := br.fc - br.fa;
    assert x * w == br.a * br.fc - br.c * br.fa;
    assert (x - br.a) * w == -br.fa * (br.c - br.a);
    assert (br.c - x) * w == br.fc * (br.c - br.a);
    if br.fa < 0.0 {
      QuotientSign(x - br.a, w, -br.fa, br.c - br.a);
      QuotientSign(br.c - x, w, br.fc, br.c - br.a);
    } else {
      QuotientSign(x - br.a, -w, br.fa, br.c - br.a);
      QuotientSign(br.c - x, -w, -br.fc, br.c - br.a);
    }
  }

  lemma QuotientSign(x: real, w: real, k: real, y: real)
    requires w > 0.0 && k > 0.0 && y != 0.0
    requires x * w == k * y
    ensures SameSign(x, y)
  {
  }

  /** What a finished refinement has to show for its root `b`.  `Partner` is the other
      end of the bracket it stopped with. */
  function Partner(br: BracketState): real {
    if br.finder.Brent? || br.b == br.a then br.c else br.a
  }

  function Slack(br: BracketState): real {
    if br.finder.Brent? then br.tol + 4.0 * DBL_EPSILON * Abs(br.b) else br.tol
  }

  /** The reported value is `g` at the reported abscissa, and `g` is zero there, or small
      enough there, or changes sign within the epoch tolerance of it. */
  ghost predicate TrulyConverged(br: BracketState, g: real -> real) {
    && br.fb == g(br.b)
    && (|| br.fb == 0.0
        || (br.vtol > 0.0 && Abs(br.fb) <= br.vtol)
        || (OppositeSign(g(Partner(br)), br.fb) && Abs(Partner(br) - br.b) <= Slack(br)))
  }

  /** What every step guarantees of a bracket that was ready for it. */
  ghost predicate GoodStep(br: BracketState, s: Step, g: real -> real) {
    && SameTask(br, s.br)
    && Nested(br, s.br)
    && Within(s.br.b, br.a, br.c)
    && (s.more ==> Awaiting(s.br, g) && s.br.iterations == br.iterations + 1)
    && (!s.more ==>
          && s.br.iterations == br.iterations
          && (s.br.status == Converged || s.br.status == MaxIterations)
          && (s.br.status == MaxIterations ==> br.iterations == br.maxIterations)
          && (s.br.status == Converged && (br.finder.Brent? || br.iterations > 0) ==> TrulyConverged(s.br, g)))
  }

  lemma FalsiKeepsBracket(br: BracketState, g: real -> real)
    requires Ready(br, g) && !br.finder.Brent?
    ensures GoodStep(br, FalsiAdvance(br), g)
  {
    var n := Narrow(br);
    if n.fb != 0.0 {
      assert Bracketing(n, g) && n.a != n.c;
      SecantIsInside(n);
    }
  }

  /** After the sign repair and the swap, `b` and `c` bracket the root unless `b` is it. */
  lemma BrentOrients(br: BracketState, g: real -> real)
    requires Ready(br, g) && br.finder.Brent?
    ensures var s := Favour(Rebracket(br));
      && SameTask(br, s) && s.iterations == br.iterations
      && Nested(br, s) && Within(s.b, br.a, br.c)
      && s.fa == g(s.a) && s.fb == g(s.b) && s.fc == g(s.c) && s.fc != 0.0
      && (s.fb != 0.0 ==> OppositeSign(s.fb, s.fc))
  {
  }

  /** The acceptance test on an interpolated step `p / q` sends the step towards `c` and
      keeps it short of `c` by more than a quarter of the bracket. */
  lemma AcceptedStepBound(p: real, q: real, e: real, tol1: real, xm: real)
    requires p >= 0.0 && tol1 > 0.0 && xm != 0.0
    requires Accepts(p, q, e, tol1, xm)
    ensures q != 0.0
    ensures var d := p / q;
      (xm > 0.0 ==> 0.0 <= d < 1.5 * xm - 0.5 * tol1) && (xm < 0.0 ==> 1.5 * xm + 0.5 * tol1 < d <= 0.0)
  {
    assert q != 0.0;
    assert 2.0 * p < 3.0 * xm * q - Abs(tol1 * q);
    if q > 0.0 {
      assert Abs(tol1 * q) == tol1 * q;
      QuotientBound(p, q, 3.0 * xm - tol1);
    } else {
      assert Abs(tol1 * q) == tol1 * -q;
      QuotientBound(p, -q, -3.0 * xm - tol1);
      assert p / q == -(p / -q);
    }
  }

  lemma QuotientBound(p: real, q: real, k: real)
    requires p >= 0.0 && q > 0.0 && 2.0 * p < k * q
    ensures 0.0 <= p / q < 0.5 * k
  {
    var d := p / q;
    assert d * q == p;
    assert (d - 0.5 * k) * q < 0.0;
  }

  lemma ChosenStepBound(br: BracketState, tol1: real, xm: real)
    requires br.fc != 0.0 && tol1 > 0.0 && Abs(xm) > tol1
    ensures var d := ChooseStep(br, tol1, xm).0;
      || d == xm
      || (xm > 0.0 && 0.0 <= d < 1.5 * xm - 0.5 * tol1)
      || (xm < 0.0 && 1.5 * xm + 0.5 * tol1 < d <= 0.0)
  {
    if Abs(br.e) >= tol1 && Abs(br.fa) > Abs(br.fb) {
      var (p0, q0) := Interpolant(br.a, br.fa, br.b, br.fb, br.c, br.fc, xm);
      var q := if p0 > 0.0 then -q0 else q0;
      if Accepts(Abs(p0), q, br.e, tol1, xm) {
        AcceptedStepBound(Abs(p0), q, br.e, tol1, xm);
      }
    }
  }

  /** Brent's probe is at least the step floor away from both ends of the bracket. */
  lemma BrentProbeIsInside(s: BracketState)
    requires s.tol > 0.0 && s.fc != 0.0 && !BrentDone(s)
    ensures var t := BrentProbe(s);
      && t.a == s.b && t.c == s.c
      && Inside(t.b, s.b, s.c)
      && Abs(t.b - s.b) >= StepFloor(s)
      && Abs(s.c - t.b) > StepFloor(s)
  {
    var xm := 0.5 * (s.c - s.b);
    ChosenStepBound(s, StepFloor(s), xm);
  }

  lemma BrentKeepsBracket(br: BracketState, g: real -> real)
    requires Ready(br, g) && br.finder.Brent?
    ensures GoodStep(br, BrentAdvance(br), g)
  {
    BrentOrients(br, g);
    var s := Favour(Rebracket(br));
    if !BrentDone(s) && s.iterations < s.maxIterations {
      BrentProbeIsInside(s);
    }
  }

  /** One step of any method keeps the root bracketed: the next abscissa is strictly
      inside the new bracket, whose ends keep opposite signs of `g` and which is nested
      in the old bracket. */
  lemma AdvanceKeepsBracket(br: BracketState, g: real -> real)
    requires Ready(br, g)
    ensures GoodStep(br, NextStep(br), g)
    ensures NextStep(br).more ==> Ready(Supplied(NextStep(br).br, g), g)
  {
    if br.finder.Brent? {
      BrentKeepsBracket(br, g);
    } else {
      FalsiKeepsBracket(br, g);
    }
  }

  // ----- whole refinements ----------------------------------------------------------

  /** The refinement run to its end with every requested value supplied at once: what the
      suspended machine computes when the consumer answers truthfully. */
  ghost function Complete(br: BracketState, g: real -> real): BracketState
    requires Ready(br, g)
    decreases br.maxIterations - br.iterations
  {
    AdvanceKeepsBracket(br, g);
    var s := NextStep(br);
    if s.more then Complete(Supplied(s.br, g), g) else s.br
  }

  /** A root that is bracketed stays bracketed, for every method, from any point of the
      refinement to its end. */
  lemma {:induction false} RefinementStaysBracketed(br: BracketState, g: real -> real)
    requires Ready(br, g)
    ensures var fin := Complete(br, g);
      && SameTask(br.(evaluations := fin.evaluations), fin)
      && Within(fin.b, br.a, br.c)
      && br.iterations <= fin.iterations <= br.maxIterations
      && fin.evaluations == br.evaluations + (fin.iterations - br.iterations)
      && (fin.status == Converged || fin.status == MaxIterations)
      && (fin.status == MaxIterations ==> fin.iterations == br.maxIterations)
      && (fin.status == Converged && (br.finder.Brent? || fin.iterations > 0) ==> TrulyConverged(fin, g))
    decreases br.maxIterations - br.iterations
  {
    AdvanceKeepsBracket(br, g);
    var s := NextStep(br);
    if s.more {
      RefinementStaysBracketed(Supplied(s.br, g), g);
    }
  }

  // ----- bisection ------------------------------------------------------------------

  /** `w / 2^k`. */
  function Halved(w: real, k: nat): real {
    if k == 0 then w else 0.5 * Halved(w, k - 1)
  }

  function Pow2(n: nat): (r: real)
    ensures r > 0.0
  {
    if n == 0 then 1.0 else 2.0 * Pow2(n - 1)
  }

  lemma {:induction false} HalvedOrder(w: real, tol: real, k: nat)
    ensures Halved(w, k) <= tol <==> w <= tol * Pow2(k)
    decreases k
  {
    if k > 0 {
      HalvedOrder(w, 2.0 * tol, k - 1);
      assert 2.0 * tol * Pow2(k - 1) == tol * Pow2(k);
    }
  }

  function Width(br: BracketState): real {
    Abs(br.c - br.a)
  }

  /** A bisection that has made `iterations` probes since its bracket was `w` wide. */
  ghost predicate Bisecting(br: BracketState, w: real) {
    && br.finder.Bisection?
    && (br.iterations == 0 ==> Width(br) == w)
    && (br.iterations > 0 ==> br.b == Midpoint(br.a, br.c) && Width(br) == Halved(w, br.iterations - 1))
  }

  lemma BisectionStep(br: BracketState, w: real)
    requires Bisecting(br, w) && br.tol > 0.0 && br.a != br.c
    ensures var s := FalsiAdvance(br);
      && Width(s.br) == Halved(w, br.iterations)
      && (s.more || s.br.status == MaxIterations ==> Width(s.br) > br.tol)
      && (s.br.status == Converged && !s.more && br.vtol == 0.0 && s.br.fb != 0.0 ==> Width(s.br) <= br.tol)
      && (s.more ==> s.br.b == Midpoint(s.br.a, s.br.c))
  {
  }

  /** Bisection's bracket is exactly `w / 2^k` wide after `k` probes, and it stops on the
      first `k` that brings the width within tolerance unless the value test stops it. */
  lemma {:induction false} BisectionHalves(br: BracketState, g: real -> real, w: real)
    requires Ready(br, g) && Bisecting(br, w)
    requires forall j: nat :: j < br.iterations ==> Halved(w, j) > br.tol
    ensures var fin := Complete(br, g);
      && Width(fin) == Halved(w, fin.iterations)
      && (forall j: nat :: j < fin.iterations ==> Halved(w, j) > br.tol)
      && (fin.status == MaxIterations ==> Halved(w, br.maxIterations) > br.tol)
      && (fin.status == Converged && br.vtol == 0.0 && fin.fb != 0.0 ==> Halved(w, fin.iterations) <= br.tol)
    decreases br.maxIterations - br.iterations
  {
    AdvanceKeepsBracket(br, g);
    BisectionStep(br, w);
    var s := NextStep(br);
    if s.more {
      BisectionHalves(Supplied(s.br, g), g, w);
    }
  }

  /** A fresh bisection bracket converges whenever its width is at most
      `tol * 2^maxIterations`. */
  lemma BisectionConverges(br: BracketState, g: real -> real, room: real)
    requires Ready(br, g) && br.finder.Bisection? && br.iterations == 0
    requires room == br.tol * Pow2(br.maxIterations) && Width(br) <= room
    ensures Complete(br, g).status == Converged
  {
    HalvedOrder(Width(br), br.tol, br.maxIterations);
    FinishesWithin(br, g);
  }

  lemma FinishesWithin(br: BracketState, g: real -> real)
    requires Ready(br, g) && br.finder.Bisection? && br.iterations == 0
    requires Halved(Width(br), br.maxIterations) <= br.tol
    ensures Complete(br, g).status == Converged
  {
    RefinementStaysBracketed(br, g);
    BisectionHalves(br, g, Width(br));
  }

  // ----- the machine, statement by statement ----------------------------------------

  /** Resume the refinement held in one slot of the pending queue: either `b` is the next
      abscissa to evaluate, or the refinement is over and `b` is the root. */
  method Advance(slot: BracketState) returns (more: bool, br: BracketState)
    requires slot.fa != 0.0 && slot.fc != 0.0
    ensures Step(more, br) == NextStep(slot)
  {
    if slot.finder == Brent {
      more, br := AdvanceBrent(slot);
    } else {
      more, br := AdvanceFalsi(slot);
    }
  }

  method AdvanceFalsi(slot: BracketState) returns (more: bool, br: BracketState)
    ensures Step(more, br) == FalsiAdvance(slot)
  {
    br := MoveEnd(slot);
    if br.fb == 0.0
       || (br.vtol > 0.0 && br.iterations > 0 && Abs(br.fb) <= br.vtol)
       || Abs(br.c - br.a) <= br.tol
    {
      br := br.(status := Converged);
      if br.iterations == 0 {
        br := br.(b := Midpoint(br.a, br.c));
      }
      return false, br;
    }
    if br.iterations >= br.maxIterations {
      br := br.(status := MaxIterations, b := Midpoint(br.a, br.c));
      return false, br;
    }
    var x := ProbePoint(br);
    br := br.(iterations := br.iterations + 1, b := x);
    return true, br;
  }

  method MoveEnd(slot: BracketState) returns (br: BracketState)
    ensures br == Narrow(slot)
  {
    br := slot;
    if br.iterations > 0 {
      if (br.fb > 0.0) == (br.fa > 0.0) {
        br := br.(a := br.b, fa := br.fb);
        if br.finder == Illinois {
          br := br.(fc := br.fc * 0.5);
        }
      } else {
        br := br.(c := br.b, fc := br.fb);
        if br.finder == Illinois {
          br := br.(fa := br.fa * 0.5);
        }
      }
    }
  }

  method ProbePoint(br: BracketState) returns (x: real)
    ensures x == FalsiProbe(br)
  {
    if br.finder == Bisection || br.fc == br.fa {
      x := Midpoint(br.a, br.c);
    } else {
      x := Secant(br.a, br.fa, br.c, br.fc);
      var lo := if br.a < br.c then br.a else br.c;
      var hi := if br.a < br.c then br.c else br.a;
      if !(x > lo && x < hi) {
        x := Midpoint(br.a, br.c);
      }
    }
  }

  method AdvanceBrent(slot: BracketState) returns (more: bool, br: BracketState)
    requires slot.fa != 0.0 && slot.fc != 0.0
    ensures Step(more, br) == BrentAdvance(slot)
  {
    br := Orient(slot);
    var tol1 := StepFloor(br);
    var xm := 0.5 * (br.c - br.b);
    if Abs(xm) <= tol1 || br.fb == 0.0 || (br.vtol > 0.0 && Abs(br.fb) <= br.vtol) {
      br := br.(status := Converged);
      return false, br;
    }
    if br.iterations >= br.maxIterations {
      br := br.(status := MaxIterations);
      return false, br;
    }
    var d, e := StepLength(br, tol1, xm);
    br := br.(iterations := br.iterations + 1, d := d, e := e);
    br := br.(a := br.b, fa := br.fb);
    if Abs(br.d) > tol1 {
      br := br.(b := br.b + br.d);
    } else {
      br := br.(b := br.b + if xm >= 0.0 then tol1 else -tol1);
    }
    return true, br;
  }

  method Orient(slot: BracketState) returns (br: BracketState)
    ensures br == Favour(Rebracket(slot))
  {
    br := slot;
    if (br.fb > 0.0 && br.fc > 0.0) || (br.fb < 0.0 && br.fc < 0.0) {
      br := br.(c := br.a, fc := br.fa);
      br := br.(e := br.b - br.a);
      br := br.(d := br.e);
    }
    if Abs(br.fc) < Abs(br.fb) {
      br := br.(a := br.b);
      br := br.(b := br.c);
      br := br.(c := br.a);
      br := br.(fa := br.fb);
      br := br.(fb := br.fc);
      br := br.(fc := br.fa);
    }
  }

  method StepLength(br: BracketState, tol1: real, xm: real) returns (d: real, e: real)
    requires br.fc != 0.0
    ensures (d, e) == ChooseStep(br, tol1, xm)
  {
    d, e := br.d, br.e;
    if Abs(e) >= tol1 && Abs(br.fa) > Abs(br.fb) {
      var (p, q) := Interpolant(br.a, br.fa, br.b, br.fb, br.c, br.fc, xm);
      if p > 0.0 {
        q := -q;
      }
      p := Abs(p);
      if Accepts(p, q, e, tol1, xm) {
        e := d;
        d := p / q;
      } else {
        d := xm;
        e := d;
      }
    } else {
      d := xm;
      e := d;
    }
  }
}
