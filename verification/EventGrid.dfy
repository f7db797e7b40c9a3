/** The whole-grid reading of a scan: the events of a component are the sign changes
    between consecutive samples, each refined on its own sample interval.  The suspended,
    batched, queued runner is proved to account for exactly these events. */
module EventGrid {
  import opened Options
  import opened EventTypes
  import opened RootFinding
  import opened EventScan

  // ----- the reference ------------------------------------------------------------------

  /** A qualifying crossing of `component` between samples `sample - 1` and `sample`. */
  datatype Event = Event(component: nat, sample: nat, finding: Finding)

  function ValueAt(u: Setup, c: nat, k: nat): real {
    G(u, c)(SampleTime(u, k))
  }

  function SignAt(u: Setup, c: nat, k: nat): int {
    Sign(ValueAt(u, c, k))
  }

  ghost predicate GridCrosses(u: Setup, c: nat, k: nat) {
    Scanned(u, c) && k > 0 && SignAt(u, c, k - 1) != 0 && SignAt(u, c, k) != SignAt(u, c, k - 1)
  }

  function DirectionAt(u: Setup, c: nat, k: nat): int
    requires k > 0
  {
    CrossingDirection(ValueAt(u, c, k - 1), ValueAt(u, c, k))
  }

  ghost predicate GridQualifies(u: Setup, c: nat, k: nat)
    requires c < |u.config|
    ensures GridQualifies(u, c, k) ==> k > 0 && GridCrosses(u, c, k)
  {
    GridCrosses(u, c, k) && Qualifies(u, c, DirectionAt(u, c, k))
  }

  /** The refinement of one bracket, run to its end. */
  ghost function Refine(u: Setup, c: nat, br: BracketState): Finding {
    BracketFinding(if Ready(br, G(u, c)) then Complete(br, G(u, c)) else br)
  }

  ghost predicate GridRefines(u: Setup, c: nat, k: nat)
    requires c < |u.config|
  {
    u.config[c].continuity != Discrete && SignAt(u, c, k) != 0
  }

  ghost function Locate(u: Setup, c: nat, k: nat): Finding
    requires c < |u.config| && k > 0
  {
    var t, g, direction := SampleTime(u, k), ValueAt(u, c, k), DirectionAt(u, c, k);
    if u.config[c].continuity == Discrete then Finding(t, g, direction, Discontinuous, 0, 1)
    else if Sign(g) == 0 then Finding(t, g, direction, Converged, 0, 1)
    else Refine(u, c, OpenBracket(u, c, SampleTime(u, k - 1), ValueAt(u, c, k - 1), t, g))
  }

  /** Events of sample `k` in components `0 .. j`. */
  ghost function SampleEvents(u: Setup, k: nat, j: nat): seq<Event>
    requires j <= |u.config|
  {
    if j == 0 then []
    else SampleEvents(u, k, j - 1)
         + if GridQualifies(u, j - 1, k) then [Event(j - 1, k, Locate(u, j - 1, k))] else []
  }

  /** Events of samples `0 .. k`, in scan order. */
  ghost function GridEvents(u: Setup, k: nat): seq<Event> {
    if k == 0 then [] else GridEvents(u, k - 1) + SampleEvents(u, k - 1, |u.config|)
  }

  /** Sign changes of `c` at samples `0 .. k`, whether or not they qualify. */
  ghost function CrossingCount(u: Setup, c: nat, k: nat): nat {
    if k == 0 then 0 else CrossingCount(u, c, k - 1) + if GridCrosses(u, c, k - 1) then 1 else 0
  }

  /** Function evaluations the refinements of those events may spend. */
  ghost function SampleBudget(u: Setup, k: nat, j: nat): nat
    requires j <= |u.config|
  {
    if j == 0 then 0
    else SampleBudget(u, k, j - 1)
         + if GridQualifies(u, j - 1, k) && GridRefines(u, j - 1, k) then u.policy.maxIterations else 0
  }

  ghost function GridBudget(u: Setup, k: nat): nat {
    if k == 0 then 0 else GridBudget(u, k - 1) + SampleBudget(u, k - 1, |u.config|)
  }

  // ----- the sample grid -----------------------------------------------------------------

  /** The grid starts and ends exactly on the interval's ends, moves strictly in scan
      direction, and never leaves a gap wider than the scan step. */
  lemma GridCovers(u: Setup, k: nat)
    requires ValidSetup(u) && k + 1 < u.sampleCount
    ensures SampleTime(u, 0) == 0.0 && SampleTime(u, u.sampleCount - 1) == u.span
    ensures 0.0 < Abs(SampleTime(u, k + 1) - SampleTime(u, k)) <= u.policy.scanStep
    ensures if u.span < 0.0 then SampleTime(u, k + 1) < SampleTime(u, k)
            else SampleTime(u, k) < SampleTime(u, k + 1)
    ensures Within(SampleTime(u, k), 0.0, u.span) && Within(SampleTime(u, k + 1), 0.0, u.span)
  {
    var h := u.policy.scanStep;
    SampleOffset(u, 0);
    SampleOffset(u, k);
    assert (k + 1) as real * h == k as real * h + h;
    if k + 2 < u.sampleCount {
      SampleOffset(u, k + 1);
    } else {
      assert k == u.sampleCount - 2;
    }
  }

  /** A planned scan is about the interval it was planned for: its first sample is the interval's
      start and its last one the interval's stop, to the second, and it refines to the tolerance
      asked for or, if that is coarser, to the resolution of the state source. */
  lemma PlanMeetsInterval(u: Setup, interval: EventInterval, policy: RootPolicy, resolution: real)
    requires Refusal(u, interval, policy) == None && |u.config| <= MAX_COMPONENTS
    requires Ratio(SpanOf(interval), policy.scanStep) <= 4294967294.0
    ensures var plan := Planned(u, interval, policy, resolution);
      var last := plan.sampleCount - 1;
      && last > 0 && plan.interval == interval && plan.policy == policy
      && plan.config == u.config && plan.eval == u.eval
      && SampleTime(plan, 0) == 0.0
      && interval.startJdDay * 86400.0 + (interval.startSeconds + SampleTime(plan, last))
         == interval.stopJdDay * 86400.0 + interval.stopSeconds
      && plan.tolerance >= policy.epochTolerance && plan.tolerance >= resolution
      && (plan.tolerance == policy.epochTolerance || plan.tolerance == resolution)
      && (plan.clamped <==> plan.tolerance != policy.epochTolerance)
  {
    PlannedIsValid(u, interval, policy, resolution);
    GridCovers(Planned(u, interval, policy, resolution), 0);
  }

  /** Which intervals and policies are accepted. */
  lemma AcceptedExactly(u: Setup, interval: EventInterval, policy: RootPolicy)
    ensures Refusal(u, interval, policy) == None <==>
      && u.config != []
      && policy.scanStep > 0.0 && policy.epochTolerance > 0.0
      && policy.maxIterations > 0 && policy.valueTolerance >= 0.0
      && (interval.component == None || interval.component.value < |u.config|)
      && (interval.stopJdDay - interval.startJdDay) * 86400.0 + interval.stopSeconds != interval.startSeconds
  {
  }

  /** Every sample but the last is a whole number of steps from the start. */
  lemma SampleOffset(u: Setup, k: nat)
    requires ValidSetup(u) && k + 1 < u.sampleCount
    ensures var x := k as real * u.policy.scanStep;
      0.0 <= x < Abs(u.span) && SampleTime(u, k) == if u.span < 0.0 then -x else x
  {
    var h := u.policy.scanStep;
    assert (u.sampleCount - 2 - k) as real * h >= 0.0;
    assert (u.sampleCount - 2) as real * h == k as real * h + (u.sampleCount - 2 - k) as real * h;
  }

  lemma {:induction false} GridOrder(u: Setup, i: nat, j: nat)
    requires ValidSetup(u) && i < j < u.sampleCount
    ensures if u.span < 0.0 then SampleTime(u, j) < SampleTime(u, i) else SampleTime(u, i) < SampleTime(u, j)
    ensures Within(SampleTime(u, i), 0.0, u.span) && Within(SampleTime(u, j), 0.0, u.span)
    decreases j
  {
    GridCovers(u, j - 1);
    if i < j - 1 {
      GridOrder(u, i, j - 1);
    }
  }

  /** A sign change opens a bracket that is ready to be refined. */
  lemma OpenIsReady(u: Setup, c: nat, k: nat)
    requires ValidSetup(u) && c < |u.config| && 0 < k < u.sampleCount
    requires GridCrosses(u, c, k) && SignAt(u, c, k) != 0
    ensures Ready(OpenBracket(u, c, SampleTime(u, k - 1), ValueAt(u, c, k - 1), SampleTime(u, k), ValueAt(u, c, k)),
                  G(u, c))
  {
  }

  /** Every event is located inside its own sample interval. */
  lemma LocateStaysInside(u: Setup, c: nat, k: nat)
    requires ValidSetup(u) && c < |u.config| && 0 < k < u.sampleCount
    requires GridCrosses(u, c, k)
    ensures Within(Locate(u, c, k).t, SampleTime(u, k - 1), SampleTime(u, k))
    ensures Locate(u, c, k).direction == DirectionAt(u, c, k)
  {
    if GridRefines(u, c, k) {
      OpenIsReady(u, c, k);
      RefinementStaysBracketed(
        OpenBracket(u, c, SampleTime(u, k - 1), ValueAt(u, c, k - 1), SampleTime(u, k), ValueAt(u, c, k)), G(u, c));
    }
  }
}
