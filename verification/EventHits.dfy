/** What a reported hit says, in terms of the event function and of what the caller asked for, for
    every state any run can reach. */
module EventHits {
  import opened Options
  import opened EventTypes
  import opened RootFinding
  import opened EventScan
  import opened EventGrid
  import opened EventAccounting
  import opened EventRuns

  /** The hit is of a component, and in a direction, that was asked for. */
  ghost predicate Asked(u: Setup, h: Hit) {
    && h.component < |u.config|
    && (u.interval.component == None || u.interval.component == Some(h.component))
    && (h.direction == 1 || h.direction == -1)
    && (u.config[h.component].direction == 0 || u.config[h.component].direction == h.direction)
    && (u.interval.direction == 0 || u.interval.direction == h.direction)
  }

  /** The component's value at an offset from the interval's start. */
  function At(u: Setup, h: Hit, t: real): real {
    u.eval(u.interval.startJdDay, u.interval.startSeconds + t, h.component)
  }

  function Offset(u: Setup, h: Hit): real {
    h.seconds - u.interval.startSeconds
  }

  /** Between two neighbouring samples the value leaves its sign, rising or falling as the hit says,
      and the hit's epoch lies between them. */
  ghost predicate Between(u: Setup, h: Hit, k: nat)
    requires k > 0
  {
    var before, after := At(u, h, SampleTime(u, k - 1)), At(u, h, SampleTime(u, k));
    && k < u.sampleCount
    && before != 0.0 && (after == 0.0 || OppositeSign(before, after))
    && (h.direction == 1 <==> after > before)
    && Within(Offset(u, h), SampleTime(u, k - 1), SampleTime(u, k))
  }

  predicate UsesBrent(u: Setup, h: Hit)
    requires h.component < |u.config|
  {
    u.policy.finder.Brent? && u.config[h.component].continuity == Smooth
  }

  /** How far from the epoch a sign change may be. */
  function Reach(u: Setup, h: Hit): real
    requires h.component < |u.config|
  {
    u.tolerance + if UsesBrent(u, h) then 4.0 * DBL_EPSILON * Abs(Offset(u, h)) else 0.0
  }

  /** The value has the other sign at `p`, which is close. */
  ghost predicate Flips(u: Setup, h: Hit, p: real)
    requires h.component < |u.config|
  {
    OppositeSign(At(u, h, p), h.value) && Abs(p - Offset(u, h)) <= Reach(u, h)
  }

  /** The value is the one at the hit's epoch, and it is zero, small enough, or changes sign within
      tolerance. */
  ghost predicate Pinned(u: Setup, h: Hit)
    requires h.component < |u.config|
  {
    && h.value == At(u, h, Offset(u, h))
    && (|| h.value == 0.0
        || (u.policy.valueTolerance > 0.0 && Abs(h.value) <= u.policy.valueTolerance)
        || exists p: real :: Flips(u, h, p))
  }

  /** The samples themselves were within tolerance: the hit is half way, with the later one's value. */
  ghost predicate Coarse(u: Setup, h: Hit, k: nat)
    requires k > 0 && h.component < |u.config|
  {
    && !UsesBrent(u, h) && h.iterations == 0
    && Offset(u, h) == Midpoint(SampleTime(u, k - 1), SampleTime(u, k))
    && Abs(SampleTime(u, k) - SampleTime(u, k - 1)) <= u.tolerance
    && h.value == At(u, h, SampleTime(u, k))
  }

  /** What the status means. */
  ghost predicate StatusHolds(u: Setup, h: Hit, k: nat)
    requires k > 0 && h.component < |u.config|
  {
    && (h.status == Discontinuous <==> u.config[h.component].continuity == Discrete)
    && (h.status == Discontinuous ==>
          Offset(u, h) == SampleTime(u, k) && h.value == At(u, h, Offset(u, h)) && h.iterations == 0)
    && (h.status == MaxIterations ==> h.iterations == u.policy.maxIterations)
    && (h.status == Converged ==> !u.clamped)
    && (h.status == EpochResolutionLimited ==> u.clamped)
    && (h.status == Converged || h.status == EpochResolutionLimited ==> Pinned(u, h) || Coarse(u, h, k))
    && (h.status == Converged || h.status == EpochResolutionLimited || h.status == MaxIterations
        || h.status == Discontinuous)
  }

  /** What it cost: one evaluation per iteration, or the sample itself. */
  ghost predicate Costs(u: Setup, h: Hit, k: nat)
    requires k > 0
  {
    && h.iterations <= u.policy.maxIterations
    && (h.evaluations == h.iterations
        || (h.iterations == 0 && h.evaluations == 1 && Offset(u, h) == SampleTime(u, k)))
  }

  ghost predicate TruthfulAt(u: Setup, h: Hit, k: nat) {
    && k > 0 && Asked(u, h) && Between(u, h, k) && StatusHolds(u, h, k) && Costs(u, h, k)
    && h.jdDay == u.interval.startJdDay
    && (h.backward <==> u.span < 0.0)
    && (h.stopCondition <==> u.config[h.component].isStop)
  }

  ghost predicate Truthful(u: Setup, h: Hit) {
    exists k: nat :: TruthfulAt(u, h, k)
  }

  // ----- a fresh refinement --------------------------------------------------------------------------

  function Opening(u: Setup, c: nat, k: nat): BracketState
    requires c < |u.config| && k > 0
  {
    OpenBracket(u, c, SampleTime(u, k - 1), ValueAt(u, c, k - 1), SampleTime(u, k), ValueAt(u, c, k))
  }

  /** A bracket that is within tolerance from the start is settled half way. */
  lemma SettledAtOnce(br: BracketState, g: real -> real)
    requires Ready(br, g) && br.iterations == 0 && br.fb != 0.0 && br.maxIterations > 0
    ensures var fin := Complete(br, g);
      fin.iterations == 0 && !br.finder.Brent? ==>
        fin.b == Midpoint(br.a, br.c) && Abs(br.c - br.a) <= br.tol && fin.fb == br.fb
  {
    AdvanceKeepsBracket(br, g);
    var s := NextStep(br);
    if s.more {
      RefinementStaysBracketed(Supplied(s.br, g), g);
    }
  }

  lemma LocateRefines(u: Setup, c: nat, k: nat)
    requires ValidSetup(u) && c < |u.config| && 0 < k < u.sampleCount && GridCrosses(u, c, k) && GridRefines(u, c, k)
    ensures Ready(Opening(u, c, k), G(u, c))
    ensures Locate(u, c, k) == BracketFinding(Complete(Opening(u, c, k), G(u, c)))
  {
    OpenIsReady(u, c, k);
  }

  lemma TrulyConvergedIsPinned(u: Setup, h: Hit, fin: BracketState)
    requires h.component < |u.config| && TrulyConverged(fin, G(u, h.component))
    requires fin.tol == u.tolerance && fin.vtol == u.policy.valueTolerance && (fin.finder.Brent? <==> UsesBrent(u, h))
    requires Offset(u, h) == fin.b && h.value == fin.fb
    ensures Pinned(u, h)
  {
    if !(fin.fb == 0.0 || (fin.vtol > 0.0 && Abs(fin.fb) <= fin.vtol)) {
      assert Flips(u, h, Partner(fin));
    }
  }

  /** The refinement's verdict, in terms of the hit. */
  lemma ConvergedIsPinned(u: Setup, h: Hit, k: nat, fin: BracketState)
    requires ValidSetup(u) && h.component < |u.config| && k > 0 && GridRefines(u, h.component, k)
    requires Ready(Opening(u, h.component, k), G(u, h.component))
    requires fin == Complete(Opening(u, h.component, k), G(u, h.component)) && fin.status == Converged
    requires Offset(u, h) == fin.b && h.value == fin.fb && h.iterations == fin.iterations
    ensures Pinned(u, h) || Coarse(u, h, k)
  {
    var br, g := Opening(u, h.component, k), G(u, h.component);
    assert br.finder.Brent? <==> UsesBrent(u, h);
    assert br.tol == u.tolerance && br.vtol == u.policy.valueTolerance && br.iterations == 0;
    assert br.fb != 0.0 && br.maxIterations > 0;
    RefinementStaysBracketed(br, g);
    SettledAtOnce(br, g);
    hide Complete, Ready, SampleTime, TrulyConverged, Pinned;
    if br.finder.Brent? || fin.iterations > 0 {
      TrulyConvergedIsPinned(u, h, fin);
    }
  }

  // ----- every hit -----------------------------------------------------------------------------------

  lemma RefinedIsTruthful(u: Setup, h: Hit, k: nat)
    requires ValidSetup(u) && h.component < |u.config| && 0 < k < u.sampleCount && GridCrosses(u, h.component, k)
    requires GridRefines(u, h.component, k) && Plain(h) == Report(u, h.component, Locate(u, h.component, k))
    ensures StatusHolds(u, h, k) && Costs(u, h, k)
  {
    var c := h.component;
    LocateRefines(u, c, k);
    var br, g := Opening(u, c, k), G(u, c);
    var fin := Complete(br, g);
    RefinementStaysBracketed(br, g);
    assert h.seconds == u.interval.startSeconds + fin.b && h.value == fin.fb && h.iterations == fin.iterations;
    assert h.evaluations == fin.evaluations;
    assert h.status == if fin.status == Converged && u.clamped then EpochResolutionLimited else fin.status;
    assert br.iterations == br.evaluations == 0 && br.maxIterations == u.policy.maxIterations;
    hide Complete, Ready, SampleTime, TrulyConverged, Pinned, Coarse, Locate, Report;
    if fin.status == Converged {
      ConvergedIsPinned(u, h, k, fin);
    }
  }

  lemma SampledIsTruthful(u: Setup, h: Hit, k: nat)
    requires ValidSetup(u) && h.component < |u.config| && 0 < k < u.sampleCount && GridCrosses(u, h.component, k)
    requires !GridRefines(u, h.component, k) && Plain(h) == Report(u, h.component, Locate(u, h.component, k))
    ensures StatusHolds(u, h, k) && Costs(u, h, k)
  {
    assert Offset(u, h) == SampleTime(u, k);
    assert h.value == ValueAt(u, h.component, k);
    hide SampleTime;
  }

  lemma CrossingIsBetween(u: Setup, h: Hit, k: nat)
    requires h.component < |u.config| && 0 < k < u.sampleCount && GridQualifies(u, h.component, k)
    requires h.direction == DirectionAt(u, h.component, k)
    requires Within(Offset(u, h), SampleTime(u, k - 1), SampleTime(u, k))
    ensures Asked(u, h) && Between(u, h, k)
  {
    hide SampleTime;
  }

  lemma ReportedIsTruthful(u: Setup, h: Hit, c: nat, k: nat)
    requires ValidSetup(u) && ReportsEvent(u, h, c, k)
    ensures TruthfulAt(u, h, k)
  {
    var x := Locate(u, c, k);
    LocateStaysInside(u, c, k);
    assert Plain(h).component == h.component == c && h.direction == x.direction;
    assert h.jdDay == u.interval.startJdDay && (h.backward <==> u.span < 0.0);
    assert h.stopCondition <==> u.config[c].isStop;
    hide Locate, Report, SampleTime, Refine;
    CrossingIsBetween(u, h, k);
    if GridRefines(u, c, k) {
      RefinedIsTruthful(u, h, k);
    } else {
      SampledIsTruthful(u, h, k);
    }
  }

  /** In every state any run can reach, truncated or not and with any filter or cap, every hit is
      what it says: a sign change that was asked for, between two samples, with a status that holds. */
  lemma HitsAreTruthful(u: Setup, calls: seq<Call>, i: nat)
    requires ValidSetup(u) && i < |After(u, calls).log.hits|
    ensures Truthful(u, After(u, calls).log.hits[i])
  {
    hide After, ReportsEvent, InScanOrder;
    EverythingReportedIsReal(u, calls);
    var h := After(u, calls).log.hits[i];
    assert IsReal(u, h);
    var c: nat, k: nat :| ReportsEvent(u, h, c, k);
    ReportedIsTruthful(u, h, c, k);
  }

  // ----- every crossing asked for ----------------------------------------------------------------------

  /** The component is scanned, its value leaves its sign between samples `k - 1` and `k`, and a crossing
      in that direction was asked for. */
  ghost predicate Wanted(u: Setup, c: nat, k: nat) {
    && c < |u.config| && 0 < k < u.sampleCount
    && (u.interval.component == None || u.interval.component == Some(c))
    && var before := u.eval(u.interval.startJdDay, u.interval.startSeconds + SampleTime(u, k - 1), c);
      var after := u.eval(u.interval.startJdDay, u.interval.startSeconds + SampleTime(u, k), c);
      var direction := if after > before then 1 else -1;
      && before != 0.0 && (after == 0.0 || OppositeSign(before, after))
      && u.config[c].direction in {0, direction} && u.interval.direction in {0, direction}
  }

  lemma WantedQualifies(u: Setup, c: nat, k: nat)
    requires c < |u.config| && 0 < k < u.sampleCount
    ensures Wanted(u, c, k) <==> GridQualifies(u, c, k)
  {
    hide SampleTime;
  }

  lemma {:induction false} InSample(u: Setup, c: nat, k: nat, j: nat)
    requires c < j <= |u.config| && GridQualifies(u, c, k)
    ensures Event(c, k, Locate(u, c, k)) in SampleEvents(u, k, j)
  {
    hide GridQualifies, Locate;
    if c < j - 1 {
      InSample(u, c, k, j - 1);
    }
  }

  lemma {:induction false} InGrid(u: Setup, c: nat, k: nat, n: nat)
    requires c < |u.config| && k < n && GridQualifies(u, c, k)
    ensures Event(c, k, Locate(u, c, k)) in GridEvents(u, n)
  {
    hide GridQualifies, Locate, SampleEvents;
    if k < n - 1 {
      InGrid(u, c, k, n - 1);
    } else {
      InSample(u, c, k, |u.config|);
    }
  }

  lemma ReportedSomewhere(u: Setup, hits: seq<Hit>, xs: seq<Event>, e: Event) returns (i: nat)
    requires e in xs && HitBag(hits) == EventBag(u, xs)
    ensures i < |hits| && Plain(hits[i]) == Report(u, e.component, e.finding)
  {
    hide Report;
    var n: nat :| n < |xs| && xs[n] == e;
    assert Reports(u, xs)[n] == Report(u, e.component, e.finding);
    assert Report(u, e.component, e.finding) in multiset(Reports(u, xs));
    assert Report(u, e.component, e.finding) in multiset(Plains(hits));
    i :| i < |hits| && Plains(hits)[i] == Report(u, e.component, e.finding);
  }

  /** When a run has ended, untruncated and below its cap, and no occurrence filter is set, every crossing
      that was asked for is in the list, and what is said of it is true. */
  lemma EveryWantedIsReported(u: Setup, calls: seq<Call>, capacity: nat, r: Scan, c: nat, k: nat) returns (i: nat)
    requires ValidSetup(u) && NoOccurrenceFilter(u) && Wanted(u, c, k)
    requires Next(u, After(u, calls), capacity) == (Epochs(0), r) && Clean(u, r.log)
    ensures i < |r.log.hits| && r.log.hits[i].component == c && TruthfulAt(u, r.log.hits[i], k)
  {
    hide After, Next, Wanted, GridQualifies, Locate, HitBag, EventBag, TruthfulAt, ValidSetup;
    UntruncatedIsComplete(u, calls, capacity, r);
    WantedBounds(u, c, k);
    WantedQualifies(u, c, k);
    InGrid(u, c, k, u.sampleCount);
    i := ReportedSomewhere(u, r.log.hits, GridEvents(u, u.sampleCount), Event(c, k, Locate(u, c, k)));
    EventIsReported(u, r.log.hits[i], c, k);
  }

  lemma WantedBounds(u: Setup, c: nat, k: nat)
    requires Wanted(u, c, k)
    ensures c < |u.config| && 0 < k < u.sampleCount
  {
  }

  lemma EventIsReported(u: Setup, h: Hit, c: nat, k: nat)
    requires ValidSetup(u) && c < |u.config| && 0 < k < u.sampleCount && GridQualifies(u, c, k)
    requires Plain(h) == Report(u, c, Locate(u, c, k))
    ensures h.component == c && TruthfulAt(u, h, k)
  {
    hide Locate, SampleTime, TruthfulAt;
    LocateStaysInside(u, c, k);
    assert Plain(h).seconds == h.seconds && Plain(h).component == h.component;
    assert ReportsEvent(u, h, c, k);
    ReportedIsTruthful(u, h, c, k);
  }
}
