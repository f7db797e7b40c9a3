/** What the tallies count: every sample costs each scanned component one evaluation, every refinement
    value one more of its own, and a component that is not scanned has nothing to show. */
module EventTallies {
  import opened EventTypes
  import opened RootFinding
  import opened EventScan
  import opened EventAccounting
  import opened EventInvariant
  import opened EventRuns

  const BLANK := Tally(0.0, 0, 0.0, 0, 0.0, 0, 0, 0, 0)

  // ----- one step ----------------------------------------------------------------------------------------

  /** Queued brackets are of components that are scanned. */
  ghost predicate QueueScanned(u: Setup, pending: seq<BracketState>) {
    forall i: nat :: i < |pending| ==> pending[i].component < |u.config| && Scanned(u, pending[i].component)
  }

  /** From `s` to `r`, evaluations were counted for the components in `paid`, and for nobody else;
      nothing was remembered of components that are not scanned. */
  ghost predicate Paid(u: Setup, s: Scan, r: Scan, paid: set<nat>) {
    && |r.tallies| == |s.tallies| == |u.config|
    && (forall c: nat :: c < |s.tallies| ==>
          r.tallies[c].evals == s.tallies[c].evals + if c in paid then 1 else 0)
    && (forall c: nat :: c < |s.tallies| && !Scanned(u, c) ==> r.tallies[c] == s.tallies[c])
    && (QueueScanned(u, s.pending) ==> QueueScanned(u, r.pending))
    && r.evaluations == s.evaluations && r.havePrevious == s.havePrevious && r.outstanding == s.outstanding
  }

  lemma StepKeepsComponent(br: BracketState)
    requires br.fa != 0.0 && br.fc != 0.0
    ensures NextStep(br).br.component == br.component
  {
    if br.finder.Brent? {
      hide ChooseStep, BrentDone;
    } else {
      hide FalsiProbe, FalsiDone;
    }
  }

  lemma RecordPaysNothing(u: Setup, s: Scan, c: nat, x: Finding)
    requires Fits(u, s) && c < |u.config| && Scanned(u, c)
    ensures Paid(u, s, RecordHit(u, s, c, x), {})
  {
    hide AddHit, Report, Filtered, Grazes;
  }

  lemma CrossingPaysNothing(u: Setup, s: Scan, c: nat, gp: real, t: real, g: real)
    requires Fits(u, s) && c < |u.config| && Scanned(u, c) && gp != 0.0
    ensures Paid(u, s, RecordCrossing(u, s, c, gp, t, g), {})
  {
    hide RecordHit, NextStep;
    var direction := CrossingDirection(gp, g);
    RecordPaysNothing(u, s, c, Finding(t, g, direction, Discontinuous, 0, 1));
    RecordPaysNothing(u, s, c, Finding(t, g, direction, Converged, 0, 1));
    if Sign(g) != 0 {
      var br := OpenBracket(u, c, s.prevT, gp, t, g);
      StepKeepsComponent(br);
      RecordPaysNothing(u, s, c, BracketFinding(NextStep(br).br));
    }
  }

  lemma ComponentPaysOnce(u: Setup, s: Scan, c: nat, t: real)
    requires Fits(u, s) && Signed(s) && c < |u.config|
    ensures Paid(u, s, ScanComponent(u, s, c, t), if Scanned(u, c) then {c} else {})
  {
    hide RecordCrossing;
    if Scanned(u, c) {
      var g, y := G(u, c)(t), s.tallies[c];
      var s' := s.(tallies := s.tallies[c := Observe(y, g, !s.havePrevious)]);
      if s.havePrevious && Crosses(y.prevSign, Sign(g)) {
        CrossingPaysNothing(u, s', c, y.prevG, t, g);
      }
    }
  }

  ghost function ScannedBelow(u: Setup, j: nat): set<nat> {
    set c: nat | c < j && Scanned(u, c)
  }

  lemma {:induction false} ComponentsPayOnce(u: Setup, s: Scan, j: nat, t: real)
    requires Fits(u, s) && Signed(s) && j <= |u.config|
    ensures Paid(u, s, ScanComponents(u, s, j, t), ScannedBelow(u, j))
  {
    hide ScanComponent;
    if j > 0 {
      ComponentsPayOnce(u, s, j - 1, t);
      ComponentPaysOnce(u, ScanComponents(u, s, j - 1, t), j - 1, t);
    }
  }

  // ----- sums --------------------------------------------------------------------------------------------

  /** Evaluations of the first `k` components beyond `n` each: what their refinements cost. */
  ghost function Refined(u: Setup, ts: seq<Tally>, n: nat, k: nat): int
    requires k <= |ts|
  {
    if k == 0 then 0 else Refined(u, ts, n, k - 1) + if Scanned(u, k - 1) then ts[k - 1].evals - n else 0
  }

  lemma {:induction false} SampleAddsNothing(u: Setup, ts: seq<Tally>, rs: seq<Tally>, n: nat, k: nat)
    requires k <= |ts| == |rs|
    requires forall c: nat :: c < |ts| && Scanned(u, c) ==> rs[c].evals == ts[c].evals + 1
    ensures Refined(u, rs, n + 1, k) == Refined(u, ts, n, k)
  {
    if k > 0 {
      SampleAddsNothing(u, ts, rs, n, k - 1);
    }
  }

  lemma {:induction false} ValueAddsOne(u: Setup, ts: seq<Tally>, rs: seq<Tally>, n: nat, k: nat, c: nat)
    requires k <= |ts| == |rs| && c < |ts| && Scanned(u, c)
    requires forall d: nat :: d < |ts| ==> rs[d].evals == ts[d].evals + if d == c then 1 else 0
    ensures Refined(u, rs, n, k) == Refined(u, ts, n, k) + if c < k then 1 else 0
  {
    if k > 0 {
      ValueAddsOne(u, ts, rs, n, k - 1, c);
    }
  }

  // ----- every call ----------------------------------------------------------------------------------------

  /** `n` samples have been evaluated, and the rest of the evaluations are refinements. */
  ghost predicate Costed(u: Setup, s: Scan, n: nat) {
    && |s.tallies| == |u.config| && QueueScanned(u, s.pending)
    && (forall c: nat :: c < |u.config| && (n == 0 || !Scanned(u, c)) ==> s.tallies[c] == BLANK)
    && (forall c: nat :: c < |u.config| && Scanned(u, c) ==> s.tallies[c].evals >= n)
    && Refined(u, s.tallies, n, |u.config|) == s.evaluations - n
    && (n == 0 ==> s.pending == [] && !s.havePrevious)
  }

  lemma SampleCosts(u: Setup, s: Scan, t: real, n: nat)
    requires Costed(u, s, n) && Fits(u, s) && Signed(s)
    ensures Costed(u, ScanSample(u, s, t), n + 1)
  {
    hide ScanComponents, Refined;
    var s' := s.(evaluations := s.evaluations + 1);
    ComponentsPayOnce(u, s', |u.config|, t);
    var r := ScanSample(u, s, t);
    assert forall c: nat :: c < |u.config| && Scanned(u, c) ==> c in ScannedBelow(u, |u.config|);
    SampleAddsNothing(u, s.tallies, r.tallies, n, |u.config|);
  }

  lemma {:induction false} BatchCosts(u: Setup, s: Scan, ts: seq<real>, n: nat) returns (m: nat)
    requires Costed(u, s, n) && Fits(u, s) && Signed(s)
    ensures m <= |ts| && Costed(u, ScanBatch(u, s, ts), n + m)
    ensures m < |ts| ==> ScanBatch(u, s, ts).log.phase == Done
    decreases |ts|
  {
    hide Costed, ScanSample;
    m := 0;
    if |ts| > 0 {
      SampleCosts(u, s, ts[0], n);
      var s' := ScanSample(u, s, ts[0]);
      m := 1;
      if s'.log.phase != Done {
        var k := BatchCosts(u, s', ts[1..], n + 1);
        m := k + 1;
      }
    }
  }

  lemma RelabelCosts(u: Setup, s: Scan, r: Scan, n: nat)
    requires Costed(u, s, n) && r.tallies == s.tallies && r.pending == s.pending && r.evaluations == s.evaluations
    requires r.havePrevious == s.havePrevious
    ensures Costed(u, r, n)
  {
  }

  lemma RefineCosts(u: Setup, s: Scan, n: nat)
    requires Costed(u, s, n) && RefineOk(u, s)
    ensures Costed(u, SupplyRefine(u, s), n)
  {
    hide RecordHit, NextStep, Refined, Supplied;
    var br, s' := s.pending[0], Evaluated(s);
    assert Scanned(u, br.component) && n > 0;
    ResumeKeepsComponent(u, br);
    var st := NextStep(Supplied(br, G(u, br.component)));
    var r := Resume(u, s);
    if !st.more {
      RecordPaysNothing(u, s', br.component, BracketFinding(st.br));
    }
    assert forall d: nat :: d < |s.tallies| ==>
      r.tallies[d].evals == s.tallies[d].evals + if d == br.component then 1 else 0;
    ValueAddsOne(u, s.tallies, r.tallies, n, |u.config|, br.component);
  }

  lemma ResumeKeepsComponent(u: Setup, br: BracketState)
    requires br.fa != 0.0 && br.fc != 0.0
    ensures var b := Supplied(br, G(u, br.component));
      b.fa != 0.0 && b.fc != 0.0 && NextStep(b).br.component == br.component
  {
    StepKeepsComponent(Supplied(br, G(u, br.component)));
  }

  /** The state of the books after any calls. */
  ghost predicate Books(u: Setup, s: Scan, n: nat) {
    Costed(u, s, n) && n <= s.nextSample && (n < s.nextSample ==> s.log.phase == Done)
  }

  lemma {:induction false} FreshCosts(u: Setup, k: nat)
    requires k <= |u.config|
    ensures Refined(u, Fresh(u).tallies, 0, k) == 0
  {
    if k > 0 {
      FreshCosts(u, k - 1);
    }
  }

  lemma {:induction false} ReachableBooks(u: Setup, calls: seq<Call>) returns (n: nat)
    requires ValidSetup(u)
    ensures Books(u, After(u, calls), n)
  {
    hide Refined, Supply, Next, Inv, Answerable;
    if |calls| == 0 {
      FreshCosts(u, |u.config|);
      n := 0;
    } else {
      var s, call := After(u, calls[..|calls| - 1]), calls[|calls| - 1];
      n := ReachableBooks(u, calls[..|calls| - 1]);
      ReachableInv(u, calls[..|calls| - 1]);
      if call.Ask? {
        NextBooks(u, s, call.capacity, n);
      } else if Answerable(u, s) {
        n := SupplyBooks(u, s, n);
      }
    }
  }

  lemma NextBooks(u: Setup, s: Scan, capacity: nat, n: nat)
    requires Books(u, s, n)
    ensures Books(u, Next(u, s, capacity).1, n)
  {
    hide Costed;
    RelabelCosts(u, s, Next(u, s, capacity).1, n);
  }

  lemma SupplyBooks(u: Setup, s: Scan, n: nat) returns (m: nat)
    requires Books(u, s, n) && Answerable(u, s) && Inv(u, s)
    ensures Books(u, Supply(u, s), m)
  {
    hide Costed, ScanBatch, AtSample, Sound, LogOk, QueueOk, Resume, RefineOk;
    if s.log.phase == RefineWait {
      m := n;
      RefineCosts(u, s, n);
      ResumeScansNothing(u, s);
    } else {
      var s0 := s.(outstanding := []);
      RelabelCosts(u, s, s0, n);
      var k := BatchCosts(u, s0, s.outstanding, n);
      m := n + k;
      RelabelCosts(u, ScanBatch(u, s0, s.outstanding), SupplyScan(u, s), m);
    }
  }

  lemma ResumeScansNothing(u: Setup, s: Scan)
    requires RefineOk(u, s)
    ensures SupplyRefine(u, s).nextSample == s.nextSample
  {
    hide NextStep, Supplied, AddHit, Report, Filtered, Grazes;
  }

  /** In every state any run can reach: a component that is not scanned, and before the first sample
      every component, has a blank summary; the others have counted one evaluation for each of the
      samples evaluated, which are all samples scanned unless the scan is over, and together the rest of
      all evaluations, the refinements. */
  lemma SummariesAddUp(u: Setup, calls: seq<Call>) returns (n: nat)
    requires ValidSetup(u)
    ensures var s := After(u, calls);
      && |s.tallies| == |u.config| && n <= s.nextSample && (n < s.nextSample ==> s.log.phase == Done)
      && (forall c: nat :: c < |u.config| && (n == 0 || !Scanned(u, c)) ==>
            SummaryOf(s.tallies[c], c) == ScanSummary(0.0, 0.0, c, 0, 0, 0, 0))
      && (forall c: nat :: c < |u.config| && Scanned(u, c) ==> SummaryOf(s.tallies[c], c).evaluationCount >= n)
      && Refined(u, s.tallies, n, |u.config|) == s.evaluations - n
  {
    hide After, Refined;
    n := ReachableBooks(u, calls);
  }
}
