/** What every call of the pull protocol keeps. */
module EventInvariant {
  import opened EventTypes
  import opened RootFinding
  import opened EventScan
  import opened EventGrid
  import opened EventAccounting

  // ----- in the middle of a sample ------------------------------------------------------------

  /** The tally of a component whose last scanned sample is `k - 1`. */
  ghost predicate TallyAt(u: Setup, y: Tally, c: nat, k: nat) {
    k > 0 ==>
      && y.prevG == ValueAt(u, c, k - 1) && y.prevSign == SignAt(u, c, k - 1)
      && y.lastG == ValueAt(u, c, k - 1) && y.lastSign == SignAt(u, c, k - 1)
      && y.firstG == ValueAt(u, c, 0) && y.firstSign == SignAt(u, c, 0)
  }

  /** Samples `0 .. k` are scanned, and components `0 .. j` of sample `k`. */
  ghost predicate Tracks(u: Setup, s: Scan, k: nat, j: nat)
    requires Fits(u, s)
  {
    && s.havePrevious == (k > 0)
    && (k > 0 ==> s.prevT == SampleTime(u, k - 1))
    && forall c: nat :: c < |u.config| && Scanned(u, c) ==> TallyAt(u, s.tallies[c], c, if c < j then k + 1 else k)
  }

  ghost function EventsUpTo(u: Setup, k: nat, j: nat): seq<Event>
    requires j <= |u.config|
  {
    GridEvents(u, k) + SampleEvents(u, k, j)
  }

  /** Reported and owed hits are grid events; when nothing was dropped they are all of them. */
  ghost predicate HitsBalance(u: Setup, s: Scan, k: nat, j: nat)
    requires j <= |u.config|
  {
    var here := HitBag(s.log.hits) + OwedBag(u, s.pending);
    && here <= EventBag(u, EventsUpTo(u, k, j))
    && (Clean(u, s.log) && NoOccurrenceFilter(u) ==> here == EventBag(u, EventsUpTo(u, k, j)))
  }

  ghost predicate CountsBalance(u: Setup, s: Scan, k: nat, j: nat)
    requires Fits(u, s)
  {
    Clean(u, s.log) ==>
      forall c: nat :: c < |u.config| ==>
        s.tallies[c].crossings + OwedTo(s.pending, c) == CrossingCount(u, c, if c < j then k + 1 else k)
  }

  /** Evaluations made and still allowed are covered by `n` samples and the grid's budget. */
  ghost predicate SpendingOk(u: Setup, s: Scan, k: nat, j: nat, n: nat)
    requires j <= |u.config|
  {
    s.evaluations + TotalAllowance(s.pending) <= n + GridBudget(u, k) + SampleBudget(u, k, j)
  }

  ghost predicate Mid(u: Setup, s: Scan, k: nat, j: nat, n: nat)
    requires j <= |u.config|
    ensures Mid(u, s, k, j, n) ==> Fits(u, s) && Signed(s) && QueueOk(u, s.pending) && LogOk(u, s.log)
  {
    && Fits(u, s) && Signed(s)
    && QueueOk(u, s.pending) && LogOk(u, s.log)
    && Tracks(u, s, k, j)
    && HitsBalance(u, s, k, j) && CountsBalance(u, s, k, j) && SpendingOk(u, s, k, j, n)
  }

  /** The phase only ever moves to DONE, and only because the hit list is full. */
  ghost predicate PhaseKept(u: Setup, s: Scan, r: Scan) {
    r.log.phase == s.log.phase || (r.log.phase == Done && Capped(u, r.log))
  }

  lemma NextComponentEvents(u: Setup, k: nat, j: nat)
    requires j < |u.config|
    ensures EventBag(u, EventsUpTo(u, k, j + 1)) == EventBag(u, EventsUpTo(u, k, j)) + GridOwed(u, j, k)
    ensures SampleBudget(u, k, j + 1) == SampleBudget(u, k, j) + GridSpend(u, j, k)
  {
    hide Reports, Report, Locate, GridQualifies, GridRefines;
    if GridQualifies(u, j, k) {
      var e := Event(j, k, Locate(u, j, k));
      assert EventsUpTo(u, k, j + 1) == EventsUpTo(u, k, j) + [e];
      EventsAppend(u, EventsUpTo(u, k, j), [e]);
      ReportOne(u, e);
    } else {
      assert EventsUpTo(u, k, j + 1) == EventsUpTo(u, k, j);
    }
  }

  /** Scanning the component changes nothing that is accounted for, except its crossing. */
  lemma ComponentAccounted(u: Setup, s: Scan, k: nat, j: nat, n: nat)
    requires ValidSetup(u) && j < |u.config| && k < u.sampleCount
    requires Mid(u, s, k, j, n)
    ensures var r := ScanComponent(u, s, j, SampleTime(u, k));
      && r == s.(tallies := r.tallies, pending := r.pending, log := r.log)
      && (forall c: nat :: c < |u.config| && c != j ==> r.tallies[c] == s.tallies[c])
      && QueueOk(u, r.pending) && LogOk(u, r.log)
      && PhaseKept(u, s, r)
      && (Capped(u, s.log) ==> Capped(u, r.log))
      && HitBag(r.log.hits) + OwedBag(u, r.pending)
           <= HitBag(s.log.hits) + OwedBag(u, s.pending) + GridOwed(u, j, k)
      && TotalAllowance(r.pending) <= TotalAllowance(s.pending) + GridSpend(u, j, k)
      && (Scanned(u, j) ==> TallyAt(u, r.tallies[j], j, k + 1))
      && (Clean(u, r.log) ==>
            && Clean(u, s.log)
            && (NoOccurrenceFilter(u) ==>
                  HitBag(r.log.hits) + OwedBag(u, r.pending)
                    == HitBag(s.log.hits) + OwedBag(u, s.pending) + GridOwed(u, j, k))
            && (forall c: nat :: c < |u.config| ==>
                  r.tallies[c].crossings + OwedTo(r.pending, c)
                  == s.tallies[c].crossings + OwedTo(s.pending, c)
                     + if c == j && GridCrosses(u, j, k) then 1 else 0))
  {
    hide HitBag, OwedBag, EventBag, EventsUpTo, InScanOrder, QueueOk, RecordCrossing;
    if Scanned(u, j) {
      var t, g, y := SampleTime(u, k), ValueAt(u, j, k), s.tallies[j];
      assert TallyAt(u, y, j, k);
      var s' := s.(tallies := s.tallies[j := Observe(y, g, !s.havePrevious)]);
      assert (s.havePrevious && Crosses(y.prevSign, Sign(g))) == GridCrosses(u, j, k);
      if GridCrosses(u, j, k) {
        CrossingIsAccounted(u, s', j, k);
      }
    }
  }

  lemma ComponentStep(u: Setup, s: Scan, k: nat, j: nat, n: nat)
    requires ValidSetup(u) && j < |u.config| && k < u.sampleCount
    requires Mid(u, s, k, j, n)
    ensures Mid(u, ScanComponent(u, s, j, SampleTime(u, k)), k, j + 1, n)
  {
    hide HitBag, OwedBag, EventBag, EventsUpTo, InScanOrder, QueueOk, GridOwed, GridSpend, ScanComponent;
    ComponentAccounted(u, s, k, j, n);
    NextComponentEvents(u, k, j);
  }

  // ----- whole samples and batches ------------------------------------------------------------------

  ghost predicate AtSample(u: Setup, s: Scan, k: nat)
    ensures AtSample(u, s, k) ==> Fits(u, s) && Signed(s) && QueueOk(u, s.pending) && LogOk(u, s.log)
  {
    Mid(u, s, k, 0, k)
  }

  lemma {:induction false} ComponentsStep(u: Setup, s: Scan, k: nat, j: nat, n: nat)
    requires ValidSetup(u) && j <= |u.config| && k < u.sampleCount
    requires Mid(u, s, k, 0, n)
    ensures Mid(u, ScanComponents(u, s, j, SampleTime(u, k)), k, j, n)
    ensures PhaseKept(u, s, ScanComponents(u, s, j, SampleTime(u, k)))
    ensures var r := ScanComponents(u, s, j, SampleTime(u, k));
      r == s.(tallies := r.tallies, pending := r.pending, log := r.log)
  {
    hide Mid, ScanComponent, LogOk, QueueOk, HitBag, OwedBag;
    if j > 0 {
      ComponentsStep(u, s, k, j - 1, n);
      var r := ScanComponents(u, s, j - 1, SampleTime(u, k));
      ComponentAccounted(u, r, k, j - 1, n);
      ComponentStep(u, r, k, j - 1, n);
    }
  }

  lemma NextSampleMid(u: Setup, s: Scan, k: nat)
    requires Mid(u, s, k, |u.config|, k + 1)
    ensures AtSample(u, s.(prevT := SampleTime(u, k), havePrevious := true), k + 1)
  {
    assert EventsUpTo(u, k + 1, 0) == EventsUpTo(u, k, |u.config|);
  }

  lemma SampleStep(u: Setup, s: Scan, k: nat)
    requires ValidSetup(u) && k < u.sampleCount
    requires AtSample(u, s, k)
    ensures AtSample(u, ScanSample(u, s, SampleTime(u, k)), k + 1)
    ensures PhaseKept(u, s, ScanSample(u, s, SampleTime(u, k)))
    ensures ScanSample(u, s, SampleTime(u, k)).outstanding == s.outstanding
  {
    hide Mid, ScanComponents;
    var s' := s.(evaluations := s.evaluations + 1);
    PaySample(u, s, k);
    ComponentsStep(u, s', k, |u.config|, k + 1);
    NextSampleMid(u, ScanComponents(u, s', |u.config|, SampleTime(u, k)), k);
  }

  lemma PaySample(u: Setup, s: Scan, k: nat)
    requires AtSample(u, s, k)
    ensures Mid(u, s.(evaluations := s.evaluations + 1), k, 0, k + 1)
  {
    hide HitBag, OwedBag, EventBag, EventsUpTo, InScanOrder, QueueOk;
  }

  /** A batch either scans all its samples or stops on a full hit list. */
  lemma {:induction false} BatchStep(u: Setup, s: Scan, k: nat, ts: seq<real>)
    requires ValidSetup(u) && k + |ts| <= u.sampleCount
    requires AtSample(u, s, k) && s.log.phase == ScanWait
    requires forall i: nat :: i < |ts| ==> ts[i] == SampleTime(u, k + i)
    ensures var r := ScanBatch(u, s, ts);
      && r.outstanding == s.outstanding
      && (r.log.phase == ScanWait ==> AtSample(u, r, k + |ts|))
      && (r.log.phase != ScanWait ==>
            r.log.phase == Done && Capped(u, r.log) && exists i: nat :: i <= k + |ts| && AtSample(u, r, i))
    decreases |ts|
  {
    hide AtSample, ScanSample, LogOk, QueueOk;
    if |ts| > 0 {
      SampleStep(u, s, k);
      var s' := ScanSample(u, s, ts[0]);
      if s'.log.phase != Done {
        forall i: nat | i < |ts[1..]| ensures ts[1..][i] == SampleTime(u, k + 1 + i) {
          assert ts[1..][i] == ts[i + 1];
        }
        BatchStep(u, s', k + 1, ts[1..]);
      }
    }
  }

  // ----- between calls ----------------------------------------------------------------------------------

  /** Hits reported or owed are events of the first `k` samples, and the evaluations are paid for. */
  ghost predicate Sound(u: Setup, s: Scan, k: nat) {
    && HitBag(s.log.hits) + OwedBag(u, s.pending) <= EventBag(u, GridEvents(u, k))
    && s.evaluations + TotalAllowance(s.pending) <= k + GridBudget(u, k)
  }

  /** What is outstanding: the head bracket's abscissa, or a batch of samples while the
      queue is empty. */
  ghost predicate ProtocolOk(u: Setup, s: Scan) {
    match s.log.phase
    case Idle => false
    case Done => s.outstanding == []
    case RefineWait => |s.pending| > 0 && s.outstanding == [s.pending[0].b]
    case ScanWait =>
      s.outstanding != [] ==>
        && s.pending == []
        && |s.outstanding| <= SCAN_BATCH
        && s.nextSample + |s.outstanding| <= u.sampleCount
        && s.outstanding == Batch(u, s.nextSample, |s.outstanding|)
  }

  ghost predicate Inv(u: Setup, s: Scan) {
    && Fits(u, s) && Signed(s)
    && QueueOk(u, s.pending) && LogOk(u, s.log)
    && s.nextSample <= u.sampleCount
    && Sound(u, s, s.nextSample)
    && ProtocolOk(u, s)
    && (!Capped(u, s.log) ==> AtSample(u, s, s.nextSample))
  }

  lemma {:induction false} GridGrows(u: Setup, i: nat, k: nat)
    requires i <= k
    ensures EventBag(u, GridEvents(u, i)) <= EventBag(u, GridEvents(u, k))
    ensures GridBudget(u, i) <= GridBudget(u, k)
    decreases k
  {
    hide EventBag, SampleEvents, SampleBudget;
    if i < k {
      GridGrows(u, i, k - 1);
      EventsAppend(u, GridEvents(u, k - 1), SampleEvents(u, k - 1, |u.config|));
    }
  }

  lemma AtSampleIsSound(u: Setup, s: Scan, i: nat, k: nat)
    requires AtSample(u, s, i) && i <= k
    ensures Sound(u, s, k)
  {
    assert EventsUpTo(u, i, 0) == GridEvents(u, i);
    GridGrows(u, i, k);
  }

  lemma FreshInv(u: Setup)
    requires ValidSetup(u)
    ensures Inv(u, Fresh(u))
  {
    hide G, SampleTime, OwedHit, Report, ValidSetup;
    var s := Fresh(u);
    assert EventsUpTo(u, 0, 0) == [];
    assert HitsBalance(u, s, 0, 0);
    assert AtSample(u, s, 0);
  }

  /** `r` is `s` with another request outstanding or another phase, or marked truncated. */
  ghost predicate Relabelled(u: Setup, s: Scan, r: Scan) {
    && r == s.(outstanding := r.outstanding, log := r.log, nextSample := r.nextSample)
    && r.log.hits == s.log.hits
    && (s.log.truncated ==> r.log.truncated)
    && (Capped(u, s.log) ==> r.log.phase == Done)
  }

  lemma RelabelKeeps(u: Setup, s: Scan, r: Scan, k: nat)
    requires Relabelled(u, s, r)
    ensures LogOk(u, s.log) ==> LogOk(u, r.log)
    ensures Sound(u, s, k) ==> Sound(u, r, k)
    ensures AtSample(u, s, k) ==> AtSample(u, r, k)
  {
    hide HitBag, OwedBag, InScanOrder;
  }

  lemma NextKeepsInv(u: Setup, s: Scan, capacity: nat)
    requires ValidSetup(u) && Inv(u, s)
    ensures Inv(u, Next(u, s, capacity).1)
  {
    hide AtSample, Sound, QueueOk, InScanOrder;
    var r := Next(u, s, capacity).1;
    RelabelKeeps(u, s, r, s.nextSample);
  }

  lemma SupplyScanKeepsInv(u: Setup, s: Scan)
    requires ValidSetup(u) && Inv(u, s) && s.outstanding != [] && s.log.phase == ScanWait
    ensures Inv(u, SupplyScan(u, s))
  {
    hide AtSample, Sound, QueueOk, ScanBatch, InScanOrder;
    var s0 := s.(outstanding := []);
    RelabelKeeps(u, s, s0, s.nextSample);
    BatchStep(u, s0, s.nextSample, s.outstanding);
    var s' := ScanBatch(u, s0, s.outstanding);
    var k := s.nextSample + |s.outstanding|;
    var i: nat :| i <= k && AtSample(u, s', i) && (s'.log.phase == ScanWait ==> i == k);
    AtSampleIsSound(u, s', i, k);
    RelabelKeeps(u, s', SupplyScan(u, s), k);
  }

  // ----- a refinement value arrives -----------------------------------------------------------------------

  /** Advancing a waiting bracket either keeps it waiting, owing the same hit with one
      evaluation less to ask for, or yields that hit. */
  lemma ResumeKeepsOwed(u: Setup, br: BracketState)
    requires PendingOk(u, br)
    ensures var st := NextStep(Supplied(br, G(u, br.component)));
      if st.more
      then PendingOk(u, st.br) && st.br.component == br.component && OwedHit(u, st.br) == OwedHit(u, br)
           && Allowance(st.br) + 1 == Allowance(br)
      else Report(u, br.component, BracketFinding(st.br)) == OwedHit(u, br)
  {
    AdvanceKeepsBracket(Supplied(br, G(u, br.component)), G(u, br.component));
  }

  /** One evaluation was made; the hit owed by the head bracket is still owed or was recorded. */
  ghost predicate Resumed(u: Setup, s: Scan, r: Scan) {
    && Fits(u, r) && Signed(r)
    && r == s.(tallies := r.tallies, pending := r.pending, log := r.log, evaluations := s.evaluations + 1)
    && QueueOk(u, r.pending) && LogOk(u, r.log)
    && PhaseKept(u, s, r)
    && (forall c: nat :: c < |s.tallies| && c < |r.tallies| ==>
          r.tallies[c] == s.tallies[c].(crossings := r.tallies[c].crossings, qualifying := r.tallies[c].qualifying,
                                        evals := r.tallies[c].evals))
    && HitBag(r.log.hits) + OwedBag(u, r.pending) <= HitBag(s.log.hits) + OwedBag(u, s.pending)
    && 1 + TotalAllowance(r.pending) <= TotalAllowance(s.pending)
    && (Clean(u, r.log) ==>
          && Clean(u, s.log)
          && (NoOccurrenceFilter(u) ==>
                HitBag(r.log.hits) + OwedBag(u, r.pending) == HitBag(s.log.hits) + OwedBag(u, s.pending))
          && (forall c: nat :: c < |s.tallies| && c < |r.tallies| ==>
                r.tallies[c].crossings + OwedTo(r.pending, c) == s.tallies[c].crossings + OwedTo(s.pending, c)))
  }

  lemma KeepWaiting(u: Setup, s: Scan, br: BracketState)
    requires Fits(u, s) && Signed(s) && QueueOk(u, s.pending) && LogOk(u, s.log) && |s.pending| > 0
    requires PendingOk(u, br) && br.component == s.pending[0].component
    requires OwedHit(u, br) == OwedHit(u, s.pending[0]) && Allowance(br) + 1 == Allowance(s.pending[0])
    ensures Resumed(u, s, Evaluated(s).(pending := [br] + s.pending[1..]))
  {
    hide HitBag, OwedBag, OwedHit, InScanOrder, Allowance;
    var rest := s.pending[1..];
    assert s.pending == [s.pending[0]] + rest;
    assert ([br] + rest)[1..] == rest;
    OwedHead(u, br, rest);
    OwedHead(u, s.pending[0], rest);
  }

  lemma Finish(u: Setup, s: Scan, x: Finding)
    requires Fits(u, s) && Signed(s) && QueueOk(u, s.pending) && LogOk(u, s.log) && |s.pending| > 0
    requires Report(u, s.pending[0].component, x) == OwedHit(u, s.pending[0])
    ensures Resumed(u, s, RecordHit(u, Evaluated(s), s.pending[0].component, x).(pending := s.pending[1..]))
  {
    hide HitBag, OwedBag, OwedHit, InScanOrder, Report, RecordHit, Bracketing;
    var c, rest := s.pending[0].component, s.pending[1..];
    RecordHitIsRecorded(u, Evaluated(s), c, x);
    assert s.pending == [s.pending[0]] + rest;
    OwedHead(u, s.pending[0], rest);
  }

  lemma ResumeIsResumed(u: Setup, s: Scan)
    requires Fits(u, s) && Signed(s) && QueueOk(u, s.pending) && LogOk(u, s.log)
    requires |s.pending| > 0 && s.outstanding == [s.pending[0].b]
    ensures RefineOk(u, s)
    ensures Resumed(u, s, Resume(u, s))
  {
    hide OwedHit, LogOk, Resumed, Report, NextStep, RecordHit;
    var br := s.pending[0];
    assert PendingOk(u, br);
    ResumeKeepsOwed(u, br);
    var st := NextStep(Supplied(br, G(u, br.component)));
    if st.more {
      KeepWaiting(u, s, st.br);
    } else {
      Finish(u, s, BracketFinding(st.br));
    }
  }

  lemma ResumedKeeps(u: Setup, s: Scan, r: Scan, k: nat)
    requires Resumed(u, s, r)
    ensures Sound(u, s, k) ==> Sound(u, r, k)
    ensures Fits(u, s) && AtSample(u, s, k) ==> AtSample(u, r, k)
  {
    hide HitBag, OwedBag, InScanOrder, EventsUpTo, EventBag, QueueOk;
  }

  lemma SupplyRefineKeepsInv(u: Setup, s: Scan)
    requires ValidSetup(u) && Inv(u, s) && s.log.phase == RefineWait
    ensures RefineOk(u, s)
    ensures Inv(u, SupplyRefine(u, s))
  {
    hide HitBag, OwedBag, AtSample, Sound, QueueOk, InScanOrder, Resume;
    ResumeIsResumed(u, s);
    var m := Resume(u, s);
    ResumedKeeps(u, s, m, s.nextSample);
    RelabelKeeps(u, m, SupplyRefine(u, s), s.nextSample);
  }

  lemma SupplyKeepsInv(u: Setup, s: Scan)
    requires ValidSetup(u) && Inv(u, s) && s.outstanding != []
    ensures s.log.phase == RefineWait ==> RefineOk(u, s)
    ensures Inv(u, Supply(u, s))
  {
    hide SupplyScan, SupplyRefine, AtSample, Sound, QueueOk, LogOk;
    if s.log.phase == RefineWait {
      SupplyRefineKeepsInv(u, s);
    } else {
      SupplyScanKeepsInv(u, s);
    }
  }
}
