/** A scan reports truncation only with a cause: with room for the grid's events, and limits above what
    they need, every run ends complete. */
module EventCauses {
  import opened EventTypes
  import opened RootFinding
  import opened EventScan
  import opened EventGrid
  import opened EventAccounting
  import opened EventInvariant
  import opened EventRuns
  import opened EventLimits

  /** The queue holds all events of the grid, and neither limit of the caller is within reach. */
  ghost predicate Ample(u: Setup) {
    var n := |GridEvents(u, u.sampleCount)|;
    && n <= 64
    && (u.interval.maxEvents == 0 || u.interval.maxEvents > n)
    && (u.interval.maxEvaluations == 0 || u.interval.maxEvaluations > u.sampleCount + GridBudget(u, u.sampleCount))
  }

  // ----- sizes ------------------------------------------------------------------------------------------

  lemma BagSizes<T>(a: multiset<T>, b: multiset<T>)
    requires a <= b
    ensures |a| <= |b|
  {
    assert b == a + (b - a);
  }

  /** Hits and queued brackets are no more than the events they account for. */
  lemma AccountedSize(u: Setup, s: Scan, xs: seq<Event>)
    requires HitBag(s.log.hits) + OwedBag(u, s.pending) <= EventBag(u, xs)
    ensures |s.log.hits| + |s.pending| <= |xs|
  {
    BagSizes(HitBag(s.log.hits) + OwedBag(u, s.pending), EventBag(u, xs));
    assert |HitBag(s.log.hits)| == |s.log.hits| && |OwedBag(u, s.pending)| == |s.pending|;
    assert |EventBag(u, xs)| == |xs|;
  }

  lemma {:induction false} GridSize(u: Setup, i: nat, k: nat)
    requires i <= k
    ensures |GridEvents(u, i)| <= |GridEvents(u, k)|
    decreases k
  {
    hide SampleEvents;
    if i < k {
      GridSize(u, i, k - 1);
    }
  }

  lemma {:induction false} SampleSize(u: Setup, k: nat, i: nat, j: nat)
    requires i <= j <= |u.config|
    ensures |SampleEvents(u, k, i)| <= |SampleEvents(u, k, j)|
    decreases j
  {
    hide GridQualifies, Locate;
    if i < j {
      SampleSize(u, k, i, j - 1);
    }
  }

  /** Events up to component `j` of sample `k` are part of the grid's. */
  lemma UpToSize(u: Setup, k: nat, j: nat)
    requires k < u.sampleCount && j <= |u.config|
    ensures |EventsUpTo(u, k, j)| <= |GridEvents(u, u.sampleCount)|
  {
    SampleSize(u, k, j, |u.config|);
    GridSize(u, k + 1, u.sampleCount);
    hide SampleEvents;
  }

  // ----- nothing is dropped -----------------------------------------------------------------------------

  /** There is room for one more hit. */
  ghost predicate Roomy(u: Setup, hits: nat) {
    hits < 64 && (u.interval.maxEvents == 0 || hits + 1 < u.interval.maxEvents)
  }

  lemma AddStaysCalm(u: Setup, log: Log, hit: Hit)
    requires Roomy(u, |log.hits|)
    ensures var r := AddHit(u, log, hit); r.truncated == log.truncated && r.phase == log.phase
  {
    InsertedOne(u, log.hits, hit);
    hide InsertHit;
  }

  lemma RecordStaysCalm(u: Setup, s: Scan, c: nat, x: Finding)
    requires Fits(u, s) && c < |u.config| && Roomy(u, |s.log.hits|)
    ensures var r := RecordHit(u, s, c, x); r.log.truncated == s.log.truncated && r.log.phase == s.log.phase
  {
    hide AddHit, Report, Filtered, Grazes;
    var y := s.tallies[c];
    var y' := y.(crossings := y.crossings + 1, qualifying := y.qualifying + 1);
    AddStaysCalm(u, s.log, Report(u, c, x).(tangential := Grazes(y', x.value)));
  }

  lemma CrossingStaysCalm(u: Setup, s: Scan, c: nat, gp: real, t: real, g: real)
    requires Fits(u, s) && c < |u.config| && gp != 0.0
    requires Qualifies(u, c, CrossingDirection(gp, g)) ==> |s.pending| < 64 && Roomy(u, |s.log.hits|)
    ensures var r := RecordCrossing(u, s, c, gp, t, g);
      r.log.truncated == s.log.truncated && r.log.phase == s.log.phase
  {
    hide RecordHit, NextStep, Roomy;
    var direction := CrossingDirection(gp, g);
    if Qualifies(u, c, direction) {
      RecordStaysCalm(u, s, c, Finding(t, g, direction, Discontinuous, 0, 1));
      RecordStaysCalm(u, s, c, Finding(t, g, direction, Converged, 0, 1));
      if Sign(g) != 0 {
        RecordStaysCalm(u, s, c, BracketFinding(NextStep(OpenBracket(u, c, s.prevT, gp, t, g)).br));
      }
    }
  }

  /** A qualifying crossing finds the room its event was counted for. */
  lemma RoomForCrossing(u: Setup, s: Scan, k: nat, j: nat, n: nat)
    requires Ample(u) && j < |u.config| && k < u.sampleCount && Mid(u, s, k, j, n) && GridQualifies(u, j, k)
    ensures |s.pending| < 64 && Roomy(u, |s.log.hits|)
  {
    hide HitBag, OwedBag, EventBag, QueueOk, LogOk, GridQualifies, Locate;
    AccountedSize(u, s, EventsUpTo(u, k, j));
    UpToSize(u, k, j + 1);
    assert |EventsUpTo(u, k, j + 1)| == |EventsUpTo(u, k, j)| + 1;
  }

  lemma ComponentStaysCalm(u: Setup, s: Scan, k: nat, j: nat, n: nat)
    requires ValidSetup(u) && Ample(u) && j < |u.config| && k < u.sampleCount && Mid(u, s, k, j, n)
    ensures var r := ScanComponent(u, s, j, SampleTime(u, k));
      r.log.truncated == s.log.truncated && r.log.phase == s.log.phase
  {
    hide Ample, RecordCrossing, Roomy, HitsBalance, CountsBalance, SpendingOk, QueueOk, LogOk;
    if Scanned(u, j) {
      var t, g, y := SampleTime(u, k), ValueAt(u, j, k), s.tallies[j];
      assert TallyAt(u, y, j, k);
      var s' := s.(tallies := s.tallies[j := Observe(y, g, !s.havePrevious)]);
      if s.havePrevious && Crosses(y.prevSign, Sign(g)) {
        assert GridCrosses(u, j, k);
        if Qualifies(u, j, CrossingDirection(y.prevG, g)) {
          RoomForCrossing(u, s, k, j, n);
        }
        CrossingStaysCalm(u, s', j, y.prevG, t, g);
      }
    }
  }

  lemma {:induction false} ComponentsStayCalm(u: Setup, s: Scan, k: nat, j: nat, n: nat)
    requires ValidSetup(u) && Ample(u) && j <= |u.config| && k < u.sampleCount && Mid(u, s, k, 0, n)
    ensures var r := ScanComponents(u, s, j, SampleTime(u, k));
      r.log.truncated == s.log.truncated && r.log.phase == s.log.phase
  {
    hide Ample, Mid, ScanComponent;
    if j > 0 {
      ComponentsStayCalm(u, s, k, j - 1, n);
      ComponentsStep(u, s, k, j - 1, n);
      ComponentStaysCalm(u, ScanComponents(u, s, j - 1, SampleTime(u, k)), k, j - 1, n);
    }
  }

  lemma SampleStaysCalm(u: Setup, s: Scan, k: nat)
    requires ValidSetup(u) && Ample(u) && k < u.sampleCount && AtSample(u, s, k)
    ensures var r := ScanSample(u, s, SampleTime(u, k));
      r.log.truncated == s.log.truncated && r.log.phase == s.log.phase
  {
    hide Ample, Mid, ScanComponents;
    PaySample(u, s, k);
    ComponentsStayCalm(u, s.(evaluations := s.evaluations + 1), k, |u.config|, k + 1);
  }

  lemma {:induction false} BatchStaysCalm(u: Setup, s: Scan, k: nat, ts: seq<real>)
    requires ValidSetup(u) && Ample(u) && k + |ts| <= u.sampleCount && AtSample(u, s, k) && s.log.phase == ScanWait
    requires forall i: nat :: i < |ts| ==> ts[i] == SampleTime(u, k + i)
    ensures var r := ScanBatch(u, s, ts); r.log.truncated == s.log.truncated && r.log.phase == ScanWait
    decreases |ts|
  {
    hide Ample, AtSample, ScanSample, LogOk, QueueOk;
    if |ts| > 0 {
      SampleStep(u, s, k);
      SampleStaysCalm(u, s, k);
      var s' := ScanSample(u, s, ts[0]);
      forall i: nat | i < |ts[1..]|
        ensures ts[1..][i] == SampleTime(u, k + 1 + i)
      {
        assert ts[1..][i] == ts[i + 1];
      }
      BatchStaysCalm(u, s', k + 1, ts[1..]);
    }
  }

  // ----- every call -------------------------------------------------------------------------------------

  /** Nothing was dropped, and the scan is over only when there is nothing left to do. */
  ghost predicate Calm(u: Setup, s: Scan) {
    !s.log.truncated && (s.log.phase == Done ==> s.pending == [] && s.nextSample == u.sampleCount)
  }

  lemma AmpleIsUncapped(u: Setup, s: Scan)
    requires Ample(u) && Inv(u, s)
    ensures |s.log.hits| + |s.pending| <= |GridEvents(u, u.sampleCount)| && !Capped(u, s.log)
  {
    hide HitBag, OwedBag, EventBag, QueueOk, LogOk, AtSample, ProtocolOk;
    AccountedSize(u, s, GridEvents(u, s.nextSample));
    GridSize(u, s.nextSample, u.sampleCount);
  }

  lemma NextStaysCalm(u: Setup, s: Scan, capacity: nat)
    requires ValidSetup(u) && Ample(u) && Inv(u, s) && Calm(u, s)
    ensures Calm(u, Next(u, s, capacity).1)
  {
    hide HitBag, OwedBag, EventBag, QueueOk, LogOk, AtSample, ProtocolOk, GridEvents, GridBudget;
    GridGrows(u, s.nextSample, u.sampleCount);
    assert s.evaluations <= u.sampleCount + GridBudget(u, u.sampleCount);
  }

  lemma ScanStaysCalm(u: Setup, s: Scan)
    requires ValidSetup(u) && Ample(u) && Inv(u, s) && Calm(u, s) && s.outstanding != [] && s.log.phase == ScanWait
    ensures Calm(u, SupplyScan(u, s))
  {
    hide Ample, AtSample, Sound, QueueOk, LogOk, ScanBatch;
    var s0 := s.(outstanding := []);
    AmpleIsUncapped(u, s);
    RelabelKeeps(u, s, s0, s.nextSample);
    BatchStaysCalm(u, s0, s.nextSample, s.outstanding);
  }

  lemma RefineStaysCalm(u: Setup, s: Scan)
    requires ValidSetup(u) && Ample(u) && Inv(u, s) && Calm(u, s) && RefineOk(u, s) && s.log.phase == RefineWait
    ensures Calm(u, SupplyRefine(u, s))
  {
    AmpleIsUncapped(u, s);
    hide AtSample, Sound, QueueOk, LogOk, RecordHit, NextStep, Supplied, GridEvents, GridBudget;
    var br, s' := s.pending[0], Evaluated(s);
    var st := ResumedStep(u, br);
    if !st.more {
      assert Roomy(u, |s'.log.hits|);
      RecordStaysCalm(u, s', br.component, BracketFinding(st.br));
    }
  }

  lemma {:induction false} ReachableCalm(u: Setup, calls: seq<Call>)
    requires ValidSetup(u) && Ample(u)
    ensures Calm(u, After(u, calls))
  {
    hide Ample, Inv, Supply, Next, RefineOk, Calm;
    if |calls| == 0 {
      assert Calm(u, Fresh(u)) by { FreshIsCalm(u); }
    } else {
      var s, call := After(u, calls[..|calls| - 1]), calls[|calls| - 1];
      ReachableCalm(u, calls[..|calls| - 1]);
      ReachableInv(u, calls[..|calls| - 1]);
      if call.Ask? {
        NextStaysCalm(u, s, call.capacity);
      } else if Answerable(u, s) {
        SupplyStaysCalm(u, s);
      }
    }
  }

  lemma FreshIsCalm(u: Setup)
    ensures Calm(u, Fresh(u))
  {
  }

  lemma SupplyStaysCalm(u: Setup, s: Scan)
    requires ValidSetup(u) && Ample(u) && Inv(u, s) && Calm(u, s) && Answerable(u, s)
    ensures Calm(u, Supply(u, s))
  {
    hide Ample, AtSample, Sound, QueueOk, LogOk, Calm, RefineOk, SupplyScan, SupplyRefine;
    if s.log.phase == RefineWait {
      RefineStaysCalm(u, s);
    } else {
      ScanStaysCalm(u, s);
    }
  }

  /** A run says it is truncated only if the grid has more events than the queue holds, or as many as
      the caller's cap, or its limit on evaluations is within what they may take. */
  lemma TruncationHasCause(u: Setup, calls: seq<Call>)
    requires ValidSetup(u) && After(u, calls).log.truncated
    ensures var n := |GridEvents(u, u.sampleCount)|;
      || n > 64
      || (u.interval.maxEvents != 0 && u.interval.maxEvents <= n)
      || (u.interval.maxEvaluations != 0 && u.interval.maxEvaluations <= u.sampleCount + GridBudget(u, u.sampleCount))
  {
    hide After, GridEvents, GridBudget;
    if Ample(u) {
      ReachableCalm(u, calls);
    }
  }

  /** With ample room and limits, whenever a run comes to its end its outcome is complete. */
  lemma AmpleScanIsComplete(u: Setup, calls: seq<Call>, capacity: nat, r: Scan)
    requires ValidSetup(u) && Ample(u) && Next(u, After(u, calls), capacity) == (Epochs(0), r)
    ensures !r.log.truncated && Accomplished(u, r)
  {
    hide After, Next, Accomplished, Inv, Ample;
    ReachableCalm(u, calls);
    ReachableInv(u, calls);
    NextStaysCalm(u, After(u, calls), capacity);
    NextKeepsInv(u, After(u, calls), capacity);
    AmpleIsUncapped(u, r);
    UntruncatedIsComplete(u, calls, capacity, r);
  }
}
