/** Whole runs of the pull protocol, whatever the consumer asks for and in whatever order. */
module EventRuns {
  import opened EventTypes
  import opened EventScan
  import opened EventGrid
  import opened EventAccounting
  import opened EventInvariant
  import opened Sequences

  /** What a consumer may do next.  Answering when nothing is outstanding is refused and
      changes nothing. */
  datatype Call = Ask(capacity: nat) | Answer

  ghost predicate Answerable(u: Setup, s: Scan) {
    && s.outstanding != []
    && Fits(u, s) && Signed(s)
    && (s.log.phase == RefineWait ==> RefineOk(u, s))
  }

  ghost function Perform(u: Setup, s: Scan, call: Call): Scan {
    match call
    case Ask(capacity) => Next(u, s, capacity).1
    case Answer => if Answerable(u, s) then Supply(u, s) else s
  }

  /** The state after any sequence of calls on a freshly begun scan. */
  ghost function After(u: Setup, calls: seq<Call>): Scan {
    if |calls| == 0 then Fresh(u) else Perform(u, After(u, calls[..|calls| - 1]), calls[|calls| - 1])
  }

  lemma AfterCall(u: Setup, calls: seq<Call>, call: Call)
    ensures After(u, calls + [call]) == Perform(u, After(u, calls), call)
  {
    assert (calls + [call])[..|calls + [call]| - 1] == calls;
  }

  /** Every reachable state satisfies the invariant, and an outstanding request can always
      be answered. */
  lemma {:induction false} ReachableInv(u: Setup, calls: seq<Call>)
    requires ValidSetup(u)
    ensures Inv(u, After(u, calls))
    ensures After(u, calls).outstanding != [] ==> Answerable(u, After(u, calls))
  {
    hide AtSample, Sound, LogOk, QueueOk, Supply, Next;
    if |calls| == 0 {
      FreshInv(u);
    } else {
      var s := After(u, calls[..|calls| - 1]);
      ReachableInv(u, calls[..|calls| - 1]);
      if calls[|calls| - 1].Ask? {
        NextKeepsInv(u, s, calls[|calls| - 1].capacity);
      } else if s.outstanding != [] {
        SupplyKeepsInv(u, s);
      }
    }
    if After(u, calls).outstanding != [] {
      SupplyKeepsInv(u, After(u, calls));
    }
  }

  // ----- everything reported is real -------------------------------------------------------------

  /** `h` reports the grid event of component `c` at sample `k`, inside its sample interval. */
  ghost predicate ReportsEvent(u: Setup, h: Hit, c: nat, k: nat) {
    && c < |u.config| && 0 < k < u.sampleCount
    && GridQualifies(u, c, k)
    && Plain(h) == Report(u, c, Locate(u, c, k))
    && Within(h.seconds - u.interval.startSeconds, SampleTime(u, k - 1), SampleTime(u, k))
  }

  ghost predicate IsReal(u: Setup, h: Hit) {
    exists c: nat, k: nat :: ReportsEvent(u, h, c, k)
  }

  lemma {:induction false} SampleEventIsQualified(u: Setup, k: nat, j: nat, e: Event)
    requires j <= |u.config| && e in SampleEvents(u, k, j)
    ensures e.sample == k && e.component < j && GridQualifies(u, e.component, k)
    ensures e.finding == Locate(u, e.component, k)
  {
    if !(GridQualifies(u, j - 1, k) && e == Event(j - 1, k, Locate(u, j - 1, k))) {
      SampleEventIsQualified(u, k, j - 1, e);
    }
  }

  lemma {:induction false} GridEventIsQualified(u: Setup, k: nat, e: Event)
    requires e in GridEvents(u, k)
    ensures e.sample < k && e.component < |u.config| && GridQualifies(u, e.component, e.sample)
    ensures e.finding == Locate(u, e.component, e.sample)
  {
    if e in SampleEvents(u, k - 1, |u.config|) {
      SampleEventIsQualified(u, k - 1, |u.config|, e);
    } else {
      GridEventIsQualified(u, k - 1, e);
    }
  }

  lemma BagMember(u: Setup, s: Scan, xs: seq<Event>, i: nat) returns (e: Event)
    requires i < |s.log.hits|
    requires HitBag(s.log.hits) + OwedBag(u, s.pending) <= EventBag(u, xs)
    ensures e in xs && Plain(s.log.hits[i]) == Report(u, e.component, e.finding)
  {
    var h := Plain(s.log.hits[i]);
    assert h == Plains(s.log.hits)[i];
    assert h in HitBag(s.log.hits);
    assert h in EventBag(u, xs);
    assert h in Reports(u, xs);
    var n: nat :| n < |xs| && Reports(u, xs)[n] == h;
    e := xs[n];
  }

  /** In every state any run can reach, truncated or not and with any filter or cap, the
      list is in scan order and within its limits, and each hit reports a qualifying
      crossing of the grid, located inside its own sample interval. */
  lemma EverythingReportedIsReal(u: Setup, calls: seq<Call>)
    requires ValidSetup(u)
    ensures var log := After(u, calls).log;
      && InScanOrder(u, log.hits)
      && |log.hits| <= MAX_HITS
      && (u.interval.maxEvents != 0 ==> |log.hits| <= u.interval.maxEvents)
      && forall i: nat :: i < |log.hits| ==> IsReal(u, log.hits[i])
  {
    hide IsReal, InScanOrder, HitBag, OwedBag, EventBag, AtSample;
    var s := After(u, calls);
    assert InvHits(u, s) by {
      ReachableInv(u, calls);
    }
    forall i: nat | i < |s.log.hits|
      ensures IsReal(u, s.log.hits[i])
    {
      HitIsReal(u, s, i);
    }
  }

  /** What the invariant says about the hit list alone. */
  ghost predicate InvHits(u: Setup, s: Scan) {
    && LogOk(u, s.log)
    && s.nextSample <= u.sampleCount
    && HitBag(s.log.hits) + OwedBag(u, s.pending) <= EventBag(u, GridEvents(u, s.nextSample))
  }

  lemma HitIsReal(u: Setup, s: Scan, i: nat)
    requires ValidSetup(u) && InvHits(u, s) && i < |s.log.hits|
    ensures IsReal(u, s.log.hits[i])
  {
    hide HitBag, OwedBag, EventBag, InScanOrder, Locate;
    var h := s.log.hits[i];
    var e := BagMember(u, s, GridEvents(u, s.nextSample), i);
    GridEventIsQualified(u, s.nextSample, e);
    LocateStaysInside(u, e.component, e.sample);
    assert Plain(h).seconds == h.seconds;
    assert ReportsEvent(u, h, e.component, e.sample);
  }

  // ----- what the summaries say -------------------------------------------------------------------

  /** A summary describes the samples scanned so far: the values and signs at both ends while the
      cap is not reached, and, as long as nothing was dropped, every crossing among them, counted
      or still queued. */
  ghost predicate Summarizes(u: Setup, s: Scan, c: nat, x: ScanSummary) {
    && x.component == c
    && (!Capped(u, s.log) && Scanned(u, c) && s.nextSample > 0 ==>
          && x.initialValue == ValueAt(u, c, 0) && x.initialSign == SignAt(u, c, 0)
          && x.finalValue == ValueAt(u, c, s.nextSample - 1) && x.finalSign == SignAt(u, c, s.nextSample - 1))
    && (Clean(u, s.log) ==> x.crossingCount + OwedTo(s.pending, c) == CrossingCount(u, c, s.nextSample))
  }

  /** In every state any run can reach, each component's summary describes its grid. */
  lemma SummariesDescribeGrid(u: Setup, calls: seq<Call>, c: nat)
    requires ValidSetup(u) && c < |u.config|
    ensures var s := After(u, calls);
      |s.tallies| == |u.config| && Summarizes(u, s, c, SummaryOf(s.tallies[c], c))
  {
    hide SignAt, ValueAt, CrossingCount, OwedTo, HitsBalance, SpendingOk, QueueOk, LogOk, Sound, ProtocolOk, After;
    ReachableInv(u, calls);
    var s := After(u, calls);
    if !Capped(u, s.log) && Scanned(u, c) {
      assert TallyAt(u, s.tallies[c], c, s.nextSample);
    }
  }

  // ----- nothing is lost silently -----------------------------------------------------------------

  /** The scan is over and its outcome is what the grid prescribes: every crossing is
      counted, the endpoint signs are those of the interval's ends, and without occurrence
      filters the hit list is exactly the grid's events, as a bag. */
  ghost predicate Accomplished(u: Setup, r: Scan) {
    && |r.tallies| == |u.config| && u.sampleCount > 0
    && (forall c: nat :: c < |r.tallies| ==> r.tallies[c].crossings == CrossingCount(u, c, u.sampleCount))
    && (forall c: nat :: c < |r.tallies| && Scanned(u, c) ==>
          r.tallies[c].firstSign == SignAt(u, c, 0) && r.tallies[c].lastSign == SignAt(u, c, u.sampleCount - 1))
    && (NoOccurrenceFilter(u) ==> HitBag(r.log.hits) == EventBag(u, GridEvents(u, u.sampleCount)))
  }

  lemma EndIsComplete(u: Setup, r: Scan)
    requires ValidSetup(u) && AtSample(u, r, u.sampleCount) && r.pending == [] && Clean(u, r.log)
    ensures Accomplished(u, r)
  {
    hide HitBag, EventBag;
    assert EventsUpTo(u, u.sampleCount, 0) == GridEvents(u, u.sampleCount);
    assert OwedHits(u, []) == [];
    forall c: nat | c < |u.config| && Scanned(u, c)
      ensures TallyAt(u, r.tallies[c], c, u.sampleCount)
    {
    }
  }

  /** When `next` reports the end of any run, untruncated and below the cap, the outcome is
      complete. */
  lemma UntruncatedIsComplete(u: Setup, calls: seq<Call>, capacity: nat, r: Scan)
    requires ValidSetup(u)
    requires Next(u, After(u, calls), capacity) == (Epochs(0), r)
    requires Clean(u, r.log)
    ensures Accomplished(u, r)
  {
    hide AtSample, Sound, LogOk, QueueOk, Accomplished;
    var s := After(u, calls);
    ReachableInv(u, calls);
    NextKeepsInv(u, s, capacity);
    EndIsComplete(u, r);
  }

  lemma EndedBag(u: Setup, calls: seq<Call>, capacity: nat, r: Scan)
    requires ValidSetup(u)
    requires Next(u, After(u, calls), capacity) == (Epochs(0), r) && !r.log.truncated
    ensures HitBag(r.log.hits) <= EventBag(u, GridEvents(u, u.sampleCount))
    ensures u.interval.maxEvents != 0 ==> |r.log.hits| <= u.interval.maxEvents
  {
    hide AtSample, HitBag, EventBag, QueueOk, InScanOrder, After, GridEvents, OwedBag, ProtocolOk;
    ReachableInv(u, calls);
    NextKeepsInv(u, After(u, calls), capacity);
  }

  /** A cap weakens the promise: an untruncated run reports every event exactly when the
      grid has no more events than the cap. */
  lemma UntruncatedIsCompleteExactly(u: Setup, calls: seq<Call>, capacity: nat, r: Scan)
    requires ValidSetup(u) && NoOccurrenceFilter(u)
    requires Next(u, After(u, calls), capacity) == (Epochs(0), r) && !r.log.truncated
    ensures HitBag(r.log.hits) == EventBag(u, GridEvents(u, u.sampleCount))
            <==> u.interval.maxEvents == 0 || |GridEvents(u, u.sampleCount)| <= u.interval.maxEvents
  {
    hide After, Next, Plains, Reports;
    var a, b := HitBag(r.log.hits), EventBag(u, GridEvents(u, u.sampleCount));
    assert |a| == |r.log.hits| && |b| == |GridEvents(u, u.sampleCount)|;
    EndedBag(u, calls, capacity, r);
    if Clean(u, r.log) {
      UntruncatedIsComplete(u, calls, capacity, r);
    } else if |b| <= |a| {
      SubBagOfSameSize(a, b);
    }
  }

  /** Two consumers that finish without truncation get the same hits and the same counts,
      whatever buffer capacities they used. */
  lemma CapacityDoesNotMatter(u: Setup, calls: seq<Call>, n: nat, r: Scan, calls': seq<Call>, n': nat, r': Scan)
    requires ValidSetup(u) && NoOccurrenceFilter(u)
    requires Next(u, After(u, calls), n) == (Epochs(0), r) && Clean(u, r.log)
    requires Next(u, After(u, calls'), n') == (Epochs(0), r') && Clean(u, r'.log)
    ensures HitBag(r.log.hits) == HitBag(r'.log.hits)
    ensures |r.tallies| == |r'.tallies|
    ensures forall c: nat :: c < |r.tallies| ==> r.tallies[c].crossings == r'.tallies[c].crossings
  {
    hide HitBag, EventBag, Next, After;
    UntruncatedIsComplete(u, calls, n, r);
    UntruncatedIsComplete(u, calls', n', r');
  }

  // ----- the drive ends ------------------------------------------------------------------------------

  /** Answering a request makes progress: either samples were scanned, or the queue may
      ask for fewer evaluations than before. */
  ghost predicate Progress(u: Setup, s: Scan, r: Scan) {
    && r.outstanding == []
    && s.nextSample <= r.nextSample <= u.sampleCount
    && (r.nextSample == s.nextSample ==> TotalAllowance(r.pending) < TotalAllowance(s.pending))
  }

  lemma SupplyProgresses(u: Setup, s: Scan)
    requires ValidSetup(u) && Inv(u, s) && s.outstanding != []
    ensures Answerable(u, s)
    ensures Inv(u, Supply(u, s)) && Progress(u, s, Supply(u, s))
  {
    hide AtSample, Sound, QueueOk, Resume, ScanBatch, InScanOrder;
    SupplyKeepsInv(u, s);
    if s.log.phase == RefineWait {
      ResumeIsResumed(u, s);
    } else {
      RelabelKeeps(u, s, s.(outstanding := []), s.nextSample);
      BatchStep(u, s.(outstanding := []), s.nextSample, s.outstanding);
    }
  }

  /** A consumer with room for one epoch always gets either the end of the scan or
      something to evaluate. */
  lemma NextAsks(u: Setup, s: Scan, capacity: nat)
    requires ValidSetup(u) && Inv(u, s) && s.outstanding == [] && capacity >= 1
    ensures var (answer, r) := Next(u, s, capacity);
      && Inv(u, r)
      && r.nextSample == s.nextSample && r.pending == s.pending
      && answer.Epochs?
      && (if answer.count == 0 then r.log.phase == Done else |r.outstanding| == answer.count)
  {
    hide AtSample, Sound, LogOk, QueueOk;
    NextKeepsInv(u, s, capacity);
  }

  /** `n` rounds of asking, with a buffer of `capacity` epochs, and answering. */
  function Rounds(capacity: nat, n: nat): seq<Call> {
    if n == 0 then [] else [Ask(capacity), Answer] + Rounds(capacity, n - 1)
  }

  lemma RoundProgresses(u: Setup, calls: seq<Call>, capacity: nat)
    requires ValidSetup(u) && capacity >= 1
    requires After(u, calls).outstanding == [] && Next(u, After(u, calls), capacity).0 != Epochs(0)
    ensures Progress(u, After(u, calls), After(u, calls + [Ask(capacity), Answer]))
  {
    hide Inv, Supply, Next, TotalAllowance;
    var s := After(u, calls);
    ReachableInv(u, calls);
    NextAsks(u, s, capacity);
    AfterCall(u, calls, Ask(capacity));
    AfterCall(u, calls + [Ask(capacity)], Answer);
    SupplyProgresses(u, Next(u, s, capacity).1);
    assert calls + [Ask(capacity), Answer] == calls + [Ask(capacity)] + [Answer];
  }

  /** Driving terminates: from any reachable state with nothing outstanding, a consumer
      with room for one epoch gets to the end of the scan by asking and answering. */
  lemma {:induction false} DriveEnds(u: Setup, calls: seq<Call>, capacity: nat) returns (n: nat)
    requires ValidSetup(u) && capacity >= 1 && After(u, calls).outstanding == []
    ensures Next(u, After(u, calls + Rounds(capacity, n)), capacity).0 == Epochs(0)
    decreases u.sampleCount - After(u, calls).nextSample, TotalAllowance(After(u, calls).pending)
  {
    hide After, Next, TotalAllowance;
    n := 0;
    if Next(u, After(u, calls), capacity).0 != Epochs(0) {
      RoundProgresses(u, calls, capacity);
      var n' := DriveEnds(u, calls + [Ask(capacity), Answer], capacity);
      n := n' + 1;
      assert calls + Rounds(capacity, n) == calls + [Ask(capacity), Answer] + Rounds(capacity, n');
    } else {
      assert calls + Rounds(capacity, n) == calls;
    }
  }

  /** However it is driven, a scan evaluates at most once per sample and `maxIterations`
      times per crossing that is refined. */
  lemma EvaluationsAreBounded(u: Setup, calls: seq<Call>)
    requires ValidSetup(u)
    ensures After(u, calls).evaluations <= u.sampleCount + GridBudget(u, u.sampleCount)
  {
    hide AtSample, LogOk, QueueOk, HitBag, OwedBag, EventBag;
    ReachableInv(u, calls);
    GridGrows(u, After(u, calls).nextSample, u.sampleCount);
  }
}
