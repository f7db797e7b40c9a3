/** Accounting: at every moment of a scan, the hits reported so far together with the hits
    still owed by the queued brackets are events of the grid, and nothing is lost unless
    the runner says so. */
module EventAccounting {
  import opened EventTypes
  import opened RootFinding
  import opened EventScan
  import opened EventGrid
  import opened Sequences

  // ----- bags of hits -----------------------------------------------------------------------

  /** A hit without its TANGENTIAL flag, the one field that depends on recording order. */
  function Plain(h: Hit): Hit {
    h.(tangential := false)
  }

  function Plains(hits: seq<Hit>): (r: seq<Hit>)
    ensures |r| == |hits|
  {
    seq(|hits|, i requires 0 <= i < |hits| => Plain(hits[i]))
  }

  function Reports(u: Setup, xs: seq<Event>): (r: seq<Hit>)
    ensures |r| == |xs|
  {
    seq(|xs|, i requires 0 <= i < |xs| => Report(u, xs[i].component, xs[i].finding))
  }

  /** The hit a queued bracket will be reported as once its remaining values arrive. */
  ghost function OwedHit(u: Setup, br: BracketState): Hit {
    Report(u, br.component, Refine(u, br.component, Supplied(br, G(u, br.component))))
  }

  ghost function OwedHits(u: Setup, pending: seq<BracketState>): (r: seq<Hit>)
    ensures |r| == |pending|
  {
    seq(|pending|, i requires 0 <= i < |pending| => OwedHit(u, pending[i]))
  }

  /** The reported hits, the hits owed by the queue and the events of the grid, as bags. */
  ghost function HitBag(hits: seq<Hit>): multiset<Hit> {
    multiset(Plains(hits))
  }

  ghost function OwedBag(u: Setup, pending: seq<BracketState>): multiset<Hit> {
    multiset(OwedHits(u, pending))
  }

  ghost function EventBag(u: Setup, xs: seq<Event>): multiset<Hit> {
    multiset(Reports(u, xs))
  }

  ghost function OwedTo(pending: seq<BracketState>, c: nat): nat {
    if |pending| == 0 then 0 else (if pending[0].component == c then 1 else 0) + OwedTo(pending[1..], c)
  }

  /** Evaluations a queued bracket may still ask for. */
  function Allowance(br: BracketState): nat {
    if br.iterations <= br.maxIterations then br.maxIterations - br.iterations + 1 else 0
  }

  ghost function TotalAllowance(pending: seq<BracketState>): nat {
    if |pending| == 0 then 0 else Allowance(pending[0]) + TotalAllowance(pending[1..])
  }

  lemma {:induction false} QueueAppend(pending: seq<BracketState>, br: BracketState)
    ensures forall c: nat :: OwedTo(pending + [br], c) == OwedTo(pending, c) + if br.component == c then 1 else 0
    ensures TotalAllowance(pending + [br]) == TotalAllowance(pending) + Allowance(br)
  {
    if |pending| == 0 {
      assert pending + [br] == [br] && [br][1..] == [];
    } else {
      QueueAppend(pending[1..], br);
      assert (pending + [br])[1..] == pending[1..] + [br];
    }
  }

  lemma OwedAppend(u: Setup, pending: seq<BracketState>, br: BracketState)
    ensures OwedBag(u, pending + [br]) == OwedBag(u, pending) + multiset{OwedHit(u, br)}
  {
    assert OwedHits(u, pending + [br]) == OwedHits(u, pending) + [OwedHit(u, br)];
  }

  lemma OwedHead(u: Setup, br: BracketState, rest: seq<BracketState>)
    ensures OwedBag(u, [br] + rest) == multiset{OwedHit(u, br)} + OwedBag(u, rest)
  {
    assert OwedHits(u, [br] + rest) == [OwedHit(u, br)] + OwedHits(u, rest);
  }

  lemma ReportsAppend(u: Setup, xs: seq<Event>, ys: seq<Event>)
    ensures Reports(u, xs + ys) == Reports(u, xs) + Reports(u, ys)
  {
    hide Report;
  }

  lemma ReportOne(u: Setup, e: Event)
    ensures Reports(u, [e]) == [Report(u, e.component, e.finding)]
  {
    hide Report;
  }

  lemma EventsAppend(u: Setup, xs: seq<Event>, ys: seq<Event>)
    ensures EventBag(u, xs + ys) == EventBag(u, xs) + EventBag(u, ys)
  {
    hide Reports;
    ReportsAppend(u, xs, ys);
  }

  // ----- the hit list --------------------------------------------------------------------------

  /** Increasing epoch forward, decreasing epoch backward. */
  ghost predicate InScanOrder(u: Setup, hits: seq<Hit>) {
    forall i: nat, j: nat :: i < j < |hits| ==> !Later(u, hits[i], hits[j].seconds)
  }

  /** Insertion splits the list at one index: what is not later stays before the new hit. */
  lemma {:induction false} InsertSplits(u: Setup, hits: seq<Hit>, hit: Hit) returns (at: nat)
    requires InScanOrder(u, hits)
    ensures at <= |hits|
    ensures InsertHit(u, hits, hit) == hits[..at] + [hit] + hits[at..]
    ensures forall i: nat :: i < at ==> !Later(u, hits[i], hit.seconds)
    ensures forall i: nat :: at <= i < |hits| ==> Later(u, hits[i], hit.seconds)
  {
    at := |hits|;
    if |hits| == 0 || !Later(u, hits[|hits| - 1], hit.seconds) {
      assert hits[..at] + [hit] + hits[at..] == hits + [hit];
    } else {
      var init, last := hits[..|hits| - 1], hits[|hits| - 1];
      at := InsertSplits(u, init, hit);
      assert hits[..at] == init[..at] && hits[at..] == init[at..] + [last];
    }
  }

  /** Recording is a stable in-bounds insertion that keeps scan order and loses nothing. */
  lemma InsertKeepsOrder(u: Setup, hits: seq<Hit>, hit: Hit) returns (at: nat)
    requires InScanOrder(u, hits)
    ensures at <= |hits|
    ensures InsertHit(u, hits, hit) == hits[..at] + [hit] + hits[at..]
    ensures InScanOrder(u, InsertHit(u, hits, hit))
    ensures HitBag(InsertHit(u, hits, hit)) == HitBag(hits) + multiset{Plain(hit)}
  {
    at := InsertSplits(u, hits, hit);
    SplitKeepsOrder(u, hits, hit, at);
    var r := hits[..at] + [hit] + hits[at..];
    assert Plains(r) == Plains(hits)[..at] + [Plain(hit)] + Plains(hits)[at..];
    SpliceBag(Plains(hits), Plain(hit), at);
  }

  lemma SplitKeepsOrder(u: Setup, hits: seq<Hit>, hit: Hit, at: nat)
    requires InScanOrder(u, hits) && at <= |hits|
    requires forall i: nat :: i < at ==> !Later(u, hits[i], hit.seconds)
    requires forall i: nat :: at <= i < |hits| ==> Later(u, hits[i], hit.seconds)
    ensures InScanOrder(u, hits[..at] + [hit] + hits[at..])
  {
    var r := hits[..at] + [hit] + hits[at..];
    forall i: nat, j: nat | i < j < |r|
      ensures !Later(u, r[i], r[j].seconds)
    {
      var x, y := r[i], r[j];
      assert i < at ==> x == hits[i];
      assert i > at ==> x == hits[i - 1];
      assert j < at ==> y == hits[j];
      assert j > at ==> y == hits[j - 1];
    }
  }

  ghost predicate Capped(u: Setup, log: Log) {
    u.interval.maxEvents != 0 && |log.hits| >= u.interval.maxEvents
  }

  /** Nothing has been dropped: the runner has not said TRUNCATED and its cap is not reached. */
  ghost predicate Clean(u: Setup, log: Log) {
    !log.truncated && !Capped(u, log)
  }

  ghost predicate NoOccurrenceFilter(u: Setup) {
    && u.interval.occurrence == 0
    && forall c: nat :: c < |u.config| ==> u.config[c].occurrence == 0
  }

  ghost predicate LogOk(u: Setup, log: Log) {
    && InScanOrder(u, log.hits)
    && |log.hits| <= MAX_HITS
    && (u.interval.maxEvents != 0 ==> |log.hits| <= u.interval.maxEvents)
    && (Capped(u, log) ==> log.phase == Done)
  }

  /** `log'` is `log` with at most one more hit, `h`, which is lost only if `log'` says so. */
  ghost predicate Extended(u: Setup, log: Log, log': Log, h: Hit) {
    && LogOk(u, log')
    && (log'.phase == log.phase || (log'.phase == Done && Capped(u, log')))
    && HitBag(log'.hits) <= HitBag(log.hits) + multiset{h}
    && (Clean(u, log') ==> Clean(u, log))
    && (Capped(u, log) ==> Capped(u, log'))
  }

  lemma CapOnlyDrops(u: Setup, log: Log)
    requires InScanOrder(u, log.hits) && |log.hits| <= MAX_HITS
    ensures var log' := CapHits(u, log);
      && LogOk(u, log')
      && (log'.phase == log.phase || (log'.phase == Done && Capped(u, log')))
      && HitBag(log'.hits) <= HitBag(log.hits)
      && (Clean(u, log') ==> log' == log)
      && (Capped(u, log) ==> Capped(u, log'))
  {
    if u.interval.maxEvents != 0 && |log.hits| > u.interval.maxEvents {
      TakeBag(Plains(log.hits), u.interval.maxEvents);
      assert Plains(log.hits)[..u.interval.maxEvents] == Plains(log.hits[..u.interval.maxEvents]);
    }
  }

  lemma AddHitExtends(u: Setup, log: Log, hit: Hit)
    requires LogOk(u, log)
    ensures Extended(u, log, AddHit(u, log, hit), Plain(hit))
    ensures Clean(u, AddHit(u, log, hit)) ==>
              HitBag(AddHit(u, log, hit).hits) == HitBag(log.hits) + multiset{Plain(hit)}
  {
    if |log.hits| < MAX_HITS {
      var _ := InsertKeepsOrder(u, log.hits, hit);
      CapOnlyDrops(u, log.(hits := InsertHit(u, log.hits, hit)));
    }
  }

  /** Recording one finding counts the crossing and reports its hit, unless a filter
      rejects it or the runner says the list is truncated. */
  ghost predicate Recorded(u: Setup, s: Scan, r: Scan, c: nat, h: Hit)
    requires c < |s.tallies|
  {
    && r == s.(tallies := s.tallies[c := s.tallies[c].(crossings := s.tallies[c].crossings + 1,
                                                       qualifying := s.tallies[c].qualifying + 1)],
               log := r.log)
    && Extended(u, s.log, r.log, h)
    && (Clean(u, r.log) && NoOccurrenceFilter(u) ==> HitBag(r.log.hits) == HitBag(s.log.hits) + multiset{h})
  }

  lemma RecordHitIsRecorded(u: Setup, s: Scan, c: nat, x: Finding)
    requires Fits(u, s) && c < |u.config| && LogOk(u, s.log)
    ensures Recorded(u, s, RecordHit(u, s, c, x), c, Report(u, c, x))
  {
    var y := s.tallies[c];
    var y' := y.(crossings := y.crossings + 1, qualifying := y.qualifying + 1);
    var hit := Report(u, c, x).(tangential := Grazes(y', x.value));
    assert Plain(hit) == Report(u, c, x);
    FilterOrAdd(u, s.log, c, y'.qualifying, hit);
  }

  lemma FilterOrAdd(u: Setup, log: Log, c: nat, n: nat, hit: Hit)
    requires c < |u.config| && LogOk(u, log)
    ensures var log' := if Filtered(u, c, n) then log else AddHit(u, log, hit);
      && Extended(u, log, log', Plain(hit))
      && (Clean(u, log') && NoOccurrenceFilter(u) ==> HitBag(log'.hits) == HitBag(log.hits) + multiset{Plain(hit)})
  {
    if !Filtered(u, c, n) {
      AddHitExtends(u, log, hit);
    }
  }

  // ----- one crossing ------------------------------------------------------------------------------

  /** A queued bracket waits for a value strictly inside a live bracket. */
  ghost predicate PendingOk(u: Setup, br: BracketState) {
    && br.component < |u.config|
    && br.maxIterations == u.policy.maxIterations
    && Awaiting(br, G(u, br.component))
  }

  ghost predicate QueueOk(u: Setup, pending: seq<BracketState>) {
    && |pending| <= MAX_PENDING
    && forall i: nat :: i < |pending| ==> PendingOk(u, pending[i])
  }

  /** The queue of `r` is that of `s`, or has one more bracket, which owes the hit `h` of
      component `c`. */
  ghost predicate Queued(u: Setup, s: Scan, r: Scan, c: nat, h: Hit) {
    && QueueOk(u, r.pending)
    && r == s.(pending := r.pending)
    && OwedBag(u, r.pending) == OwedBag(u, s.pending) + multiset{h}
    && (forall i: nat :: OwedTo(r.pending, i) == OwedTo(s.pending, i) + if i == c then 1 else 0)
    && TotalAllowance(r.pending) == TotalAllowance(s.pending) + u.policy.maxIterations
  }

  lemma EnqueueIsQueued(u: Setup, s: Scan, br: BracketState, h: Hit)
    requires QueueOk(u, s.pending) && |s.pending| < MAX_PENDING
    requires PendingOk(u, br) && br.iterations == 1 && OwedHit(u, br) == h
    ensures Queued(u, s, s.(pending := s.pending + [br]), br.component, h)
  {
    OwedAppend(u, s.pending, br);
    QueueAppend(s.pending, br);
  }

  /** The first step on a fresh bracket either finishes it or leaves it waiting, and in both
      cases the refinement it stands for is the one the grid prescribes. */
  lemma FirstStep(u: Setup, c: nat, br: BracketState)
    requires c < |u.config| && br.component == c
    requires br.maxIterations == u.policy.maxIterations && br.iterations == 0
    requires Ready(br, G(u, c))
    ensures var st := NextStep(br);
      if st.more
      then PendingOk(u, st.br) && st.br.component == c && st.br.iterations == 1
           && OwedHit(u, st.br) == Report(u, c, Refine(u, c, br))
      else BracketFinding(st.br) == Refine(u, c, br)
  {
    AdvanceKeepsBracket(br, G(u, c));
  }

  /** From `s` to `r`, one crossing of `c` was counted, the hits in `owed` were added to the
      list or to the queue, and the queue may ask for `spend` more evaluations. */
  ghost predicate Accounted(u: Setup, s: Scan, r: Scan, c: nat, owed: multiset<Hit>, spend: nat)
    requires c < |s.tallies|
  {
    && r == s.(tallies := r.tallies, pending := r.pending, log := r.log)
    && |r.tallies| == |s.tallies|
    && (forall i: nat :: i < |s.tallies| && i != c ==> r.tallies[i] == s.tallies[i])
    && r.tallies[c] == s.tallies[c].(crossings := r.tallies[c].crossings, qualifying := r.tallies[c].qualifying)
    && QueueOk(u, r.pending)
    && LogOk(u, r.log)
    && (r.log.phase == s.log.phase || (r.log.phase == Done && Capped(u, r.log)))
    && (Capped(u, s.log) ==> Capped(u, r.log))
    && HitBag(r.log.hits) + OwedBag(u, r.pending) <= HitBag(s.log.hits) + OwedBag(u, s.pending) + owed
    && TotalAllowance(r.pending) <= TotalAllowance(s.pending) + spend
    && (Clean(u, r.log) ==>
          && Clean(u, s.log)
          && (NoOccurrenceFilter(u) ==>
                HitBag(r.log.hits) + OwedBag(u, r.pending) == HitBag(s.log.hits) + OwedBag(u, s.pending) + owed)
          && (forall i: nat :: i < |s.tallies| ==>
                r.tallies[i].crossings + OwedTo(r.pending, i)
                == s.tallies[i].crossings + OwedTo(s.pending, i) + if i == c then 1 else 0))
  }

  lemma RecordedIsAccounted(u: Setup, s: Scan, r: Scan, c: nat, h: Hit)
    requires Fits(u, s) && c < |u.config| && QueueOk(u, s.pending)
    requires Recorded(u, s, r, c, h)
    ensures Accounted(u, s, r, c, multiset{h}, 0)
  {
  }

  lemma QueuedIsAccounted(u: Setup, s: Scan, r: Scan, c: nat, h: Hit)
    requires Fits(u, s) && c < |u.config| && LogOk(u, s.log)
    requires Queued(u, s, r, c, h)
    ensures Accounted(u, s, r, c, multiset{h}, u.policy.maxIterations)
  {
  }

  /** What the grid expects of a crossing of `c` at sample `k`. */
  ghost function GridOwed(u: Setup, c: nat, k: nat): multiset<Hit>
    requires c < |u.config|
  {
    if GridQualifies(u, c, k) then multiset{Report(u, c, Locate(u, c, k))} else multiset{}
  }

  ghost function GridSpend(u: Setup, c: nat, k: nat): nat
    requires c < |u.config|
  {
    if GridQualifies(u, c, k) && GridRefines(u, c, k) then u.policy.maxIterations else 0
  }

  /** Every branch of the crossing handler accounts for the grid's event. */
  lemma CrossingIsAccounted(u: Setup, s: Scan, c: nat, k: nat)
    requires ValidSetup(u) && Fits(u, s) && c < |u.config| && 0 < k < u.sampleCount
    requires QueueOk(u, s.pending) && LogOk(u, s.log)
    requires s.prevT == SampleTime(u, k - 1)
    requires GridCrosses(u, c, k)
    ensures Accounted(u, s, RecordCrossing(u, s, c, ValueAt(u, c, k - 1), SampleTime(u, k), ValueAt(u, c, k)), c,
                      GridOwed(u, c, k), GridSpend(u, c, k))
  {
    hide HitBag, OwedBag, InScanOrder, RecordHit, NextStep, Report, Refine, Ready;
    var gp, t, g := ValueAt(u, c, k - 1), SampleTime(u, k), ValueAt(u, c, k);
    var r := RecordCrossing(u, s, c, gp, t, g);
    var h := Report(u, c, Locate(u, c, k));
    if !GridQualifies(u, c, k) {
    } else if !GridRefines(u, c, k) {
      RecordHitIsRecorded(u, s, c, Locate(u, c, k));
      RecordedIsAccounted(u, s, r, c, h);
    } else if |s.pending| >= MAX_PENDING {
    } else {
      OpenIsReady(u, c, k);
      RefinedCrossing(u, s, c, OpenBracket(u, c, s.prevT, gp, t, g), h);
    }
  }

  lemma RefinedCrossing(u: Setup, s: Scan, c: nat, br: BracketState, h: Hit)
    requires Fits(u, s) && c < |u.config|
    requires QueueOk(u, s.pending) && |s.pending| < MAX_PENDING && LogOk(u, s.log)
    requires br.component == c && br.maxIterations == u.policy.maxIterations && br.iterations == 0
    requires Ready(br, G(u, c)) && h == Report(u, c, Refine(u, c, br))
    ensures var st := NextStep(br);
      Accounted(u, s, if st.more then s.(pending := s.pending + [st.br]) else RecordHit(u, s, c, BracketFinding(st.br)),
                c, multiset{h}, u.policy.maxIterations)
  {
    FirstStep(u, c, br);
    var st := NextStep(br);
    if st.more {
      EnqueueIsQueued(u, s, st.br, h);
      QueuedIsAccounted(u, s, s.(pending := s.pending + [st.br]), c, h);
    } else {
      RecordHitIsRecorded(u, s, c, BracketFinding(st.br));
      RecordedIsAccounted(u, s, RecordHit(u, s, c, BracketFinding(st.br)), c, h);
    }
  }
}
