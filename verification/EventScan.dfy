/** The event runner as a state machine on values: what one call of `begin`, `next` and
    `supply` does to the scan. */
module EventScan {
  import opened Options
  import opened EventTypes
  import opened RootFinding

  const MAX_COMPONENTS: nat := 32
  const MAX_OBJECTS: nat := 16
  const MAX_HITS: nat := 512
  const SCAN_BATCH: nat := 64
  const MAX_PENDING: nat := 64

  /** A locator's filters for one component. */
  datatype ComponentConfig = ComponentConfig(
    direction: int,
    occurrence: nat,
    continuity: Continuity,
    isStop: bool)

  /** Everything a scan fixes when it begins.  `eval(jdDay, seconds, component)` is the
      state source and the locator's event function together. */
  datatype Setup = Setup(
    eval: (real, real, nat) -> real,
    config: seq<ComponentConfig>,
    interval: EventInterval,
    policy: RootPolicy,
    tolerance: real,
    clamped: bool,
    span: real,
    step: real,
    sampleCount: nat)

  /** What the scan has seen of one component so far. */
  datatype Tally = Tally(
    prevG: real, prevSign: int,
    firstG: real, firstSign: int,
    lastG: real, lastSign: int,
    crossings: nat,
    qualifying: nat,
    evals: nat)

  datatype Phase = Idle | ScanWait | RefineWait | Done

  /** The reported hits, whether something was dropped, and where the scan stands:
      the fields that recording a hit may change. */
  datatype Log = Log(hits: seq<Hit>, truncated: bool, phase: Phase)

  /** The part of the runner that changes during a scan. */
  datatype Scan = Scan(
    tallies: seq<Tally>,
    nextSample: nat,
    havePrevious: bool,
    prevT: real,
    outstanding: seq<real>,
    pending: seq<BracketState>,
    evaluations: nat,
    log: Log)

  /** A located crossing, before the runner decides whether and where to report it. */
  datatype Finding = Finding(
    t: real,
    value: real,
    direction: int,
    status: RootStatus,
    iterations: nat,
    evaluations: nat)

  // ----- the setup --------------------------------------------------------------------

  /** The event function of one component, in seconds from the interval start. */
  function G(u: Setup, c: nat): real -> real {
    t => u.eval(u.interval.startJdDay, u.interval.startSeconds + t, c)
  }

  /** `sampleCount - 1` is the number of scan steps needed to cover the span. */
  ghost predicate ValidSetup(u: Setup) {
    && 0 < |u.config| <= MAX_COMPONENTS
    && u.policy.scanStep > 0.0
    && u.policy.valueTolerance >= 0.0
    && u.policy.maxIterations > 0
    && u.tolerance > 0.0
    && u.span != 0.0
    && u.step == (if u.span < 0.0 then -u.policy.scanStep else u.policy.scanStep)
    && u.sampleCount >= 2
    && (u.sampleCount - 2) as real * u.policy.scanStep < Abs(u.span)
    && Abs(u.span) <= (u.sampleCount - 1) as real * u.policy.scanStep
  }

  /** Seconds from start to stop; negative for a backward scan. */
  function SpanOf(interval: EventInterval): real {
    (interval.stopJdDay - interval.startJdDay) * 86400.0 + (interval.stopSeconds - interval.startSeconds)
  }

  const UINT32_SIZE: nat := 0x1_0000_0000

  /** The number of scan steps in the span. */
  function Ratio(span: real, scanStep: real): (r: real)
    requires scanStep > 0.0
    ensures r >= 0.0 && (span != 0.0 ==> r > 0.0)
  {
    Abs(span) / scanStep
  }

  /** Converting the ratio to a 32-bit count is defined. */
  predicate Countable(span: real, scanStep: real)
    requires scanStep > 0.0
  {
    Ratio(span, scanStep) < 4294967296.0
  }

  /** How many steps cover the span, the last one shortened to end exactly on it, in 32-bit
      arithmetic. */
  function StepsFor(span: real, scanStep: real): (n: nat)
    requires scanStep > 0.0 && Countable(span, scanStep)
    ensures 0 < n < UINT32_SIZE
  {
    var whole := Ratio(span, scanStep);
    var floored := whole.Floor;
    var steps := if whole - floored as real > 0.0 then (floored + 1) % UINT32_SIZE else floored;
    if steps == 0 then 1 else steps
  }

  /** Why `begin` refuses an interval and a policy, if it does. */
  function Refusal(u: Setup, interval: EventInterval, policy: RootPolicy): Option<EventError> {
    if |u.config| == 0 then Some(NotConfigured)
    else if !(policy.scanStep > 0.0) then Some(BadInput)
    else if !(policy.epochTolerance > 0.0) then Some(BadInput)
    else if policy.maxIterations == 0 then Some(BadInput)
    else if policy.valueTolerance < 0.0 then Some(BadInput)
    else if interval.component != None && interval.component.value >= |u.config| then Some(UnknownComponent)
    else if SpanOf(interval) == 0.0 then Some(BadInput)
    else None
  }

  /** The setup of a scan that `begin` accepts; `resolution` is the state source's own. */
  function Planned(u: Setup, interval: EventInterval, policy: RootPolicy, resolution: real): Setup
    requires policy.scanStep > 0.0 && Countable(SpanOf(interval), policy.scanStep)
  {
    var span := SpanOf(interval);
    u.(interval := interval,
       policy := policy,
       span := span,
       step := if span < 0.0 then -policy.scanStep else policy.scanStep,
       sampleCount := (StepsFor(span, policy.scanStep) + 1) % UINT32_SIZE,
       tolerance := if resolution > policy.epochTolerance then resolution else policy.epochTolerance,
       clamped := resolution > policy.epochTolerance)
  }

  /** An accepted plan covers the whole span with no step wider than the scan step exactly when
      the 32-bit sample count does not wrap around. */
  lemma PlannedIsValid(u: Setup, interval: EventInterval, policy: RootPolicy, resolution: real)
    requires Refusal(u, interval, policy) == None && |u.config| <= MAX_COMPONENTS
    requires Countable(SpanOf(interval), policy.scanStep)
    ensures ValidSetup(Planned(u, interval, policy, resolution))
            <==> Ratio(SpanOf(interval), policy.scanStep) <= 4294967294.0
  {
    var span, h := SpanOf(interval), policy.scanStep;
    if Ratio(span, h) <= 4294967295.0 {
      StepsCover(span, h);
      StepsCeiling(span, h);
    } else {
      StepsWrap(span, h);
      assert Planned(u, interval, policy, resolution).sampleCount == 2;
    }
  }

  /** A span of 2^32 - 1 steps wraps the sample count to zero: the scan ends at once, having looked
      at nothing, and does not say so. */
  lemma WrappedScanIsSilent(u: Setup, interval: EventInterval, policy: RootPolicy, resolution: real, capacity: nat)
    requires Refusal(u, interval, policy) == None
    requires 4294967294.0 < Ratio(SpanOf(interval), policy.scanStep) <= 4294967295.0
    ensures var plan := Planned(u, interval, policy, resolution);
      && Next(plan, Fresh(plan), capacity).0 == Epochs(0)
      && var log := Next(plan, Fresh(plan), capacity).1.log;
        log.hits == [] && !log.truncated && log.phase == Done
  {
    StepsCeiling(SpanOf(interval), policy.scanStep);
    assert Planned(u, interval, policy, resolution).sampleCount == 0;
  }

  lemma StepsWrap(span: real, h: real)
    requires h > 0.0 && 4294967295.0 < Ratio(span, h) < 4294967296.0
    ensures StepsFor(span, h) == 1 && Abs(span) > h
  {
    hide Ratio;
    assert Ratio(span, h).Floor == 4294967295;
    assert StepsFor(span, h) == 1;
    RatioScales(span, h, 1.0);
  }

  lemma RatioScales(span: real, h: real, lo: real)
    requires h > 0.0 && lo < Ratio(span, h)
    ensures lo * h < Abs(span)
  {
    CoverBounds(Abs(span), h, lo, Ratio(span, h));
  }

  lemma StepsCover(span: real, h: real)
    requires span != 0.0 && h > 0.0 && Ratio(span, h) <= 4294967295.0
    ensures var n := StepsFor(span, h); (n - 1) as real * h < Abs(span) <= n as real * h
  {
    StepsCeiling(span, h);
    CoverBounds(Abs(span), h, (StepsFor(span, h) - 1) as real, StepsFor(span, h) as real);
  }

  lemma CoverBounds(x: real, h: real, lo: real, hi: real)
    requires h > 0.0 && lo < x / h <= hi
    ensures lo * h < x <= hi * h
  {
    ScaleBounds(lo, x / h, hi, h);
    assert x / h * h == x;
  }

  lemma StepsCeiling(span: real, h: real)
    requires span != 0.0 && h > 0.0 && Ratio(span, h) <= 4294967295.0
    ensures (StepsFor(span, h) - 1) as real < Ratio(span, h) <= StepsFor(span, h) as real
  {
    hide Ratio;
    var whole := Ratio(span, h);
    assert whole.Floor <= 4294967295;
    assert whole - whole.Floor as real > 0.0 ==> whole.Floor < 4294967295;
  }

  lemma ScaleBounds(lo: real, x: real, hi: real, k: real)
    requires k > 0.0 && lo < x <= hi
    ensures lo * k < x * k <= hi * k
  {
    ScaleOrder(lo, x, k);
    ScaleOrder(x, hi, k);
  }

  lemma ScaleOrder(x: real, y: real, k: real)
    requires k > 0.0
    ensures x < y ==> x * k < y * k
    ensures x <= y ==> x * k <= y * k
  {
    assert x < y ==> (y - x) * k > 0.0;
  }

  /** Sample `k`'s offset from the interval start; the last sample is the end exactly. */
  function SampleTime(u: Setup, k: nat): real {
    if k + 1 >= u.sampleCount then u.span else u.step * k as real
  }

  predicate Scanned(u: Setup, c: nat) {
    u.interval.component == None || u.interval.component == Some(c)
  }

  predicate Crosses(before: int, after: int) {
    (before != 0 && after != 0 && before != after) || (after == 0 && before != 0)
  }

  function CrossingDirection(before: real, after: real): int {
    if after > before then 1 else -1
  }

  predicate Qualifies(u: Setup, c: nat, direction: int)
    requires c < |u.config|
  {
    && (u.config[c].direction == 0 || u.config[c].direction == direction)
    && (u.interval.direction == 0 || u.interval.direction == direction)
  }

  // ----- recording a hit ----------------------------------------------------------------

  /** Does `prior` come after an event at `key` in scan order? */
  predicate Later(u: Setup, prior: Hit, key: real) {
    if u.span < 0.0 then prior.seconds < key else prior.seconds > key
  }

  /** Insert in scan order, after every hit that is not later. */
  function InsertHit(u: Setup, hits: seq<Hit>, hit: Hit): seq<Hit> {
    if |hits| == 0 || !Later(u, hits[|hits| - 1], hit.seconds) then hits + [hit]
    else InsertHit(u, hits[..|hits| - 1], hit) + [hits[|hits| - 1]]
  }

  /** The hit reported for a finding, apart from its TANGENTIAL flag. */
  function Report(u: Setup, c: nat, x: Finding): Hit {
    Hit(u.interval.startJdDay, u.interval.startSeconds + x.t, x.value, c, x.iterations, x.evaluations,
        x.direction,
        if x.status == Converged && u.clamped then EpochResolutionLimited else x.status,
        u.span < 0.0,
        c < |u.config| && u.config[c].isStop,
        false)
  }

  predicate Grazes(y: Tally, value: real) {
    y.firstSign != 0 && y.crossings == 1 && y.firstSign == Sign(value)
  }

  /** Some occurrence filter rejects the `n`th qualifying crossing of `c`. */
  predicate Filtered(u: Setup, c: nat, n: nat)
    requires c < |u.config|
  {
    || (u.config[c].occurrence != 0 && n != u.config[c].occurrence)
    || (u.interval.occurrence != 0 && n != u.interval.occurrence)
  }

  /** Keep the first `maxEvents` hits in scan order; a full list ends the scan. */
  function CapHits(u: Setup, log: Log): Log {
    if u.interval.maxEvents == 0 then log
    else
      var log' := if |log.hits| > u.interval.maxEvents
                  then log.(hits := log.hits[..u.interval.maxEvents], truncated := true) else log;
      if |log'.hits| >= u.interval.maxEvents then log'.(phase := Done) else log'
  }

  function AddHit(u: Setup, log: Log, hit: Hit): Log {
    if |log.hits| >= MAX_HITS then log.(truncated := true)
    else CapHits(u, log.(hits := InsertHit(u, log.hits, hit)))
  }

  predicate Fits(u: Setup, s: Scan) {
    |s.tallies| == |u.config|
  }

  /** The remembered previous values are the same in both states. */
  ghost predicate SamePrevious(s: Scan, r: Scan) {
    && |r.tallies| == |s.tallies|
    && forall c: nat :: c < |s.tallies| ==>
         r.tallies[c].prevG == s.tallies[c].prevG && r.tallies[c].prevSign == s.tallies[c].prevSign
  }

  function RecordHit(u: Setup, s: Scan, c: nat, x: Finding): (r: Scan)
    requires Fits(u, s) && c < |u.config|
    ensures SamePrevious(s, r)
  {
    var y := s.tallies[c];
    var y' := y.(crossings := y.crossings + 1, qualifying := y.qualifying + 1);
    var s' := s.(tallies := s.tallies[c := y']);
    if Filtered(u, c, y'.qualifying) then s'
    else s'.(log := AddHit(u, s.log, Report(u, c, x).(tangential := Grazes(y', x.value))))
  }

  // ----- scanning one sample ---------------------------------------------------------------

  function BracketFinding(br: BracketState): Finding {
    Finding(br.b, br.fb, br.direction, br.status, br.iterations, br.evaluations)
  }

  function OpenBracket(u: Setup, c: nat, tLo: real, gLo: real, tHi: real, gHi: real): (br: BracketState)
    requires c < |u.config|
    ensures br.a == tLo && br.fa == gLo && br.c == tHi && br.fc == gHi
  {
    Opened(c, u.tolerance, u.policy, u.config[c].continuity, tLo, gLo, tHi, gHi, CrossingDirection(gLo, gHi))
  }

  /** A crossing seen between the previous sample, where `g` was `gp`, and `t`. */
  function RecordCrossing(u: Setup, s: Scan, c: nat, gp: real, t: real, g: real): (r: Scan)
    requires Fits(u, s) && c < |u.config| && gp != 0.0
    ensures SamePrevious(s, r)
  {
    var direction := CrossingDirection(gp, g);
    if !Qualifies(u, c, direction) then
      s.(tallies := s.tallies[c := s.tallies[c].(crossings := s.tallies[c].crossings + 1)])
    else if u.config[c].continuity == Discrete then
      RecordHit(u, s, c, Finding(t, g, direction, Discontinuous, 0, 1))
    else if Sign(g) == 0 then
      RecordHit(u, s, c, Finding(t, g, direction, Converged, 0, 1))
    else if |s.pending| >= MAX_PENDING then
      s.(log := s.log.(truncated := true))
    else
      var st := NextStep(OpenBracket(u, c, s.prevT, gp, t, g));
      if st.more then s.(pending := s.pending + [st.br])
      else RecordHit(u, s, c, BracketFinding(st.br))
  }

  function Observe(y: Tally, g: real, first: bool): Tally {
    y.(evals := y.evals + 1,
       firstG := if first then g else y.firstG,
       firstSign := if first then Sign(g) else y.firstSign,
       lastG := g,
       lastSign := Sign(g))
  }

  function Remember(s: Scan, c: nat, g: real): Scan
    requires c < |s.tallies|
  {
    s.(tallies := s.tallies[c := s.tallies[c].(prevG := g, prevSign := Sign(g))])
  }

  /** Every remembered sign is the sign of the remembered value. */
  ghost predicate Signed(s: Scan) {
    forall c: nat :: c < |s.tallies| ==> s.tallies[c].prevSign == Sign(s.tallies[c].prevG)
  }

  function ScanComponent(u: Setup, s: Scan, c: nat, t: real): (r: Scan)
    requires Fits(u, s) && Signed(s) && c < |u.config|
    ensures Fits(u, r) && Signed(r)
  {
    if !Scanned(u, c) then s
    else
      var g := G(u, c)(t);
      var y := s.tallies[c];
      var s' := s.(tallies := s.tallies[c := Observe(y, g, !s.havePrevious)]);
      Remember(if s.havePrevious && Crosses(y.prevSign, Sign(g)) then RecordCrossing(u, s', c, y.prevG, t, g) else s',
               c, g)
  }

  /** Components `0 .. j` of one sample. */
  function ScanComponents(u: Setup, s: Scan, j: nat, t: real): (r: Scan)
    requires Fits(u, s) && Signed(s) && j <= |u.config|
    ensures Fits(u, r) && Signed(r)
  {
    if j == 0 then s else ScanComponent(u, ScanComponents(u, s, j - 1, t), j - 1, t)
  }

  function ScanSample(u: Setup, s: Scan, t: real): (r: Scan)
    requires Fits(u, s) && Signed(s)
    ensures Fits(u, r) && Signed(r)
  {
    ScanComponents(u, s.(evaluations := s.evaluations + 1), |u.config|, t).(prevT := t, havePrevious := true)
  }

  /** A batch of samples; a capped hit list ends the batch early. */
  function ScanBatch(u: Setup, s: Scan, ts: seq<real>): (r: Scan)
    requires Fits(u, s) && Signed(s)
    ensures Fits(u, r) && Signed(r)
    decreases |ts|
  {
    if |ts| == 0 then s
    else
      var s' := ScanSample(u, s, ts[0]);
      if s'.log.phase == Done then s' else ScanBatch(u, s', ts[1..])
  }

  /** What a component's tally is summarized as. */
  function SummaryOf(y: Tally, c: nat): ScanSummary {
    ScanSummary(y.firstG, y.lastG, c, y.crossings, y.evals, y.firstSign, y.lastSign)
  }

  // ----- the pull protocol ---------------------------------------------------------------

  datatype NextResult = Epochs(count: nat) | NextError(error: EventError)

  function Min(x: nat, y: nat): nat {
    if x < y then x else y
  }

  /** The samples the next scan batch asks for. */
  function Batch(u: Setup, first: nat, count: nat): (ts: seq<real>)
    ensures |ts| == count
    ensures forall i: nat :: i < count ==> ts[i] == SampleTime(u, first + i)
  {
    seq(count, i requires 0 <= i => SampleTime(u, first + i))
  }

  function CheckBudget(u: Setup, s: Scan): Scan {
    if u.interval.maxEvaluations != 0 && s.evaluations >= u.interval.maxEvaluations
    then s.(log := s.log.(truncated := true, phase := Done)) else s
  }

  /** What to ask for: the head bracket's abscissa, or else the next samples. */
  function Proceed(u: Setup, s: Scan, capacity: nat): (NextResult, Scan) {
    if s.log.phase == Done then
      var dropped := s.pending != [] || s.nextSample < u.sampleCount;
      (Epochs(0), s.(log := s.log.(truncated := s.log.truncated || dropped)))
    else if s.pending != [] then
      if capacity < 1 then (NextError(BufferTooSmall), s)
      else (Epochs(1), s.(log := s.log.(phase := RefineWait), outstanding := [s.pending[0].b]))
    else if s.nextSample >= u.sampleCount then
      (Epochs(0), s.(log := s.log.(phase := Done)))
    else
      var want := Min(Min(u.sampleCount - s.nextSample, SCAN_BATCH), capacity);
      if want == 0 then (NextError(BufferTooSmall), s)
      else (Epochs(want), s.(log := s.log.(phase := ScanWait), outstanding := Batch(u, s.nextSample, want)))
  }

  function Next(u: Setup, s: Scan, capacity: nat): (NextResult, Scan) {
    if s.outstanding != [] then (NextError(ProtocolOrder), s) else Proceed(u, CheckBudget(u, s), capacity)
  }

  /** The head bracket is waiting for the one outstanding abscissa. */
  ghost predicate RefineOk(u: Setup, s: Scan) {
    && Fits(u, s)
    && |s.pending| > 0
    && s.pending[0].component < |u.config|
    && s.pending[0].fa != 0.0 && s.pending[0].fc != 0.0
    && s.outstanding == [s.pending[0].b]
  }

  /** The head bracket's component has been evaluated once more. */
  function Evaluated(s: Scan): Scan
    requires |s.pending| > 0 && s.pending[0].component < |s.tallies|
  {
    var c := s.pending[0].component;
    s.(tallies := s.tallies[c := s.tallies[c].(evals := s.tallies[c].evals + 1)], evaluations := s.evaluations + 1)
  }

  /** The head bracket consumes its value: it waits for another, or its hit is recorded. */
  function Resume(u: Setup, s: Scan): Scan
    requires RefineOk(u, s)
  {
    var br := s.pending[0];
    var st := NextStep(Supplied(br, G(u, br.component)));
    if st.more then Evaluated(s).(pending := [st.br] + s.pending[1..])
    else RecordHit(u, Evaluated(s), br.component, BracketFinding(st.br)).(pending := s.pending[1..])
  }

  function SupplyRefine(u: Setup, s: Scan): Scan
    requires RefineOk(u, s)
  {
    var s' := Resume(u, s);
    s'.(outstanding := [], log := if s'.log.phase == Done then s'.log else s'.log.(phase := ScanWait))
  }

  function SupplyScan(u: Setup, s: Scan): Scan
    requires Fits(u, s) && Signed(s)
  {
    var s' := ScanBatch(u, s.(outstanding := []), s.outstanding);
    var s'' := s'.(nextSample := s.nextSample + |s.outstanding|);
    if s''.log.phase == Done then s''
    else s''.(log := s''.log.(phase := if s''.nextSample >= u.sampleCount && s''.pending == [] then Done else ScanWait))
  }

  /** The consumer answers the outstanding request. */
  function Supply(u: Setup, s: Scan): Scan
    requires Fits(u, s) && Signed(s)
    requires s.log.phase == RefineWait ==> RefineOk(u, s)
  {
    if s.log.phase == RefineWait then SupplyRefine(u, s) else SupplyScan(u, s)
  }

  /** The scan as `begin` leaves it. */
  function Fresh(u: Setup): Scan {
    Scan(seq(|u.config|, _ => Tally(0.0, 0, 0.0, 0, 0.0, 0, 0, 0, 0)), 0, false, 0.0, [], [], 0,
         Log([], false, ScanWait))
  }
}
