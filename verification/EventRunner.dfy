/** The event runner itself: one fixed arena, updated in place by every call. */
module EventRunner {
  import opened Options
  import opened EventTypes
  import opened RootFinding
  import opened EventScan
  import opened EventGrid
  import opened EventInvariant
  import opened EventAccounting
  import opened EventRuns
  import opened EventHits

  const NO_TALLY: Tally := Tally(0.0, 0, 0.0, 0, 0.0, 0, 0, 0, 0)
  const NO_HIT: Hit := Hit(0.0, 0.0, 0.0, 0, 0, 0, 0, Converged, false, false, false)
  const NO_BRACKET: BracketState :=
    BracketState(0.0, 0.0, 0.0, 0.0, 0.0, 0.0, 0.0, 0.0, 0.0, 0.0, 0, 0, 0, 0, 0, Brent, Converged)

  class Runner {
    // wiring, configuration and the parameters of the scan: fixed while it runs
    var setup: Setup
    var objectCount: nat
    var resolution: real

    // the scan's progress
    var nextSample: nat
    var havePrevious: bool
    var prevT: real
    const tallies: array<Tally>
    var phase: Phase
    var outstandingCount: nat
    const outstandingT: array<real>
    const pending: array<BracketState>
    var pendingHead: nat
    var pendingTail: nat

    // results
    const hits: array<Hit>
    var hitCount: nat
    var evaluations: nat
    var truncated: bool

    /** The calls made since the scan began. */
    ghost var calls: seq<Call>

    /** Every index is in bounds, and an empty queue starts at slot 0. */
    ghost predicate Shape()
      reads this`setup, this`outstandingCount, this`hitCount, this`pendingHead, this`pendingTail
    {
      && tallies.Length == MAX_COMPONENTS && |setup.config| <= MAX_COMPONENTS
      && outstandingT.Length == SCAN_BATCH && outstandingCount <= SCAN_BATCH
      && hits.Length == MAX_HITS && hitCount <= MAX_HITS
      && pending.Length == MAX_PENDING && pendingHead <= pendingTail <= MAX_PENDING
      && (pendingHead == pendingTail ==> pendingHead == 0)
    }

    ghost function LogView(): Log
      reads this`setup, this`outstandingCount, this`hitCount, this`pendingHead, this`pendingTail,
            this`truncated, this`phase, hits
      requires Shape()
    {
      Log(hits[..hitCount], truncated, phase)
    }

    ghost function ScanView(): Scan
      reads this`setup, this`outstandingCount, this`hitCount, this`pendingHead, this`pendingTail,
            this`truncated, this`phase, this`nextSample, this`havePrevious, this`prevT, this`evaluations,
            tallies, outstandingT, pending, hits
      requires Shape()
    {
      Scan(tallies[..|setup.config|], nextSample, havePrevious, if havePrevious then prevT else 0.0,
           outstandingT[..outstandingCount], pending[pendingHead..pendingTail], evaluations, LogView())
    }

    /** Once a scan has begun, the runner is in the state its calls lead to. */
    ghost predicate Valid()
      reads this, tallies, outstandingT, pending, hits
      ensures Valid() ==> Shape()
    {
      && Shape()
      && (phase != Idle ==> ValidSetup(setup) && ScanView() == After(setup, calls))
    }

    // ----- lifecycle ---------------------------------------------------------------------------

    constructor (eval: (real, real, nat) -> real)
      ensures Valid() && phase == Idle && outstandingCount == 0 && setup.eval == eval && setup.config == []
    {
      setup := Setup(eval, [], EventInterval(0.0, 0.0, 0.0, 0.0, 0, 0, 0, None, 0),
                     RootPolicy(0.0, 0.0, 0.0, 0, Brent), 0.0, false, 0.0, 0.0, 0);
      objectCount, resolution := 0, 0.0;
      nextSample, havePrevious, prevT, phase, outstandingCount := 0, false, 0.0, Idle, 0;
      pendingHead, pendingTail, hitCount, evaluations, truncated, calls := 0, 0, 0, 0, false, [];
      tallies := new Tally[MAX_COMPONENTS](_ => NO_TALLY);
      outstandingT := new real[SCAN_BATCH];
      pending := new BracketState[MAX_PENDING](_ => NO_BRACKET);
      hits := new Hit[MAX_HITS](_ => NO_HIT);
    }

    /** Declare the shape of the scan, with no filters. */
    method Configure(components: nat, objects: nat, stateResolution: real) returns (error: Option<EventError>)
      requires Shape()
      modifies this`setup, this`objectCount, this`resolution, this`phase
      ensures Shape()
      ensures error == if components == 0 || components > MAX_COMPONENTS then Some(BadInput)
                       else if objects == 0 || objects > MAX_OBJECTS then Some(BadObjectIndex)
                       else if stateResolution < 0.0 then Some(BadInput)
                       else None
      ensures error != None ==> setup == old(setup) && phase == old(phase)
      ensures error == None ==>
                && Valid() && phase == Idle
                && setup == old(setup).(config := seq(components, _ => ComponentConfig(0, 0, Smooth, false)))
                && objectCount == objects && resolution == stateResolution
    {
      if components == 0 || components > MAX_COMPONENTS {
        return Some(BadInput);
      }
      if objects == 0 || objects > MAX_OBJECTS {
        return Some(BadObjectIndex);
      }
      if stateResolution < 0.0 {
        return Some(BadInput);
      }
      var config: seq<ComponentConfig> := [];
      while |config| < components
        invariant |config| <= components
        invariant forall i :: 0 <= i < |config| ==> config[i] == ComponentConfig(0, 0, Smooth, false)
      {
        config := config + [ComponentConfig(0, 0, Smooth, false)];
      }
      setup := setup.(config := config);
      objectCount, resolution, phase := objects, stateResolution, Idle;
      return None;
    }

    /** Set one component's filters.  A scan in progress is not told. */
    method SetComponent(component: nat, filters: ComponentConfig) returns (error: Option<EventError>)
      requires Shape()
      modifies this`setup
      ensures Shape() && (phase == Idle ==> Valid())
      ensures error == if component >= old(|setup.config|) then Some(UnknownComponent) else None
      ensures setup == if error == None then old(setup).(config := old(setup).config[component := filters])
                       else old(setup)
    {
      if component >= |setup.config| {
        return Some(UnknownComponent);
      }
      setup := setup.(config := setup.config[component := filters]);
      return None;
    }

    /** Begin a scan.  A zero span is only noticed after the previous scan has been wiped, and
        leaves the phase as it was.  The scan covers its interval exactly when the 32-bit sample
        count does not wrap around. */
    method Begin(interval: EventInterval, policy: RootPolicy) returns (error: Option<EventError>)
      requires Shape()
      requires policy.scanStep > 0.0 ==> Countable(SpanOf(interval), policy.scanStep)
      modifies this`setup, this`nextSample, this`havePrevious, this`phase, this`outstandingCount,
               this`pendingHead, this`pendingTail, this`hitCount, this`evaluations, this`truncated, this`calls, tallies
      ensures Shape()
      ensures error == Refusal(old(setup), interval, policy)
      ensures error == None ==>
                && phase == ScanWait && calls == [] && ScanView() == Fresh(setup)
                && setup == Planned(old(setup), interval, policy, resolution)
      ensures error == None ==> (Valid() <==> Ratio(SpanOf(interval), policy.scanStep) <= 4294967294.0)
      ensures error != None ==> phase == old(phase) && (phase == Idle ==> Valid())
      ensures error != None && SpanOf(interval) != 0.0 ==> setup == old(setup) && (old(Valid()) ==> Valid())
    {
      hide ValidSetup, StepsFor, SpanOf, Ratio;
      if |setup.config| == 0 {
        return Some(NotConfigured);
      }
      if !(policy.scanStep > 0.0) || !(policy.epochTolerance > 0.0) || policy.maxIterations == 0
         || policy.valueTolerance < 0.0
      {
        return Some(BadInput);
      }
      if interval.component != None && interval.component.value >= |setup.config| {
        return Some(UnknownComponent);
      }
      ghost var before := setup;
      Wipe();
      if SpanOf(interval) == 0.0 {
        setup := setup.(interval := interval, policy := policy, span := 0.0);
        return Some(BadInput);
      }
      PlannedIsValid(before, interval, policy, resolution);
      Launch(Planned(setup, interval, policy, resolution));
      return None;
    }

    method Launch(plan: Setup)
      requires Shape() && ScanView() == Fresh(setup).(log := Log([], false, phase)) && calls == []
      requires |plan.config| == |setup.config|
      modifies this`setup, this`phase
      ensures Shape() && ScanView() == Fresh(setup) && setup == plan && phase == ScanWait
      ensures Valid() <==> ValidSetup(plan)
    {
      hide ValidSetup;
      setup := plan;
      phase := ScanWait;
    }

    method Wipe()
      requires Shape()
      modifies this`nextSample, this`havePrevious, this`outstandingCount,
               this`pendingHead, this`pendingTail, this`hitCount, this`evaluations, this`truncated, this`calls, tallies
      ensures Shape()
      ensures calls == []
      ensures ScanView() == Fresh(setup).(log := Log([], false, phase))
    {
      ClearTallies();
      hitCount, evaluations, truncated := 0, 0, false;
      pendingHead, pendingTail := 0, 0;
      havePrevious, nextSample, outstandingCount, calls := false, 0, 0, [];
    }

    method ClearTallies()
      requires Shape()
      modifies tallies
      ensures tallies[..|setup.config|] == Fresh(setup).tallies
    {
      for c := 0 to |setup.config|
        invariant forall i: nat :: i < c ==> tallies[i] == NO_TALLY
      {
        tallies[c] := NO_TALLY;
      }
    }

    // ----- recording -------------------------------------------------------------------------

    /** Count a qualifying crossing and report it in scan order, unless an occurrence filter
        rejects it or there is no room. */
    method Record(c: nat, x: Finding)
      requires Shape() && c < |setup.config|
      modifies this`hitCount, this`truncated, this`phase, tallies, hits
      ensures Shape()
      ensures ScanView() == RecordHit(setup, old(ScanView()), c, x)
    {
      hide AddHit, Report, Grazes;
      var y := tallies[c].(crossings := tallies[c].crossings + 1, qualifying := tallies[c].qualifying + 1);
      tallies[c] := y;
      assert tallies[..|setup.config|] == old(tallies[..|setup.config|])[c := y];
      if setup.config[c].occurrence != 0 && y.qualifying != setup.config[c].occurrence {
        return;
      }
      if setup.interval.occurrence != 0 && y.qualifying != setup.interval.occurrence {
        return;
      }
      Append(Report(setup, c, x).(tangential := Grazes(y, x.value)));
    }

    method Append(hit: Hit)
      requires Shape()
      modifies this`hitCount, this`truncated, this`phase, hits
      ensures Shape()
      ensures LogView() == AddHit(setup, old(LogView()), hit)
    {
      hide InsertHit;
      if hitCount >= MAX_HITS {
        truncated := true;
        return;
      }
      InsertSorted(hits, hitCount, hit, setup.span < 0.0, setup);
      hitCount := hitCount + 1;
      if setup.interval.maxEvents != 0 {
        if hitCount > setup.interval.maxEvents {
          assert hits[..hitCount][..setup.interval.maxEvents] == hits[..setup.interval.maxEvents];
          hitCount := setup.interval.maxEvents;
          truncated := true;
        }
        if hitCount >= setup.interval.maxEvents {
          phase := Done;
        }
      }
    }

    // ----- scanning ---------------------------------------------------------------------------

    /** A crossing was seen between the previous sample, where `g` was `gp`, and `t`. */
    method Cross(c: nat, gp: real, t: real, g: real)
      requires Shape() && c < |setup.config| && gp != 0.0 && pendingHead == 0 && havePrevious
      modifies this`hitCount, this`truncated, this`phase, this`pendingTail, tallies, hits, pending
      ensures Shape()
      ensures ScanView() == RecordCrossing(setup, old(ScanView()), c, gp, t, g)
    {
      hide RecordHit, NextStep, OpenBracket;
      var direction := if g > gp then 1 else -1;
      var want, also := setup.config[c].direction, setup.interval.direction;
      if !((want == 0 || want == direction) && (also == 0 || also == direction)) {
        tallies[c] := tallies[c].(crossings := tallies[c].crossings + 1);
      } else if setup.config[c].continuity == Discrete {
        Record(c, Finding(t, g, direction, Discontinuous, 0, 1));
      } else if Sign(g) == 0 {
        Record(c, Finding(t, g, direction, Converged, 0, 1));
      } else if pendingTail - pendingHead >= MAX_PENDING {
        truncated := true;
      } else {
        Enqueue(c, OpenBracket(setup, c, prevT, gp, t, g));
      }
    }

    /** Prime a bracket: queue it, or record it if its first step already finishes it. */
    method Enqueue(c: nat, start: BracketState)
      requires Shape() && c < |setup.config| && pendingHead == 0 && pendingTail < MAX_PENDING
      requires start.fa != 0.0 && start.fc != 0.0
      modifies this`hitCount, this`truncated, this`phase, this`pendingTail, tallies, hits, pending
      ensures Shape()
      ensures var st := NextStep(start);
        ScanView() == if st.more then old(ScanView()).(pending := old(ScanView()).pending + [st.br])
                      else RecordHit(setup, old(ScanView()), c, BracketFinding(st.br))
    {
      hide RecordHit, NextStep;
      var more, br := Advance(start);
      pending[pendingTail % MAX_PENDING] := br;
      if more {
        pendingTail := pendingTail + 1;
      } else {
        Record(c, BracketFinding(br));
      }
    }

    method ScanOne(c: nat, t: real)
      requires Shape() && c < |setup.config| && pendingHead == 0 && Signed(ScanView())
      modifies this`hitCount, this`truncated, this`phase, this`pendingTail, tallies, hits, pending
      ensures Shape()
      ensures ScanView() == ScanComponent(setup, old(ScanView()), c, t)
    {
      hide RecordCrossing;
      if setup.interval.component != None && setup.interval.component != Some(c) {
        return;
      }
      var g := G(setup, c)(t);
      var y := tallies[c];
      tallies[c] := Observe(y, g, !havePrevious);
      assert y == ScanView().tallies[c].(evals := y.evals, firstG := y.firstG, firstSign := y.firstSign,
                                         lastG := y.lastG, lastSign := y.lastSign);
      if havePrevious && Crosses(y.prevSign, Sign(g)) {
        Cross(c, y.prevG, t, g);
      }
      tallies[c] := tallies[c].(prevG := g, prevSign := Sign(g));
    }

    method ScanEach(t: real)
      requires Shape() && pendingHead == 0 && Signed(ScanView())
      modifies this`hitCount, this`truncated, this`phase, this`pendingTail, tallies, hits, pending
      ensures Shape()
      ensures ScanView() == ScanComponents(setup, old(ScanView()), |setup.config|, t)
    {
      hide ScanComponent, Signed;
      for c := 0 to |setup.config|
        invariant Shape() && ScanView() == ScanComponents(setup, old(ScanView()), c, t)
      {
        ScanOne(c, t);
      }
    }

    /** Scan every component at one sample. */
    method ScanAll(t: real)
      requires Shape() && pendingHead == 0 && Signed(ScanView())
      modifies this`hitCount, this`truncated, this`phase, this`pendingTail, this`prevT, this`havePrevious,
               this`evaluations, tallies, hits, pending
      ensures Shape()
      ensures ScanView() == ScanSample(setup, old(ScanView()), t)
    {
      hide ScanComponents;
      CountEvaluation();
      ScanEach(t);
      RememberTime(t);
    }

    method CountEvaluation()
      requires Shape()
      modifies this`evaluations
      ensures Shape() && ScanView() == old(ScanView()).(evaluations := old(evaluations) + 1)
    {
      evaluations := evaluations + 1;
    }

    method RememberTime(t: real)
      requires Shape()
      modifies this`prevT, this`havePrevious
      ensures Shape() && ScanView() == old(ScanView()).(prevT := t, havePrevious := true)
    {
      prevT := t;
      havePrevious := true;
    }

    // ----- the pull protocol ----------------------------------------------------------------------

    /** Scan the first `supplied` outstanding samples; a full hit list ends the batch. */
    method ScanSupplied(supplied: nat)
      requires Shape() && pendingHead == 0 && Signed(ScanView()) && supplied <= SCAN_BATCH
      modifies this`hitCount, this`truncated, this`phase, this`pendingTail, this`prevT, this`havePrevious,
               this`evaluations, tallies, hits, pending
      ensures Shape()
      ensures ScanView() == ScanBatch(setup, old(ScanView()), outstandingT[..supplied])
    {
      hide ScanSample, Signed;
      ghost var s, ts := ScanView(), outstandingT[..supplied];
      var i := 0;
      while i < supplied
        invariant 0 <= i <= supplied && Shape() && Signed(ScanView())
        invariant ScanBatch(setup, s, ts) == ScanBatch(setup, ScanView(), ts[i..])
        modifies this`hitCount, this`truncated, this`phase, this`pendingTail, this`prevT, this`havePrevious,
                 this`evaluations, tallies, hits, pending
      {
        assert ts[i..][0] == outstandingT[i] && ts[i..][1..] == ts[i + 1..];
        ScanAll(outstandingT[i]);
        if phase == Done {
          return;
        }
        i := i + 1;
      }
    }

    method SupplySamples()
      requires Shape() && pendingHead == 0 && Signed(ScanView())
      modifies this`hitCount, this`truncated, this`phase, this`pendingTail, this`prevT, this`havePrevious,
               this`evaluations, this`outstandingCount, this`nextSample, tallies, hits, pending
      ensures Shape()
      ensures ScanView() == SupplyScan(setup, old(ScanView()))
    {
      ghost var s := ScanView();
      var supplied := outstandingCount;
      TakeRequest();
      hide ScanBatch, Signed;
      ScanSupplied(supplied);
      EndBatch(supplied);
    }

    method TakeRequest()
      requires Shape()
      modifies this`outstandingCount
      ensures Shape() && ScanView() == old(ScanView()).(outstanding := [])
    {
      outstandingCount := 0;
    }

    /** The whole batch counts as scanned, even when a full hit list ended it early. */
    method EndBatch(supplied: nat)
      requires Shape()
      modifies this`phase, this`nextSample
      ensures Shape()
      ensures var s := old(ScanView()).(nextSample := old(nextSample) + supplied);
        ScanView() == if s.log.phase == Done then s
                      else s.(log := s.log.(phase := if s.nextSample >= setup.sampleCount && s.pending == []
                                                     then Done else ScanWait))
    {
      nextSample := nextSample + supplied;
      if phase != Done {
        phase := if nextSample >= setup.sampleCount && pendingTail == pendingHead then Done else ScanWait;
      }
    }

    /** Evaluate the head bracket's component at the one outstanding abscissa. */
    method EvaluateHead() returns (br: BracketState)
      requires Shape() && RefineOk(setup, ScanView())
      modifies this`evaluations, this`outstandingCount, tallies
      ensures Shape()
      ensures ScanView() == Evaluated(old(ScanView())).(outstanding := [])
      ensures br == Supplied(old(ScanView()).pending[0], G(setup, old(ScanView()).pending[0].component))
    {
      br := pending[pendingHead % MAX_PENDING];
      var c := br.component;
      assert old(ScanView()).outstanding[0] == outstandingT[0];
      br := br.(fb := G(setup, c)(outstandingT[0]), evaluations := br.evaluations + 1);
      outstandingCount := 0;
      evaluations := evaluations + 1;
      tallies[c] := tallies[c].(evals := tallies[c].evals + 1);
    }

    /** Drop the head bracket; an emptied queue starts again at slot 0. */
    method Pop()
      requires Shape() && pendingHead < pendingTail
      modifies this`pendingHead, this`pendingTail
      ensures Shape()
      ensures ScanView() == old(ScanView()).(pending := old(ScanView()).pending[1..])
    {
      pendingHead := pendingHead + 1;
      if pendingHead == pendingTail {
        pendingHead, pendingTail := 0, 0;
      }
    }

    /** Store the advanced head bracket, or report it and drop it. */
    method SettleHead(c: nat, more: bool, br: BracketState)
      requires Shape() && pendingHead < pendingTail && c < |setup.config|
      modifies this`hitCount, this`truncated, this`phase, this`pendingHead, this`pendingTail, tallies, hits, pending
      ensures Shape()
      ensures var s := old(ScanView());
        ScanView() == if more then s.(pending := [br] + s.pending[1..])
                      else RecordHit(setup, s, c, BracketFinding(br)).(pending := s.pending[1..])
    {
      hide RecordHit;
      ghost var s := ScanView();
      pending[pendingHead % MAX_PENDING] := br;
      assert ScanView() == s.(pending := [br] + s.pending[1..]);
      if !more {
        Record(c, BracketFinding(br));
        RecordIgnoresQueue(setup, s, [br] + s.pending[1..], c, BracketFinding(br));
        Pop();
      }
    }

    method ResumeHead()
      requires Shape() && RefineOk(setup, ScanView())
      modifies this`hitCount, this`truncated, this`phase, this`pendingHead, this`pendingTail,
               this`evaluations, this`outstandingCount, tallies, hits, pending
      ensures Shape()
      ensures ScanView() == Resume(setup, old(ScanView())).(outstanding := [])
    {
      ghost var s := ScanView();
      var br := EvaluateHead();
      var more, br' := Advance(br);
      hide NextStep, RecordHit, Signed, G;
      SettleHead(br.component, more, br');
      RecordIgnoresRequest(setup, Evaluated(s), br.component, BracketFinding(br'));
    }

    /** The value the head bracket waits for has arrived. */
    method SupplyValue()
      requires Shape() && RefineOk(setup, ScanView())
      modifies this`hitCount, this`truncated, this`phase, this`pendingHead, this`pendingTail,
               this`evaluations, this`outstandingCount, tallies, hits, pending
      ensures Shape()
      ensures ScanView() == SupplyRefine(setup, old(ScanView()))
    {
      hide Resume, RefineOk;
      ResumeHead();
      if phase != Done {
        phase := ScanWait;
      }
    }

    /** Feed back the states for the epochs the last `Next` asked for: `count` of them,
        one per epoch and object. */
    method Supply(count: nat) returns (error: Option<EventError>)
      requires Valid() && (phase == Idle && outstandingCount > 0 ==> count != outstandingCount * objectCount)
      modifies this`hitCount, this`truncated, this`phase, this`pendingHead, this`pendingTail, this`prevT,
               this`havePrevious, this`evaluations, this`outstandingCount, this`nextSample, this`calls,
               tallies, hits, pending
      ensures Valid()
      ensures error == if old(outstandingCount) == 0 then Some(ProtocolOrder)
                       else if count != old(outstandingCount) * objectCount then Some(SupplyCountMismatch)
                       else None
      ensures error != None ==> calls == old(calls) && ScanView() == old(ScanView())
      ensures error == None ==> calls == old(calls) + [Answer] && phase != Idle
    {
      hide SupplyScan, SupplyRefine, RefineOk, Signed, ValidSetup, After;
      if outstandingCount == 0 {
        return Some(ProtocolOrder);
      }
      if count != outstandingCount * objectCount {
        return Some(SupplyCountMismatch);
      }
      ghost var s := ScanView();
      ReachableShape(setup, calls);
      if phase == RefineWait {
        SupplyValue();
      } else {
        SupplySamples();
      }
      AfterCall(setup, calls, Answer);
      ReachableShape(setup, calls + [Answer]);
      calls := calls + [Answer];
      return None;
    }

    /** Every outstanding epoch is in the consumer's buffer, in order. */
    ghost predicate Written(epochs: array<real>)
      reads this`setup, this`outstandingCount, outstandingT, epochs
    {
      && outstandingCount <= outstandingT.Length && 2 * outstandingCount <= epochs.Length
      && forall i: nat :: i < outstandingCount ==>
           epochs[2 * i] == setup.interval.startJdDay
           && epochs[2 * i + 1] == setup.interval.startSeconds + outstandingT[i]
    }

    /** Ask for the next batch of epochs, written as `(jdDay, seconds)` pairs. */
    method Next(epochs: array<real>, capacity: nat) returns (answer: NextResult)
      requires Valid() && 2 * capacity <= epochs.Length && epochs != outstandingT
      modifies this`phase, this`truncated, this`outstandingCount, this`calls, outstandingT, epochs
      ensures Valid()
      ensures old(phase) == Idle ==> answer == NextError(NotStarted) && calls == old(calls)
      ensures old(phase) != Idle ==>
                && phase != Idle
                && calls == old(calls) + [Ask(capacity)]
                && (answer, ScanView()) == EventScan.Next(setup, old(ScanView()), capacity)
      ensures answer.Epochs? && answer.count > 0 ==> answer.count == outstandingCount <= capacity && Written(epochs)
    {
      if phase == Idle {
        return NextError(NotStarted);
      }
      hide After, EventScan.Next, ValidSetup, Written;
      answer := NextRequest(epochs, capacity);
      AfterCall(setup, calls, Ask(capacity));
      ReachableShape(setup, calls + [Ask(capacity)]);
      calls := calls + [Ask(capacity)];
    }

    method NextRequest(epochs: array<real>, capacity: nat) returns (answer: NextResult)
      requires Shape() && phase != Idle
      requires 2 * capacity <= epochs.Length && epochs != outstandingT
      modifies this`phase, this`truncated, this`outstandingCount, outstandingT, epochs
      ensures Shape()
      ensures (answer, ScanView()) == EventScan.Next(setup, old(ScanView()), capacity)
      ensures answer.Epochs? && answer.count > 0 ==> answer.count == outstandingCount <= capacity && Written(epochs)
    {
      if outstandingCount != 0 {
        return NextError(ProtocolOrder);
      }
      SpendBudget();
      answer := ProceedRequest(epochs, capacity);
    }

    method SpendBudget()
      requires Shape()
      modifies this`phase, this`truncated
      ensures Shape() && ScanView() == CheckBudget(setup, old(ScanView()))
    {
      if setup.interval.maxEvaluations != 0 && evaluations >= setup.interval.maxEvaluations {
        truncated := true;
        phase := Done;
      }
    }

    method ProceedRequest(epochs: array<real>, capacity: nat) returns (answer: NextResult)
      requires Shape() && outstandingCount == 0
      requires 2 * capacity <= epochs.Length && epochs != outstandingT
      modifies this`phase, this`truncated, this`outstandingCount, outstandingT, epochs
      ensures Shape()
      ensures (answer, ScanView()) == Proceed(setup, old(ScanView()), capacity)
      ensures answer.Epochs? && answer.count > 0 ==> answer.count == outstandingCount <= capacity && Written(epochs)
    {
      hide Batch;
      if phase == Done {
        if pendingTail - pendingHead > 0 || nextSample < setup.sampleCount {
          truncated := true;
        }
        return Epochs(0);
      }
      if pendingTail - pendingHead > 0 {
        if capacity < 1 {
          return NextError(BufferTooSmall);
        }
        RequestValue(epochs);
        return Epochs(1);
      }
      if nextSample >= setup.sampleCount {
        phase := Done;
        return Epochs(0);
      }
      var want := Min(Min(setup.sampleCount - nextSample, SCAN_BATCH), capacity);
      if want == 0 {
        return NextError(BufferTooSmall);
      }
      RequestSamples(epochs, want);
      return Epochs(want);
    }

    method RequestValue(epochs: array<real>)
      requires Shape() && pendingHead < pendingTail
      requires 2 <= epochs.Length && epochs != outstandingT
      modifies this`phase, this`outstandingCount, outstandingT, epochs
      ensures Shape() && outstandingCount == 1
      ensures ScanView() == old(ScanView()).(log := old(LogView()).(phase := RefineWait),
                                             outstanding := [old(ScanView()).pending[0].b])
      ensures Written(epochs)
    {
      phase := RefineWait;
      outstandingCount := 1;
      outstandingT[0] := pending[pendingHead % MAX_PENDING].b;
      epochs[0] := setup.interval.startJdDay;
      epochs[1] := setup.interval.startSeconds + outstandingT[0];
      assert outstandingT[..1] == [outstandingT[0]];
    }

    method RequestSamples(epochs: array<real>, want: nat)
      requires Shape() && want <= SCAN_BATCH
      requires 2 * want <= epochs.Length && epochs != outstandingT
      modifies this`phase, this`outstandingCount, outstandingT, epochs
      ensures Shape() && outstandingCount == want
      ensures ScanView() == old(ScanView()).(log := old(LogView()).(phase := ScanWait),
                                             outstanding := Batch(setup, nextSample, want))
      ensures Written(epochs)
    {
      for n := 0 to want
        invariant forall i: nat :: i < n ==> outstandingT[i] == SampleTime(setup, nextSample + i)
        invariant forall i: nat :: i < n ==>
                    epochs[2 * i] == setup.interval.startJdDay
                    && epochs[2 * i + 1] == setup.interval.startSeconds + outstandingT[i]
        modifies outstandingT, epochs
      {
        outstandingT[n] := SampleTime(setup, nextSample + n);
        epochs[2 * n] := setup.interval.startJdDay;
        epochs[2 * n + 1] := setup.interval.startSeconds + outstandingT[n];
      }
      outstandingCount := want;
      phase := ScanWait;
    }

    // ----- results -----------------------------------------------------------------------------------

    /** Copy the hits out.  Once a scan has begun, and whatever was dropped, every hit copied
        is a real event of the grid and what it says, and the list is in scan order. */
    method Results(out: array<Hit>, capacity: nat) returns (error: Option<EventError>)
      requires Valid() && capacity <= out.Length && out != hits
      modifies out
      ensures error == if capacity < hitCount then Some(BufferTooSmall) else None
      ensures error == None ==> out[..hitCount] == hits[..hitCount]
      ensures error == None && phase != Idle ==>
                && InScanOrder(setup, out[..hitCount])
                && forall i: nat :: i < hitCount ==> IsReal(setup, out[i]) && Truthful(setup, out[i])
    {
      if capacity < hitCount {
        return Some(BufferTooSmall);
      }
      for n := 0 to hitCount
        invariant out[..n] == hits[..n]
      {
        out[n] := hits[n];
      }
      hide IsReal, Truthful, InScanOrder, ValidSetup, After;
      if phase != Idle {
        EverythingReportedIsReal(setup, calls);
        forall i: nat | i < hitCount
          ensures out[i] == ScanView().log.hits[i] && Truthful(setup, out[i])
        {
          HitsAreTruthful(setup, calls, i);
        }
      }
      return None;
    }

    /** One summary per component.  Once a scan has begun, each describes its component's grid as
        far as it has been scanned. */
    method Summaries(out: array<ScanSummary>, capacity: nat) returns (error: Option<EventError>)
      requires Valid() && capacity <= out.Length
      modifies out
      ensures error == if capacity < |setup.config| then Some(BufferTooSmall) else None
      ensures error == None ==> forall c: nat :: c < |setup.config| ==> out[c] == SummaryOf(tallies[c], c)
      ensures error == None && phase != Idle ==>
                forall c: nat :: c < |setup.config| ==> Summarizes(setup, ScanView(), c, out[c])
    {
      hide Summarizes, ValidSetup, After;
      if capacity < |setup.config| {
        return Some(BufferTooSmall);
      }
      for n := 0 to |setup.config|
        invariant forall c: nat :: c < n ==> out[c] == SummaryOf(tallies[c], c)
      {
        out[n] := SummaryOf(tallies[n], n);
      }
      if phase != Idle {
        forall c: nat | c < |setup.config|
          ensures Summarizes(setup, ScanView(), c, out[c])
        {
          SummariesDescribeGrid(setup, calls, c);
        }
      }
      return None;
    }

    /** The consumer's half of the pull protocol: ask, evaluate, answer, until the runner is
        finished.  If it then says neither truncated nor capped, every crossing of the grid
        has been accounted for. */
    method Drive(epochs: array<real>, capacity: nat)
      requires Valid() && phase != Idle && outstandingCount == 0
      requires capacity >= 1 && 2 * capacity <= epochs.Length && epochs != outstandingT
      modifies this, tallies, outstandingT, pending, hits, epochs
      ensures Valid() && setup == old(setup) && phase == Done
      ensures old(calls) <= calls
      ensures Clean(setup, LogView()) ==> Accomplished(setup, ScanView())
      ensures evaluations <= setup.sampleCount + GridBudget(setup, setup.sampleCount)
    {
      hide ValidSetup, After, Clean, Accomplished, GridBudget, TotalAllowance;
      var finished := false;
      while !finished
        invariant Valid() && setup == old(setup) && old(calls) <= calls
        invariant !finished ==> phase != Idle && outstandingCount == 0
        invariant finished ==> phase == Done
        invariant finished ==> (Clean(setup, LogView()) ==> Accomplished(setup, ScanView()))
        invariant finished ==> evaluations <= setup.sampleCount + GridBudget(setup, setup.sampleCount)
        decreases !finished, setup.sampleCount - nextSample, TotalAllowance(ScanView().pending)
      {
        finished := Round(epochs, capacity);
      }
    }

    /** One round of the drive. */
    method Round(epochs: array<real>, capacity: nat) returns (finished: bool)
      requires Valid() && phase != Idle && outstandingCount == 0
      requires capacity >= 1 && 2 * capacity <= epochs.Length && epochs != outstandingT
      modifies this, tallies, outstandingT, pending, hits, epochs
      ensures Valid() && setup == old(setup) && old(calls) <= calls
      ensures finished ==>
                && phase == Done
                && (Clean(setup, LogView()) ==> Accomplished(setup, ScanView()))
                && evaluations <= setup.sampleCount + GridBudget(setup, setup.sampleCount)
      ensures !finished ==> phase != Idle && outstandingCount == 0 && Progress(setup, old(ScanView()), ScanView())
    {
      hide ValidSetup, After, Accomplished, EventScan.Next, GridBudget, TotalAllowance, Clean;
      ghost var before := calls;
      NextFromReachable(setup, calls, capacity);
      var answer := Next(epochs, capacity);
      EvaluationsAreBounded(setup, calls);
      if answer == Epochs(0) {
        if Clean(setup, LogView()) {
          UntruncatedIsComplete(setup, before, capacity, ScanView());
        }
        return true;
      }
      var error := Supply(outstandingCount * objectCount);
      ReachableShape(setup, calls);
      return false;
    }
  }

  /** Shift the later of the first `count` hits up by one slot and put `hit` in the gap. */
  method InsertSorted(hits: array<Hit>, count: nat, hit: Hit, backward: bool, ghost u: Setup)
    requires count < hits.Length && backward == (u.span < 0.0)
    modifies hits
    ensures hits[..count + 1] == InsertHit(u, old(hits[..count]), hit)
  {
    hide InsertHit;
    ghost var before := hits[..count];
    var index := count;
    while index > 0 && (if backward then hits[index - 1].seconds < hit.seconds
                        else hits[index - 1].seconds > hit.seconds)
      invariant 0 <= index <= count
      invariant forall i: nat :: i < index ==> hits[i] == before[i]
      invariant forall i: nat :: index < i <= count ==> hits[i] == before[i - 1]
      invariant forall i: nat :: index <= i < count ==> Later(u, before[i], hit.seconds)
    {
      hits[index] := hits[index - 1];
      index := index - 1;
    }
    InsertAt(u, before, hit, index);
    hits[index] := hit;
    assert hits[..count + 1] == before[..index] + [hit] + before[index..];
  }

  lemma {:induction false} InsertAt(u: Setup, hits: seq<Hit>, hit: Hit, at: nat)
    requires at <= |hits|
    requires forall i: nat :: at <= i < |hits| ==> Later(u, hits[i], hit.seconds)
    requires at == 0 || !Later(u, hits[at - 1], hit.seconds)
    ensures InsertHit(u, hits, hit) == hits[..at] + [hit] + hits[at..]
  {
    if at < |hits| {
      InsertAt(u, hits[..|hits| - 1], hit, at);
      assert hits[at..] == hits[..|hits| - 1][at..] + [hits[|hits| - 1]];
    } else {
      assert hits[..at] + [hit] + hits[at..] == hits + [hit];
    }
  }

  lemma RecordIgnoresQueue(u: Setup, s: Scan, queue: seq<BracketState>, c: nat, x: Finding)
    requires Fits(u, s) && c < |u.config|
    ensures RecordHit(u, s.(pending := queue), c, x) == RecordHit(u, s, c, x).(pending := queue)
  {
    hide AddHit, Report, Grazes, Filtered;
  }

  lemma RecordIgnoresRequest(u: Setup, s: Scan, c: nat, x: Finding)
    requires Fits(u, s) && c < |u.config|
    ensures RecordHit(u, s.(outstanding := []), c, x) == RecordHit(u, s, c, x).(outstanding := [])
  {
    hide AddHit, Report, Grazes, Filtered;
  }

  /** What a request that is outstanding in a reachable state guarantees. */
  lemma ReachableShape(u: Setup, calls: seq<Call>)
    requires ValidSetup(u)
    ensures var s := After(u, calls);
      && s.log.phase != Idle
      && (s.outstanding != [] ==>
            && Answerable(u, s)
            && (s.log.phase == RefineWait || (s.log.phase == ScanWait && s.pending == [])))
  {
    hide AtSample, Sound, LogOk, QueueOk, After;
    ReachableInv(u, calls);
  }

  /** Asking in a reachable state ends the scan or leaves a request whose answer makes progress. */
  lemma NextFromReachable(u: Setup, calls: seq<Call>, capacity: nat)
    requires ValidSetup(u) && capacity >= 1 && After(u, calls).outstanding == []
    ensures var s, asked := After(u, calls), calls + [Ask(capacity)];
      && After(u, asked) == Next(u, s, capacity).1
      && (if Next(u, s, capacity).0 == Epochs(0) then After(u, asked).log.phase == Done
          else After(u, asked).outstanding != [] && Progress(u, s, After(u, asked + [Answer])))
  {
    hide Inv, Next, Supply, TotalAllowance;
    var asked := calls + [Ask(capacity)];
    AfterCall(u, calls, Ask(capacity));
    ReachableInv(u, calls);
    NextAsks(u, After(u, calls), capacity);
    if Next(u, After(u, calls), capacity).0 != Epochs(0) {
      RoundProgresses(u, calls, capacity);
      assert asked + [Answer] == calls + [Ask(capacity), Answer];
    }
  }
}
