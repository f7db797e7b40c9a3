/** What the caller's limits do to a scan: occurrence filters, the evaluation budget and the
    TANGENTIAL flag, in every state any run can reach. */
module EventLimits {
  import opened EventTypes
  import opened RootFinding
  import opened EventScan
  import opened EventAccounting
  import opened EventRuns

  // ----- counting hits -------------------------------------------------------------------------------

  ghost function CountOf(hits: seq<Hit>, c: nat): nat {
    if |hits| == 0 then 0
    else CountOf(hits[..|hits| - 1], c) + if hits[|hits| - 1].component == c then 1 else 0
  }

  lemma CountOne(hits: seq<Hit>, hit: Hit, c: nat)
    ensures CountOf(hits + [hit], c) == CountOf(hits, c) + if hit.component == c then 1 else 0
  {
    assert (hits + [hit])[..|hits|] == hits;
  }

  lemma {:induction false} InsertCounts(u: Setup, hits: seq<Hit>, hit: Hit, c: nat)
    ensures CountOf(InsertHit(u, hits, hit), c) == CountOf(hits, c) + if hit.component == c then 1 else 0
  {
    hide Later, CountOf;
    if |hits| == 0 || !Later(u, hits[|hits| - 1], hit.seconds) {
      CountOne(hits, hit, c);
    } else {
      var init, last := hits[..|hits| - 1], hits[|hits| - 1];
      InsertCounts(u, init, hit, c);
      CountOne(InsertHit(u, init, hit), last, c);
      CountOne(init, last, c);
      assert hits == init + [last];
    }
  }

  lemma {:induction false} InsertAddsNothingElse(u: Setup, hits: seq<Hit>, hit: Hit)
    ensures forall h :: h in InsertHit(u, hits, hit) ==> h in hits || h == hit
  {
    hide Later;
    if |hits| > 0 && Later(u, hits[|hits| - 1], hit.seconds) {
      InsertAddsNothingElse(u, hits[..|hits| - 1], hit);
    }
  }

  lemma {:induction false} FewerCounted(hits: seq<Hit>, n: nat, c: nat)
    requires n <= |hits|
    ensures CountOf(hits[..n], c) <= CountOf(hits, c)
  {
    if n < |hits| {
      FewerCounted(hits[..|hits| - 1], n, c);
      assert hits[..|hits| - 1][..n] == hits[..n];
    } else {
      assert hits[..n] == hits;
    }
  }

  lemma {:induction false} Counted(hits: seq<Hit>, i: nat)
    requires i < |hits|
    ensures CountOf(hits, hits[i].component) >= 1
  {
    if i < |hits| - 1 {
      Counted(hits[..|hits| - 1], i);
    }
  }

  lemma {:induction false} TwoCounted(hits: seq<Hit>, i: nat, j: nat)
    requires i < j < |hits| && hits[i].component == hits[j].component
    ensures CountOf(hits, hits[i].component) >= 2
  {
    var init := hits[..|hits| - 1];
    if j < |hits| - 1 {
      TwoCounted(init, i, j);
    } else {
      Counted(init, i);
    }
  }

  lemma {:induction false} InsertedOne(u: Setup, hits: seq<Hit>, hit: Hit)
    ensures |InsertHit(u, hits, hit)| == |hits| + 1
  {
    if |hits| > 0 {
      InsertedOne(u, hits[..|hits| - 1], hit);
    }
  }

  lemma AddCounts(u: Setup, log: Log, hit: Hit, c: nat)
    ensures CountOf(AddHit(u, log, hit).hits, c) <= CountOf(log.hits, c) + if hit.component == c then 1 else 0
    ensures forall h :: h in AddHit(u, log, hit).hits ==> h in log.hits || h == hit
    ensures Clean(u, AddHit(u, log, hit)) ==>
      && Clean(u, log)
      && CountOf(AddHit(u, log, hit).hits, c) == CountOf(log.hits, c) + if hit.component == c then 1 else 0
  {
    hide InsertHit;
    if |log.hits| < MAX_HITS {
      InsertedOne(u, log.hits, hit);
      InsertCounts(u, log.hits, hit, c);
      InsertAddsNothingElse(u, log.hits, hit);
      var all := InsertHit(u, log.hits, hit);
      if u.interval.maxEvents != 0 && |all| > u.interval.maxEvents {
        FewerCounted(all, u.interval.maxEvents, c);
      }
    }
  }

  // ----- the cap --------------------------------------------------------------------------------------

  /** `x` is not met before `y` on the way through the scan. */
  ghost predicate NotBefore(u: Setup, x: Hit, y: Hit) {
    if u.span < 0.0 then x.seconds <= y.seconds else x.seconds >= y.seconds
  }

  lemma {:induction false} InsertBag(u: Setup, hits: seq<Hit>, hit: Hit)
    ensures multiset(InsertHit(u, hits, hit)) == multiset(hits) + multiset{hit}
  {
    hide Later;
    if |hits| > 0 && Later(u, hits[|hits| - 1], hit.seconds) {
      var init, last := hits[..|hits| - 1], hits[|hits| - 1];
      InsertBag(u, init, hit);
      assert hits == init + [last];
    }
  }

  /** A cap keeps the first hits in scan order, whatever order they are found in: of the list and the
      new hit together, as many as the cap allows stay, and whatever goes is not before any that stays.
      A hit that goes is not kept quiet, and a full list ends the scan. */
  lemma CapKeepsFirst(u: Setup, log: Log, hit: Hit)
    requires InScanOrder(u, log.hits) && |log.hits| < 512 && u.interval.maxEvents != 0
    ensures var r, all := AddHit(u, log, hit).hits, multiset(log.hits) + multiset{hit};
      && multiset(r) <= all
      && |r| == (if |log.hits| + 1 <= u.interval.maxEvents then |log.hits| + 1 else u.interval.maxEvents)
      && (forall x, y :: x in all - multiset(r) && y in r ==> NotBefore(u, x, y))
    ensures |log.hits| + 1 > u.interval.maxEvents ==> AddHit(u, log, hit).truncated
    ensures |log.hits| + 1 >= u.interval.maxEvents ==> AddHit(u, log, hit).phase == Done
    ensures |log.hits| + 1 < u.interval.maxEvents ==> AddHit(u, log, hit).phase == log.phase
  {
    var list := InsertHit(u, log.hits, hit);
    var _ := InsertKeepsOrder(u, log.hits, hit);
    InsertBag(u, log.hits, hit);
    InsertedOne(u, log.hits, hit);
    hide InsertHit, HitBag, InScanOrder;
    TakenAreFirst(u, list, AddHit(u, log, hit).hits, u.interval.maxEvents);
  }

  lemma TakenAreFirst(u: Setup, list: seq<Hit>, r: seq<Hit>, m: nat)
    requires InScanOrder(u, list) && r == if |list| > m then list[..m] else list
    ensures multiset(r) <= multiset(list)
    ensures forall x, y :: x in multiset(list) - multiset(r) && y in r ==> NotBefore(u, x, y)
  {
    hide InScanOrder, NotBefore;
    if |list| > m {
      var gone := list[m..];
      CutBag(list, m);
      forall x, y | x in multiset(gone) && y in r
        ensures NotBefore(u, x, y)
      {
        GoneIsNotBefore(u, list, m, x, y);
      }
    }
  }

  lemma CutBag<T>(s: seq<T>, m: nat)
    requires m <= |s|
    ensures multiset(s[..m]) <= multiset(s) && multiset(s) - multiset(s[..m]) == multiset(s[m..])
  {
    assert s == s[..m] + s[m..];
  }

  lemma GoneIsNotBefore(u: Setup, list: seq<Hit>, m: nat, x: Hit, y: Hit)
    requires InScanOrder(u, list) && m <= |list| && x in list[m..] && y in list[..m]
    ensures NotBefore(u, x, y)
  {
    var k: nat :| k < |list[m..]| && list[m..][k] == x;
    var i: nat :| i < m && list[..m][i] == y;
    assert list[i] == y && list[m + k] == x;
    assert !Later(u, list[i], list[m + k].seconds);
  }

  // ----- what every call keeps -----------------------------------------------------------------------

  /** How many of `n` qualifying crossings the filters let through: all of them, or the one whose
      number both ask for. */
  function Expected(u: Setup, c: nat, n: nat): nat
    requires c < |u.config|
  {
    var a, b := u.config[c].occurrence, u.interval.occurrence;
    if a == 0 && b == 0 then n
    else if a != 0 && b != 0 && a != b then 0
    else if n >= a && n >= b then 1 else 0
  }

  lemma OneMoreExpected(u: Setup, c: nat, n: nat)
    requires c < |u.config|
    ensures Expected(u, c, n + 1) == Expected(u, c, n) + if Filtered(u, c, n + 1) then 0 else 1
    ensures Expected(u, c, n) <= n
  {
  }

  /** A lone crossing is flagged exactly if its value has the sign the component began with. */
  ghost predicate Flagged(hits: seq<Hit>, y: Tally, c: nat) {
    forall h :: h in hits && h.component == c ==>
      && (h.tangential ==> y.firstSign != 0 && Sign(h.value) == y.firstSign)
      && (y.crossings == 1 && y.firstSign != 0 && Sign(h.value) == y.firstSign ==> h.tangential)
  }

  /** The hits of a component are those its filters let through; unless something was dropped, all
      of them. */
  ghost predicate Tallied(u: Setup, log: Log, y: Tally, c: nat)
    requires c < |u.config|
  {
    && y.qualifying <= y.crossings
    && CountOf(log.hits, c) <= Expected(u, c, y.qualifying)
    && (Clean(u, log) ==> CountOf(log.hits, c) == Expected(u, c, y.qualifying))
    && Flagged(log.hits, y, c)
  }

  ghost predicate AllTallied(u: Setup, s: Scan) {
    && |s.tallies| == |u.config|
    && forall c: nat :: c < |u.config| ==> Tallied(u, s.log, s.tallies[c], c)
  }

  /** Before the first sample there is nothing to report. */
  ghost predicate Started(s: Scan) {
    !s.havePrevious ==> s.log.hits == [] && s.pending == []
  }

  lemma NoHitsTallied(u: Setup, log: Log, y: Tally, c: nat)
    requires c < |u.config| && y.qualifying == 0 && log.hits == []
    ensures Tallied(u, log, y, c)
  {
  }

  lemma NotCounted(hits: seq<Hit>, h: Hit)
    requires h in hits
    ensures CountOf(hits, h.component) >= 1
  {
    var i: nat :| i < |hits| && hits[i] == h;
    Counted(hits, i);
  }

  lemma FlagsStay(hits: seq<Hit>, more: seq<Hit>, hit: Hit, y: Tally, y': Tally, c: nat)
    requires Flagged(hits, y, c) && CountOf(hits, c) <= y.crossings
    requires y'.crossings == y.crossings + 1 && y'.firstSign == y.firstSign
    requires forall h :: h in more ==> h in hits || h == hit
    requires hit.tangential <==> y'.crossings == 1 && y'.firstSign != 0 && Sign(hit.value) == y'.firstSign
    ensures Flagged(more, y', c)
  {
    hide Sign;
    forall h | h in hits && h.component == c
      ensures y.crossings > 0
    {
      NotCounted(hits, h);
    }
  }

  /** The component whose crossing is recorded. */
  lemma RecordedTallied(u: Setup, s: Scan, c: nat, x: Finding)
    requires c < |u.config| && |s.tallies| == |u.config| && Tallied(u, s.log, s.tallies[c], c)
    ensures var r := RecordHit(u, s, c, x); Tallied(u, r.log, r.tallies[c], c)
  {
    hide AddHit, Grazes, Flagged, CountOf, Expected, Filtered;
    var y := s.tallies[c];
    var y' := y.(crossings := y.crossings + 1, qualifying := y.qualifying + 1);
    var hit := Report(u, c, x).(tangential := Grazes(y', x.value));
    assert hit.component == c && hit.value == x.value;
    hide Report;
    AddCounts(u, s.log, hit, c);
    OneMoreExpected(u, c, y.qualifying);
    GrazesMeans(y', x.value);
    FlagsStay(s.log.hits, AddHit(u, s.log, hit).hits, hit, y, y', c);
    FlagsStay(s.log.hits, s.log.hits, hit, y, y', c);
  }

  lemma GrazesMeans(y: Tally, value: real)
    ensures Grazes(y, value) <==> y.crossings == 1 && y.firstSign != 0 && Sign(value) == y.firstSign
  {
  }

  /** The other components. */
  lemma OthersTallied(u: Setup, s: Scan, c: nat, x: Finding, d: nat)
    requires c < |u.config| && d < |u.config| && d != c && |s.tallies| == |u.config|
    requires Tallied(u, s.log, s.tallies[d], d)
    ensures var r := RecordHit(u, s, c, x); Tallied(u, r.log, r.tallies[d], d)
  {
    hide AddHit, Grazes;
    var y := s.tallies[c];
    var y' := y.(crossings := y.crossings + 1, qualifying := y.qualifying + 1);
    var hit := Report(u, c, x).(tangential := Grazes(y', x.value));
    assert hit.component == c;
    hide Report;
    AddCounts(u, s.log, hit, d);
  }

  lemma RecordKeeps(u: Setup, s: Scan, c: nat, x: Finding)
    requires c < |u.config| && AllTallied(u, s)
    ensures AllTallied(u, RecordHit(u, s, c, x))
  {
    hide Tallied;
    RecordedTallied(u, s, c, x);
    forall d: nat | d < |u.config| && d != c
      ensures var r := RecordHit(u, s, c, x); Tallied(u, r.log, r.tallies[d], d)
    {
      OthersTallied(u, s, c, x, d);
    }
    hide AddHit, Report, Filtered;
  }

  lemma CountedCrossingTallied(u: Setup, log: Log, y: Tally, c: nat)
    requires c < |u.config| && Tallied(u, log, y, c)
    ensures Tallied(u, log, y.(crossings := y.crossings + 1), c)
  {
    OneMoreExpected(u, c, y.qualifying);
    forall h | h in log.hits && h.component == c
      ensures y.crossings > 0
    {
      NotCounted(log.hits, h);
    }
  }

  /** Dropping something, or moving on, leaves the tallies right. */
  lemma DroppedTallied(u: Setup, log: Log, log': Log, y: Tally, c: nat)
    requires c < |u.config| && Tallied(u, log, y, c) && log'.hits == log.hits && (log.truncated ==> log'.truncated)
    ensures Tallied(u, log', y, c)
  {
  }

  lemma DroppedKeeps(u: Setup, s: Scan, log: Log)
    requires AllTallied(u, s) && log.hits == s.log.hits && (s.log.truncated ==> log.truncated)
    ensures AllTallied(u, s.(log := log))
  {
    hide Tallied;
    forall c: nat | c < |u.config|
      ensures Tallied(u, log, s.tallies[c], c)
    {
      DroppedTallied(u, s.log, log, s.tallies[c], c);
    }
  }

  lemma CrossingKeeps(u: Setup, s: Scan, c: nat, gp: real, t: real, g: real)
    requires c < |u.config| && AllTallied(u, s) && gp != 0.0
    ensures var r := RecordCrossing(u, s, c, gp, t, g); AllTallied(u, r) && r.havePrevious == s.havePrevious
  {
    hide Tallied, RecordHit, NextStep;
    CountedCrossingTallied(u, s.log, s.tallies[c], c);
    DroppedKeeps(u, s, s.log.(truncated := true));
    var direction := CrossingDirection(gp, g);
    RecordKeepsAll(u, s, c, Finding(t, g, direction, Discontinuous, 0, 1));
    RecordKeepsAll(u, s, c, Finding(t, g, direction, Converged, 0, 1));
    if Sign(g) != 0 {
      RecordKeepsAll(u, s, c, BracketFinding(NextStep(OpenBracket(u, c, s.prevT, gp, t, g)).br));
    }
  }

  lemma RecordKeepsAll(u: Setup, s: Scan, c: nat, x: Finding)
    requires c < |u.config| && AllTallied(u, s)
    ensures var r := RecordHit(u, s, c, x); AllTallied(u, r) && r == s.(tallies := r.tallies, log := r.log)
  {
    hide Tallied, RecordHit;
    RecordKeeps(u, s, c, x);
    RecordOnlyRecords(u, s, c, x);
  }

  /** Recording changes tallies and the log, and nothing else. */
  lemma RecordOnlyRecords(u: Setup, s: Scan, c: nat, x: Finding)
    requires c < |u.config| && |s.tallies| == |u.config|
    ensures var r := RecordHit(u, s, c, x); r == s.(tallies := r.tallies, log := r.log)
  {
    hide AddHit, Report, Filtered, Grazes;
  }

  lemma ObservedTallied(u: Setup, log: Log, y: Tally, c: nat, g: real, first: bool)
    requires c < |u.config| && Tallied(u, log, y, c) && (first ==> log.hits == [])
    ensures Tallied(u, log, Observe(y, g, first), c)
  {
  }

  lemma RememberedTallied(u: Setup, log: Log, y: Tally, c: nat, g: real)
    requires c < |u.config| && Tallied(u, log, y, c)
    ensures Tallied(u, log, y.(prevG := g, prevSign := Sign(g)), c)
  {
  }

  /** What a scan has reported is tallied, nothing is reported before the first sample, and at most
      `spent` evaluations were made. */
  ghost predicate Kept(u: Setup, s: Scan, spent: nat) {
    AllTallied(u, s) && Started(s) && Signed(s) && s.evaluations == spent
  }

  lemma ComponentKeeps(u: Setup, s: Scan, c: nat, t: real, spent: nat)
    requires Kept(u, s, spent) && c < |u.config|
    ensures Kept(u, ScanComponent(u, s, c, t), spent)
    ensures ScanComponent(u, s, c, t).havePrevious == s.havePrevious
  {
    hide Tallied, RecordCrossing, NextStep;
    if Scanned(u, c) {
      var g, y := G(u, c)(t), s.tallies[c];
      ObservedTallied(u, s.log, y, c, g, !s.havePrevious);
      var s' := s.(tallies := s.tallies[c := Observe(y, g, !s.havePrevious)]);
      var r := s';
      if s.havePrevious && Crosses(y.prevSign, Sign(g)) {
        CrossingKeeps(u, s', c, y.prevG, t, g);
        CrossingTakesNothing(u, s', c, y.prevG, t, g);
        r := RecordCrossing(u, s', c, y.prevG, t, g);
      }
      RememberedTallied(u, r.log, r.tallies[c], c, g);
      assert ScanComponent(u, s, c, t) == Remember(r, c, g);
    }
  }

  lemma {:induction false} ComponentsKeep(u: Setup, s: Scan, j: nat, t: real, spent: nat)
    requires Kept(u, s, spent) && j <= |u.config|
    ensures Kept(u, ScanComponents(u, s, j, t), spent)
    ensures ScanComponents(u, s, j, t).havePrevious == s.havePrevious
  {
    hide Tallied, ScanComponent;
    if j > 0 {
      ComponentsKeep(u, s, j - 1, t, spent);
      ComponentKeeps(u, ScanComponents(u, s, j - 1, t), j - 1, t, spent);
    }
  }

  lemma SampleKeeps(u: Setup, s: Scan, t: real, spent: nat)
    requires Kept(u, s, spent)
    ensures Kept(u, ScanSample(u, s, t), spent + 1)
  {
    hide Tallied, ScanComponents;
    var s' := s.(evaluations := s.evaluations + 1);
    assert Kept(u, s', spent + 1);
    ComponentsKeep(u, s', |u.config|, t, spent + 1);
  }

  lemma {:induction false} BatchKeeps(u: Setup, s: Scan, ts: seq<real>, spent: nat) returns (n: nat)
    requires Kept(u, s, spent)
    ensures n <= |ts| && Kept(u, ScanBatch(u, s, ts), spent + n)
    decreases |ts|
  {
    hide Tallied, ScanSample;
    n := 0;
    if |ts| > 0 {
      SampleKeeps(u, s, ts[0], spent);
      var s' := ScanSample(u, s, ts[0]);
      n := 1;
      if s'.log.phase != Done {
        var m := BatchKeeps(u, s', ts[1..], spent + 1);
        n := m + 1;
      }
    }
  }

  lemma ScanKeeps(u: Setup, s: Scan, spent: nat) returns (n: nat)
    requires Kept(u, s, spent)
    ensures n <= |s.outstanding| && Kept(u, SupplyScan(u, s), spent + n) && SupplyScan(u, s).outstanding == []
  {
    hide Tallied, ScanBatch;
    assert Kept(u, s.(outstanding := []), spent);
    n := BatchKeeps(u, s.(outstanding := []), s.outstanding, spent);
    BatchTakesNothing(u, s.(outstanding := []), s.outstanding);
    var r := ScanBatch(u, s.(outstanding := []), s.outstanding);
    DroppedKeeps(u, r, SupplyScan(u, s).log);
  }

  lemma {:induction false} BatchTakesNothing(u: Setup, s: Scan, ts: seq<real>)
    requires Fits(u, s) && Signed(s)
    ensures ScanBatch(u, s, ts).outstanding == s.outstanding
    decreases |ts|
  {
    hide ScanComponents;
    if |ts| > 0 {
      ComponentsTakeNothing(u, s.(evaluations := s.evaluations + 1), |u.config|, ts[0]);
      BatchTakesNothing(u, ScanSample(u, s, ts[0]), ts[1..]);
    }
  }

  lemma {:induction false} ComponentsTakeNothing(u: Setup, s: Scan, j: nat, t: real)
    requires Fits(u, s) && Signed(s) && j <= |u.config|
    ensures ScanComponents(u, s, j, t).outstanding == s.outstanding
  {
    if j > 0 {
      ComponentsTakeNothing(u, s, j - 1, t);
      ComponentTakesNothing(u, ScanComponents(u, s, j - 1, t), j - 1, t);
    }
  }

  lemma ComponentTakesNothing(u: Setup, s: Scan, c: nat, t: real)
    requires Fits(u, s) && Signed(s) && c < |u.config|
    ensures ScanComponent(u, s, c, t).outstanding == s.outstanding
  {
    hide RecordHit, NextStep;
    var g, y := G(u, c)(t), s.tallies[c];
    var s' := s.(tallies := s.tallies[c := Observe(y, g, !s.havePrevious)]);
    if Scanned(u, c) && s.havePrevious && Crosses(y.prevSign, Sign(g)) {
      CrossingTakesNothing(u, s', c, y.prevG, t, g);
    }
  }

  lemma CrossingTakesNothing(u: Setup, s: Scan, c: nat, gp: real, t: real, g: real)
    requires Fits(u, s) && c < |u.config| && gp != 0.0
    ensures var r := RecordCrossing(u, s, c, gp, t, g); r.outstanding == s.outstanding && r.evaluations == s.evaluations
  {
    hide RecordHit, NextStep;
    var direction := CrossingDirection(gp, g);
    RecordOnlyRecords(u, s, c, Finding(t, g, direction, Discontinuous, 0, 1));
    RecordOnlyRecords(u, s, c, Finding(t, g, direction, Converged, 0, 1));
    if Sign(g) != 0 {
      RecordOnlyRecords(u, s, c, BracketFinding(NextStep(OpenBracket(u, c, s.prevT, gp, t, g)).br));
    }
  }

  lemma EvaluatedTallied(u: Setup, log: Log, y: Tally, c: nat)
    requires c < |u.config| && Tallied(u, log, y, c)
    ensures Tallied(u, log, y.(evals := y.evals + 1), c)
  {
  }

  lemma RefineKeeps(u: Setup, s: Scan, spent: nat)
    requires Kept(u, s, spent) && RefineOk(u, s)
    ensures Kept(u, SupplyRefine(u, s), spent + 1) && SupplyRefine(u, s).outstanding == []
  {
    hide Tallied, RecordHit, NextStep, Supplied;
    var br := s.pending[0];
    var s' := Evaluated(s);
    EvaluatedTallied(u, s.log, s.tallies[br.component], br.component);
    assert AllTallied(u, s') && Signed(s');
    var st := ResumedStep(u, br);
    if !st.more {
      RecordKeepsAll(u, s', br.component, BracketFinding(st.br));
    }
    assert AllTallied(u, Resume(u, s)) && Signed(Resume(u, s));
    DroppedKeeps(u, Resume(u, s), SupplyRefine(u, s).log);
  }

  function ResumedStep(u: Setup, br: BracketState): Step
    requires br.fa != 0.0 && br.fc != 0.0
  {
    assert Supplied(br, G(u, br.component)).fa == br.fa && Supplied(br, G(u, br.component)).fc == br.fc;
    NextStep(Supplied(br, G(u, br.component)))
  }

  // ----- every run -----------------------------------------------------------------------------------

  /** What was asked for is counted as spent already. */
  ghost predicate InBudget(u: Setup, s: Scan) {
    u.interval.maxEvaluations != 0 ==> s.evaluations + |s.outstanding| < u.interval.maxEvaluations + SCAN_BATCH
  }

  ghost predicate Limited(u: Setup, s: Scan) {
    Kept(u, s, s.evaluations) && InBudget(u, s)
  }

  lemma FreshLimited(u: Setup)
    ensures Limited(u, Fresh(u))
  {
    hide Tallied;
    forall c: nat | c < |u.config|
      ensures Tallied(u, Fresh(u).log, Fresh(u).tallies[c], c)
    {
      NoHitsTallied(u, Fresh(u).log, Fresh(u).tallies[c], c);
    }
  }

  lemma NextLimited(u: Setup, s: Scan, capacity: nat)
    requires Limited(u, s)
    ensures Limited(u, Next(u, s, capacity).1)
  {
    hide Tallied;
    DroppedKeeps(u, s, Next(u, s, capacity).1.log);
  }

  lemma SupplyLimited(u: Setup, s: Scan)
    requires Limited(u, s) && Answerable(u, s)
    ensures Limited(u, Supply(u, s))
  {
    hide Tallied, SupplyScan, SupplyRefine, RefineOk;
    if s.log.phase == RefineWait {
      RefineKeeps(u, s, s.evaluations);
    } else {
      var _ := ScanKeeps(u, s, s.evaluations);
    }
  }

  lemma {:induction false} ReachableLimited(u: Setup, calls: seq<Call>)
    ensures Limited(u, After(u, calls))
  {
    hide Limited, Answerable, Supply, Next;
    if |calls| == 0 {
      FreshLimited(u);
    } else {
      var s, call := After(u, calls[..|calls| - 1]), calls[|calls| - 1];
      ReachableLimited(u, calls[..|calls| - 1]);
      if call.Ask? {
        NextLimited(u, s, call.capacity);
      } else if Answerable(u, s) {
        SupplyLimited(u, s);
      }
    }
  }

  /** An occurrence filter, of the component or of the interval, leaves at most one hit per
      component, and none before that many crossings have qualified. */
  lemma OccurrencesAreLimited(u: Setup, calls: seq<Call>, i: nat, j: nat)
    requires var hits := After(u, calls).log.hits;
      i <= j < |hits| && hits[i].component == hits[j].component && hits[i].component < |u.config|
    requires u.config[After(u, calls).log.hits[i].component].occurrence != 0 || u.interval.occurrence != 0
    ensures var s := After(u, calls);
      var c := s.log.hits[i].component;
      && i == j && c < |s.tallies|
      && s.tallies[c].qualifying >= u.config[c].occurrence && s.tallies[c].qualifying >= u.interval.occurrence
  {
    var s := After(u, calls);
    var hits, c := s.log.hits, s.log.hits[i].component;
    hide After, CountOf, Flagged;
    ReachableLimited(u, calls);
    assert Tallied(u, s.log, s.tallies[c], c);
    Counted(hits, i);
    if i < j {
      TwoCounted(hits, i, j);
    }
  }

  /** Unless something was dropped, the hits of a component are as many as its filters ask for: all its
      qualifying crossings, or the one of that number as soon as there are so many. */
  lemma OccurrencesAreReported(u: Setup, calls: seq<Call>, c: nat)
    requires c < |u.config| && Clean(u, After(u, calls).log)
    ensures var s := After(u, calls);
      && c < |s.tallies|
      && var count, n := CountOf(s.log.hits, c), s.tallies[c].qualifying;
        var a, b := u.config[c].occurrence, u.interval.occurrence;
        && (a == 0 && b == 0 ==> count == n)
        && (a != 0 && (b == 0 || b == a) ==> count == if n >= a then 1 else 0)
        && (a == 0 && b != 0 ==> count == if n >= b then 1 else 0)
        && (a != 0 && b != 0 && a != b ==> count == 0)
  {
    hide After, CountOf, Flagged;
    ReachableLimited(u, calls);
    var s := After(u, calls);
    assert Tallied(u, s.log, s.tallies[c], c);
  }

  /** A limit on evaluations is exceeded by less than one batch, and once it is reached the scan ends
      and says so. */
  lemma BudgetIsKept(u: Setup, calls: seq<Call>, capacity: nat)
    requires u.interval.maxEvaluations > 0
    ensures var s := After(u, calls);
      && s.evaluations < u.interval.maxEvaluations + 64
      && (s.evaluations >= u.interval.maxEvaluations && s.outstanding == [] ==>
            var (answer, r) := Next(u, s, capacity);
            answer == Epochs(0) && r.log.truncated && r.log.phase == Done && r.log.hits == s.log.hits)
  {
    hide After, Kept;
    ReachableLimited(u, calls);
  }

  /** A request for samples is as large as the samples left, a batch of 64 and the caller's buffer allow,
      and asks for the next samples in order; a queued refinement goes first and asks for one epoch. */
  lemma RequestIsFull(u: Setup, s: Scan, capacity: nat)
    requires s.outstanding == [] && s.log.phase != Done && s.nextSample < u.sampleCount && capacity > 0
    requires u.interval.maxEvaluations == 0 || s.evaluations < u.interval.maxEvaluations
    ensures var (answer, r) := Next(u, s, capacity);
      && answer.Epochs? && |r.outstanding| == answer.count
      && (s.pending != [] ==> answer.count == 1 && r.outstanding[0] == s.pending[0].b && r.log.phase == RefineWait)
      && (s.pending == [] ==>
            && r.log.phase == ScanWait
            && answer.count <= u.sampleCount - s.nextSample && answer.count <= 64 && answer.count <= capacity
            && answer.count in {u.sampleCount - s.nextSample, 64, capacity}
            && forall i: nat :: i < answer.count ==> r.outstanding[i] == SampleTime(u, s.nextSample + i))
  {
    hide SampleTime;
  }

  /** A batch that was answered leaves the scan over if no sample and nothing queued is left, or the list is
      full, and otherwise waiting. */
  lemma AnswerEndsScan(u: Setup, s: Scan)
    requires Fits(u, s) && Signed(s)
    ensures var r := SupplyScan(u, s);
      && r.nextSample == s.nextSample + |s.outstanding|
      && (r.nextSample >= u.sampleCount && r.pending == [] ==> r.log.phase == Done)
      && (r.log.phase == Done || r.log.phase == ScanWait)
  {
    hide ScanBatch;
  }

  /** A hit flagged TANGENTIAL has a value of the sign its component began with; and while a
      component has crossed once only, every such hit is flagged. */
  lemma TangentialMeans(u: Setup, calls: seq<Call>, i: nat)
    requires i < |After(u, calls).log.hits| && After(u, calls).log.hits[i].component < |u.config|
    ensures var s := After(u, calls);
      var h := s.log.hits[i];
      && h.component < |s.tallies|
      && var y := s.tallies[h.component];
        && (h.tangential ==> y.firstSign != 0 && Sign(h.value) == y.firstSign)
        && (y.crossings == 1 ==> (h.tangential <==> y.firstSign != 0 && Sign(h.value) == y.firstSign))
  {
    var s := After(u, calls);
    var h := s.log.hits[i];
    hide After, CountOf;
    ReachableLimited(u, calls);
    assert Tallied(u, s.log, s.tallies[h.component], h.component);
    assert h in s.log.hits;
  }
}
