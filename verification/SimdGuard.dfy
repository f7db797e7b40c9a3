/** The SIMD policy resting on the scanner and on what a module declares of itself. */
module SimdGuard {
  import opened Options
  import opened Fields
  import opened Leb128
  import opened WasmModule
  import opened CodeScan
  import opened CodeLoops
  import opened TargetFeatures

  const CODE_SECTION: Byte := 10

  const SIMD128: Bytes := [0x73, 0x69, 0x6d, 0x64, 0x31, 0x32, 0x38]
  const RELAXED_SIMD: Bytes := [0x72, 0x65, 0x6c, 0x61, 0x78, 0x65, 0x64, 0x2d, 0x73, 0x69, 0x6d, 0x64]
  const DISALLOWED: Byte := 0x2d

  datatype Analysis = Analysis(
    declared: Option<bool>,
    declaredRelaxed: Option<bool>,
    simd: nat,
    relaxed: nat,
    undecodable: nat)

  datatype Failure = UsesRelaxedSimd | HasUndecodable | FlagDidNotReach

  datatype Verdict = Unparseable | Refused(failures: seq<Failure>) | Admitted(analysis: Analysis, undeclared: bool)

  /** The first code section, or the number of sections. */
  function CodeAt(xs: seq<Section>): (r: nat)
    ensures r <= |xs| && (r < |xs| ==> xs[r].id == CODE_SECTION)
  {
    if |xs| == 0 || xs[0].id == CODE_SECTION then 0 else 1 + CodeAt(xs[1..])
  }

  function ScanModule(xs: seq<Section>): Totals {
    if CodeAt(xs) == |xs| then Totals(NO_COUNTS, 0) else ScanPayload(xs[CodeAt(xs)].payload)
  }

  /** Whether a feature is listed with any prefix but "-", if features are listed at all. */
  function Declares(features: Option<seq<Feature>>, name: Bytes): Option<bool> {
    match features
    case None => None
    case Some(fs) => Some(exists i: nat :: i < |fs| && fs[i].name == name && fs[i].prefix != DISALLOWED)
  }

  function Analyze(xs: seq<Section>): Analysis {
    var totals, features := ScanModule(xs), FeaturesOf(xs);
    Analysis(Declares(features, SIMD128), Declares(features, RELAXED_SIMD),
             totals.counts.simd, totals.counts.relaxedSimd, totals.undecodable)
  }

  method ScanSections(xs: seq<Section>) returns (totals: Totals)
    ensures totals == ScanModule(xs)
  {
    hide ScanPayload;
    var at := CodeAt(xs);
    if at == |xs| {
      return Totals(NO_COUNTS, 0);
    }
    var payload := xs[at].payload;
    totals := ScanCode(payload, 0, |payload|);
    assert payload[0..|payload|] == payload;
  }

  method FindFeatures(xs: seq<Section>) returns (features: Option<seq<Feature>>)
    ensures features == FeaturesOf(xs)
  {
    hide FeaturesIn;
    var at := FeatureSectionAt(xs);
    if at == |xs| {
      return None;
    }
    features := ReadFeatures(CustomOf(xs[at].payload).value.data);
  }

  /** When each objection is raised. */
  ghost predicate Objects(a: Analysis, optedIn: bool, x: Failure) {
    match x
    case UsesRelaxedSimd => a.relaxed > 0 || a.declaredRelaxed == Some(true)
    case HasUndecodable => a.undecodable > 0
    case FlagDidNotReach => optedIn && a.declared == Some(false)
  }

  /** Hold an artifact's SIMD use to the build's declaration, collecting every objection. */
  method AssertSimdArtifact(bytes: Bytes, optedIn: bool) returns (v: Verdict)
    ensures v.Unparseable? <==> ParseModule(bytes) == None
    ensures v.Admitted? <==> Admissible(bytes, optedIn)
    ensures v.Admitted? ==> v.analysis == Analyze(ParseModule(bytes).value)
    ensures v.Admitted? ==> (v.undeclared <==> !optedIn && (v.analysis.simd > 0 || v.analysis.declared == Some(true)))
    ensures v.Refused? ==> forall x :: x in v.failures <==> Objects(Analyze(ParseModule(bytes).value), optedIn, x)
    ensures v.Refused? ==> v.failures != []
    ensures v.Refused? ==> forall i: nat, j: nat :: i < j < |v.failures| ==> v.failures[i] != v.failures[j]
  {
    hide ParseModule, ScanModule, FeaturesOf, Declares;
    var sections := ParseLoop(bytes);
    if sections == None {
      return Unparseable;
    }
    var totals := ScanSections(sections.value);
    var features := FindFeatures(sections.value);
    var analysis := Analysis(Declares(features, SIMD128), Declares(features, RELAXED_SIMD),
                             totals.counts.simd, totals.counts.relaxedSimd, totals.undecodable);
    var failures: seq<Failure> := [];
    if analysis.relaxed > 0 || analysis.declaredRelaxed == Some(true) {
      failures := failures + [UsesRelaxedSimd];
    }
    if analysis.undecodable > 0 {
      failures := failures + [HasUndecodable];
    }
    if optedIn && analysis.declared == Some(false) {
      failures := failures + [FlagDidNotReach];
    }
    if |failures| > 0 {
      return Refused(failures);
    }
    return Admitted(analysis, !optedIn && (analysis.simd > 0 || analysis.declared == Some(true)));
  }

  predicate Admissible(bytes: Bytes, optedIn: bool) {
    && ParseModule(bytes).Some?
    && var a := Analyze(ParseModule(bytes).value);
      && a.relaxed == 0 && a.declaredRelaxed != Some(true) && a.undecodable == 0
      && !(optedIn && a.declared == Some(false))
  }

  // ----- what admission means -------------------------------------------------------------------------------

  /** The payload of a code section whose declared bodies are `fs`. */
  ghost predicate Holds(payload: Bytes, fs: seq<Function>) {
    exists count: Bytes, rest: Bytes ::
      && AreLebs(count, 1) && ValueOf(count) == |fs| && ValidFunctions(fs)
      && payload == count + (PrintFunctions(fs) + rest)
  }

  ghost predicate NoRelaxed(xs: seq<Instruction>) {
    forall i: nat :: i < |xs| ==> ClassIn(xs[i]) != RelaxedSimd
  }

  /** Every declared body decodes, and none holds a relaxed-SIMD instruction. */
  ghost predicate FixedWidthOnly(xs: seq<Section>) {
    CodeAt(xs) < |xs| ==>
      exists fs: seq<Function> ::
        Holds(xs[CodeAt(xs)].payload, fs) && forall i: nat :: i < |fs| ==> NoRelaxed(fs[i].body.code)
  }

  lemma CleanScanIsFixedWidth(xs: seq<Section>)
    requires ScanModule(xs).undecodable == 0 && ScanModule(xs).counts.relaxedSimd == 0
    ensures FixedWidthOnly(xs)
  {
    if CodeAt(xs) < |xs| {
      hide ScanPayload, PrintFunctions, ValidFunctions, AreLebs, ValueOf, Total;
      var count, fs, rest := PayloadDecodes(xs[CodeAt(xs)].payload);
      assert Holds(xs[CodeAt(xs)].payload, fs);
      forall i: nat | i < |fs|
        ensures NoRelaxed(fs[i].body.code)
      {
        NoRelaxedTotal(fs, i);
        NoneCounted(fs[i].body.code, RelaxedSimd);
      }
    }
  }

  lemma {:induction false} RelaxedTotal(fs: seq<Function>)
    requires forall i: nat :: i < |fs| ==> NoRelaxed(fs[i].body.code)
    ensures Total(fs).relaxedSimd == 0
  {
    hide NoRelaxed, Count;
    if |fs| > 0 {
      RelaxedTotal(fs[1..]);
      assert Count(fs[0].body.code, RelaxedSimd) == 0 by { NoneIn(fs[0].body.code); }
    }
  }

  lemma NoneIn(xs: seq<Instruction>)
    requires NoRelaxed(xs)
    ensures Count(xs, RelaxedSimd) == 0
  {
    NoneCounted(xs, RelaxedSimd);
  }

  lemma FixedWidthScansClean(xs: seq<Section>)
    requires FixedWidthOnly(xs)
    ensures ScanModule(xs).undecodable == 0 && ScanModule(xs).counts.relaxedSimd == 0
  {
    if CodeAt(xs) < |xs| {
      hide ScanPayload, PrintFunctions, ValidFunctions, AreLebs, ValueOf, Total, NoRelaxed;
      var payload := xs[CodeAt(xs)].payload;
      var fs: seq<Function> :| Holds(payload, fs) && forall i: nat :: i < |fs| ==> NoRelaxed(fs[i].body.code);
      var count: Bytes, rest: Bytes :| AreLebs(count, 1) && ValueOf(count) == |fs| && ValidFunctions(fs)
        && payload == count + (PrintFunctions(fs) + rest);
      DecodedPayload(count, fs, rest);
      RelaxedTotal(fs);
    }
  }

  /** An artifact is admitted if and only if it parses, every declared body is a valid body
      without relaxed SIMD, relaxed SIMD is not declared either, and a build that asked for
      SIMD finds it declared (or finds no declarations at all). */
  lemma AdmittedExactly(bytes: Bytes, optedIn: bool)
    ensures Admissible(bytes, optedIn) <==>
      && ParseModule(bytes).Some? && FixedWidthOnly(ParseModule(bytes).value)
      && Declares(FeaturesOf(ParseModule(bytes).value), RELAXED_SIMD) != Some(true)
      && !(optedIn && Declares(FeaturesOf(ParseModule(bytes).value), SIMD128) == Some(false))
  {
    hide ParseModule, ScanModule, FixedWidthOnly, Declares, FeaturesOf;
    if ParseModule(bytes).Some? {
      var xs := ParseModule(bytes).value;
      if FixedWidthOnly(xs) {
        FixedWidthScansClean(xs);
      } else if ScanModule(xs).undecodable == 0 && ScanModule(xs).counts.relaxedSimd == 0 {
        CleanScanIsFixedWidth(xs);
      }
    }
  }
}
