/** The opcode table on its numbers, and what admission of an artifact excludes, instruction by
    instruction. */
module CodeTable {
  import opened Options
  import opened Fields
  import opened Leb128
  import opened WasmModule
  import opened CodeGrammar
  import opened CodeScan
  import opened TargetFeatures
  import opened SimdGuard

  // ----- by number --------------------------------------------------------------------------------------

  /** Threads behind 0xfe; SIMD behind 0xfd, fixed-width below 0x100 and relaxed from there on; try, catch,
      throw, rethrow, throw_ref, delegate, catch_all and try_table. */
  lemma ClassesByNumber(op: Byte, sub: nat)
    ensures ClassOf(op, sub) == Atomic <==> op == 0xfe
    ensures ClassOf(op, sub) == Simd <==> op == 0xfd && sub < 0x100
    ensures ClassOf(op, sub) == RelaxedSimd <==> op == 0xfd && sub >= 0x100
    ensures ClassOf(op, sub) == ExceptionHandling <==> op in {0x06, 0x07, 0x08, 0x09, 0x0a, 0x18, 0x19, 0x1f}
  {
  }

  /** block, loop, if, try and try_table open a block; end and delegate close one. */
  lemma NestingByNumber(op: Byte)
    ensures Nesting(op) == 1 <==> op in {0x02, 0x03, 0x04, 0x06, 0x1f}
    ensures Nesting(op) == -1 <==> op in {0x0b, 0x18}
    ensures -1 <= Nesting(op) <= 1
  {
  }

  /** What the opcodes without a prefix carry: nothing; one index or constant; a type and a table; a
      branch table; a list of types; catch clauses; four or eight bytes; a memory argument. */
  lemma ShapesByNumber(op: Byte, sub: nat)
    requires op < 0xfc
    ensures ShapeOf(op, sub) == Some(Plain(0)) <==>
      op in {0, 1, 5, 10, 11, 15, 25, 26, 27, 209, 211, 212} || 69 <= op < 197
    ensures ShapeOf(op, sub) == Some(Plain(1)) <==>
      || op in {2, 3, 4, 6, 7, 8, 9, 12, 13, 16, 18, 20, 21, 24}
      || 32 <= op < 39 || 63 <= op < 67 || op in {208, 210, 213, 214}
    ensures ShapeOf(op, sub) == Some(Plain(2)) <==> op == 17 || op == 19
    ensures ShapeOf(op, sub) == Some(Branches) <==> op == 14
    ensures ShapeOf(op, sub) == Some(Types) <==> op == 28
    ensures ShapeOf(op, sub) == Some(Catches) <==> op == 31
    ensures ShapeOf(op, sub) == Some(Fixed(4)) <==> op == 67
    ensures ShapeOf(op, sub) == Some(Fixed(8)) <==> op == 68
    ensures ShapeOf(op, sub) == Some(Memory(0)) <==> 40 <= op < 63
    ensures ShapeOf(op, sub) == None <==>
      op in {22, 23, 29, 30, 39, 215} || 197 <= op < 208 || 216 <= op
  {
  }

  /** The prefixes: bulk operations, SIMD and threads, where only the fence carries a byte. */
  lemma PrefixesByNumber(op: Byte, sub: nat)
    ensures Prefixed(op) <==> op in {0xfc, 0xfd, 0xfe}
    ensures ShapeOf(0xfc, sub) == BulkShape(sub) && ShapeOf(0xfd, sub) == Some(SimdShape(sub))
    ensures ShapeOf(0xfe, sub) == Some(if sub == 3 then Fixed(1) else Memory(0)) && ShapeOf(0xff, sub) == None
  {
  }

  /** Saturating truncation and wide arithmetic carry nothing; memory.init, memory.copy, table.init and
      table.copy two indices; data.drop, memory.fill, elem.drop, table.grow, table.size and table.fill
      one; anything else is unknown. */
  lemma BulkByNumber(sub: nat)
    ensures BulkShape(sub) == Some(Plain(0)) <==> sub in {0, 1, 2, 3, 4, 5, 6, 7, 19, 20, 21, 22}
    ensures BulkShape(sub) == Some(Plain(2)) <==> sub in {8, 10, 12, 14}
    ensures BulkShape(sub) == Some(Plain(1)) <==> sub in {9, 11, 13, 15, 16, 17}
    ensures BulkShape(sub).Some? ==> BulkShape(sub).value.Plain? && BulkShape(sub).value.n <= 2
  {
  }

  /** Loads, stores and zero-extending loads carry a memory argument, lane loads and stores a lane byte
      behind it; constants and shuffles sixteen bytes; lane access one; everything else nothing. */
  lemma SimdByNumber(sub: nat)
    ensures SimdShape(sub) == Memory(0) <==> sub < 12 || sub == 92 || sub == 93
    ensures SimdShape(sub) == Memory(1) <==> 84 <= sub < 92
    ensures SimdShape(sub) == Fixed(16) <==> sub == 12 || sub == 13
    ensures SimdShape(sub) == Fixed(1) <==> 21 <= sub < 35
    ensures SimdShape(sub) == Plain(0) <==> sub in {14, 15, 16, 17, 18, 19, 20} || 35 <= sub < 84 || 94 <= sub
  {
  }

  /** Catch clauses with and without a reference: a tag and a label, or a label alone. */
  lemma ClausesByNumber(kind: Byte)
    ensures ClauseFields(kind) == Some(2) <==> kind in {0, 1}
    ensures ClauseFields(kind) == Some(1) <==> kind in {2, 3}
    ensures ClauseFields(kind) == None <==> kind > 3
  {
  }

  /** Bit 6 of a memory argument's alignment announces a memory index in front of the offset. */
  lemma MemArgByNumber(align: Bytes)
    ensures MemFields(align) == if ValueOf(align) % 128 < 64 then 1 else 2
  {
    hide ValueOf;
    var v := ValueOf(align);
    assert v == 128 * (v / 128) + v % 128;
    assert v / 64 == 2 * (v / 128) + v % 128 / 64;
  }

  // ----- counting bodies --------------------------------------------------------------------------------

  /** A declared body as bytes behind their size. */
  datatype Declared = Declared(size: Bytes, bytes: Bytes)

  ghost predicate SizedRight(d: Declared) {
    AreLebs(d.size, 1) && ValueOf(d.size) == |d.bytes|
  }

  function PrintDeclared(ds: seq<Declared>): Bytes {
    if |ds| == 0 then [] else ds[0].size + (ds[0].bytes + PrintDeclared(ds[1..]))
  }

  /** Some valid body is spelled so. */
  ghost predicate IsBody(x: Bytes) {
    exists b: Body :: ValidBody(b) && PrintBody(b) == x
  }

  ghost function Undecodable(ds: seq<Declared>): nat {
    if |ds| == 0 then 0 else (if IsBody(ds[0].bytes) then 0 else 1) + Undecodable(ds[1..])
  }

  lemma ScansAreBodies(x: Bytes)
    ensures ScanBody(x).Some? <==> IsBody(x)
  {
    hide ScanBody, ValidBody, PrintBody;
    if ScanBody(x).Some? {
      var b := ScannedBodyIsValid(x);
    }
    if IsBody(x) {
      var b: Body :| ValidBody(b) && PrintBody(b) == x;
      ValidBodyScans(b);
    }
  }

  lemma OneDeclared(d: Declared, t: Bytes, n: nat, totals: Totals)
    requires SizedRight(d) && n > 0 && d.size != []
    ensures ScanBodies(d.size + (d.bytes + t), n, totals) == ScanBodies(t, n - 1, AddBody(totals, ScanBody(d.bytes)))
  {
    hide TakeLebs, AreLebs, ValueOf, ScanBody, AddBody;
    LebsAreTaken(d.size, 1, d.bytes + t);
    assert (d.bytes + t)[..|d.bytes|] == d.bytes && (d.bytes + t)[|d.bytes|..] == t;
  }

  lemma SizeIsThere(x: Bytes)
    requires AreLebs(x, 1)
    ensures x != []
  {
  }

  /** The totals once these bodies are scanned. */
  function Gathered(ds: seq<Declared>, totals: Totals): Totals
    decreases |ds|
  {
    if |ds| == 0 then totals else Gathered(ds[1..], AddBody(totals, ScanBody(ds[0].bytes)))
  }

  lemma {:induction false} UndecodableAreCounted(ds: seq<Declared>, totals: Totals)
    ensures Gathered(ds, totals).undecodable == totals.undecodable + Undecodable(ds)
    decreases |ds|
  {
    hide IsBody, ScanBody;
    if |ds| > 0 {
      ScansAreBodies(ds[0].bytes);
      UndecodableAreCounted(ds[1..], AddBody(totals, ScanBody(ds[0].bytes)));
    }
  }

  lemma {:induction false} DeclaredAreScanned(ds: seq<Declared>, rest: Bytes, n: nat, totals: Totals)
    requires |ds| <= n && forall i: nat :: i < |ds| ==> SizedRight(ds[i])
    ensures ScanBodies(PrintDeclared(ds) + rest, n, totals) == ScanBodies(rest, n - |ds|, Gathered(ds, totals))
    decreases |ds|
  {
    hide SizedRight, ScanBodies, ScanBody, AddBody;
    if |ds| == 0 {
      assert PrintDeclared(ds) + rest == rest;
    } else {
      var tail := PrintDeclared(ds[1..]) + rest;
      assert PrintDeclared(ds) + rest == ds[0].size + (ds[0].bytes + tail);
      SizedSizeIsThere(ds[0]);
      OneDeclared(ds[0], tail, n, totals);
      DeclaredAreScanned(ds[1..], rest, n - 1, AddBody(totals, ScanBody(ds[0].bytes)));
    }
  }

  /** Of the declared bodies, when all are there, as many count as undecodable as are spelled like no
      valid body. */
  lemma DeclaredAreCounted(count: Bytes, ds: seq<Declared>, rest: Bytes)
    requires AreLebs(count, 1) && ValueOf(count) == |ds| && forall i: nat :: i < |ds| ==> SizedRight(ds[i])
    ensures ScanPayload(count + (PrintDeclared(ds) + rest)).undecodable == Undecodable(ds)
  {
    hide SizedRight, ScanBody, AddBody, AreLebs, ValueOf, TakeLebs;
    var none := Totals(NO_COUNTS, 0);
    LebsAreTaken(count, 1, PrintDeclared(ds) + rest);
    DeclaredAreScanned(ds, rest, |ds|, none);
    UndecodableAreCounted(ds, none);
    assert ScanBodies(rest, 0, Gathered(ds, none)) == Gathered(ds, none);
  }

  lemma SizedSizeIsThere(d: Declared)
    requires SizedRight(d)
    ensures d.size != []
  {
    hide ValueOf;
    SizeIsThere(d.size);
  }

  /** Bodies that are not there: all of them, if nothing is left or a size runs past the end; one, if a size
      or the count itself cannot be read. */
  lemma MissingAreCounted(s: Bytes, n: nat, totals: Totals)
    requires n > 0
    ensures s == [] ==> ScanBodies(s, n, totals).undecodable == totals.undecodable + n
    ensures s != [] && TakeLebs(s, 1) == None ==> ScanBodies(s, n, totals).undecodable == totals.undecodable + 1
    ensures s != [] && TakeLebs(s, 1).Some? && ValueOf(TakeLebs(s, 1).value.raw) > |TakeLebs(s, 1).value.rest| ==>
      ScanBodies(s, n, totals).undecodable == totals.undecodable + n
    ensures TakeLebs(s, 1) == None ==> ScanPayload(s).undecodable == 1
  {
    hide TakeLebs, ValueOf, ScanBody;
  }

  // ----- admission --------------------------------------------------------------------------------------

  /** The first code section, by number. */
  ghost predicate FirstCodeAt(xs: seq<Section>, k: nat) {
    k < |xs| && xs[k].id == 10 && forall j: nat :: j < k ==> xs[j].id != 10
  }

  lemma {:induction false} CodeAtFinds(xs: seq<Section>, k: nat)
    requires FirstCodeAt(xs, k)
    ensures CodeAt(xs) == k
  {
    if k > 0 {
      CodeAtFinds(xs[1..], k - 1);
    }
  }

  /** What the analysis of a module reports of its instructions, when every declared body is valid: how
      many are fixed-width and how many relaxed SIMD, and that none was undecodable. */
  lemma AnalysisCounts(xs: seq<Section>, k: nat, count: Bytes, fs: seq<Function>, rest: Bytes)
    requires FirstCodeAt(xs, k) && AreLebs(count, 1) && ValueOf(count) == |fs| && ValidFunctions(fs)
    requires xs[k].payload == count + (PrintFunctions(fs) + rest)
    ensures Analyze(xs).simd == Total(fs).simd && Analyze(xs).relaxed == Total(fs).relaxedSimd
    ensures Analyze(xs).undecodable == 0
  {
    hide AreLebs, ValueOf, ValidFunctions, PrintFunctions, ScanPayload, Total, FeaturesOf, Declares;
    CodeAtFinds(xs, k);
    DecodedPayload(count, fs, rest);
  }

  /** And when bodies are there but not all valid, how many are not. */
  lemma AnalysisFindsUndecodable(xs: seq<Section>, k: nat, count: Bytes, ds: seq<Declared>, rest: Bytes)
    requires FirstCodeAt(xs, k) && AreLebs(count, 1) && ValueOf(count) == |ds|
    requires forall i: nat :: i < |ds| ==> SizedRight(ds[i])
    requires xs[k].payload == count + (PrintDeclared(ds) + rest)
    ensures Analyze(xs).undecodable == Undecodable(ds)
  {
    hide AreLebs, ValueOf, SizedRight, PrintDeclared, ScanPayload, FeaturesOf, Declares, Undecodable;
    CodeAtFinds(xs, k);
    DeclaredAreCounted(count, ds, rest);
  }

  /** The list holds the name, and not as a disallowed feature. */
  ghost predicate Lists(fs: seq<Feature>, name: Bytes) {
    exists i: nat :: i < |fs| && fs[i].name == name && fs[i].prefix != 0x2d
  }

  /** Admission, with the declarations spelled out: whatever features can be read do not list
      "relaxed-simd", and list "simd128" if the build asked for it. */
  lemma AdmittedByFeatures(bytes: Bytes, optedIn: bool)
    ensures Admissible(bytes, optedIn) <==>
      && ParseModule(bytes).Some? && FixedWidthOnly(ParseModule(bytes).value)
      && var features := FeaturesOf(ParseModule(bytes).value);
        features.Some? ==> !Lists(features.value, RELAXED_SIMD) && (optedIn ==> Lists(features.value, SIMD128))
  {
    hide ParseModule, FixedWidthOnly, FeaturesOf, Admissible;
    AdmittedExactly(bytes, optedIn);
  }

  /** In an admitted artifact every body of the code section decodes, and none of them holds an
      instruction 0xfd with a sub-opcode of 0x100 or above. */
  lemma AdmittedHasNoRelaxed(bytes: Bytes, optedIn: bool, k: nat) returns (fs: seq<Function>)
    requires Admissible(bytes, optedIn) && FirstCodeAt(ParseModule(bytes).value, k)
    ensures Holds(ParseModule(bytes).value[k].payload, fs)
    ensures forall i: nat, j: nat :: i < |fs| && j < |fs[i].body.code| ==>
      !(fs[i].body.code[j].op == 0xfd && ValueOf(fs[i].body.code[j].sub) >= 0x100)
  {
    var xs := ParseModule(bytes).value;
    hide ParseModule, Holds, ValueOf, Admissible;
    AdmittedExactly(bytes, optedIn);
    CodeAtFinds(xs, k);
    fs :| Holds(xs[k].payload, fs) && forall i: nat :: i < |fs| ==> NoRelaxed(fs[i].body.code);
    forall i: nat, j: nat | i < |fs| && j < |fs[i].body.code|
      ensures !(fs[i].body.code[j].op == 0xfd && ValueOf(fs[i].body.code[j].sub) >= 0x100)
    {
      assert NoRelaxed(fs[i].body.code);
      ClassesByNumber(fs[i].body.code[j].op, ValueOf(fs[i].body.code[j].sub));
    }
  }
}
