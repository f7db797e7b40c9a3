/** The instruction scanner behind the SIMD guard: what each opcode carries, how it nests, and
    what it counts as; a body scans exactly when it is a sequence of instruction encodings that
    closes its block at the last byte, and the counts are the instructions it holds. */
module CodeScan {
  import opened Options
  import opened Fields
  import opened Leb128
  import opened Sequences
  import opened CodeGrammar

  // ----- the opcode table --------------------------------------------------------------------------------

  datatype Class = Atomic | Simd | RelaxedSimd | ExceptionHandling | Other

  const FIXED_WIDTH_SIMD_LIMIT: nat := 0x100

  /** Opcodes followed by a sub-opcode. */
  predicate Prefixed(op: Byte) {
    op == 0xfc || op == 0xfd || op == 0xfe
  }

  /** Bulk memory, saturating truncation, tables, wide arithmetic. */
  function BulkShape(sub: nat): Option<Shape> {
    if sub <= 7 || 19 <= sub <= 22 then Some(Plain(0))
    else if sub == 8 || sub == 10 || sub == 12 || sub == 14 then Some(Plain(2))
    else if sub == 9 || sub == 11 || sub == 13 || 15 <= sub <= 17 then Some(Plain(1))
    else None
  }

  function SimdShape(sub: nat): Shape {
    if sub <= 0x0b || sub == 0x5c || sub == 0x5d then Memory(0)
    else if sub == 0x0c || sub == 0x0d then Fixed(16)
    else if 0x15 <= sub <= 0x22 then Fixed(1)
    else if 0x54 <= sub <= 0x5b then Memory(1)
    else Plain(0)
  }

  /** What follows an opcode; nothing is known of reserved opcodes and of the GC prefix. */
  function ShapeOf(op: Byte, sub: nat): Option<Shape> {
    if op == 0xfc then BulkShape(sub)
    else if op == 0xfd then Some(SimdShape(sub))
    else if op == 0xfe then Some(if sub == 0x03 then Fixed(1) else Memory(0))
    else if op in {0x00, 0x01, 0x05, 0x0a, 0x0b, 0x0f, 0x19, 0x1a, 0x1b, 0xd1, 0xd3, 0xd4} || 0x45 <= op <= 0xc4 then
      Some(Plain(0))
    else if op in {0x02, 0x03, 0x04, 0x06, 0x07, 0x08, 0x09, 0x0c, 0x0d, 0x10, 0x12, 0x14, 0x15, 0x18} then
      Some(Plain(1))
    else if 0x20 <= op <= 0x26 || 0x3f <= op <= 0x42 || op in {0xd0, 0xd2, 0xd5, 0xd6} then Some(Plain(1))
    else if op == 0x11 || op == 0x13 then Some(Plain(2))
    else if op == 0x0e then Some(Branches)
    else if op == 0x1c then Some(Types)
    else if op == 0x1f then Some(Catches)
    else if op == 0x43 then Some(Fixed(4))
    else if op == 0x44 then Some(Fixed(8))
    else if 0x28 <= op <= 0x3e then Some(Memory(0))
    else None
  }

  /** Blocks opened less blocks closed. */
  function Nesting(op: Byte): int {
    if op in {0x02, 0x03, 0x04, 0x06, 0x1f} then 1
    else if op == 0x0b || op == 0x18 then -1
    else 0
  }

  function ClassOf(op: Byte, sub: nat): Class {
    if op == 0xfe then Atomic
    else if op == 0xfd then if sub >= FIXED_WIDTH_SIMD_LIMIT then RelaxedSimd else Simd
    else if op in {0x06, 0x07, 0x08, 0x09, 0x0a, 0x18, 0x19, 0x1f} then ExceptionHandling
    else Other
  }

  // ----- instructions -----------------------------------------------------------------------------------

  datatype Instruction = Instruction(op: Byte, sub: Bytes, imm: Immediate)

  function PrintInstruction(x: Instruction): (r: Bytes)
    ensures |r| > 0
  {
    [x.op] + (x.sub + PrintImmediate(x.imm))
  }

  ghost predicate ValidInstruction(x: Instruction) {
    && (if Prefixed(x.op) then AreLebs(x.sub, 1) else x.sub == [])
    && ShapeOf(x.op, ValueOf(x.sub)).Some? && Fits(ShapeOf(x.op, ValueOf(x.sub)).value, x.imm)
  }

  function ClassIn(x: Instruction): Class {
    ClassOf(x.op, ValueOf(x.sub))
  }

  datatype TakenInstruction = TakenInstruction(instruction: Instruction, rest: Bytes)

  function TakeSub(op: Byte, s: Bytes): (r: Option<Taken>)
    ensures r.Some? ==> r.value.raw + r.value.rest == s
  {
    if Prefixed(op) then TakeLebs(s, 1)
    else
      assert [] + s == s;
      Some(Taken([], s))
  }

  function TakeInstruction(s: Bytes): Option<TakenInstruction> {
    if |s| == 0 then None
    else
      match TakeSub(s[0], s[1..])
      case None => None
      case Some(sub) =>
        match ShapeOf(s[0], ValueOf(sub.raw))
        case None => None
        case Some(shape) =>
          match TakeImmediate(shape, sub.rest)
          case None => None
          case Some(t) => Some(TakenInstruction(Instruction(s[0], sub.raw, t.imm), t.rest))
  }

  lemma TakenInstructionIsValid(s: Bytes)
    requires TakeInstruction(s).Some?
    ensures var t := TakeInstruction(s).value;
      ValidInstruction(t.instruction) && PrintInstruction(t.instruction) + t.rest == s && |t.rest| < |s|
  {
    hide TakeLebs, ValueOf, ShapeOf, TakeImmediate, Fits, PrintImmediate, AreLebs;
    var sub := TakeSub(s[0], s[1..]).value;
    if Prefixed(s[0]) {
      TakenAreLebs(s[1..], 1);
    }
    var shape := ShapeOf(s[0], ValueOf(sub.raw)).value;
    TakenImmediateFits(shape, sub.rest);
    var t := TakeImmediate(shape, sub.rest).value;
    Assoc(sub.raw, PrintImmediate(t.imm), t.rest);
    Assoc([s[0]], sub.raw + PrintImmediate(t.imm), t.rest);
    assert s == [s[0]] + s[1..];
  }

  lemma ValidInstructionIsTaken(x: Instruction, u: Bytes)
    requires ValidInstruction(x)
    ensures TakeInstruction(PrintInstruction(x) + u) == Some(TakenInstruction(x, u))
  {
    hide TakeLebs, ValueOf, ShapeOf, TakeImmediate, Fits, PrintImmediate, AreLebs;
    var tail := PrintImmediate(x.imm) + u;
    Assoc(x.sub, PrintImmediate(x.imm), u);
    Assoc([x.op], x.sub + PrintImmediate(x.imm), u);
    assert ([x.op] + (x.sub + tail))[1..] == x.sub + tail;
    if Prefixed(x.op) {
      LebsAreTaken(x.sub, 1, tail);
    } else {
      assert [] + tail == tail;
    }
    ImmediateIsTaken(ShapeOf(x.op, ValueOf(x.sub)).value, x.imm, u);
  }

  // ----- code -------------------------------------------------------------------------------------------

  function PrintCode(xs: seq<Instruction>): Bytes {
    if |xs| == 0 then [] else PrintInstruction(xs[0]) + PrintCode(xs[1..])
  }

  ghost predicate ValidCode(xs: seq<Instruction>) {
    forall i: nat :: i < |xs| ==> ValidInstruction(xs[i])
  }

  /** Block depth before instruction `k`; the function body is itself a block. */
  function Depth(xs: seq<Instruction>, k: nat): int
    requires k <= |xs|
  {
    if k == 0 then 1 else Depth(xs, k - 1) + Nesting(xs[k - 1].op)
  }

  /** The function's block is closed by the last instruction and by no earlier one. */
  ghost predicate ClosesAtEnd(xs: seq<Instruction>) {
    Depth(xs, |xs|) == 0 && OpenFrom(xs, 0)
  }

  ghost predicate OpenFrom(xs: seq<Instruction>, k: nat) {
    forall i: nat :: k <= i < |xs| ==> Depth(xs, i) > 0
  }

  function Count(xs: seq<Instruction>, c: Class): nat {
    if |xs| == 0 then 0 else Count(xs[1..], c) + if ClassIn(xs[0]) == c then 1 else 0
  }

  datatype Counts = Counts(atomic: nat, simd: nat, relaxedSimd: nat, exceptionHandling: nat)

  const NO_COUNTS := Counts(0, 0, 0, 0)

  function CountsOf(xs: seq<Instruction>): Counts {
    Counts(Count(xs, Atomic), Count(xs, Simd), Count(xs, RelaxedSimd), Count(xs, ExceptionHandling))
  }

  function Plus(a: Counts, b: Counts): Counts {
    Counts(a.atomic + b.atomic, a.simd + b.simd,
           a.relaxedSimd + b.relaxedSimd, a.exceptionHandling + b.exceptionHandling)
  }

  function Tally(c: Class): Counts {
    match c
    case Atomic => Counts(1, 0, 0, 0)
    case Simd => Counts(0, 1, 0, 0)
    case RelaxedSimd => Counts(0, 0, 1, 0)
    case ExceptionHandling => Counts(0, 0, 0, 1)
    case Other => NO_COUNTS
  }

  /** The scan from a point at some depth with the counts so far. */
  function ScanFrom(s: Bytes, depth: int, counts: Counts): Option<Counts>
    decreases |s|
  {
    if |s| == 0 then if depth == 0 then Some(counts) else None
    else if depth == 0 then None
    else
      match TakeInstruction(s)
      case None => None
      case Some(t) =>
        TakenInstructionIsValid(s);
        ScanFrom(t.rest, depth + Nesting(t.instruction.op), Plus(counts, Tally(ClassIn(t.instruction))))
  }

  /** Depth reaches zero first at the end, from a starting depth. */
  predicate Closes(xs: seq<Instruction>, depth: int) {
    if |xs| == 0 then depth == 0 else depth != 0 && Closes(xs[1..], depth + Nesting(xs[0].op))
  }

  lemma CodeCons(x: Instruction, xs: seq<Instruction>)
    requires ValidInstruction(x) && ValidCode(xs)
    ensures ValidCode([x] + xs) && PrintCode([x] + xs) == PrintInstruction(x) + PrintCode(xs)
    ensures CountsOf([x] + xs) == Plus(Tally(ClassIn(x)), CountsOf(xs))
    ensures forall depth: int :: Closes([x] + xs, depth) <==> depth != 0 && Closes(xs, depth + Nesting(x.op))
  {
    hide ValidInstruction, PrintInstruction, ClassIn, Nesting;
    assert ([x] + xs)[1..] == xs;
  }

  lemma NoCode()
    ensures ValidCode([]) && PrintCode([]) == [] && CountsOf([]) == NO_COUNTS
    ensures forall depth: int :: Closes([], depth) <==> depth == 0
  {
  }

  lemma PlusAssoc(a: Counts, b: Counts, c: Counts)
    ensures Plus(Plus(a, b), c) == Plus(a, Plus(b, c)) && Plus(a, NO_COUNTS) == a
  {
  }

  /** What scans is a sequence of instructions that closes at the end, counted. */
  lemma {:induction false} ScannedIsCode(s: Bytes, depth: int, counts: Counts) returns (xs: seq<Instruction>)
    requires ScanFrom(s, depth, counts).Some?
    ensures ValidCode(xs) && PrintCode(xs) == s && Closes(xs, depth)
    ensures ScanFrom(s, depth, counts) == Some(Plus(counts, CountsOf(xs)))
    decreases |s|
  {
    hide TakeInstruction, ValidCode, PrintCode, Closes, CountsOf, ClassIn, Nesting, Tally, Plus;
    if |s| == 0 {
      NoCode();
      PlusAssoc(counts, NO_COUNTS, NO_COUNTS);
      xs := [];
    } else {
      TakenInstructionIsValid(s);
      var t := TakeInstruction(s).value;
      var more := Tally(ClassIn(t.instruction));
      var ys := ScannedIsCode(t.rest, depth + Nesting(t.instruction.op), Plus(counts, more));
      CodeCons(t.instruction, ys);
      PlusAssoc(counts, more, CountsOf(ys));
      xs := [t.instruction] + ys;
    }
  }

  /** Every sequence of instructions that closes at the end scans, with its counts. */
  lemma {:induction false} CodeScans(xs: seq<Instruction>, depth: int, counts: Counts)
    requires ValidCode(xs) && Closes(xs, depth)
    ensures ScanFrom(PrintCode(xs), depth, counts) == Some(Plus(counts, CountsOf(xs)))
  {
    hide TakeInstruction, PrintCode, Closes, CountsOf, ClassIn, Nesting, Tally, Plus, ValidInstruction;
    if |xs| == 0 {
      NoCode();
      PlusAssoc(counts, NO_COUNTS, NO_COUNTS);
    } else {
      var x, ys := xs[0], xs[1..];
      assert xs == [x] + ys;
      CodeCons(x, ys);
      ValidInstructionIsTaken(x, PrintCode(ys));
      CodeScans(ys, depth + Nesting(x.op), Plus(counts, Tally(ClassIn(x))));
      PlusAssoc(counts, Tally(ClassIn(x)), CountsOf(ys));
    }
  }

  /** Closing, step by step, is depth staying positive until it is zero at the end. */
  lemma ClosesMeans(xs: seq<Instruction>)
    ensures Closes(xs, 1) <==> ClosesAtEnd(xs)
  {
    ClosesFrom(xs, 0);
    assert xs[0..] == xs && Depth(xs, 0) == 1;
  }

  lemma {:induction false} ClosesFrom(xs: seq<Instruction>, k: nat)
    requires k <= |xs|
    ensures Depth(xs, k) >= 0 ==>
      (Closes(xs[k..], Depth(xs, k)) <==> Depth(xs, |xs|) == 0 && OpenFrom(xs, k))
    decreases |xs| - k
  {
    if k < |xs| {
      ClosesFrom(xs, k + 1);
      assert xs[k..][1..] == xs[k + 1..];
      assert Depth(xs, k + 1) == Depth(xs, k) + Nesting(xs[k].op);
      assert OpenFrom(xs, k) <==> Depth(xs, k) > 0 && OpenFrom(xs, k + 1);
    }
  }

  // ----- function bodies --------------------------------------------------------------------------------

  /** Local declarations (a count and a type each) and code. */
  datatype Body = Body(count: Bytes, locals: seq<Bytes>, code: seq<Instruction>)

  function PrintBody(b: Body): Bytes {
    b.count + (Join(b.locals) + PrintCode(b.code))
  }

  ghost predicate ValidBody(b: Body) {
    && AreLebs(b.count, 1) && |b.locals| == 2 * ValueOf(b.count) && AllFields(b.locals)
    && ValidCode(b.code) && ClosesAtEnd(b.code)
  }

  function ScanBody(s: Bytes): Option<Counts> {
    match TakeLebs(s, 1)
    case None => None
    case Some(c) =>
      match TakeFields(c.rest, 2 * ValueOf(c.raw))
      case None => None
      case Some(t) => ScanFrom(t.rest, 1, NO_COUNTS)
  }

  lemma NothingPlus(c: Counts)
    ensures Plus(NO_COUNTS, c) == c
  {
  }

  /** A body that scans is the encoding of a valid body with exactly the reported counts. */
  lemma ScannedBodyIsValid(s: Bytes) returns (b: Body)
    requires ScanBody(s).Some?
    ensures ValidBody(b) && PrintBody(b) == s && ScanBody(s) == Some(CountsOf(b.code))
  {
    hide TakeLebs, AreLebs, TakeFields, AllFields, ValueOf, ScanFrom, ValidCode, PrintCode, CountsOf;
    hide ClosesAtEnd, Closes, Plus, Join;
    var c := TakeLebs(s, 1).value;
    TakenAreLebs(s, 1);
    TakenAreFields(c.rest, 2 * ValueOf(c.raw));
    var t := TakeFields(c.rest, 2 * ValueOf(c.raw)).value;
    var code := ScannedIsCode(t.rest, 1, NO_COUNTS);
    ClosesMeans(code);
    NothingPlus(CountsOf(code));
    b := Body(c.raw, t.fields, code);
  }

  /** Every valid body scans, with exactly its counts. */
  lemma ValidBodyScans(b: Body)
    requires ValidBody(b)
    ensures ScanBody(PrintBody(b)) == Some(CountsOf(b.code))
  {
    hide TakeLebs, AreLebs, TakeFields, AllFields, ValueOf, ScanFrom, ValidCode, PrintCode, CountsOf;
    hide ClosesAtEnd, Closes, Plus, Join;
    LebsAreTaken(b.count, 1, Join(b.locals) + PrintCode(b.code));
    FieldsAreTaken(b.locals, PrintCode(b.code));
    ClosesMeans(b.code);
    CodeScans(b.code, 1, NO_COUNTS);
    NothingPlus(CountsOf(b.code));
  }

  lemma {:induction false} CodeIsUnique(xs: seq<Instruction>, ys: seq<Instruction>)
    requires ValidCode(xs) && ValidCode(ys) && PrintCode(xs) == PrintCode(ys)
    ensures xs == ys
  {
    hide ValidInstruction, PrintInstruction, TakeInstruction;
    if |xs| > 0 && |ys| > 0 {
      ValidInstructionIsTaken(xs[0], PrintCode(xs[1..]));
      ValidInstructionIsTaken(ys[0], PrintCode(ys[1..]));
      CodeIsUnique(xs[1..], ys[1..]);
      assert xs == [xs[0]] + xs[1..] && ys == [ys[0]] + ys[1..];
    }
  }

  /** Bytes encode at most one body: no byte belongs to two readings. */
  lemma BodyIsUnique(a: Body, b: Body)
    requires ValidBody(a) && ValidBody(b) && PrintBody(a) == PrintBody(b)
    ensures a == b
  {
    hide AreLebs, AllFields, ValueOf, ValidCode, PrintCode, ClosesAtEnd, Join, TakeLebs, TakeFields;
    LebsAreTaken(a.count, 1, Join(a.locals) + PrintCode(a.code));
    LebsAreTaken(b.count, 1, Join(b.locals) + PrintCode(b.code));
    FieldsAreTaken(a.locals, PrintCode(a.code));
    FieldsAreTaken(b.locals, PrintCode(b.code));
    CodeIsUnique(a.code, b.code);
  }

  // ----- the code section -------------------------------------------------------------------------------

  datatype Totals = Totals(counts: Counts, undecodable: nat)

  /** The remaining `n` bodies at the front of `s`. */
  function ScanBodies(s: Bytes, n: nat, totals: Totals): Totals
    decreases n
  {
    if n == 0 then totals
    else if |s| == 0 then totals.(undecodable := totals.undecodable + n)
    else
      match TakeLebs(s, 1)
      case None => totals.(undecodable := totals.undecodable + 1)
      case Some(size) =>
        var length := ValueOf(size.raw);
        if length > |size.rest| then totals.(undecodable := totals.undecodable + n)
        else ScanBodies(size.rest[length..], n - 1, AddBody(totals, ScanBody(size.rest[..length])))
  }

  function AddBody(totals: Totals, scanned: Option<Counts>): Totals {
    match scanned
    case None => totals.(undecodable := totals.undecodable + 1)
    case Some(c) => totals.(counts := Plus(totals.counts, c))
  }

  /** A code section's payload: a count, then sizes and bodies; what follows is not looked at. */
  function ScanPayload(payload: Bytes): Totals {
    match TakeLebs(payload, 1)
    case None => Totals(NO_COUNTS, 1)
    case Some(c) => ScanBodies(c.rest, ValueOf(c.raw), Totals(NO_COUNTS, 0))
  }

  datatype Function = Function(size: Bytes, body: Body)

  function PrintFunctions(fs: seq<Function>): Bytes {
    if |fs| == 0 then [] else fs[0].size + (PrintBody(fs[0].body) + PrintFunctions(fs[1..]))
  }

  ghost predicate ValidFunction(f: Function) {
    AreLebs(f.size, 1) && ValueOf(f.size) == |PrintBody(f.body)| && ValidBody(f.body)
  }

  ghost predicate ValidFunctions(fs: seq<Function>) {
    forall i: nat :: i < |fs| ==> ValidFunction(fs[i])
  }

  function Total(fs: seq<Function>): Counts {
    if |fs| == 0 then NO_COUNTS else Plus(CountsOf(fs[0].body.code), Total(fs[1..]))
  }

  lemma {:induction false} UndecodableGrows(s: Bytes, n: nat, totals: Totals)
    ensures ScanBodies(s, n, totals).undecodable >= totals.undecodable
    decreases n
  {
    hide ScanBody, TakeLebs, ValueOf, Plus;
    if n > 0 && |s| > 0 && TakeLebs(s, 1).Some? {
      var size := TakeLebs(s, 1).value;
      var length := ValueOf(size.raw);
      if length <= |size.rest| {
        UndecodableGrows(size.rest[length..], n - 1, AddBody(totals, ScanBody(size.rest[..length])));
      }
    }
  }

  lemma FunctionsCons(f: Function, fs: seq<Function>, t: Bytes)
    requires ValidFunction(f) && ValidFunctions(fs)
    ensures ValidFunctions([f] + fs) && Total([f] + fs) == Plus(CountsOf(f.body.code), Total(fs))
    ensures PrintFunctions([f] + fs) + t == f.size + (PrintBody(f.body) + (PrintFunctions(fs) + t))
  {
    hide ValidFunction, Plus, CountsOf, PrintBody;
    assert ([f] + fs)[1..] == fs;
  }

  lemma NoFunctions(t: Bytes)
    ensures ValidFunctions([]) && Total([]) == NO_COUNTS && PrintFunctions([]) + t == t
  {
    assert [] + t == t;
  }

  /** Nothing undecodable means that every declared body is there, valid and counted. */
  lemma {:induction false} DecodedBodies(s: Bytes, n: nat, totals: Totals) returns (fs: seq<Function>, rest: Bytes)
    requires ScanBodies(s, n, totals).undecodable == 0
    ensures |fs| == n && ValidFunctions(fs) && PrintFunctions(fs) + rest == s
    ensures ScanBodies(s, n, totals) == Totals(Plus(totals.counts, Total(fs)), 0)
    decreases n
  {
    hide ScanBody, TakeLebs, ValueOf, Plus, ValidFunctions, PrintFunctions, Total, AreLebs, ValidBody;
    hide PrintBody, CountsOf;
    if n == 0 {
      NoFunctions(s);
      PlusAssoc(totals.counts, NO_COUNTS, NO_COUNTS);
      fs, rest := [], s;
    } else {
      var size := TakeLebs(s, 1).value;
      var length := ValueOf(size.raw);
      TakenAreLebs(s, 1);
      CutInTwo(size.rest, length);
      var next := AddBody(totals, ScanBody(size.rest[..length]));
      UndecodableGrows(size.rest[length..], n - 1, next);
      var b := ScannedBodyIsValid(size.rest[..length]);
      var gs, u := DecodedBodies(size.rest[length..], n - 1, next);
      var f := Function(size.raw, b);
      FunctionsCons(f, gs, u);
      PlusAssoc(totals.counts, CountsOf(b.code), Total(gs));
      fs, rest := [f] + gs, u;
    }
  }

  lemma {:induction false} ValidBodiesScan(fs: seq<Function>, rest: Bytes, totals: Totals)
    requires ValidFunctions(fs)
    ensures ScanBodies(PrintFunctions(fs) + rest, |fs|, totals) == totals.(counts := Plus(totals.counts, Total(fs)))
  {
    hide ScanBody, TakeLebs, ValueOf, Plus, PrintFunctions, Total, AreLebs, ValidBody, PrintBody, CountsOf;
    if |fs| == 0 {
      NoFunctions(rest);
      PlusAssoc(totals.counts, NO_COUNTS, NO_COUNTS);
    } else {
      var f, gs := fs[0], fs[1..];
      assert fs == [f] + gs;
      FunctionsCons(f, gs, rest);
      var tail := PrintFunctions(gs) + rest;
      LebsAreTaken(f.size, 1, PrintBody(f.body) + tail);
      assert |f.size| > 0 by { LebNonempty(f.size); }
      CutBehind(PrintBody(f.body), tail);
      ValidBodyScans(f.body);
      ValidBodiesScan(gs, rest, AddBody(totals, ScanBody(PrintBody(f.body))));
      PlusAssoc(totals.counts, CountsOf(f.body.code), Total(gs));
    }
  }

  lemma LebNonempty(x: Bytes)
    requires AreLebs(x, 1)
    ensures |x| > 0
  {
  }

  /** The scan of a code section reports nothing undecodable exactly when the section is a count
      and that many sized, valid bodies; the totals are then the instructions they hold. */
  lemma PayloadDecodes(payload: Bytes) returns (count: Bytes, fs: seq<Function>, rest: Bytes)
    requires ScanPayload(payload).undecodable == 0
    ensures AreLebs(count, 1) && ValueOf(count) == |fs| && ValidFunctions(fs)
    ensures payload == count + (PrintFunctions(fs) + rest) && ScanPayload(payload).counts == Total(fs)
  {
    hide TakeLebs, AreLebs, ValueOf, ScanBodies, ValidFunctions, PrintFunctions, Total, Plus;
    var c := TakeLebs(payload, 1).value;
    TakenAreLebs(payload, 1);
    fs, rest := DecodedBodies(c.rest, ValueOf(c.raw), Totals(NO_COUNTS, 0));
    NothingPlus(Total(fs));
    count := c.raw;
  }

  lemma DecodedPayload(count: Bytes, fs: seq<Function>, rest: Bytes)
    requires AreLebs(count, 1) && ValueOf(count) == |fs| && ValidFunctions(fs)
    ensures ScanPayload(count + (PrintFunctions(fs) + rest)) == Totals(Total(fs), 0)
  {
    hide TakeLebs, AreLebs, ValueOf, ScanBodies, ValidFunctions, PrintFunctions, Total, Plus;
    LebsAreTaken(count, 1, PrintFunctions(fs) + rest);
    ValidBodiesScan(fs, rest, Totals(NO_COUNTS, 0));
    NothingPlus(Total(fs));
  }

  /** A class is absent from the totals exactly when no body holds an instruction of it. */
  lemma {:induction false} NoneCounted(xs: seq<Instruction>, c: Class)
    ensures Count(xs, c) == 0 <==> forall i: nat :: i < |xs| ==> ClassIn(xs[i]) != c
  {
    hide ClassIn;
    if |xs| > 0 {
      NoneCounted(xs[1..], c);
      if Count(xs, c) == 0 {
        forall i: nat | i < |xs|
          ensures ClassIn(xs[i]) != c
        {
          if i > 0 {
            assert xs[1..][i - 1] == xs[i];
          }
        }
      } else if Count(xs[1..], c) != 0 {
        var i: nat :| i < |xs[1..]| && ClassIn(xs[1..][i]) == c;
        assert xs[i + 1] == xs[1..][i];
      }
    }
  }

  lemma {:induction false} NoRelaxedTotal(fs: seq<Function>, i: nat)
    requires Total(fs).relaxedSimd == 0 && i < |fs|
    ensures Count(fs[i].body.code, RelaxedSimd) == 0
  {
    hide Count;
    if i > 0 {
      NoRelaxedTotal(fs[1..], i - 1);
    }
  }
}
