/** The encoding of function bodies (sections 5.4 and 5.5.13 of the WebAssembly Core
    Specification 2.0, with the proposals the scanner knows): instructions as values, how they
    are spelled, and a decoder that is exactly the inverse of the spelling. */
module CodeGrammar {
  import opened Options
  import opened Fields
  import opened Leb128
  import opened Sequences

  // ----- fields that are only skipped -----------------------------------------------------------------

  /** An integer of any width: continuation bytes and a final byte below 0x80. */
  ghost predicate IsField(x: Bytes) {
    |x| > 0 && x[|x| - 1] < 128 && forall i: nat :: i < |x| - 1 ==> x[i] >= 128
  }

  /** How many bytes the integer at the front of `s` takes. */
  function SkipLength(s: Bytes): (r: Option<nat>)
    ensures r.Some? ==> 0 < r.value <= |s|
  {
    if |s| == 0 then None
    else if s[0] < 128 then Some(1)
    else
      match SkipLength(s[1..])
      case None => None
      case Some(k) => Some(k + 1)
  }

  lemma {:induction false} SkippedIsField(s: Bytes)
    requires SkipLength(s).Some?
    ensures IsField(s[..SkipLength(s).value])
  {
    var k := SkipLength(s).value;
    if s[0] >= 128 {
      SkippedIsField(s[1..]);
      assert s[..k] == [s[0]] + s[1..][..k - 1];
    }
  }

  lemma {:induction false} FieldIsSkipped(x: Bytes, t: Bytes)
    requires IsField(x)
    ensures SkipLength(x + t) == Some(|x|)
  {
    if |x| > 1 {
      assert (x + t)[1..] == x[1..] + t;
      FieldIsSkipped(x[1..], t);
    }
  }

  datatype TakenFields = TakenFields(fields: seq<Bytes>, rest: Bytes)

  function TakeFields(s: Bytes, n: nat): Option<TakenFields>
    decreases n
  {
    if n == 0 then Some(TakenFields([], s))
    else
      match SkipLength(s)
      case None => None
      case Some(k) =>
        match TakeFields(s[k..], n - 1)
        case None => None
        case Some(t) => Some(TakenFields([s[..k]] + t.fields, t.rest))
  }

  function Join(xs: seq<Bytes>): Bytes {
    if |xs| == 0 then [] else xs[0] + Join(xs[1..])
  }

  ghost predicate AllFields(xs: seq<Bytes>) {
    forall i: nat :: i < |xs| ==> IsField(xs[i])
  }

  lemma JoinCons(x: Bytes, xs: seq<Bytes>, t: Bytes)
    ensures Join([x] + xs) + t == x + (Join(xs) + t)
  {
    assert ([x] + xs)[1..] == xs;
  }

  lemma FieldsCons(x: Bytes, xs: seq<Bytes>)
    requires IsField(x) && AllFields(xs)
    ensures AllFields([x] + xs)
  {
    hide IsField;
  }

  lemma {:induction false} TakenAreFields(s: Bytes, n: nat)
    requires TakeFields(s, n).Some?
    ensures var t := TakeFields(s, n).value; |t.fields| == n && AllFields(t.fields) && Join(t.fields) + t.rest == s
    decreases n
  {
    hide IsField, AllFields, Join, SkipLength;
    if n == 0 {
      NoFields(s);
    } else {
      var k := SkipLength(s).value;
      var t := TakeFields(s[k..], n - 1).value;
      SkippedIsField(s);
      TakenAreFields(s[k..], n - 1);
      FieldsCons(s[..k], t.fields);
      JoinCons(s[..k], t.fields, t.rest);
      assert s == s[..k] + s[k..];
    }
  }

  lemma NoFields(s: Bytes)
    ensures AllFields([]) && Join([]) + s == s
  {
    assert [] + s == s;
  }

  lemma {:induction false} FieldsAreTaken(xs: seq<Bytes>, t: Bytes)
    requires AllFields(xs)
    ensures TakeFields(Join(xs) + t, |xs|) == Some(TakenFields(xs, t))
  {
    hide IsField, Join, SkipLength;
    if |xs| == 0 {
      NoFields(t);
    } else {
      FieldIsSkipped(xs[0], Join(xs[1..]) + t);
      FieldsAreTaken(xs[1..], t);
      assert xs == [xs[0]] + xs[1..];
      JoinCons(xs[0], xs[1..], t);
      CutBehind(xs[0], Join(xs[1..]) + t);
    }
  }

  lemma CutBehind<T>(a: seq<T>, b: seq<T>)
    ensures (a + b)[..|a|] == a && (a + b)[|a|..] == b
  {
  }

  // ----- catch clauses --------------------------------------------------------------------------------

  datatype Clause = Clause(kind: Byte, fields: seq<Bytes>)

  /** A tag and a label, or a label alone. */
  function ClauseFields(kind: Byte): Option<nat> {
    if kind == 0 || kind == 1 then Some(2)
    else if kind == 2 || kind == 3 then Some(1)
    else None
  }

  function PrintClause(c: Clause): Bytes {
    [c.kind] + Join(c.fields)
  }

  ghost predicate ValidClause(c: Clause) {
    ClauseFields(c.kind) == Some(|c.fields|) && AllFields(c.fields)
  }

  datatype TakenClause = TakenClause(clause: Clause, rest: Bytes)

  function TakeClause(s: Bytes): Option<TakenClause> {
    if |s| == 0 then None
    else
      match ClauseFields(s[0])
      case None => None
      case Some(n) =>
        match TakeFields(s[1..], n)
        case None => None
        case Some(t) => Some(TakenClause(Clause(s[0], t.fields), t.rest))
  }

  lemma TakenClauseIsValid(s: Bytes)
    requires TakeClause(s).Some?
    ensures var t := TakeClause(s).value; ValidClause(t.clause) && PrintClause(t.clause) + t.rest == s
  {
    hide AllFields, Join, TakeFields;
    TakenAreFields(s[1..], ClauseFields(s[0]).value);
    assert s == [s[0]] + s[1..];
  }

  lemma ValidClauseIsTaken(c: Clause, t: Bytes)
    requires ValidClause(c)
    ensures TakeClause(PrintClause(c) + t) == Some(TakenClause(c, t))
  {
    hide AllFields, Join, TakeFields;
    FieldsAreTaken(c.fields, t);
    assert (PrintClause(c) + t)[1..] == Join(c.fields) + t;
  }

  datatype TakenClauses = TakenClauses(clauses: seq<Clause>, rest: Bytes)

  function TakeClauses(s: Bytes, n: nat): Option<TakenClauses>
    decreases n
  {
    if n == 0 then Some(TakenClauses([], s))
    else
      match TakeClause(s)
      case None => None
      case Some(c) =>
        match TakeClauses(c.rest, n - 1)
        case None => None
        case Some(t) => Some(TakenClauses([c.clause] + t.clauses, t.rest))
  }

  function PrintClauses(xs: seq<Clause>): Bytes {
    if |xs| == 0 then [] else PrintClause(xs[0]) + PrintClauses(xs[1..])
  }

  ghost predicate ValidClauses(xs: seq<Clause>) {
    forall i: nat :: i < |xs| ==> ValidClause(xs[i])
  }

  lemma ClausesCons(x: Clause, xs: seq<Clause>, t: Bytes)
    requires ValidClause(x) && ValidClauses(xs)
    ensures ValidClauses([x] + xs) && PrintClauses([x] + xs) + t == PrintClause(x) + (PrintClauses(xs) + t)
  {
    hide ValidClause, PrintClause;
    assert ([x] + xs)[1..] == xs;
  }

  lemma NoClauses(s: Bytes)
    ensures ValidClauses([]) && PrintClauses([]) + s == s
  {
    assert [] + s == s;
  }

  lemma {:induction false} TakenClausesAreValid(s: Bytes, n: nat)
    requires TakeClauses(s, n).Some?
    ensures var t := TakeClauses(s, n).value;
      |t.clauses| == n && ValidClauses(t.clauses) && PrintClauses(t.clauses) + t.rest == s
    decreases n
  {
    hide ValidClause, ValidClauses, PrintClause, PrintClauses, TakeClause;
    if n == 0 {
      NoClauses(s);
    } else {
      var c := TakeClause(s).value;
      var t := TakeClauses(c.rest, n - 1).value;
      TakenClauseIsValid(s);
      TakenClausesAreValid(c.rest, n - 1);
      ClausesCons(c.clause, t.clauses, t.rest);
    }
  }

  lemma {:induction false} ValidClausesAreTaken(xs: seq<Clause>, t: Bytes)
    requires ValidClauses(xs)
    ensures TakeClauses(PrintClauses(xs) + t, |xs|) == Some(TakenClauses(xs, t))
  {
    hide ValidClause, PrintClause, PrintClauses, TakeClause;
    if |xs| == 0 {
      NoClauses(t);
    } else {
      ValidClauseIsTaken(xs[0], PrintClauses(xs[1..]) + t);
      ValidClausesAreTaken(xs[1..], t);
      ClausesCons(xs[0], xs[1..], t);
      assert xs == [xs[0]] + xs[1..];
    }
  }

  // ----- immediates -----------------------------------------------------------------------------------

  datatype Shape =
    | Plain(n: nat)        // that many integers
    | Memory(lane: nat)    // alignment, perhaps a memory index, offset, then raw bytes
    | Fixed(n: nat)        // that many raw bytes
    | Branches             // a vector of labels and a default
    | Types                // a vector of one-byte types
    | Catches              // a block type and a vector of catch clauses

  datatype Immediate =
    | Integers(fields: seq<Bytes>)
    | MemArg(align: Bytes, fields: seq<Bytes>, lane: Bytes)
    | FixedBytes(raw: Bytes)
    | BranchTable(count: Bytes, fields: seq<Bytes>)
    | TypeList(count: Bytes, raw: Bytes)
    | CatchTable(block: Bytes, count: Bytes, clauses: seq<Clause>)

  /** Bit 6 of the alignment announces a memory index in front of the offset. */
  function MemFields(align: Bytes): nat {
    1 + ValueOf(align) / 0x40 % 2
  }

  function PrintImmediate(x: Immediate): Bytes {
    match x
    case Integers(fields) => Join(fields)
    case MemArg(align, fields, lane) => align + (Join(fields) + lane)
    case FixedBytes(raw) => raw
    case BranchTable(count, fields) => count + Join(fields)
    case TypeList(count, raw) => count + raw
    case CatchTable(block, count, clauses) => block + (count + PrintClauses(clauses))
  }

  ghost predicate Fits(shape: Shape, x: Immediate) {
    match shape
    case Plain(n) => x.Integers? && |x.fields| == n && AllFields(x.fields)
    case Memory(lane) =>
      && x.MemArg? && AreLebs(x.align, 1) && |x.fields| == MemFields(x.align) && AllFields(x.fields)
      && |x.lane| == lane
    case Fixed(n) => x.FixedBytes? && |x.raw| == n
    case Branches => x.BranchTable? && AreLebs(x.count, 1) && |x.fields| == ValueOf(x.count) + 1 && AllFields(x.fields)
    case Types => x.TypeList? && AreLebs(x.count, 1) && |x.raw| == ValueOf(x.count)
    case Catches =>
      && x.CatchTable? && IsField(x.block) && AreLebs(x.count, 1)
      && |x.clauses| == ValueOf(x.count) && ValidClauses(x.clauses)
  }

  datatype TakenImmediate = TakenImmediate(imm: Immediate, rest: Bytes)

  function TakeImmediate(shape: Shape, s: Bytes): Option<TakenImmediate> {
    match shape
    case Plain(n) =>
      (match TakeFields(s, n)
       case None => None
       case Some(t) => Some(TakenImmediate(Integers(t.fields), t.rest)))
    case Memory(lane) => TakeMemArg(lane, s)
    case Fixed(n) => if n > |s| then None else Some(TakenImmediate(FixedBytes(s[..n]), s[n..]))
    case Branches => TakeBranches(s)
    case Types => TakeTypes(s)
    case Catches => TakeCatches(s)
  }

  function TakeMemArg(lane: nat, s: Bytes): Option<TakenImmediate> {
    match TakeLebs(s, 1)
    case None => None
    case Some(a) =>
      match TakeFields(a.rest, MemFields(a.raw))
      case None => None
      case Some(t) =>
        if lane > |t.rest| then None
        else Some(TakenImmediate(MemArg(a.raw, t.fields, t.rest[..lane]), t.rest[lane..]))
  }

  function TakeBranches(s: Bytes): Option<TakenImmediate> {
    match TakeLebs(s, 1)
    case None => None
    case Some(c) =>
      match TakeFields(c.rest, ValueOf(c.raw) + 1)
      case None => None
      case Some(t) => Some(TakenImmediate(BranchTable(c.raw, t.fields), t.rest))
  }

  function TakeTypes(s: Bytes): Option<TakenImmediate> {
    match TakeLebs(s, 1)
    case None => None
    case Some(c) =>
      var n := ValueOf(c.raw);
      if n > |c.rest| then None else Some(TakenImmediate(TypeList(c.raw, c.rest[..n]), c.rest[n..]))
  }

  function TakeCatches(s: Bytes): Option<TakenImmediate> {
    match SkipLength(s)
    case None => None
    case Some(k) =>
      match TakeLebs(s[k..], 1)
      case None => None
      case Some(c) =>
        match TakeClauses(c.rest, ValueOf(c.raw))
        case None => None
        case Some(t) => Some(TakenImmediate(CatchTable(s[..k], c.raw, t.clauses), t.rest))
  }

  lemma CutInTwo<T>(s: seq<T>, k: nat)
    requires k <= |s|
    ensures s[..k] + s[k..] == s
  {
  }

  lemma TakenMemArgFits(lane: nat, s: Bytes)
    requires TakeMemArg(lane, s).Some?
    ensures var t := TakeMemArg(lane, s).value; Fits(Memory(lane), t.imm) && PrintImmediate(t.imm) + t.rest == s
  {
    hide AreLebs, AllFields, Join, TakeFields, TakeLebs, MemFields;
    var a := TakeLebs(s, 1).value;
    TakenAreLebs(s, 1);
    TakenAreFields(a.rest, MemFields(a.raw));
    var t := TakeFields(a.rest, MemFields(a.raw)).value;
    CutInTwo(t.rest, lane);
    Assoc(Join(t.fields), t.rest[..lane], t.rest[lane..]);
    Assoc(a.raw, Join(t.fields) + t.rest[..lane], t.rest[lane..]);
  }

  lemma MemArgIsTaken(lane: nat, x: Immediate, u: Bytes)
    requires Fits(Memory(lane), x)
    ensures TakeMemArg(lane, PrintImmediate(x) + u) == Some(TakenImmediate(x, u))
  {
    hide AreLebs, AllFields, Join, TakeFields, TakeLebs, MemFields;
    Assoc(x.align, Join(x.fields) + x.lane, u);
    Assoc(Join(x.fields), x.lane, u);
    LebsAreTaken(x.align, 1, Join(x.fields) + (x.lane + u));
    FieldsAreTaken(x.fields, x.lane + u);
    CutBehind(x.lane, u);
  }

  lemma TakenVectorFits(shape: Shape, s: Bytes)
    requires (shape.Branches? || shape.Types?) && TakeImmediate(shape, s).Some?
    ensures var t := TakeImmediate(shape, s).value; Fits(shape, t.imm) && PrintImmediate(t.imm) + t.rest == s
  {
    hide AreLebs, AllFields, Join, TakeFields, TakeLebs, ValueOf;
    var c := TakeLebs(s, 1).value;
    TakenAreLebs(s, 1);
    var n := ValueOf(c.raw);
    if shape.Branches? {
      TakenAreFields(c.rest, n + 1);
      var t := TakeFields(c.rest, n + 1).value;
      Assoc(c.raw, Join(t.fields), t.rest);
    } else {
      CutInTwo(c.rest, n);
      Assoc(c.raw, c.rest[..n], c.rest[n..]);
    }
  }

  lemma VectorIsTaken(shape: Shape, x: Immediate, u: Bytes)
    requires (shape.Branches? || shape.Types?) && Fits(shape, x)
    ensures TakeImmediate(shape, PrintImmediate(x) + u) == Some(TakenImmediate(x, u))
  {
    hide AreLebs, AllFields, Join, TakeFields, TakeLebs, ValueOf;
    if shape.Branches? {
      Assoc(x.count, Join(x.fields), u);
      LebsAreTaken(x.count, 1, Join(x.fields) + u);
      FieldsAreTaken(x.fields, u);
    } else {
      Assoc(x.count, x.raw, u);
      LebsAreTaken(x.count, 1, x.raw + u);
      CutBehind(x.raw, u);
    }
  }

  lemma TakenCatchesFit(s: Bytes)
    requires TakeCatches(s).Some?
    ensures var t := TakeCatches(s).value; Fits(Catches, t.imm) && PrintImmediate(t.imm) + t.rest == s
  {
    hide AreLebs, IsField, SkipLength, TakeLebs, ValueOf, TakeClauses, ValidClauses, PrintClauses;
    var k := SkipLength(s).value;
    SkippedIsField(s);
    CutInTwo(s, k);
    var c := TakeLebs(s[k..], 1).value;
    TakenAreLebs(s[k..], 1);
    TakenClausesAreValid(c.rest, ValueOf(c.raw));
    var t := TakeClauses(c.rest, ValueOf(c.raw)).value;
    Assoc(c.raw, PrintClauses(t.clauses), t.rest);
    Assoc(s[..k], c.raw + PrintClauses(t.clauses), t.rest);
  }

  lemma CatchesAreTaken(x: Immediate, u: Bytes)
    requires Fits(Catches, x)
    ensures TakeCatches(PrintImmediate(x) + u) == Some(TakenImmediate(x, u))
  {
    hide AreLebs, IsField, SkipLength, TakeLebs, ValueOf, TakeClauses, ValidClauses, PrintClauses;
    var tail := x.count + (PrintClauses(x.clauses) + u);
    Assoc(x.block, x.count + PrintClauses(x.clauses), u);
    Assoc(x.count, PrintClauses(x.clauses), u);
    FieldIsSkipped(x.block, tail);
    CutBehind(x.block, tail);
    LebsAreTaken(x.count, 1, PrintClauses(x.clauses) + u);
    ValidClausesAreTaken(x.clauses, u);
  }

  lemma TakenImmediateFits(shape: Shape, s: Bytes)
    requires TakeImmediate(shape, s).Some?
    ensures var t := TakeImmediate(shape, s).value; Fits(shape, t.imm) && PrintImmediate(t.imm) + t.rest == s
  {
    hide AllFields, Join, TakeFields, TakeMemArg, TakeCatches;
    match shape
    case Plain(n) => TakenAreFields(s, n);
    case Memory(lane) => TakenMemArgFits(lane, s);
    case Fixed(n) => CutInTwo(s, n);
    case Branches => TakenVectorFits(shape, s);
    case Types => TakenVectorFits(shape, s);
    case Catches => TakenCatchesFit(s);
  }

  lemma ImmediateIsTaken(shape: Shape, x: Immediate, u: Bytes)
    requires Fits(shape, x)
    ensures TakeImmediate(shape, PrintImmediate(x) + u) == Some(TakenImmediate(x, u))
  {
    hide AllFields, Join, TakeFields, TakeMemArg, TakeCatches, TakeTypes, TakeBranches, AreLebs, IsField;
    match shape
    case Plain(n) => FieldsAreTaken(x.fields, u);
    case Memory(lane) => MemArgIsTaken(lane, x, u);
    case Fixed(n) => CutBehind(x.raw, u);
    case Branches => VectorIsTaken(shape, x, u);
    case Types => VectorIsTaken(shape, x, u);
    case Catches => CatchesAreTaken(x, u);
  }
}
