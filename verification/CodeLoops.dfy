/** The scanner's loops: one cursor over the module's bytes, bounded by the end of a body. */
module CodeLoops {
  import opened Options
  import opened Fields
  import opened Leb128
  import opened CodeGrammar
  import opened CodeScan

  // ----- integers -----------------------------------------------------------------------------------------

  method SkipLeb(bytes: Bytes, cursor: nat, end: nat) returns (r: Option<nat>)
    requires cursor <= end <= |bytes|
    ensures match SkipLength(bytes[cursor..end])
      case None => r == None
      case Some(k) => r == Some(cursor + k)
  {
    var position := cursor;
    while position < end
      invariant cursor <= position <= end
      invariant SkipLength(bytes[cursor..end]) == match SkipLength(bytes[position..end])
                                                  case None => None
                                                  case Some(k) => Some(position - cursor + k)
    {
      assert bytes[position..end][1..] == bytes[position + 1..end];
      var byte := bytes[position];
      position := position + 1;
      if byte < 128 {
        return Some(position);
      }
    }
    return None;
  }

  /** The decoder may look past `end`; a value that does is refused afterwards. */
  method ReadLeb(bytes: Bytes, cursor: nat, end: nat) returns (r: Option<Leb>)
    requires cursor <= end <= |bytes|
    ensures r == Decode(bytes[cursor..end])
  {
    if cursor >= end {
      return None;
    }
    var info := DecodeLoop(bytes, cursor);
    var s, t := bytes[cursor..end], bytes[end..];
    assert bytes[cursor..] == s + t;
    if info == None || cursor + info.value.length > end {
      if Decode(s).Some? {
        DecodeExtends(s, t);
        assert false;
      }
      return None;
    }
    DecodeShorter(s, t, MAX_LEB_BYTES);
    return info;
  }

  lemma LebTaken(s: Bytes)
    ensures TakeLebs(s, 1) == match Decode(s)
                              case None => None
                              case Some(l) => Some(Taken(s[..l.length], s[l.length..]))
    ensures Decode(s).Some? ==> ValueOf(s[..Decode(s).value.length]) == Decode(s).value.value
  {
    if Decode(s).Some? {
      var k := Decode(s).value.length;
      assert LebsLength(s[k..], 0) == Some(0);
      DecodeFront(s, []);
      assert s[..k] + [] == s[..k];
    }
  }

  method TakeLebAt(bytes: Bytes, cursor: nat, end: nat) returns (value: Option<nat>, next: nat)
    requires cursor <= end <= |bytes|
    ensures match TakeLebs(bytes[cursor..end], 1)
      case None => value == None
      case Some(t) => value == Some(ValueOf(t.raw)) && cursor < next <= end && t.rest == bytes[next..end]
  {
    var info := ReadLeb(bytes, cursor, end);
    LebTaken(bytes[cursor..end]);
    if info == None {
      return None, cursor;
    }
    next := cursor + info.value.length;
    assert bytes[cursor..end][info.value.length..] == bytes[next..end];
    return Some(info.value.value), next;
  }

  /** A cursor that stands where `rest` begins, or has failed or run past the end. */
  ghost predicate StandsAt(bytes: Bytes, end: nat, r: Option<nat>, rest: Option<Bytes>)
    requires end <= |bytes|
  {
    match rest
    case None => r == None || r.value > end
    case Some(s) => r.Some? && r.value <= end && bytes[r.value..end] == s
  }

  function FieldsRest(s: Bytes, n: nat): Option<Bytes> {
    match TakeFields(s, n)
    case None => None
    case Some(t) => Some(t.rest)
  }

  function ImmediateRest(shape: Shape, s: Bytes): Option<Bytes> {
    match TakeImmediate(shape, s)
    case None => None
    case Some(t) => Some(t.rest)
  }

  lemma FieldsStep(s: Bytes, n: nat)
    requires n > 0
    ensures FieldsRest(s, n) == match SkipLength(s)
                                case None => None
                                case Some(k) => FieldsRest(s[k..], n - 1)
  {
  }

  lemma NoFieldsRest(s: Bytes)
    ensures FieldsRest(s, 0) == Some(s)
  {
  }

  method SkipOne(bytes: Bytes, cursor: nat, end: nat) returns (r: Option<nat>)
    requires cursor <= end <= |bytes|
    ensures StandsAt(bytes, end, r, FieldsRest(bytes[cursor..end], 1))
    ensures r.Some? ==> cursor < r.value <= end
  {
    hide SkipLength, TakeFields, FieldsRest;
    r := SkipLeb(bytes, cursor, end);
    FieldsStep(bytes[cursor..end], 1);
    if r.Some? {
      NoFieldsRest(bytes[r.value..end]);
      assert bytes[cursor..end][r.value - cursor..] == bytes[r.value..end];
    }
  }

  method SkipTwo(bytes: Bytes, cursor: nat, end: nat) returns (r: Option<nat>)
    requires cursor <= end <= |bytes|
    ensures StandsAt(bytes, end, r, FieldsRest(bytes[cursor..end], 2))
    ensures r.Some? ==> cursor < r.value <= end
  {
    hide SkipLength, TakeFields, FieldsRest;
    var first := SkipLeb(bytes, cursor, end);
    FieldsStep(bytes[cursor..end], 2);
    if first == None {
      return None;
    }
    assert bytes[cursor..end][first.value - cursor..] == bytes[first.value..end];
    r := SkipOne(bytes, first.value, end);
  }

  // ----- immediates ---------------------------------------------------------------------------------------

  method SkipMemArg(bytes: Bytes, cursor: nat, end: nat) returns (r: Option<nat>)
    requires cursor <= end <= |bytes|
    ensures StandsAt(bytes, end, r, ImmediateRest(Memory(0), bytes[cursor..end]))
    ensures r.Some? ==> cursor < r.value <= end
  {
    hide TakeLebs, TakeFields, ValueOf, SkipLength;
    var align, position := TakeLebAt(bytes, cursor, end);
    if align == None {
      return None;
    }
    MemArgRest(0, bytes[cursor..end]);
    if align.value / 0x40 % 2 != 0 {
      r := SkipTwo(bytes, position, end);
    } else {
      r := SkipOne(bytes, position, end);
    }
    if r.Some? {
      assert bytes[r.value..end][0..] == bytes[r.value..end];
    }
  }

  lemma MemArgRest(lane: nat, s: Bytes)
    ensures ImmediateRest(Memory(lane), s) == match TakeLebs(s, 1)
                                              case None => None
                                              case Some(a) => Dropped(FieldsRest(a.rest, MemFields(a.raw)), lane)
  {
    hide TakeLebs, TakeFields, MemFields;
  }

  function Dropped(s: Option<Bytes>, n: nat): Option<Bytes> {
    match s
    case None => None
    case Some(t) => if n > |t| then None else Some(t[n..])
  }

  /** One byte of lane index behind a memory argument; its end is checked by the caller. */
  lemma LaneRest(s: Bytes)
    ensures ImmediateRest(Memory(1), s) == Dropped(ImmediateRest(Memory(0), s), 1)
  {
    hide TakeLebs, TakeFields, MemFields, ImmediateRest, FieldsRest;
    MemArgRest(0, s);
    MemArgRest(1, s);
  }

  /** A vector of integers behind `count`. */
  method SkipLebVec(bytes: Bytes, cursor: nat, end: nat, count: nat) returns (r: Option<nat>)
    requires cursor <= end <= |bytes|
    ensures StandsAt(bytes, end, r, FieldsRest(bytes[cursor..end], count))
    ensures r.Some? ==> cursor <= r.value <= end
  {
    hide SkipLength, TakeFields, FieldsRest;
    var position := cursor;
    for i := 0 to count
      invariant cursor <= position <= end
      invariant FieldsRest(bytes[cursor..end], count) == FieldsRest(bytes[position..end], count - i)
    {
      var next := SkipLeb(bytes, position, end);
      FieldsStep(bytes[position..end], count - i);
      if next == None {
        return None;
      }
      assert bytes[position..end][next.value - position..] == bytes[next.value..end];
      position := next.value;
    }
    NoFieldsRest(bytes[position..end]);
    return Some(position);
  }

  lemma {:induction false} OneMoreField(s: Bytes, n: nat)
    ensures FieldsRest(s, n + 1) == match FieldsRest(s, n)
                                    case None => None
                                    case Some(t) => FieldsRest(t, 1)
    decreases n
  {
    hide SkipLength, TakeFields, FieldsRest;
    FieldsStep(s, n + 1);
    if n == 0 {
      NoFieldsRest(s);
      FieldsStep(s, 1);
    } else {
      FieldsStep(s, n);
      if SkipLength(s).Some? {
        OneMoreField(s[SkipLength(s).value..], n - 1);
      }
    }
  }

  method SkipBranches(bytes: Bytes, cursor: nat, end: nat) returns (r: Option<nat>)
    requires cursor <= end <= |bytes|
    ensures StandsAt(bytes, end, r, ImmediateRest(Branches, bytes[cursor..end]))
    ensures r.Some? ==> cursor < r.value <= end
  {
    hide TakeLebs, TakeFields, ValueOf;
    var count, position := TakeLebAt(bytes, cursor, end);
    if count == None {
      return None;
    }
    var labels := SkipLebVec(bytes, position, end, count.value);
    OneMoreField(bytes[position..end], count.value);
    if labels == None {
      return None;
    }
    r := SkipOne(bytes, labels.value, end);
  }

  method SkipTypes(bytes: Bytes, cursor: nat, end: nat) returns (r: Option<nat>)
    requires cursor <= end <= |bytes|
    ensures StandsAt(bytes, end, r, ImmediateRest(Types, bytes[cursor..end]))
    ensures r.Some? ==> cursor < r.value <= end
  {
    hide TakeLebs, ValueOf;
    var count, position := TakeLebAt(bytes, cursor, end);
    if count == None {
      return None;
    }
    var next := position;
    for i := 0 to count.value
      invariant next == position + i
    {
      next := next + 1;
    }
    if next > end {
      return None;
    }
    assert bytes[position..end][count.value..] == bytes[next..end];
    return Some(next);
  }

  function ClausesRest(s: Bytes, n: nat): Option<Bytes> {
    match TakeClauses(s, n)
    case None => None
    case Some(t) => Some(t.rest)
  }

  lemma ClausesStep(s: Bytes, n: nat)
    requires n > 0
    ensures ClausesRest(s, n) == if |s| == 0 || ClauseFields(s[0]) == None then None
                                 else match FieldsRest(s[1..], ClauseFields(s[0]).value)
                                      case None => None
                                      case Some(t) => ClausesRest(t, n - 1)
  {
    hide TakeFields;
  }

  method SkipClauses(bytes: Bytes, cursor: nat, end: nat, count: nat) returns (r: Option<nat>)
    requires cursor <= end <= |bytes|
    ensures StandsAt(bytes, end, r, ClausesRest(bytes[cursor..end], count))
    ensures r.Some? ==> cursor <= r.value <= end
  {
    hide TakeClauses, TakeFields, FieldsRest, ClausesRest;
    var position := cursor;
    for i := 0 to count
      invariant cursor <= position <= end
      invariant ClausesRest(bytes[cursor..end], count) == ClausesRest(bytes[position..end], count - i)
    {
      ClausesStep(bytes[position..end], count - i);
      if position >= end {
        return None;
      }
      var kind := bytes[position];
      assert bytes[position..end][1..] == bytes[position + 1..end];
      var next: Option<nat>;
      if kind == 0 || kind == 1 {
        next := SkipTwo(bytes, position + 1, end);
      } else if kind == 2 || kind == 3 {
        next := SkipOne(bytes, position + 1, end);
      } else {
        return None;
      }
      if next == None {
        return None;
      }
      position := next.value;
    }
    assert ClausesRest(bytes[position..end], 0) == Some(bytes[position..end]) by {
      NoClausesRest(bytes[position..end]);
    }
    return Some(position);
  }

  lemma NoClausesRest(s: Bytes)
    ensures ClausesRest(s, 0) == Some(s)
  {
  }

  method SkipCatches(bytes: Bytes, cursor: nat, end: nat) returns (r: Option<nat>)
    requires cursor <= end <= |bytes|
    ensures StandsAt(bytes, end, r, ImmediateRest(Catches, bytes[cursor..end]))
    ensures r.Some? ==> cursor < r.value <= end
  {
    hide TakeLebs, ValueOf, SkipLength, TakeClauses;
    var block := SkipLeb(bytes, cursor, end);
    if block == None {
      return None;
    }
    assert bytes[cursor..end][block.value - cursor..] == bytes[block.value..end];
    var count, position := TakeLebAt(bytes, block.value, end);
    if count == None {
      return None;
    }
    r := SkipClauses(bytes, position, end, count.value);
  }

  // ----- instructions ---------------------------------------------------------------------------------------

  /** What one instruction does: where the next one starts, and what it opens and counts as. */
  datatype Step = Step(rest: Bytes, nesting: int, kind: Class)

  function StepOf(s: Bytes): Option<Step> {
    match TakeInstruction(s)
    case None => None
    case Some(t) => Some(Step(t.rest, Nesting(t.instruction.op), ClassIn(t.instruction)))
  }

  function StepWith(op: Byte, sub: nat, s: Bytes): Option<Step> {
    match ShapeOf(op, sub)
    case None => None
    case Some(shape) =>
      match ImmediateRest(shape, s)
      case None => None
      case Some(rest) => Some(Step(rest, Nesting(op), ClassOf(op, sub)))
  }

  lemma StepIs(s: Bytes)
    requires |s| > 0
    ensures StepOf(s) == if Prefixed(s[0]) then
                           match TakeLebs(s[1..], 1)
                           case None => None
                           case Some(sub) => StepWith(s[0], ValueOf(sub.raw), sub.rest)
                         else StepWith(s[0], 0, s[1..])
  {
    hide TakeLebs, ShapeOf, TakeImmediate;
    assert Decode([]) == None;
  }

  ghost predicate Stepped(bytes: Bytes, end: nat, next: Option<nat>, nesting: int, kind: Class, step: Option<Step>)
    requires end <= |bytes|
  {
    match step
    case None => next == None || next.value > end
    case Some(t) =>
      next.Some? && next.value <= end && bytes[next.value..end] == t.rest && nesting == t.nesting && kind == t.kind
  }

  lemma StepFrom(bytes: Bytes, cursor: nat, end: nat, next: Option<nat>, op: Byte, sub: nat)
    requires cursor <= end <= |bytes| && ShapeOf(op, sub).Some?
    requires StandsAt(bytes, end, next, ImmediateRest(ShapeOf(op, sub).value, bytes[cursor..end]))
    ensures Stepped(bytes, end, next, Nesting(op), ClassOf(op, sub), StepWith(op, sub, bytes[cursor..end]))
  {
    hide ShapeOf, ImmediateRest, Nesting, ClassOf;
  }

  lemma PlainRest(n: nat, s: Bytes)
    ensures ImmediateRest(Plain(n), s) == FieldsRest(s, n)
  {
  }

  lemma NothingCarried(bytes: Bytes, cursor: nat, end: nat)
    requires cursor <= end <= |bytes|
    ensures StandsAt(bytes, end, Some(cursor), ImmediateRest(Plain(0), bytes[cursor..end]))
  {
  }

  lemma RawCarried(bytes: Bytes, cursor: nat, end: nat, n: nat)
    requires cursor <= end <= |bytes|
    ensures StandsAt(bytes, end, Some(cursor + n), ImmediateRest(Fixed(n), bytes[cursor..end]))
  {
    if n <= end - cursor {
      assert bytes[cursor..end][n..] == bytes[cursor + n..end];
    }
  }

  /** Step over what an opcode of a known shape carries. */
  method SkipImmediate(bytes: Bytes, cursor: nat, end: nat, shape: Shape) returns (r: Option<nat>)
    requires cursor <= end <= |bytes|
    requires shape.Plain? ==> shape.n <= 2
    requires shape.Memory? ==> shape.lane <= 1
    ensures StandsAt(bytes, end, r, ImmediateRest(shape, bytes[cursor..end]))
    ensures r.Some? ==> cursor <= r.value
  {
    hide ImmediateRest, FieldsRest;
    match shape
    case Plain(n) =>
      PlainRest(n, bytes[cursor..end]);
      if n == 0 {
        NothingCarried(bytes, cursor, end);
        r := Some(cursor);
      } else if n == 1 {
        r := SkipOne(bytes, cursor, end);
      } else {
        r := SkipTwo(bytes, cursor, end);
      }
    case Memory(lane) =>
      r := SkipMemArg(bytes, cursor, end);
      if lane == 1 {
        LaneRest(bytes[cursor..end]);
        if r.Some? {
          assert r.value < end ==> bytes[r.value..end][1..] == bytes[r.value + 1..end];
          r := Some(r.value + 1);
        }
      }
    case Fixed(n) =>
      RawCarried(bytes, cursor, end, n);
      r := Some(cursor + n);
    case Branches => r := SkipBranches(bytes, cursor, end);
    case Types => r := SkipTypes(bytes, cursor, end);
    case Catches => r := SkipCatches(bytes, cursor, end);
  }

  /** The switch over opcodes: step over one instruction at `cursor`. */
  method InstructionAt(bytes: Bytes, cursor: nat, end: nat) returns (next: Option<nat>, nesting: int, kind: Class)
    requires cursor < end <= |bytes|
    ensures Stepped(bytes, end, next, nesting, kind, StepOf(bytes[cursor..end]))
    ensures next.Some? ==> cursor < next.value
  {
    hide TakeLebs, ValueOf, TakeInstruction, TakeImmediate, StepOf, ShapeOf, Nesting, ClassOf;
    var op := bytes[cursor];
    assert bytes[cursor..end][1..] == bytes[cursor + 1..end] && bytes[cursor..end][0] == op;
    StepIs(bytes[cursor..end]);
    var sub, start := 0, cursor + 1;
    if Prefixed(op) {
      var value, after := TakeLebAt(bytes, cursor + 1, end);
      if value == None {
        return None, 0, Other;
      }
      sub, start := value.value, after;
    }
    nesting, kind := Nesting(op), ClassOf(op, sub);
    var shape := Classify(op, sub);
    if shape == None {
      return None, nesting, kind;
    }
    next := SkipImmediate(bytes, start, end, shape.value);
    StepFrom(bytes, start, end, next, op, sub);
  }

  /** The cases of the switch, in the order it lists them. */
  method Classify(op: Byte, sub: nat) returns (r: Option<Shape>)
    ensures r == ShapeOf(op, sub)
    ensures r.Some? && r.value.Plain? ==> r.value.n <= 2
    ensures r.Some? && r.value.Memory? ==> r.value.lane <= 1
  {
    if op == 0x00 || op == 0x01 || op == 0x05 || op == 0x0f || op == 0x1a || op == 0x1b || op == 0x0b {
      return Some(Plain(0));
    } else if op == 0x02 || op == 0x03 || op == 0x04 || op == 0x06 || op == 0x07 || op == 0x08 || op == 0x09 {
      return Some(Plain(1));
    } else if op == 0x0a || op == 0x19 {
      return Some(Plain(0));
    } else if op == 0x18 || op == 0x0c || op == 0x0d || op == 0x10 || op == 0x12 || op == 0x14 || op == 0x15 {
      return Some(Plain(1));
    } else if op == 0x1f {
      return Some(Catches);
    } else if op == 0x0e {
      return Some(Branches);
    } else if op == 0x11 || op == 0x13 {
      return Some(Plain(2));
    } else if op == 0x1c {
      return Some(Types);
    } else if 0x20 <= op <= 0x26 || op == 0x3f || op == 0x40 || op == 0x41 || op == 0x42 {
      return Some(Plain(1));
    } else if op == 0x43 || op == 0x44 {
      return Some(Fixed(if op == 0x43 then 4 else 8));
    } else if op == 0xd1 || op == 0xd3 || op == 0xd4 {
      return Some(Plain(0));
    } else if op == 0xd0 || op == 0xd2 || op == 0xd5 || op == 0xd6 {
      return Some(Plain(1));
    } else if op == 0xfc {
      return BulkShape(sub);
    } else if op == 0xfd {
      return Some(SimdShape(sub));
    } else if op == 0xfe {
      return Some(if sub == 0x03 then Fixed(1) else Memory(0));
    } else if 0x28 <= op <= 0x3e {
      return Some(Memory(0));
    } else if 0x45 <= op <= 0xc4 {
      return Some(Plain(0));
    }
    return None;
  }

  // ----- bodies and the section --------------------------------------------------------------------------------

  lemma ScanStep(s: Bytes, depth: int, counts: Counts)
    requires |s| > 0 && depth != 0
    ensures ScanFrom(s, depth, counts)
         == match StepOf(s)
            case None => None
            case Some(t) => ScanFrom(t.rest, depth + t.nesting, Plus(counts, Tally(t.kind)))
  {
    hide TakeInstruction, Nesting, ClassIn, Plus, Tally;
  }

  lemma ScanEnd(s: Bytes, depth: int, counts: Counts)
    requires |s| == 0 || depth == 0
    ensures ScanFrom(s, depth, counts) == if |s| == 0 && depth == 0 then Some(counts) else None
  {
  }

  /** Walk one body to its closing end, counting by class. */
  method ScanFunctionBody(bytes: Bytes, bodyStart: nat, bodyEnd: nat) returns (r: Option<Counts>)
    requires bodyStart <= bodyEnd <= |bytes|
    ensures r == ScanBody(bytes[bodyStart..bodyEnd])
  {
    hide TakeLebs, ValueOf, TakeFields, ScanFrom, StepOf;
    var localVecCount, cursor := TakeLebAt(bytes, bodyStart, bodyEnd);
    if localVecCount == None {
      return None;
    }
    var code := SkipLocals(bytes, cursor, bodyEnd, localVecCount.value);
    if code == None {
      return None;
    }
    cursor := code.value;
    var counts, depth := NO_COUNTS, 1;
    while cursor < bodyEnd
      invariant cursor <= bodyEnd
      invariant ScanBody(bytes[bodyStart..bodyEnd]) == ScanFrom(bytes[cursor..bodyEnd], depth, counts)
      decreases bodyEnd - cursor
    {
      hide ScanBody, Tally, Plus;
      if depth == 0 {
        ScanEnd(bytes[cursor..bodyEnd], depth, counts);
        return None;
      }
      var next, nesting, kind := InstructionAt(bytes, cursor, bodyEnd);
      ScanStep(bytes[cursor..bodyEnd], depth, counts);
      if next == None || next.value > bodyEnd {
        return None;
      }
      depth, counts, cursor := depth + nesting, Plus(counts, Tally(kind)), next.value;
    }
    ScanEnd(bytes[cursor..bodyEnd], depth, counts);
    if depth != 0 {
      return None;
    }
    return Some(counts);
  }

  /** Local declarations: a count and a type each; a one-byte type is a one-byte integer. */
  method SkipLocals(bytes: Bytes, start: nat, end: nat, count: nat) returns (r: Option<nat>)
    requires start <= end <= |bytes|
    ensures StandsAt(bytes, end, r, FieldsRest(bytes[start..end], 2 * count))
    ensures r.Some? ==> start <= r.value <= end
  {
    hide TakeFields, FieldsRest, SkipLength;
    var cursor := start;
    for i := 0 to count
      invariant start <= cursor <= end
      invariant FieldsRest(bytes[start..end], 2 * count) == FieldsRest(bytes[cursor..end], 2 * (count - i))
    {
      var declared := SkipLeb(bytes, cursor, end);
      FieldsStep(bytes[cursor..end], 2 * (count - i));
      if declared == None {
        return None;
      }
      assert bytes[cursor..end][declared.value - cursor..] == bytes[declared.value..end];
      FieldsStep(bytes[declared.value..end], 2 * (count - i) - 1);
      var typed := TypeAt(bytes, declared.value, end);
      if typed == None {
        return None;
      }
      assert bytes[declared.value..end][typed.value - declared.value..] == bytes[typed.value..end];
      cursor := typed.value;
    }
    NoFieldsRest(bytes[cursor..end]);
    return Some(cursor);
  }

  method TypeAt(bytes: Bytes, cursor: nat, end: nat) returns (r: Option<nat>)
    requires cursor <= end <= |bytes|
    ensures match SkipLength(bytes[cursor..end])
      case None => r == None
      case Some(k) => r == Some(cursor + k)
  {
    if cursor >= end {
      return None;
    }
    if bytes[cursor] >= 128 {
      r := SkipLeb(bytes, cursor, end);
    } else {
      r := Some(cursor + 1);
    }
  }

  /** Every declared body in turn; one that does not decode is counted and passed over. */
  method ScanCode(bytes: Bytes, payloadStart: nat, payloadEnd: nat) returns (totals: Totals)
    requires payloadStart <= payloadEnd <= |bytes|
    ensures totals == ScanPayload(bytes[payloadStart..payloadEnd])
  {
    hide TakeLebs, ValueOf, ScanBody, ScanBodies;
    totals := Totals(NO_COUNTS, 0);
    var funcCount, cursor := TakeLebAt(bytes, payloadStart, payloadEnd);
    if funcCount == None {
      return totals.(undecodable := 1);
    }
    var n := funcCount.value;
    for i := 0 to n
      invariant 0 <= cursor <= payloadEnd
      invariant ScanPayload(bytes[payloadStart..payloadEnd]) == ScanBodies(bytes[cursor..payloadEnd], n - i, totals)
    {
      hide ScanPayload, AddBody;
      BodiesStep(bytes[cursor..payloadEnd], n - i, totals);
      if cursor >= payloadEnd {
        return totals.(undecodable := totals.undecodable + (n - i));
      }
      var size, bodyStart := TakeLebAt(bytes, cursor, payloadEnd);
      if size == None {
        return totals.(undecodable := totals.undecodable + 1);
      }
      var bodyEnd := bodyStart + size.value;
      if bodyEnd > payloadEnd {
        return totals.(undecodable := totals.undecodable + (n - i));
      }
      assert bytes[bodyStart..payloadEnd][..size.value] == bytes[bodyStart..bodyEnd];
      assert bytes[bodyStart..payloadEnd][size.value..] == bytes[bodyEnd..payloadEnd];
      var counts := ScanFunctionBody(bytes, bodyStart, bodyEnd);
      totals := AddBody(totals, counts);
      cursor := bodyEnd;
    }
    assert ScanBodies(bytes[cursor..payloadEnd], 0, totals) == totals by {
      NoBodiesLeft(bytes[cursor..payloadEnd], totals);
    }
  }

  lemma BodiesStep(s: Bytes, n: nat, totals: Totals)
    requires n > 0
    ensures ScanBodies(s, n, totals) ==
      if |s| == 0 then totals.(undecodable := totals.undecodable + n)
      else match TakeLebs(s, 1)
           case None => totals.(undecodable := totals.undecodable + 1)
           case Some(size) =>
             if ValueOf(size.raw) > |size.rest| then totals.(undecodable := totals.undecodable + n)
             else
               var body, rest := size.rest[..ValueOf(size.raw)], size.rest[ValueOf(size.raw)..];
               ScanBodies(rest, n - 1, AddBody(totals, ScanBody(body)))
  {
    hide TakeLebs, ValueOf, ScanBody, AddBody;
  }

  lemma NoBodiesLeft(s: Bytes, totals: Totals)
    ensures ScanBodies(s, 0, totals) == totals
  {
  }
}
