/** The symbol table of a relocatable wasm object (the symbol table subsection of the
    "linking" section in the WebAssembly tool conventions) and its import section. */
module ObjectSymbols {
  import opened Options
  import opened Fields
  import opened Leb128
  import opened NameSplice

  const FUNCTION: Byte := 0
  const DATA: Byte := 1
  const GLOBAL: Byte := 2
  const SECTION: Byte := 3
  const EVENT: Byte := 4
  const TABLE: Byte := 5

  // ----- names ------------------------------------------------------------------------------------

  datatype TakenName = TakenName(name: Named, rest: Bytes)

  function TakeName(s: Bytes): (r: Option<TakenName>)
    ensures r.Some? ==> r.value.name.length + r.value.name.text + r.value.rest == s
  {
    match Decode(s)
    case None => None
    case Some(l) =>
      if l.length + l.value > |s| then None
      else Some(TakenName(Named(s[..l.length], s[l.length..l.length + l.value]), s[l.length + l.value..]))
  }

  /** The length field spells the text's length. */
  predicate IsName(n: Named) {
    Decode(n.length) == Some(Leb(|n.text|, |n.length|))
  }

  lemma TakenIsName(s: Bytes)
    requires TakeName(s).Some?
    ensures IsName(TakeName(s).value.name)
  {
    var n := TakeName(s).value.name;
    DecodeIsLocal(s, [], MAX_LEB_BYTES);
    assert n.length + [] == n.length;
  }

  lemma NameIsTaken(n: Named, u: Bytes)
    requires IsName(n)
    ensures TakeName(n.length + n.text + u) == Some(TakenName(n, u))
  {
    DecodeExtends(n.length, n.text + u);
    assert n.length + n.text + u == n.length + (n.text + u);
  }

  lemma EncodedIsName(text: Bytes)
    requires |text| < SAFE_LIMIT
    ensures IsName(Named(Encode(|text|), text))
  {
    hide Encode;
    RoundTrip(|text|, 0, []);
    assert Encode(|text|) + [] == Encode(|text|);
  }

  // ----- symbols -------------------------------------------------------------------------------------

  datatype Symbol = Symbol(kind: Byte, flags: Bytes, index: Bytes, name: Option<Named>, tail: Bytes)

  predicate Undefined(flags: Bytes) {
    ValueOf(flags) / 0x10 % 2 == 1
  }

  predicate ExplicitName(flags: Bytes) {
    ValueOf(flags) / 0x40 % 2 == 1
  }

  predicate Local(flags: Bytes) {
    ValueOf(flags) / 0x02 % 2 == 1
  }

  predicate Weak(flags: Bytes) {
    ValueOf(flags) % 2 == 1
  }

  /** Kinds that name an element of the module by its index. */
  predicate Indexed(kind: Byte) {
    kind == FUNCTION || kind == GLOBAL || kind == EVENT || kind == TABLE
  }

  predicate OwnName(flags: Bytes) {
    !Undefined(flags) || ExplicitName(flags)
  }

  function SymbolItem(x: Symbol): Item {
    Item([x.kind] + x.flags + x.index, x.name, x.tail)
  }

  function PrintSymbol(x: Symbol): Bytes {
    PrintItem(SymbolItem(x))
  }

  datatype TakenSymbol = TakenSymbol(symbol: Symbol, rest: Bytes)

  function TakeSymbol(s: Bytes): Option<TakenSymbol> {
    if |s| == 0 then None
    else
      match TakeLebs(s[1..], 1)
      case None => None
      case Some(f) => TakeBody(s[0], f.raw, f.rest)
  }

  /** What follows a symbol's kind and flags. */
  function TakeBody(kind: Byte, flags: Bytes, s: Bytes): Option<TakenSymbol> {
    if Indexed(kind) then
      match TakeLebs(s, 1)
      case None => None
      case Some(e) =>
        if OwnName(flags) then
          match TakeName(e.rest)
          case None => None
          case Some(n) => Some(TakenSymbol(Symbol(kind, flags, e.raw, Some(n.name), []), n.rest))
        else Some(TakenSymbol(Symbol(kind, flags, e.raw, None, []), e.rest))
    else if kind == DATA then
      match TakeName(s)
      case None => None
      case Some(n) =>
        if Undefined(flags) then Some(TakenSymbol(Symbol(kind, flags, [], Some(n.name), []), n.rest))
        else
          match TakeLebs(n.rest, 3)
          case None => None
          case Some(t) => Some(TakenSymbol(Symbol(kind, flags, [], Some(n.name), t.raw), t.rest))
    else if kind == SECTION then
      match TakeLebs(s, 1)
      case None => None
      case Some(e) => Some(TakenSymbol(Symbol(kind, flags, e.raw, None, []), e.rest))
    else None
  }

  predicate GoodSymbol(x: Symbol) {
    && AreLebs(x.flags, 1)
    && (x.name.Some? ==> IsName(x.name.value))
    && (if Indexed(x.kind) then AreLebs(x.index, 1) && x.tail == [] && (x.name.Some? <==> OwnName(x.flags))
        else if x.kind == DATA then
          x.index == [] && x.name.Some? && (if Undefined(x.flags) then x.tail == [] else AreLebs(x.tail, 3))
        else x.kind == SECTION && AreLebs(x.index, 1) && x.name == None && x.tail == [])
  }

  lemma SymbolParts(x: Symbol, u: Bytes)
    ensures PrintSymbol(x) + u == [x.kind] + (x.flags + (x.index + (PrintName(x.name) + (x.tail + u))))
  {
  }

  /** The body read after `flags` is good and spells what was read. */
  predicate ReadsAs(kind: Byte, flags: Bytes, s: Bytes, t: TakenSymbol) {
    && t.symbol.kind == kind && t.symbol.flags == flags && GoodSymbol(t.symbol)
    && t.symbol.index + (PrintName(t.symbol.name) + (t.symbol.tail + t.rest)) == s
  }

  lemma TakenIndexedIsGood(kind: Byte, flags: Bytes, s: Bytes)
    requires TakeBody(kind, flags, s).Some? && AreLebs(flags, 1) && kind != DATA
    ensures ReadsAs(kind, flags, s, TakeBody(kind, flags, s).value)
  {
    hide AreLebs, IsName, OwnName, Undefined, TakeName, TakeLebs;
    TakenAreLebs(s, 1);
    var e, t := TakeLebs(s, 1).value, TakeBody(kind, flags, s).value;
    assert [] + t.rest == t.rest;
    if Indexed(kind) && OwnName(flags) {
      TakenIsName(e.rest);
    } else {
      assert [] + e.rest == e.rest;
    }
  }

  lemma TakenDataIsGood(flags: Bytes, s: Bytes)
    requires TakeBody(DATA, flags, s).Some? && AreLebs(flags, 1)
    ensures ReadsAs(DATA, flags, s, TakeBody(DATA, flags, s).value)
  {
    hide AreLebs, IsName, Undefined, TakeName, TakeLebs;
    TakenIsName(s);
    var n, t := TakeName(s).value, TakeBody(DATA, flags, s).value;
    assert [] + s == s;
    if Undefined(flags) {
      assert [] + t.rest == t.rest;
    } else {
      TakenAreLebs(n.rest, 3);
    }
  }

  lemma TakenSymbolIsGood(s: Bytes)
    requires TakeSymbol(s).Some?
    ensures var t := TakeSymbol(s).value;
      GoodSymbol(t.symbol) && PrintSymbol(t.symbol) + t.rest == s
  {
    hide PrintSymbol, AreLebs, GoodSymbol, TakeBody;
    var t := TakeSymbol(s).value;
    var f := TakeLebs(s[1..], 1).value;
    TakenAreLebs(s[1..], 1);
    if s[0] == DATA {
      TakenDataIsGood(f.raw, f.rest);
    } else {
      TakenIndexedIsGood(s[0], f.raw, f.rest);
    }
    SymbolParts(t.symbol, t.rest);
    assert s == [s[0]] + s[1..];
  }

  lemma GoodSymbolIsTaken(x: Symbol, u: Bytes)
    requires GoodSymbol(x)
    ensures TakeSymbol(PrintSymbol(x) + u) == Some(TakenSymbol(x, u))
  {
    hide PrintSymbol, AreLebs, IsName, OwnName, Undefined, TakeLebs, TakeName;
    SymbolParts(x, u);
    var s3 := x.tail + u;
    var s2 := PrintName(x.name) + s3;
    var s1 := x.index + s2;
    LebsAreTaken(x.flags, 1, s1);
    assert ([x.kind] + (x.flags + s1))[1..] == x.flags + s1;
    if x.name.Some? {
      NameIsTaken(x.name.value, s3);
    }
    if Indexed(x.kind) {
      LebsAreTaken(x.index, 1, s2);
    } else if x.kind == DATA {
      assert s1 == s2;
      if !Undefined(x.flags) {
        LebsAreTaken(x.tail, 3, u);
      }
    } else {
      LebsAreTaken(x.index, 1, s2);
    }
    assert [] + u == u;
  }
}
