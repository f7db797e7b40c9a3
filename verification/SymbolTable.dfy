/** The data of a "linking" section: a metadata version, subsections, and among them the first
    symbol table (id 8).  Reading keeps every spelling, so that printing is its inverse. */
module SymbolTable {
  import opened Options
  import opened Fields
  import opened Leb128
  import opened Sequences
  import opened WasmModule
  import opened NameSplice
  import opened ObjectSymbols

  const SYMBOL_TABLE_ID: Byte := 8

  datatype Table = Table(
    version: Bytes,
    before: seq<Section>,
    size: Bytes,
    count: Bytes,
    symbols: seq<Symbol>,
    after: Bytes)

  // ----- a run of symbols ---------------------------------------------------------------------------

  datatype TakenSymbols = TakenSymbols(symbols: seq<Symbol>, rest: Bytes)

  function TakeSymbols(s: Bytes, n: nat): Option<TakenSymbols>
    decreases n
  {
    if n == 0 then Some(TakenSymbols([], s))
    else
      match TakeSymbol(s)
      case None => None
      case Some(t) =>
        match TakeSymbols(t.rest, n - 1)
        case None => None
        case Some(ts) => Some(TakenSymbols([t.symbol] + ts.symbols, ts.rest))
  }

  function Items(xs: seq<Symbol>): (r: seq<Item>)
    ensures |r| == |xs| && forall i: nat :: i < |xs| ==> r[i] == SymbolItem(xs[i])
  {
    seq(|xs|, i requires 0 <= i < |xs| => SymbolItem(xs[i]))
  }

  function PrintSymbols(xs: seq<Symbol>): Bytes {
    PrintItems(Items(xs))
  }

  ghost predicate AllGood(xs: seq<Symbol>) {
    forall i: nat :: i < |xs| ==> GoodSymbol(xs[i])
  }

  lemma PrintCons(x: Symbol, xs: seq<Symbol>)
    ensures PrintSymbols([x] + xs) == PrintSymbol(x) + PrintSymbols(xs)
  {
    hide PrintItem, SymbolItem;
    assert Items([x] + xs)[1..] == Items(xs);
  }

  lemma GoodCons(x: Symbol, xs: seq<Symbol>)
    requires GoodSymbol(x) && AllGood(xs)
    ensures AllGood([x] + xs)
  {
    hide GoodSymbol;
  }

  lemma {:induction false} TakenSymbolsAreGood(s: Bytes, n: nat)
    requires TakeSymbols(s, n).Some?
    ensures var ts := TakeSymbols(s, n).value;
      |ts.symbols| == n && AllGood(ts.symbols) && PrintSymbols(ts.symbols) + ts.rest == s
    decreases n
  {
    hide TakeSymbol, PrintSymbols, PrintSymbol, AllGood, GoodSymbol;
    if n == 0 {
      assert AllGood([]) && PrintSymbols([]) == [] by { NoSymbols(); }
    } else {
      var t := TakeSymbol(s).value;
      var ts := TakeSymbols(t.rest, n - 1).value;
      TakenSymbolIsGood(s);
      TakenSymbolsAreGood(t.rest, n - 1);
      GoodCons(t.symbol, ts.symbols);
      PrintCons(t.symbol, ts.symbols);
      assert PrintSymbol(t.symbol) + PrintSymbols(ts.symbols) + ts.rest
          == PrintSymbol(t.symbol) + (PrintSymbols(ts.symbols) + ts.rest);
    }
  }

  lemma NoSymbols()
    ensures AllGood([]) && PrintSymbols([]) == []
  {
  }

  lemma {:induction false} GoodSymbolsAreTaken(xs: seq<Symbol>, u: Bytes)
    requires AllGood(xs)
    ensures TakeSymbols(PrintSymbols(xs) + u, |xs|) == Some(TakenSymbols(xs, u))
  {
    hide TakeSymbol, PrintSymbols, PrintSymbol, GoodSymbol;
    if |xs| == 0 {
      NoSymbols();
      assert [] + u == u;
    } else {
      GoodSymbolIsTaken(xs[0], PrintSymbols(xs[1..]) + u);
      GoodSymbolsAreTaken(xs[1..], u);
      PrintCons(xs[0], xs[1..]);
      assert xs == [xs[0]] + xs[1..];
      assert PrintSymbol(xs[0]) + PrintSymbols(xs[1..]) + u == PrintSymbol(xs[0]) + (PrintSymbols(xs[1..]) + u);
    }
  }

  // ----- subsections -----------------------------------------------------------------------------------

  /** The subsection at the front of `s`. */
  function TakeSub(s: Bytes): (r: Option<Section>)
    requires |s| > 0
    ensures r.Some? ==> 0 < |Raw(r.value)| <= |s| && Raw(r.value) == s[..|Raw(r.value)|]
  {
    match Decode(s[1..])
    case None => None
    case Some(l) =>
      var start := 1 + l.length;
      if start + l.value > |s| then None
      else
        var x := Section(s[0], s[1..start], s[start..start + l.value]);
        assert Raw(x) == s[..start + l.value];
        Some(x)
  }

  predicate Sized(x: Section) {
    Decode(x.size) == Some(Leb(|x.payload|, |x.size|))
  }

  lemma TakenSubIsSized(s: Bytes)
    requires |s| > 0 && TakeSub(s).Some?
    ensures Sized(TakeSub(s).value)
    ensures Raw(TakeSub(s).value) + s[|Raw(TakeSub(s).value)|..] == s
  {
    var x, l := TakeSub(s).value, Decode(s[1..]).value;
    DecodeFront(s[1..], []);
    assert s[1..][..l.length] + [] == x.size;
  }

  lemma SizedIsTaken(x: Section, u: Bytes)
    requires Sized(x)
    ensures TakeSub(Raw(x) + u) == Some(x)
  {
    hide Decode;
    var s := Raw(x) + u;
    assert s[1..] == x.size + (x.payload + u);
    DecodeExtends(x.size, x.payload + u);
    assert s[1..1 + |x.size|] == x.size && s[1 + |x.size|..|Raw(x)|] == x.payload;
  }

  datatype Found = Found(before: seq<Section>, table: Section, after: Bytes)

  /** The first symbol table among the subsections, and what surrounds it. */
  function FindTable(s: Bytes): Option<Found>
    decreases |s|
  {
    if |s| == 0 then None
    else
      match TakeSub(s)
      case None => None
      case Some(x) =>
        if x.id == SYMBOL_TABLE_ID then Some(Found([], x, s[|Raw(x)|..]))
        else
          match FindTable(s[|Raw(x)|..])
          case None => None
          case Some(f) => Some(f.(before := [x] + f.before))
  }

  predicate Skipped(x: Section) {
    Sized(x) && x.id != SYMBOL_TABLE_ID
  }

  ghost predicate AllSkipped(xs: seq<Section>) {
    forall i: nat :: i < |xs| ==> Skipped(xs[i])
  }

  ghost predicate GoodFound(f: Found) {
    AllSkipped(f.before) && Sized(f.table) && f.table.id == SYMBOL_TABLE_ID
  }

  function PrintFound(f: Found): Bytes {
    Emit(f.before) + (Raw(f.table) + f.after)
  }

  lemma {:induction false} FoundIsGood(s: Bytes)
    requires FindTable(s).Some?
    ensures GoodFound(FindTable(s).value) && PrintFound(FindTable(s).value) == s
    decreases |s|
  {
    hide TakeSub, Raw, Sized;
    var x, f := TakeSub(s).value, FindTable(s).value;
    TakenSubIsSized(s);
    if x.id == SYMBOL_TABLE_ID {
      assert [] + s == s;
    } else {
      var f' := FindTable(s[|Raw(x)|..]).value;
      FoundIsGood(s[|Raw(x)|..]);
      assert f.before[1..] == f'.before;
      assert Raw(x) + Emit(f'.before) + (Raw(f.table) + f.after)
          == Raw(x) + (Emit(f'.before) + (Raw(f.table) + f.after));
    }
  }

  lemma FindStep(x: Section, t: Bytes)
    requires Sized(x)
    ensures FindTable(Raw(x) + t) == if x.id == SYMBOL_TABLE_ID then Some(Found([], x, t))
                                     else match FindTable(t)
                                          case None => None
                                          case Some(f) => Some(f.(before := [x] + f.before))
  {
    SizedIsTaken(x, t);
    hide TakeSub, Sized;
    assert |Raw(x)| > 0;
    hide Raw;
    assert (Raw(x) + t)[|Raw(x)|..] == t;
  }

  lemma PrintStep(f: Found)
    ensures |f.before| == 0 ==> PrintFound(f) == Raw(f.table) + f.after
    ensures |f.before| > 0 ==> PrintFound(f) == Raw(f.before[0]) + PrintFound(f.(before := f.before[1..]))
  {
    hide Raw;
    if |f.before| > 0 {
      Assoc(Raw(f.before[0]), Emit(f.before[1..]), Raw(f.table) + f.after);
    } else {
      assert [] + (Raw(f.table) + f.after) == Raw(f.table) + f.after;
    }
  }

  lemma {:induction false} GoodIsFound(f: Found)
    requires GoodFound(f)
    ensures FindTable(PrintFound(f)) == Some(f)
    decreases |f.before|
  {
    hide Raw, Sized, FindTable, PrintFound;
    PrintStep(f);
    if |f.before| == 0 {
      FindStep(f.table, f.after);
    } else {
      var x, f' := f.before[0], f.(before := f.before[1..]);
      assert Skipped(x);
      GoodIsFound(f');
      FindStep(x, PrintFound(f'));
      assert f.before == [x] + f.before[1..];
    }
  }

  // ----- the table ---------------------------------------------------------------------------------------

  function Content(t: Table): Bytes {
    t.count + PrintSymbols(t.symbols)
  }

  function TableFound(t: Table): Found {
    Found(t.before, Section(SYMBOL_TABLE_ID, t.size, Content(t)), t.after)
  }

  function PrintTable(t: Table): Bytes {
    t.version + PrintFound(TableFound(t))
  }

  /** Symbols are read from the rest of the section; they must end where the subsection does. */
  function ReadTable(data: Bytes): Option<Table> {
    match TakeLebs(data, 1)
    case None => None
    case Some(v) =>
      match FindTable(v.rest)
      case None => None
      case Some(f) => ReadSymbols(v.raw, f)
  }

  function ReadSymbols(version: Bytes, f: Found): Option<Table> {
    match TakeLebs(f.table.payload + f.after, 1)
    case None => None
    case Some(c) =>
      match TakeSymbols(c.rest, ValueOf(c.raw))
      case None => None
      case Some(ts) =>
        if |ts.rest| != |f.after| then None
        else Some(Table(version, f.before, f.table.size, c.raw, ts.symbols, f.after))
  }

  ghost predicate GoodTable(t: Table) {
    && AreLebs(t.version, 1) && AreLebs(t.count, 1) && ValueOf(t.count) == |t.symbols|
    && AllGood(t.symbols) && GoodFound(TableFound(t))
  }

  lemma SameEnd<T>(a: seq<T>, b: seq<T>, c: seq<T>, d: seq<T>)
    requires a + b == c + d && |b| == |d|
    ensures a == c && b == d
  {
    assert a == (a + b)[..|a|] && c == (c + d)[..|c|];
    assert b == (a + b)[|a|..] && d == (c + d)[|c|..];
  }

  lemma ReadSymbolsIsGood(version: Bytes, f: Found)
    requires ReadSymbols(version, f).Some?
    ensures var t := ReadSymbols(version, f).value;
      && TableFound(t) == f.(table := f.table.(id := SYMBOL_TABLE_ID)) && AllGood(t.symbols)
      && AreLebs(t.count, 1) && ValueOf(t.count) == |t.symbols| && t.version == version
  {
    hide TakeLebs, AreLebs, TakeSymbols, AllGood, PrintSymbols, ValueOf;
    var s := f.table.payload + f.after;
    var c := TakeLebs(s, 1).value;
    TakenAreLebs(s, 1);
    TakenSymbolsAreGood(c.rest, ValueOf(c.raw));
    var ts := TakeSymbols(c.rest, ValueOf(c.raw)).value;
    assert c.raw + PrintSymbols(ts.symbols) + ts.rest == c.raw + (PrintSymbols(ts.symbols) + ts.rest);
    SameEnd(c.raw + PrintSymbols(ts.symbols), ts.rest, f.table.payload, f.after);
  }

  /** What is read is a good table, and printing it gives the data back. */
  lemma ReadTableIsGood(data: Bytes)
    requires ReadTable(data).Some?
    ensures GoodTable(ReadTable(data).value) && PrintTable(ReadTable(data).value) == data
  {
    hide TakeLebs, AreLebs, AllGood, PrintSymbols, ValueOf, FindTable, GoodFound, PrintFound, ReadSymbols, TableFound;
    var v := TakeLebs(data, 1).value;
    var f := FindTable(v.rest).value;
    TakenAreLebs(data, 1);
    FoundIsGood(v.rest);
    assert f.table.id == SYMBOL_TABLE_ID by { FoundId(f); }
    ReadSymbolsIsGood(v.raw, f);
  }

  lemma FoundId(f: Found)
    requires GoodFound(f)
    ensures f.table.id == SYMBOL_TABLE_ID
  {
  }

  /** Every good table is read back from its print. */
  lemma GoodTableIsRead(t: Table)
    requires GoodTable(t)
    ensures ReadTable(PrintTable(t)) == Some(t)
  {
    hide TakeLebs, AreLebs, PrintSymbols, ValueOf, FindTable, GoodFound, PrintFound, TakeSymbols, AllGood;
    var f := TableFound(t);
    LebsAreTaken(t.version, 1, PrintFound(f));
    GoodIsFound(f);
    LebsAreTaken(t.count, 1, PrintSymbols(t.symbols) + t.after);
    GoodSymbolsAreTaken(t.symbols, t.after);
    assert Content(t) + t.after == t.count + (PrintSymbols(t.symbols) + t.after);
  }
}
