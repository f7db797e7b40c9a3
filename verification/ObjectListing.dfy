/** What the listing of an object means, on the numbers of the tool conventions: how a symbol is
    spelled, what its flags say, and which import names it. */
module ObjectListing {
  import opened Options
  import opened Fields
  import opened Leb128
  import opened WasmModule
  import opened ObjectSymbols
  import opened SymbolTable
  import opened ObjectImports
  import opened ObjectRenaming
  import opened RenamedObjects

  // ----- which import names a symbol -----------------------------------------------------------------

  /** The imports of a kind before position `j`. */
  ghost function OfKind(xs: seq<Import>, kind: Byte, j: nat): set<nat>
    requires j <= |xs|
  {
    set i: nat | i < j && xs[i].kind == kind
  }

  lemma {:induction false} KindIndexCounts(xs: seq<Import>, kind: Byte, j: nat)
    requires j <= |xs|
    ensures KindIndex(xs, kind, j) == |OfKind(xs, kind, j)|
  {
    if j > 0 {
      KindIndexCounts(xs, kind, j - 1);
      var before := OfKind(xs, kind, j - 1);
      if xs[j - 1].kind == kind {
        assert OfKind(xs, kind, j) == before + {j - 1};
      } else {
        assert OfKind(xs, kind, j) == before;
      }
    } else {
      assert OfKind(xs, kind, 0) == {};
    }
  }

  /** A symbol's kind and the kind of import it refers to. */
  ghost predicate Corresponds(symbol: Byte, imported: Byte) {
    || (symbol == 0 && imported == 0)
    || (symbol == 2 && imported == 3)
    || (symbol == 4 && imported == 4)
    || (symbol == 5 && imported == 1)
  }

  /** `j` is the import a symbol of this kind with this index refers to: the one with so many of its
      kind before it. */
  ghost predicate RefersTo(xs: seq<Import>, kind: Byte, index: nat, j: nat) {
    j < |xs| && Corresponds(kind, xs[j].kind) && |OfKind(xs, xs[j].kind, j)| == index
  }

  lemma {:induction false} FindsMatch(xs: seq<Import>, x: Symbol, j: nat)
    requires j <= |xs|
    ensures var r := FindImport(xs, x, j);
      && (r < |xs| ==> Matches(xs, x, r))
      && (forall i: nat :: j <= i < r ==> !Matches(xs, x, i))
    decreases |xs| - j
  {
    if j < |xs| && !Matches(xs, x, j) {
      FindsMatch(xs, x, j + 1);
    }
  }

  lemma MatchRefers(xs: seq<Import>, x: Symbol, j: nat)
    requires j < |xs| && Indexed(x.kind)
    ensures Matches(xs, x, j) <==> RefersTo(xs, x.kind, ValueOf(x.index), j)
  {
    hide KindIndex, ValueOf;
    KindIndexCounts(xs, xs[j].kind, j);
  }

  lemma {:induction false} NthOfKind(xs: seq<Import>, kind: Byte, n: nat, m: nat) returns (j: nat)
    requires m <= |xs| && n < |OfKind(xs, kind, m)|
    ensures j < m && xs[j].kind == kind && |OfKind(xs, kind, j)| == n
    decreases m
  {
    assert OfKind(xs, kind, 0) == {};
    var before := OfKind(xs, kind, m - 1);
    assert OfKind(xs, kind, m) == if xs[m - 1].kind == kind then before + {m - 1} else before;
    if n < |before| {
      j := NthOfKind(xs, kind, n, m - 1);
    } else {
      j := m - 1;
    }
  }

  /** The import found is the one referred to, and none is found only if the kind has no more than
      that many. */
  lemma FindImportRefers(xs: seq<Import>, x: Symbol, imported: Byte)
    requires Indexed(x.kind) && Corresponds(x.kind, imported)
    ensures var j := FindImport(xs, x, 0);
      && (j < |xs| ==> RefersTo(xs, x.kind, ValueOf(x.index), j))
      && (j == |xs| <==> |OfKind(xs, imported, |xs|)| <= ValueOf(x.index))
  {
    hide Matches, FindImport, ValueOf, KindIndex;
    var j, n := FindImport(xs, x, 0), ValueOf(x.index);
    FindsMatch(xs, x, 0);
    if j < |xs| {
      MatchRefers(xs, x, j);
      var before, all := OfKind(xs, imported, j), OfKind(xs, imported, |xs|);
      Larger(before, all, j);
    } else if n < |OfKind(xs, imported, |xs|)| {
      var i := NthOfKind(xs, imported, n, |xs|);
      MatchRefers(xs, x, i);
    }
  }

  lemma Larger<T>(a: set<T>, b: set<T>, x: T)
    requires a <= b && x in b && x !in a
    ensures |a| < |b|
  {
    assert b == a + {x} + (b - a - {x});
  }

  // ----- the listing ---------------------------------------------------------------------------------

  /** How a symbol of each kind is spelled: an index and, unless undefined without an explicit name, a
      name; or a name and, unless undefined, three numbers; or an index alone. */
  ghost predicate SpelledOut(x: Symbol) {
    var f := ValueOf(x.flags);
    var undefined, explicit := f / 16 % 2 == 1, f / 64 % 2 == 1;
    && AreLebs(x.flags, 1)
    && (x.name.Some? ==> Decode(x.name.value.length) == Some(Leb(|x.name.value.text|, |x.name.value.length|)))
    && (|| (x.kind in {0, 2, 4, 5} && AreLebs(x.index, 1) && x.tail == []
            && (x.name == None <==> undefined && !explicit))
        || (x.kind == 1 && x.index == [] && x.name.Some? && (if undefined then x.tail == [] else AreLebs(x.tail, 3)))
        || (x.kind == 3 && AreLebs(x.index, 1) && x.name == None && x.tail == []))
  }

  lemma GoodIsSpelledOut(x: Symbol)
    ensures GoodSymbol(x) <==> SpelledOut(x)
  {
    hide AreLebs, Decode, ValueOf;
  }

  /** Limits: a flag byte, a minimum, a maximum if bit 0 is set, a page size if bit 3 is. */
  ghost predicate AreLimits(s: Bytes) {
    s != [] && AreLebs(s[1..], 1 + (s[0] as nat % 2) + (s[0] as nat / 8 % 2))
  }

  /** How an import of each kind is described. */
  ghost predicate Described(kind: Byte, desc: Bytes) {
    || (kind == 0 && AreLebs(desc, 1))
    || (kind == 1 && desc != [] && desc[0] != 0x63 && desc[0] != 0x64 && AreLimits(desc[1..]))
    || (kind == 2 && AreLimits(desc))
    || (kind == 3 && |desc| <= 2 && (desc != [] ==> desc[0] != 0x63 && desc[0] != 0x64))
    || (kind == 4 && desc != [] && AreLebs(desc[1..], 1))
  }

  lemma LimitsMean(s: Bytes)
    ensures LimitsLength(s) == Some(|s|) <==> AreLimits(s)
  {
    hide LebsLength;
    if s != [] {
      assert Bit(s[0], 1) == s[0] as nat % 2 && Bit(s[0], 8) == s[0] as nat / 8 % 2;
    }
  }

  /** An import that reads is described so, by number. */
  lemma GoodImportIsDescribed(x: Import)
    ensures GoodImport(x) <==>
      && Decode(x.mod.length) == Some(Leb(|x.mod.text|, |x.mod.length|))
      && Decode(x.field.length) == Some(Leb(|x.field.text|, |x.field.length|))
      && Described(x.kind, x.desc)
  {
    hide LebsLength, LimitsLength, AreLimits, Decode;
    LimitsMean(x.desc);
    if x.desc != [] {
      LimitsMean(x.desc[1..]);
    }
  }

  /** What the listing says of a symbol. */
  ghost predicate Says(o: Object, x: Symbol, l: Listed) {
    var f := ValueOf(x.flags);
    && l.kind == x.kind && l.flags == f
    && (l.defined <==> f / 16 % 2 == 0) && (l.isLocal <==> f / 2 % 2 == 1) && (l.weak <==> f % 2 == 1)
    && (x.name.Some? ==> l.name == x.name.value.text)
    && (x.kind == 3 ==> l.name == [])
    && (x.name == None && x.kind != 3 ==> NamedAs(o.imports.entries, x, l.name))
  }

  /** The name of the import referred to, or no name if there is none. */
  ghost predicate NamedAs(xs: seq<Import>, x: Symbol, name: Bytes) {
    || (exists j: nat :: RefersTo(xs, x.kind, ValueOf(x.index), j) && name == xs[j].field.text)
    || (name == [] && forall j: nat :: !RefersTo(xs, x.kind, ValueOf(x.index), j))
  }

  lemma {:induction false} KindCountGrows(xs: seq<Import>, kind: Byte, i: nat, j: nat)
    requires i < j <= |xs| && xs[i].kind == kind
    ensures |OfKind(xs, kind, i)| < |OfKind(xs, kind, j)|
  {
    Larger(OfKind(xs, kind, i), OfKind(xs, kind, j), i);
  }

  /** A symbol refers to one import at most. */
  lemma RefersToOne(xs: seq<Import>, kind: Byte, index: nat, i: nat, j: nat)
    requires RefersTo(xs, kind, index, i) && RefersTo(xs, kind, index, j)
    ensures i == j
  {
    assert xs[i].kind == xs[j].kind;
    if i < j {
      KindCountGrows(xs, xs[i].kind, i, j);
    } else if j < i {
      KindCountGrows(xs, xs[i].kind, j, i);
    }
  }

  lemma NamedByImport(o: Object, x: Symbol)
    requires GoodSymbol(x) && ImportNamed(x)
    ensures NamedAs(o.imports.entries, x, NameOf(o, x))
  {
    var xs := o.imports.entries;
    hide Matches, FindImport, ValueOf, AreLebs, IsName, OwnName;
    var i := FindImport(xs, x, 0);
    assert FindImport(xs, x, 0) <= |xs|;
    FindImportRefers(xs, x, if x.kind == 0 then 0 else if x.kind == 2 then 3 else if x.kind == 4 then 4 else 1);
    if i == |xs| {
      forall j: nat | RefersTo(xs, x.kind, ValueOf(x.index), j)
        ensures false
      {
        KindCountGrows(xs, xs[j].kind, j, |xs|);
      }
    }
  }

  lemma SymbolMeans(o: Object, i: nat)
    requires GoodObject(o) && i < |o.table.symbols|
    ensures SpelledOut(o.table.symbols[i]) && Says(o, o.table.symbols[i], ListedAs(o, i))
  {
    hide GoodObject, GoodSymbol, NamedAs, ValueOf, FindImport, AreLebs, Decode;
    var x := o.table.symbols[i];
    GoodInTable(o, i);
    GoodIsSpelledOut(x);
    if ImportNamed(x) {
      NamedByImport(o, x);
    }
  }

  /** The listing of every object that reads, symbol by symbol, on the numbers. */
  lemma ListingMeans(bytes: Bytes, i: nat)
    requires ReadObject(bytes).Some? && i < |ReadObject(bytes).value.table.symbols|
    ensures var o := ReadObject(bytes).value;
      var x := o.table.symbols[i];
      && ListSymbols(bytes).Some? && i < |ListSymbols(bytes).value| && ListSymbols(bytes).value[i].index == i
      && SpelledOut(x) && Says(o, x, ListSymbols(bytes).value[i])
  {
    hide ReadObject, GoodObject, SpelledOut, Says, NameOf, Undefined, Local, Weak, ValueOf;
    ReadObjectIsGood(bytes);
    SymbolMeans(ReadObject(bytes).value, i);
  }

  lemma GoodInTable(o: Object, i: nat)
    requires GoodObject(o) && i < |o.table.symbols|
    ensures GoodSymbol(o.table.symbols[i])
  {
    hide GoodSymbol, PrintTable, GoodImports, AllWellFormed;
  }

  /** Behind a memory import, function 0 is still the first imported function. */
  lemma FooIsFound(memory: Import, foo: Import, x: Symbol)
    requires memory.kind == 2 && foo.kind == 0 && x.kind == 0 && ValueOf(x.index) == 0
    ensures FindImport([memory, foo], x, 0) == 1
  {
    var xs := [memory, foo];
    assert OfKind(xs, 0, 1) == {};
    FindImportRefers(xs, x, 0);
    assert 1 in OfKind(xs, 0, 2);
    assert RefersTo(xs, 0, 0, 1);
    RefersToOne(xs, 0, 0, FindImport(xs, x, 0), 1);
  }
}
