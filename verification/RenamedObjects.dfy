/** What renaming does to an object: the names change, and nothing else. */
module RenamedObjects {
  import opened Options
  import opened Fields
  import opened Leb128
  import opened WasmModule
  import opened NameSplice
  import opened ObjectSymbols
  import opened SymbolTable
  import opened ObjectImports
  import opened ObjectRenaming

  // ----- the renamed object ---------------------------------------------------------------------------

  function RenamedSymbol(x: Symbol, name: Option<Bytes>): Symbol {
    if x.name.Some? && name.Some? then x.(name := Some(Named(Encode(|name.value|), name.value))) else x
  }

  function RenamedSymbols(xs: seq<Symbol>, news: seq<Option<Bytes>>): (r: seq<Symbol>)
    requires |xs| == |news|
    ensures |r| == |xs| && forall i: nat :: i < |xs| ==> r[i] == RenamedSymbol(xs[i], news[i])
  {
    seq(|xs|, i requires 0 <= i < |xs| => RenamedSymbol(xs[i], news[i]))
  }

  function Retabled(t: Table, symbols: seq<Symbol>): Table {
    var t' := t.(symbols := symbols);
    t'.(size := EncodeAtWidth(|Content(t')|, |t.size|))
  }

  function RenamedTable(t: Table, m: Renaming): Table {
    Retabled(t, RenamedSymbols(t.symbols, OwnTargets(m, t.symbols)))
  }

  function RenamedEntry(x: Import, name: Option<Bytes>): Import {
    if name.Some? then x.(field := Named(Encode(|name.value|), name.value)) else x
  }

  function RenamedEntries(xs: seq<Import>, news: seq<Option<Bytes>>): (r: seq<Import>)
    requires |xs| == |news|
    ensures |r| == |xs| && forall i: nat :: i < |xs| ==> r[i] == RenamedEntry(xs[i], news[i])
  {
    seq(|xs|, i requires 0 <= i < |xs| => RenamedEntry(xs[i], news[i]))
  }

  /** The new field names the first `k` symbols ask for. */
  function FieldTargets(m: Renaming, o: Object, k: nat): (r: seq<Option<Bytes>>)
    requires k <= |o.table.symbols|
    ensures |r| == |o.imports.entries|
  {
    if k == 0 then seq(|o.imports.entries|, i => None)
    else
      var r := FieldTargets(m, o, k - 1);
      match ImportTarget(m, o.imports.entries, o.table.symbols[k - 1])
      case None => r
      case Some(t) => r[t.at := Some(t.name)]
  }

  function AllFieldTargets(m: Renaming, o: Object): (r: seq<Option<Bytes>>)
    ensures |r| == |o.imports.entries|
  {
    FieldTargets(m, o, |o.table.symbols|)
  }

  function RenamedImports(m: Renaming, o: Object): Imports {
    o.imports.(entries := RenamedEntries(o.imports.entries, AllFieldTargets(m, o)))
  }

  function LinkingPayload(x: Section, t: Table): Bytes
    requires CustomOf(x.payload).Some?
  {
    var c := CustomOf(x.payload).value;
    c.nameLength + c.name + PrintTable(t)
  }

  predicate ReadsImports(o: Object) {
    NeedsImports(o.table.symbols) && ImportsAt(o.sections) < |o.sections|
  }

  /** Only the linking section and the import section differ, and only in names and sizes. */
  function RenamedSection(o: Object, t: Table, e: Imports, i: nat): Section
    requires i < |o.sections|
  {
    var x := o.sections[i];
    if i == LinkingAt(o.sections) then Resized(x, LinkingPayload(x, t))
    else if i == ImportsAt(o.sections) && ReadsImports(o) then Resized(x, PrintImports(e))
    else x
  }

  function RenamedSections(o: Object, t: Table, e: Imports): (r: seq<Section>)
    ensures |r| == |o.sections| && forall i: nat :: i < |r| ==> r[i] == RenamedSection(o, t, e, i)
  {
    seq(|o.sections|, i requires 0 <= i < |o.sections| => RenamedSection(o, t, e, i))
  }

  function RenamedObject(m: Renaming, o: Object): Object {
    var t, e := RenamedTable(o.table, m), RenamedImports(m, o);
    Object(RenamedSections(o, t, e), t, e)
  }

  // ----- what is read is good, and good objects are read ---------------------------------------------------

  ghost predicate GoodLinking(x: Section, t: Table) {
    && CustomOf(x.payload).Some? && CustomOf(x.payload).value.data == PrintTable(t) && GoodTable(t)
  }

  ghost predicate ImportsAgree(o: Object) {
    if ReadsImports(o) then
      GoodImports(o.imports) && PrintImports(o.imports) == o.sections[ImportsAt(o.sections)].payload
    else o.imports == NO_IMPORTS
  }

  ghost predicate GoodObject(o: Object) {
    && AllWellFormed(o.sections) && LinkingAt(o.sections) < |o.sections|
    && GoodLinking(o.sections[LinkingAt(o.sections)], o.table) && ImportsAgree(o)
  }

  lemma ReadObjectIsGood(bytes: Bytes)
    requires ReadObject(bytes).Some?
    ensures GoodObject(ReadObject(bytes).value)
    ensures bytes == HEADER + Emit(ReadObject(bytes).value.sections)
  {
    hide AllWellFormed, ReadTable, GoodTable, PrintTable, ReadImports, GoodImports, PrintImports, CustomOf;
    hide NeedsImports;
    var o := ReadObject(bytes).value;
    ModuleTiles(bytes);
    ReadTableIsGood(CustomOf(o.sections[LinkingAt(o.sections)].payload).value.data);
    if ReadsImports(o) {
      ReadImportsIsGood(o.sections[ImportsAt(o.sections)].payload);
    }
  }

  lemma GoodObjectIsRead(o: Object)
    requires GoodObject(o)
    ensures ReadObject(HEADER + Emit(o.sections)) == Some(o)
  {
    hide AllWellFormed, ReadTable, GoodTable, PrintTable, ReadImports, GoodImports, PrintImports, CustomOf;
    hide NeedsImports;
    ModuleParses(o.sections);
    GoodTableIsRead(o.table);
    if ReadsImports(o) {
      GoodImportsAreRead(o.imports);
    }
  }

  // ----- a resized section ------------------------------------------------------------------------------------

  lemma ResizedToItself(x: Section)
    requires Sized(x)
    ensures Resized(x, x.payload) == x
  {
    SpellingIsUnique(x.size, MAX_LEB_BYTES);
  }

  lemma ResizedIsSized(x: Section, payload: Bytes)
    requires Sized(x) && |payload| < SAFE_LIMIT
    ensures Sized(Resized(x, payload))
  {
    hide EncodeAtWidth;
    RoundTrip(|payload|, |x.size|, []);
    var size := EncodeAtWidth(|payload|, |x.size|);
    assert size + [] == size;
  }

  // ----- splicing is renaming -------------------------------------------------------------------------------------

  lemma SpliceIsRenaming(items: seq<Item>, news: seq<Option<Bytes>>, pre: Bytes, post: Bytes, edits: seq<Edit>)
    requires |items| == |news| && NonemptyNames(items)
    requires multiset(edits) == multiset(EditsFor(items, news, |pre|))
    ensures Splice(pre + PrintItems(items) + post, edits) == pre + PrintItems(Renamed(items, news)) + post
  {
    hide NonemptyNames, SortedEdits, DistinctStarts, Renamed, EditsFor;
    EditsForOrder(items, news, |pre|);
    SortEditsSorts(edits);
    SortedIsUnique(SortEdits(edits), EditsFor(items, news, |pre|));
    SpliceRenames(pre + PrintItems(items) + post, 0, pre, items, news, post);
  }

  /** No edits mean no new names. */
  lemma {:induction false} NoEdits(items: seq<Item>, news: seq<Option<Bytes>>, offset: nat)
    requires |items| == |news| && EditsFor(items, news, offset) == []
    ensures Renamed(items, news) == items
  {
    if |items| > 0 {
      hide PrintItem;
      var rest := EditsFor(items[1..], news[1..], offset + |PrintItem(items[0])|);
      assert OwnEdit(items[0], news[0], offset) + rest == [];
      NoEdits(items[1..], news[1..], offset + |PrintItem(items[0])|);
      forall i: nat | i < |items|
        ensures Renamed(items, news)[i] == items[i]
      {
        if i > 0 {
          assert Renamed(items[1..], news[1..])[i - 1] == items[1..][i - 1];
        }
      }
    }
  }

  lemma RenamedItems(xs: seq<Symbol>, news: seq<Option<Bytes>>)
    requires |xs| == |news|
    ensures Items(RenamedSymbols(xs, news)) == Renamed(Items(xs), news)
  {
  }

  lemma SymbolNames(xs: seq<Symbol>)
    requires AllGood(xs)
    ensures NonemptyNames(Items(xs))
  {
  }

  lemma SymbolSplice(t: Table, m: Renaming)
    requires AllGood(t.symbols)
    ensures Splice(Content(t), SymbolEdits(m, t)) == Content(RenamedTable(t, m))
  {
    hide AllGood, NonemptyNames, Splice, Renamed, EditsFor, PrintItems, Items, OwnTargets, RenamedSymbols;
    var items, news := Items(t.symbols), OwnTargets(m, t.symbols);
    SymbolNames(t.symbols);
    SpliceIsRenaming(items, news, t.count, [], SymbolEdits(m, t));
    RenamedItems(t.symbols, news);
    assert t.count + PrintItems(items) + [] == Content(t);
    assert t.count + PrintItems(Renamed(items, news)) + [] == Content(RenamedTable(t, m));
  }

  lemma NoSymbolEdits(t: Table, m: Renaming)
    requires GoodTable(t) && SymbolEdits(m, t) == []
    ensures RenamedTable(t, m) == t
  {
    hide AllGood, EditsFor, PrintSymbols, EncodeAtWidth, AllSkipped;
    var news := OwnTargets(m, t.symbols);
    NoEdits(Items(t.symbols), news, |t.count|);
    RenamedItems(t.symbols, news);
    forall i: nat | i < |t.symbols|
      ensures RenamedSymbols(t.symbols, news)[i] == t.symbols[i]
    {
      assert Items(RenamedSymbols(t.symbols, news))[i] == Items(t.symbols)[i];
    }
    assert RenamedSymbols(t.symbols, news) == t.symbols;
    ResizedToItself(TableFound(t).table);
  }

  // ----- import edits ---------------------------------------------------------------------------------------------

  function TargetOf(m: Renaming, o: Object, i: nat): (r: Option<Retarget>)
    requires i < |o.table.symbols|
    ensures r.Some? ==> r.value.at < |o.imports.entries|
  {
    ImportTarget(m, o.imports.entries, o.table.symbols[i])
  }

  /** No two symbols ask for the same import to be rewritten. */
  ghost predicate DistinctTargets(m: Renaming, o: Object) {
    forall i: nat, j: nat :: i < j < |o.table.symbols| && TargetOf(m, o, i).Some? && TargetOf(m, o, j).Some?
      ==> TargetOf(m, o, i).value.at != TargetOf(m, o, j).value.at
  }

  /** Exactly the targeted fields are renamed, each to the name its symbol asks for. */
  lemma {:induction false} FieldTargetsAre(m: Renaming, o: Object, k: nat, j: nat)
    requires k <= |o.table.symbols| && j < |o.imports.entries|
    ensures FieldTargets(m, o, k)[j] == None
        <==> forall i: nat :: i < k ==> TargetOf(m, o, i) == None || TargetOf(m, o, i).value.at != j
    ensures FieldTargets(m, o, k)[j].Some?
        ==> exists i: nat :: i < k && TargetOf(m, o, i) == Some(Retarget(j, FieldTargets(m, o, k)[j].value))
  {
    hide ImportTarget;
    if k > 0 {
      FieldTargetsAre(m, o, k - 1, j);
      var t := TargetOf(m, o, k - 1);
      if t.Some? && t.value.at == j {
        assert t == Some(Retarget(j, FieldTargets(m, o, k)[j].value));
      } else {
        assert FieldTargets(m, o, k)[j] == FieldTargets(m, o, k - 1)[j];
      }
    }
  }

  /** The edits, collected in symbol order, are the edits of the targeted fields. */
  lemma {:induction false} ImportEditsBag(m: Renaming, o: Object, k: nat)
    requires k <= |o.table.symbols| && DistinctTargets(m, o)
    ensures multiset(ImportEdits(m, o, k))
         == multiset(EditsFor(ImportItems(o.imports.entries), FieldTargets(m, o, k), |o.imports.count|))
  {
    hide EditsFor, ImportItems, TargetOf, FieldTargets, ImportEdits, EntryEdit, ItemEdit, ItemStart, DistinctTargets;
    var items, offset := ImportItems(o.imports.entries), |o.imports.count|;
    if k == 0 {
      Untargeted(m, o);
    } else {
      ImportEditsBag(m, o, k - 1);
      TargetStep(m, o, k - 1);
      var t, before := TargetOf(m, o, k - 1), FieldTargets(m, o, k - 1);
      if t.Some? {
        NotYetTargeted(m, o, k - 1);
        OneMoreEdit(items, before, t.value.at, t.value.name, offset);
      }
    }
  }

  lemma Untargeted(m: Renaming, o: Object)
    ensures ImportEdits(m, o, 0)
         == EditsFor(ImportItems(o.imports.entries), FieldTargets(m, o, 0), |o.imports.count|) == []
  {
    NoTargets(ImportItems(o.imports.entries), FieldTargets(m, o, 0), |o.imports.count|);
  }

  /** What one more symbol adds to the targets and to the edits. */
  lemma TargetStep(m: Renaming, o: Object, k: nat)
    requires k < |o.table.symbols|
    ensures var t, items := TargetOf(m, o, k), ImportItems(o.imports.entries);
      && |items| == |o.imports.entries|
      && (t == None ==> FieldTargets(m, o, k + 1) == FieldTargets(m, o, k))
      && (t == None ==> ImportEdits(m, o, k + 1) == ImportEdits(m, o, k))
      && (t.Some? ==>
            && items[t.value.at].name.Some?
            && FieldTargets(m, o, k + 1) == FieldTargets(m, o, k)[t.value.at := Some(t.value.name)]
            && multiset(ImportEdits(m, o, k + 1)) == multiset(ImportEdits(m, o, k))
                 + multiset{ItemEdit(items[t.value.at], t.value.name, ItemStart(items, t.value.at, |o.imports.count|))})
  {
    hide ImportTarget, ItemStart, ItemEdit;
  }

  lemma NotYetTargeted(m: Renaming, o: Object, k: nat)
    requires k < |o.table.symbols| && DistinctTargets(m, o) && TargetOf(m, o, k).Some?
    ensures FieldTargets(m, o, k)[TargetOf(m, o, k).value.at] == None
  {
    FieldTargetsAre(m, o, k, TargetOf(m, o, k).value.at);
  }

  lemma {:induction false} NoTargets(items: seq<Item>, news: seq<Option<Bytes>>, offset: nat)
    requires |items| == |news| && forall i: nat :: i < |news| ==> news[i] == None
    ensures EditsFor(items, news, offset) == []
  {
    if |items| > 0 {
      NoTargets(items[1..], news[1..], offset + |PrintItem(items[0])|);
    }
  }

  lemma RenamedImportItems(xs: seq<Import>, news: seq<Option<Bytes>>)
    requires |xs| == |news|
    ensures ImportItems(RenamedEntries(xs, news)) == Renamed(ImportItems(xs), news)
  {
  }

  lemma FieldNames(xs: seq<Import>, after: Bytes)
    requires GoodEntries(xs, after)
    ensures NonemptyNames(ImportItems(xs))
  {
  }

  lemma ImportSplice(m: Renaming, o: Object)
    requires GoodImports(o.imports) && DistinctTargets(m, o)
    ensures Splice(PrintImports(o.imports), ImportEdits(m, o, |o.table.symbols|)) == PrintImports(RenamedImports(m, o))
  {
    hide NonemptyNames, Splice, Renamed, EditsFor, PrintItems, ImportItems, DistinctTargets, GoodEntries;
    hide RenamedEntries;
    hide ImportEdits, FieldTargets;
    var items, news := ImportItems(o.imports.entries), AllFieldTargets(m, o);
    FieldNames(o.imports.entries, o.imports.after);
    ImportEditsBag(m, o, |o.table.symbols|);
    SpliceIsRenaming(items, news, o.imports.count, o.imports.after, ImportEdits(m, o, |o.table.symbols|));
    RenamedImportItems(o.imports.entries, news);
  }

  lemma NoImportEdits(m: Renaming, o: Object)
    requires DistinctTargets(m, o) && ImportEdits(m, o, |o.table.symbols|) == []
    ensures RenamedImports(m, o) == o.imports
  {
    hide EditsFor, DistinctTargets, FieldTargets, ImportEdits;
    var xs, news := o.imports.entries, AllFieldTargets(m, o);
    ImportEditsBag(m, o, |o.table.symbols|);
    var edits := EditsFor(ImportItems(xs), news, |o.imports.count|);
    assert |edits| == |multiset(edits)| == 0;
    NoEdits(ImportItems(xs), news, |o.imports.count|);
    RenamedImportItems(xs, news);
    forall i: nat | i < |xs|
      ensures RenamedEntries(xs, news)[i] == xs[i]
    {
      assert ImportItems(RenamedEntries(xs, news))[i] == ImportItems(xs)[i];
    }
    assert RenamedEntries(xs, news) == xs;
  }

  /** Edits are asked for only where the imports were read. */
  lemma {:induction false} EditsNeedImports(m: Renaming, o: Object, k: nat)
    requires k <= |o.table.symbols| && ImportsAgree(o)
    ensures ImportEdits(m, o, k) != [] ==> ReadsImports(o)
  {
    if k > 0 {
      EditsNeedImports(m, o, k - 1);
    }
  }

  // ----- renaming gives the renamed object --------------------------------------------------------------------------

  /** A module has at most one import section (section 5.5.2 of the WebAssembly Core
      Specification 2.0). */
  ghost predicate OneImportSection(xs: seq<Section>) {
    forall i: nat :: i < |xs| && xs[i].id == IMPORT_SECTION ==> i == ImportsAt(xs)
  }

  /** Every import section gets the first one's edits; at the others they find what they write. */
  ghost predicate UneditedAt(m: Renaming, o: Object, i: nat)
    requires i < |o.sections|
  {
    var edits := ImportEdits(m, o, |o.table.symbols|);
    o.sections[i].id == IMPORT_SECTION && edits != [] ==> Splice(o.sections[i].payload, edits) == o.sections[i].payload
  }

  ghost predicate OthersUnedited(m: Renaming, o: Object) {
    forall i: nat :: i < |o.sections| && i != ImportsAt(o.sections) ==> UneditedAt(m, o, i)
  }

  lemma OneSectionIsEnough(m: Renaming, o: Object)
    requires OneImportSection(o.sections)
    ensures OthersUnedited(m, o)
  {
    hide Splice, ImportEdits;
  }

  lemma LinkingIsRewritten(m: Renaming, o: Object, importEdits: seq<Edit>)
    requires GoodObject(o)
    ensures Rewritten(o, LinkingAt(o.sections), SymbolEdits(m, o.table), importEdits)
         == RenamedSection(o, RenamedTable(o.table, m), RenamedImports(m, o), LinkingAt(o.sections))
  {
    hide GoodImports, Splice, EditsFor, EncodeAtWidth, AllGood, PrintSymbols, SymbolEdits, PrintFound;
    hide OwnTargets, RenamedSymbols;
    var l := LinkingAt(o.sections);
    var x := o.sections[l];
    assert x.id == 0 && WellFormed(x);
    if SymbolEdits(m, o.table) == [] {
      NoSymbolEdits(o.table, m);
      ResizedToItself(x);
    } else {
      SymbolSplice(o.table, m);
    }
  }

  lemma OtherIsRewritten(m: Renaming, o: Object, symbolEdits: seq<Edit>, i: nat)
    requires GoodObject(o) && OthersUnedited(m, o) && DistinctTargets(m, o)
    requires i < |o.sections| && i != LinkingAt(o.sections)
    ensures Rewritten(o, i, symbolEdits, ImportEdits(m, o, |o.table.symbols|))
         == RenamedSection(o, RenamedTable(o.table, m), RenamedImports(m, o), i)
  {
    hide GoodImports, GoodTable, Splice, EncodeAtWidth, PrintImports, DistinctTargets, ImportEdits;
    hide NeedsImports, CustomOf, PrintTable;
    hide RenamedTable, RenamedImports;
    var x, edits := o.sections[i], ImportEdits(m, o, |o.table.symbols|);
    EditsNeedImports(m, o, |o.table.symbols|);
    assert WellFormed(x);
    if i == ImportsAt(o.sections) && ReadsImports(o) {
      if edits == [] {
        NoImportEdits(m, o);
        ResizedToItself(x);
      } else {
        ImportSplice(m, o);
      }
    } else {
      ResizedToItself(x);
      assert i != ImportsAt(o.sections) ==> UneditedAt(m, o, i);
    }
  }

  /** Renaming succeeds on every object that reads, and what it gives is the renamed object. */
  lemma RenameGivesRenamed(bytes: Bytes, m: Renaming)
    requires ReadObject(bytes).Some?
    requires var o := ReadObject(bytes).value; OthersUnedited(m, o) && DistinctTargets(m, o)
    ensures Rename(bytes, m) == Some(HEADER + Emit(RenamedObject(m, ReadObject(bytes).value).sections))
  {
    hide GoodObject, OthersUnedited, DistinctTargets, Rewritten, RenamedSection, SymbolEdits, ImportEdits, ReadObject;
    hide RenamedTable, RenamedImports;
    var o := ReadObject(bytes).value;
    ReadObjectIsGood(bytes);
    var n := |o.table.symbols|;
    var se, ie := SymbolEdits(m, o.table), ImportEdits(m, o, n);
    forall i: nat | i < |o.sections|
      ensures RewrittenAll(o, se, ie)[i] == RenamedObject(m, o).sections[i]
    {
      if i == LinkingAt(o.sections) {
        LinkingIsRewritten(m, o, ie);
      } else {
        OtherIsRewritten(m, o, se, i);
      }
    }
    assert RewrittenAll(o, se, ie) == RenamedObject(m, o).sections;
    if m.names == map[] {
      NothingToRename(m, o, n);
    }
    if se == [] && ie == [] {
      NothingRewritten(o);
    }
  }

  lemma NothingRewritten(o: Object)
    ensures RewrittenAll(o, [], []) == o.sections
  {
  }

  lemma NothingToRename(m: Renaming, o: Object, k: nat)
    requires m.names == map[] && k <= |o.table.symbols|
    ensures SymbolEdits(m, o.table) == [] && ImportEdits(m, o, k) == []
  {
    hide EditsFor, ImportEdits;
    NoTargets(Items(o.table.symbols), OwnTargets(m, o.table.symbols), |o.table.count|);
    NoImportTargets(m, o, k);
  }

  lemma {:induction false} NoImportTargets(m: Renaming, o: Object, k: nat)
    requires m.names == map[] && k <= |o.table.symbols|
    ensures ImportEdits(m, o, k) == []
  {
    hide FindImport, EntryEdit;
    if k > 0 {
      NoImportTargets(m, o, k - 1);
    }
  }

  // ----- the renamed object reads back -------------------------------------------------------------------------------

  lemma {:induction false} EmitHolds(xs: seq<Section>, i: nat)
    requires i < |xs|
    ensures |xs[i].payload| <= |Emit(xs)|
  {
    if i > 0 {
      EmitHolds(xs[1..], i - 1);
    }
  }

  lemma {:induction false} PrintHolds(xs: seq<Item>, i: nat)
    requires i < |xs|
    ensures |PrintName(xs[i].name)| <= |PrintItems(xs)|
  {
    if i > 0 {
      PrintHolds(xs[1..], i - 1);
    }
  }

  lemma RenamedSymbolIsGood(x: Symbol, name: Option<Bytes>)
    requires GoodSymbol(x) && |PrintName(RenamedSymbol(x, name).name)| < SAFE_LIMIT
    ensures GoodSymbol(RenamedSymbol(x, name))
  {
    hide Encode, AreLebs, IsName, OwnName, Undefined;
    if x.name.Some? && name.Some? {
      EncodedIsName(name.value);
    }
  }

  lemma RenamedTableIsGood(t: Table, m: Renaming)
    requires GoodTable(t) && |PrintTable(RenamedTable(t, m))| < SAFE_LIMIT
    ensures GoodTable(RenamedTable(t, m))
  {
    var t' := RenamedTable(t, m);
    RenamedSymbolsAreGood(t, m);
    ResizedIsSized(TableFound(t).table, Content(t'));
    hide AreLebs, ValueOf, AllGood, Sized, AllSkipped, EncodeAtWidth, PrintSymbols;
  }

  lemma RenamedSymbolsAreGood(t: Table, m: Renaming)
    requires AllGood(t.symbols) && |PrintTable(RenamedTable(t, m))| < SAFE_LIMIT
    ensures AllGood(RenamedTable(t, m).symbols) && |Content(RenamedTable(t, m))| < SAFE_LIMIT
  {
    hide GoodSymbol, EncodeAtWidth, RenamedSymbol, Emit;
    var t' := RenamedTable(t, m);
    forall i: nat | i < |t'.symbols|
      ensures GoodSymbol(t'.symbols[i])
    {
      PrintHolds(Items(t'.symbols), i);
      RenamedSymbolIsGood(t.symbols[i], OwnTarget(m, t.symbols[i]));
    }
  }

  lemma RenamedEntryIsGood(x: Import, name: Option<Bytes>)
    requires GoodImport(x) && |PrintName(Some(RenamedEntry(x, name).field))| < SAFE_LIMIT
    ensures GoodImport(RenamedEntry(x, name)) && (Whole(RenamedEntry(x, name)) <==> Whole(x))
  {
    hide Encode, IsName, DescLength;
    if name.Some? {
      EncodedIsName(name.value);
    }
  }

  lemma RenamedImportsAreGood(m: Renaming, o: Object)
    requires GoodImports(o.imports) && |PrintImports(RenamedImports(m, o))| < SAFE_LIMIT
    ensures GoodImports(RenamedImports(m, o))
  {
    hide GoodImport, Whole, AreLebs, ValueOf, RenamedEntry, FieldTargets;
    var xs, news := o.imports.entries, AllFieldTargets(m, o);
    var xs' := RenamedEntries(xs, news);
    forall i: nat | i < |xs'|
      ensures GoodImport(xs'[i]) && (Whole(xs'[i]) <==> Whole(xs[i]))
    {
      PrintHolds(ImportItems(xs'), i);
      RenamedEntryIsGood(xs[i], news[i]);
    }
  }

  /** The same sections in the same places carry symbols and imports. */
  ghost predicate SameMarks(xs: seq<Section>, ys: seq<Section>) {
    && |xs| == |ys|
    && forall i: nat :: i < |xs| ==> ys[i].id == xs[i].id && (IsCustom(xs[i], LINKING) <==> IsCustom(ys[i], LINKING))
  }

  lemma {:induction false} SamePlaces(xs: seq<Section>, ys: seq<Section>)
    requires SameMarks(xs, ys)
    ensures LinkingAt(xs) == LinkingAt(ys) && ImportsAt(xs) == ImportsAt(ys)
  {
    hide IsCustom;
    if |xs| > 0 {
      SamePlaces(xs[1..], ys[1..]);
    }
  }

  lemma CustomKept(payload: Bytes, data: Bytes)
    requires CustomOf(payload).Some?
    ensures var c := CustomOf(payload).value;
      CustomOf(c.nameLength + c.name + data) == Some(Custom(c.nameLength, c.name, data))
  {
    hide Decode;
    var c := CustomOf(payload).value;
    DecodeFront(payload, c.name + data);
    assert c.nameLength + c.name + data == c.nameLength + (c.name + data);
  }

  lemma SameNeeds(t: Table, m: Renaming)
    ensures NeedsImports(RenamedTable(t, m).symbols) <==> NeedsImports(t.symbols)
  {
    hide EncodeAtWidth, OwnTarget, Content;
    var xs, ys := t.symbols, RenamedTable(t, m).symbols;
    forall i: nat | i < |xs|
      ensures ImportNamed(ys[i]) <==> ImportNamed(xs[i])
    {
    }
  }

  lemma RenamedSectionIsGood(m: Renaming, o: Object, i: nat)
    requires GoodObject(o) && i < |o.sections|
    requires var o' := RenamedObject(m, o); |o'.sections[i].payload| < SAFE_LIMIT
    ensures var x, x' := o.sections[i], RenamedObject(m, o).sections[i];
      && x'.id == x.id && WellFormed(x') && (IsCustom(x, LINKING) <==> IsCustom(x', LINKING))
      && (i == LinkingAt(o.sections) ==>
            CustomOf(x'.payload).Some? && CustomOf(x'.payload).value.data == PrintTable(RenamedTable(o.table, m)))
  {
    hide Decode, CustomOf, PrintTable, EncodeAtWidth, PrintImports, RenamedTable, RenamedImports, GoodImports;
    hide GoodTable;
    var x := o.sections[i];
    assert WellFormed(x);
    if i == LinkingAt(o.sections) {
      ResizedIsSized(x, LinkingPayload(x, RenamedTable(o.table, m)));
      CustomKept(x.payload, PrintTable(RenamedTable(o.table, m)));
    } else if i == ImportsAt(o.sections) && ReadsImports(o) {
      ResizedIsSized(x, PrintImports(RenamedImports(m, o)));
    }
  }

  /** The renamed object is again an object: its sizes, counts and names read back. */
  lemma RenamedObjectIsGood(m: Renaming, o: Object)
    requires GoodObject(o) && |Emit(RenamedObject(m, o).sections)| < SAFE_LIMIT
    ensures GoodObject(RenamedObject(m, o))
    ensures SameMarks(o.sections, RenamedObject(m, o).sections)
    ensures LinkingAt(RenamedObject(m, o).sections) == LinkingAt(o.sections)
    ensures ImportsAt(RenamedObject(m, o).sections) == ImportsAt(o.sections)
    ensures ReadsImports(RenamedObject(m, o)) <==> ReadsImports(o)
  {
    hide WellFormed, GoodTable, GoodImports, IsCustom, RenamedSection, RenamedTable, RenamedImports, Emit;
    hide CustomOf, PrintTable, PrintImports, NeedsImports;
    var o' := RenamedObject(m, o);
    forall i: nat | i < |o.sections|
      ensures o'.sections[i].id == o.sections[i].id && WellFormed(o'.sections[i])
      ensures IsCustom(o.sections[i], LINKING) <==> IsCustom(o'.sections[i], LINKING)
    {
      EmitHolds(o'.sections, i);
      RenamedSectionIsGood(m, o, i);
    }
    SamePlaces(o.sections, o'.sections);
    SameNeeds(o.table, m);
    LinkingStaysGood(m, o);
    ImportsStayGood(m, o);
  }

  lemma LinkingStaysGood(m: Renaming, o: Object)
    requires GoodObject(o) && |Emit(RenamedObject(m, o).sections)| < SAFE_LIMIT
    ensures GoodLinking(RenamedObject(m, o).sections[LinkingAt(o.sections)], RenamedTable(o.table, m))
  {
    hide WellFormed, GoodTable, IsCustom, RenamedTable, Emit, CustomOf, PrintTable, RenamedImports, GoodImports;
    var l := LinkingAt(o.sections);
    EmitHolds(RenamedObject(m, o).sections, l);
    RenamedSectionIsGood(m, o, l);
    RenamedTableIsGood(o.table, m);
  }

  lemma ImportsStayGood(m: Renaming, o: Object)
    requires GoodObject(o) && |Emit(RenamedObject(m, o).sections)| < SAFE_LIMIT
    ensures if ReadsImports(o) then
              && GoodImports(RenamedImports(m, o))
              && PrintImports(RenamedImports(m, o)) == RenamedObject(m, o).sections[ImportsAt(o.sections)].payload
            else RenamedImports(m, o) == NO_IMPORTS
  {
    hide WellFormed, GoodTable, RenamedTable, Emit, PrintTable, GoodImports, PrintImports, NeedsImports, FieldTargets;
    if ReadsImports(o) {
      EmitHolds(RenamedObject(m, o).sections, ImportsAt(o.sections));
      RenamedImportsAreGood(m, o);
    }
  }
}
