/** The two promises of renaming: only names change, and the inverse renaming restores the
    original bytes. */
module RenamingTheorems {
  import opened Options
  import opened Fields
  import opened Leb128
  import opened WasmModule
  import opened NameSplice
  import opened ObjectSymbols
  import opened SymbolTable
  import opened ObjectImports
  import opened ObjectRenaming
  import opened RenamedObjects

  // ----- only names change -----------------------------------------------------------------------------

  function Applied(names: Names, name: Bytes): Bytes {
    if name in names then names[name] else name
  }

  /** Renaming considers this symbol. */
  predicate Considered(m: Renaming, x: Symbol) {
    x.kind != SECTION && !(m.undefinedOnly && !Undefined(x.flags))
  }

  /** Named by an import that is not there; listed with an empty name. */
  predicate Dangling(o: Object, x: Symbol) {
    ImportNamed(x) && FindImport(o.imports.entries, x, 0) == |o.imports.entries|
  }

  function NewName(m: Renaming, o: Object, x: Symbol): Bytes {
    if Considered(m, x) && !Dangling(o, x) then Applied(m.names, NameOf(o, x)) else NameOf(o, x)
  }

  ghost predicate SameKinds(xs: seq<Import>, ys: seq<Import>) {
    |xs| == |ys| && forall j: nat :: j < |xs| ==> xs[j].kind == ys[j].kind
  }

  lemma {:induction false} KindIndexKept(xs: seq<Import>, ys: seq<Import>, kind: Byte, j: nat)
    requires SameKinds(xs, ys) && j <= |xs|
    ensures KindIndex(xs, kind, j) == KindIndex(ys, kind, j)
  {
    if j > 0 {
      KindIndexKept(xs, ys, kind, j - 1);
    }
  }

  /** Which import a symbol refers to does not depend on names. */
  lemma {:induction false} FindImportKept(xs: seq<Import>, ys: seq<Import>, x: Symbol, y: Symbol, j: nat)
    requires SameKinds(xs, ys) && j <= |xs| && x.kind == y.kind && x.index == y.index
    ensures FindImport(xs, x, j) == FindImport(ys, y, j)
    decreases |xs| - j
  {
    hide KindIndex, ValueOf;
    if j < |xs| {
      KindIndexKept(xs, ys, xs[j].kind, j);
      FindImportKept(xs, ys, x, y, j + 1);
    }
  }

  /** A symbol named by its import is undefined, so every renaming considers it. */
  lemma ImportNamedIsConsidered(m: Renaming, x: Symbol)
    requires GoodSymbol(x) && ImportNamed(x)
    ensures Considered(m, x)
  {
    hide AreLebs, Undefined, ExplicitName;
  }

  lemma GoodSymbols(o: Object, i: nat)
    requires GoodObject(o) && i < |o.table.symbols|
    ensures GoodSymbol(o.table.symbols[i])
  {
    hide GoodSymbol, PrintTable, GoodImports, AllWellFormed;
  }

  lemma RenamedEntryKinds(m: Renaming, o: Object)
    ensures SameKinds(o.imports.entries, RenamedImports(m, o).entries)
  {
    hide FieldTargets;
  }

  /** The name a map gives in place of `name`, if it gives another one. */
  function Replacement(names: Names, name: Bytes): Option<Bytes> {
    if name in names && names[name] != name then Some(names[name]) else None
  }

  lemma TargetIsReplacement(m: Renaming, o: Object, i: nat)
    requires GoodObject(o) && i < |o.table.symbols|
    requires ImportNamed(o.table.symbols[i]) && !Dangling(o, o.table.symbols[i])
    ensures var j := FindImport(o.imports.entries, o.table.symbols[i], 0);
      TargetOf(m, o, i) == match Replacement(m.names, o.imports.entries[j].field.text)
                           case None => None
                           case Some(name) => Some(Retarget(j, name))
  {
    GoodSymbols(o, i);
    ImportNamedIsConsidered(m, o.table.symbols[i]);
    hide GoodObject, GoodSymbol, FindImport, Undefined;
  }

  lemma TargetedName(m: Renaming, o: Object, k: nat)
    requires k < |o.table.symbols| && TargetOf(m, o, k).Some?
    ensures var t := TargetOf(m, o, k).value;
      Replacement(m.names, o.imports.entries[t.at].field.text) == Some(t.name)
  {
    hide FindImport, Undefined;
  }

  /** A field that symbol `i` is named by gets exactly the name the map gives it. */
  lemma FieldIsMapped(m: Renaming, o: Object, i: nat)
    requires GoodObject(o) && i < |o.table.symbols|
    requires ImportNamed(o.table.symbols[i]) && !Dangling(o, o.table.symbols[i])
    ensures var j := FindImport(o.imports.entries, o.table.symbols[i], 0);
      var field := o.imports.entries[j].field.text;
      && AllFieldTargets(m, o)[j] == Replacement(m.names, field)
      && RenamedImports(m, o).entries[j].field.text == Applied(m.names, field)
  {
    var j := FindImport(o.imports.entries, o.table.symbols[i], 0);
    TargetIsReplacement(m, o, i);
    FieldTargetsAre(m, o, |o.table.symbols|, j);
    hide GoodObject, FindImport, TargetOf, ImportNamed, FieldTargets;
    var news := AllFieldTargets(m, o);
    if news[j].Some? {
      var k: nat :| k < |o.table.symbols| && TargetOf(m, o, k) == Some(Retarget(j, news[j].value));
      TargetedName(m, o, k);
    }
  }

  lemma NameIsMapped(m: Renaming, o: Object, i: nat)
    requires GoodObject(o) && i < |o.table.symbols|
    ensures var o' := RenamedObject(m, o);
      |o'.table.symbols| == |o.table.symbols| && NameOf(o', o'.table.symbols[i]) == NewName(m, o, o.table.symbols[i])
  {
    hide GoodObject, FindImport, Undefined, EncodeAtWidth, FieldTargets, Content, RenamedSections, RenamedEntries;
    var o', x := RenamedObject(m, o), o.table.symbols[i];
    var x' := o'.table.symbols[i];
    RenamedEntryKinds(m, o);
    FindImportKept(o.imports.entries, o'.imports.entries, x, x', 0);
    if ImportNamed(x) {
      GoodSymbols(o, i);
      ImportNamedIsConsidered(m, x);
      if !Dangling(o, x) {
        FieldIsMapped(m, o, i);
      }
    }
  }

  lemma ListedIsMapped(m: Renaming, o: Object, i: nat)
    requires GoodObject(o) && i < |o.table.symbols|
    ensures var o' := RenamedObject(m, o);
      && |o'.table.symbols| == |o.table.symbols|
      && ListedAs(o', i) == ListedAs(o, i).(name := NewName(m, o, o.table.symbols[i]))
  {
    hide GoodObject, NameOf, Undefined, Local, Weak, ValueOf, EncodeAtWidth, RenamedSections, RenamedImports, Content;
    NameIsMapped(m, o, i);
  }

  /** Two section lists agree everywhere but at the linking and import sections. */
  ghost predicate OnlyNamedSectionsDiffer(xs: seq<Section>, ys: seq<Section>) {
    && SameMarks(xs, ys)
    && forall i: nat :: i < |xs| && i != LinkingAt(xs) && i != ImportsAt(xs) ==> ys[i] == xs[i]
  }

  /** Listing the renamed object gives the same indices, kinds and flags with every name mapped;
      definitions keep their names under `undefinedOnly`; every other section is byte for byte
      what it was, in its place. */
  lemma OnlyNamesChange(bytes: Bytes, m: Renaming)
    requires ReadObject(bytes).Some?
    requires var o := ReadObject(bytes).value; OthersUnedited(m, o) && DistinctTargets(m, o)
    requires Rename(bytes, m).Some? ==> |Rename(bytes, m).value| < SAFE_LIMIT
    ensures Rename(bytes, m).Some?
    ensures var o, r := ReadObject(bytes).value, Rename(bytes, m).value;
      && ReadObject(r) == Some(RenamedObject(m, o))
      && ListSymbols(r).Some? && |ListSymbols(r).value| == |Listing(o)|
      && (forall i: nat :: i < |Listing(o)| ==>
            ListSymbols(r).value[i] == Listing(o)[i].(name := NewName(m, o, o.table.symbols[i])))
      && OnlyNamedSectionsDiffer(o.sections, RenamedObject(m, o).sections)
  {
    hide GoodObject, ReadObject, Rename, OthersUnedited, DistinctTargets, ListedAs, NewName, SameMarks;
    hide RenamedTable, RenamedImports;
    var o := ReadObject(bytes).value;
    var o' := RenamedObject(m, o);
    ReadObjectIsGood(bytes);
    RenameGivesRenamed(bytes, m);
    RenamedObjectIsGood(m, o);
    GoodObjectIsRead(o');
    forall i: nat | i < |o.table.symbols|
      ensures |o'.table.symbols| == |o.table.symbols|
      ensures ListedAs(o', i) == ListedAs(o, i).(name := NewName(m, o, o.table.symbols[i]))
    {
      ListedIsMapped(m, o, i);
    }
    assert |o'.table.symbols| == |o.table.symbols| by { SameCount(m, o); }
  }

  lemma SameCount(m: Renaming, o: Object)
    ensures |RenamedObject(m, o).table.symbols| == |o.table.symbols|
  {
    hide EncodeAtWidth, Content, RenamedSections, RenamedImports;
  }

  // ----- the inverse renaming restores the bytes ---------------------------------------------------------

  /** `back` takes every name that `m` considers to where it came from. */
  ghost predicate Undoes(m: Renaming, back: Renaming, o: Object) {
    && back.undefinedOnly == m.undefinedOnly
    && forall i: nat ::
         i < |o.table.symbols| && Considered(m, o.table.symbols[i]) && !Dangling(o, o.table.symbols[i]) ==>
         Applied(back.names, Applied(m.names, NameOf(o, o.table.symbols[i]))) == NameOf(o, o.table.symbols[i])
  }

  predicate Minimal(n: Named) {
    n.length == Encode(|n.text|)
  }

  /** Every name that is edited has its length spelled minimally. */
  ghost predicate EditedAreMinimal(m: Renaming, o: Object) {
    && (forall i: nat :: i < |o.table.symbols| && OwnTarget(m, o.table.symbols[i]).Some? ==>
          Minimal(o.table.symbols[i].name.value))
    && (forall j: nat :: j < |o.imports.entries| && AllFieldTargets(m, o)[j].Some? ==>
          Minimal(o.imports.entries[j].field))
  }

  /** The new sizes fit the widths the old ones had. */
  ghost predicate KeepsWidths(m: Renaming, o: Object) {
    && |RenamedTable(o.table, m).size| == |o.table.size|
    && forall i: nat :: i < |o.sections| ==> |RenamedObject(m, o).sections[i].size| == |o.sections[i].size|
  }

  lemma SymbolIsRestored(m: Renaming, back: Renaming, o: Object, i: nat)
    requires i < |o.table.symbols| && Undoes(m, back, o) && EditedAreMinimal(m, o)
    ensures var x := o.table.symbols[i];
      var x' := RenamedSymbol(x, OwnTarget(m, x));
      RenamedSymbol(x', OwnTarget(back, x')) == x
  {
    hide Encode, Undefined, FindImport, FieldTargets;
    var x := o.table.symbols[i];
    if x.name.Some? && Considered(m, x) {
      assert NameOf(o, x) == x.name.value.text;
    }
  }

  lemma TableIsRestored(m: Renaming, back: Renaming, o: Object)
    requires GoodTable(o.table) && Undoes(m, back, o) && EditedAreMinimal(m, o) && KeepsWidths(m, o)
    ensures RenamedTable(RenamedTable(o.table, m), back) == o.table
  {
    var t := o.table;
    var t' := RenamedTable(t, m);
    assert |t'.size| == |t.size|;
    hide Undoes, EditedAreMinimal, KeepsWidths, EncodeAtWidth, RenamedSymbol, OwnTarget, AllGood, AllSkipped;
    var xs := RenamedSymbols(t'.symbols, OwnTargets(back, t'.symbols));
    forall i: nat | i < |t.symbols|
      ensures xs[i] == t.symbols[i]
    {
      SymbolIsRestored(m, back, o, i);
    }
    assert xs == t.symbols;
    ResizedToItself(TableFound(t).table);
  }

  lemma TargetIsUndone(m: Renaming, back: Renaming, o: Object, i: nat)
    requires GoodObject(o) && GoodObject(RenamedObject(m, o)) && Undoes(m, back, o) && i < |o.table.symbols|
    ensures var o' := RenamedObject(m, o);
      && |o'.table.symbols| == |o.table.symbols| && |o'.imports.entries| == |o.imports.entries|
      && (match TargetOf(m, o, i)
          case None => TargetOf(back, o', i) == None
          case Some(r) => TargetOf(back, o', i) == Some(Retarget(r.at, o.imports.entries[r.at].field.text)))
  {
    hide GoodObject, FindImport, FieldTargets, RenamedObject, RenamedImports, Undoes, ImportNamed;
    RenamedShape(m, o, i);
    var o', x := RenamedObject(m, o), o.table.symbols[i];
    if ImportNamed(x) && !Dangling(o, x) {
      hide TargetOf;
      TargetIsReplacement(m, o, i);
      TargetIsReplacement(back, o', i);
      FieldIsMapped(m, o, i);
      UndoesField(m, back, o, i);
    }
  }

  lemma UndoesField(m: Renaming, back: Renaming, o: Object, i: nat)
    requires GoodObject(o) && Undoes(m, back, o) && i < |o.table.symbols|
    requires ImportNamed(o.table.symbols[i]) && !Dangling(o, o.table.symbols[i])
    ensures var field := o.imports.entries[FindImport(o.imports.entries, o.table.symbols[i], 0)].field.text;
      Applied(back.names, Applied(m.names, field)) == field
  {
    hide FindImport;
    GoodSymbols(o, i);
    ImportNamedIsConsidered(m, o.table.symbols[i]);
    hide GoodObject, GoodSymbol;
    assert NameOf(o, o.table.symbols[i])
        == o.imports.entries[FindImport(o.imports.entries, o.table.symbols[i], 0)].field.text;
  }

  lemma RenamedShape(m: Renaming, o: Object, i: nat)
    requires i < |o.table.symbols|
    ensures var o', x := RenamedObject(m, o), o.table.symbols[i];
      && |o'.table.symbols| == |o.table.symbols| && |o'.imports.entries| == |o.imports.entries|
      && (ImportNamed(o'.table.symbols[i]) <==> ImportNamed(x))
      && FindImport(o'.imports.entries, o'.table.symbols[i], 0) == FindImport(o.imports.entries, x, 0)
      && o'.imports == RenamedImports(m, o)
  {
    hide EncodeAtWidth, Content, RenamedSections, FieldTargets, FindImport;
    RenamedEntryKinds(m, o);
    var o' := RenamedObject(m, o);
    FindImportKept(o.imports.entries, o'.imports.entries, o.table.symbols[i], o'.table.symbols[i], 0);
  }

  lemma EntryIsRestored(m: Renaming, back: Renaming, o: Object, j: nat)
    requires GoodObject(o) && GoodObject(RenamedObject(m, o)) && Undoes(m, back, o) && EditedAreMinimal(m, o)
    requires j < |o.imports.entries| == |RenamedObject(m, o).imports.entries|
    requires |RenamedObject(m, o).table.symbols| == |o.table.symbols|
    ensures var o', x := RenamedObject(m, o), o.imports.entries[j];
      RenamedEntry(RenamedEntry(x, AllFieldTargets(m, o)[j]), AllFieldTargets(back, o')[j]) == x
  {
    var o', n := RenamedObject(m, o), |o.table.symbols|;
    FieldTargetsAre(m, o, n, j);
    FieldTargetsAre(back, o', n, j);
    forall i: nat | i < n
      ensures TargetOf(m, o, i) == None <==> TargetOf(back, o', i) == None
      ensures TargetOf(m, o, i).Some? ==> TargetOf(back, o', i).value.at == TargetOf(m, o, i).value.at
      ensures TargetOf(m, o, i).Some? ==>
        TargetOf(back, o', i).value.name == o.imports.entries[TargetOf(m, o, i).value.at].field.text
    {
      TargetIsUndone(m, back, o, i);
    }
    var news, news' := AllFieldTargets(m, o), AllFieldTargets(back, o');
    hide GoodObject, Undoes, TargetOf, Encode, RenamedObject;
    if news'[j].Some? {
      var i: nat :| i < n && TargetOf(back, o', i) == Some(Retarget(j, news'[j].value));
      assert TargetOf(m, o, i).value.at == j;
    }
    if news[j].Some? {
      var i: nat :| i < n && TargetOf(m, o, i) == Some(Retarget(j, news[j].value));
      assert TargetOf(back, o', i).value.at == j;
    }
  }

  lemma ImportsAreRestored(m: Renaming, back: Renaming, o: Object)
    requires GoodObject(o) && GoodObject(RenamedObject(m, o)) && Undoes(m, back, o) && EditedAreMinimal(m, o)
    ensures RenamedImports(back, RenamedObject(m, o)) == o.imports
  {
    var o' := RenamedObject(m, o);
    SameCount(m, o);
    hide GoodObject, Undoes, EditedAreMinimal, FieldTargets, RenamedTable, RenamedSections, RenamedEntry;
    var xs := RenamedImports(back, o').entries;
    forall j: nat | j < |o.imports.entries|
      ensures xs[j] == o.imports.entries[j]
    {
      EntryIsRestored(m, back, o, j);
    }
    assert xs == o.imports.entries;
  }

  lemma SectionIsRestored(m: Renaming, o: Object, i: nat)
    requires GoodObject(o) && |Emit(RenamedObject(m, o).sections)| < SAFE_LIMIT && KeepsWidths(m, o) && i < |o.sections|
    ensures RenamedSection(RenamedObject(m, o), o.table, o.imports, i) == o.sections[i]
  {
    var o', x := RenamedObject(m, o), o.sections[i];
    RenamedObjectIsGood(m, o);
    assert |o'.sections[i].size| == |x.size| && WellFormed(x);
    hide KeepsWidths, SameMarks, EncodeAtWidth, CustomOf, PrintTable, PrintImports, GoodTable, GoodImports;
    hide RenamedTable, RenamedImports, NeedsImports, Decode, Emit;
    ResizedToItself(x);
    if i == LinkingAt(o.sections) {
      CustomKept(x.payload, PrintTable(RenamedTable(o.table, m)));
    }
  }

  /** Renaming back undoes the renaming of the object. */
  lemma ObjectIsRestored(m: Renaming, back: Renaming, o: Object)
    requires GoodObject(o) && |Emit(RenamedObject(m, o).sections)| < SAFE_LIMIT
    requires Undoes(m, back, o) && EditedAreMinimal(m, o) && KeepsWidths(m, o)
    ensures RenamedObject(back, RenamedObject(m, o)) == o
  {
    hide Undoes, EditedAreMinimal, KeepsWidths, RenamedSection, Emit, ImportsAgree, PrintTable, RenamedTable;
    hide RenamedImports;
    var o' := RenamedObject(m, o);
    assert GoodTable(o.table);
    RenamedObjectIsGood(m, o);
    hide GoodObject;
    TableIsRestored(m, back, o);
    ImportsAreRestored(m, back, o);
    var xs := RenamedObject(back, o').sections;
    forall i: nat | i < |o.sections|
      ensures xs[i] == o.sections[i]
    {
      SectionIsRestored(m, o, i);
    }
    assert xs == o.sections;
  }

  lemma DistinctTargetsKept(m: Renaming, back: Renaming, o: Object)
    requires GoodObject(o) && GoodObject(RenamedObject(m, o)) && Undoes(m, back, o) && DistinctTargets(m, o)
    ensures DistinctTargets(back, RenamedObject(m, o))
  {
    hide GoodObject, Undoes, TargetOf, RenamedObject;
    SameCount(m, o);
    forall i: nat | i < |o.table.symbols|
      ensures TargetOf(m, o, i) == None <==> TargetOf(back, RenamedObject(m, o), i) == None
      ensures TargetOf(m, o, i).Some? ==> TargetOf(back, RenamedObject(m, o), i).value.at == TargetOf(m, o, i).value.at
    {
      TargetIsUndone(m, back, o, i);
    }
  }

  /** With one import section, renaming leaves the others unedited, and so does renaming back. */
  lemma OneSectionStays(m: Renaming, back: Renaming, o: Object)
    requires OneImportSection(o.sections) && GoodObject(o) && |Emit(RenamedObject(m, o).sections)| < SAFE_LIMIT
    ensures OthersUnedited(m, o) && OthersUnedited(back, RenamedObject(m, o))
  {
    hide IsCustom, GoodObject, OthersUnedited, RenamedObject, Emit;
    RenamedObjectIsGood(m, o);
    OneSectionIsEnough(m, o);
    OneSectionIsEnough(back, RenamedObject(m, o));
  }

  /** Renaming and renaming back give the original bytes, provided the names that were edited
      had minimal lengths, the sizes kept their widths, and no other import section was edited. */
  lemma RenamingBackRestores(bytes: Bytes, m: Renaming, back: Renaming)
    requires ReadObject(bytes).Some?
    requires var o := ReadObject(bytes).value;
      && OthersUnedited(m, o) && OthersUnedited(back, RenamedObject(m, o))
      && DistinctTargets(m, o) && Undoes(m, back, o) && EditedAreMinimal(m, o) && KeepsWidths(m, o)
    requires Rename(bytes, m).Some? ==> |Rename(bytes, m).value| < SAFE_LIMIT
    ensures Rename(bytes, m).Some? && Rename(Rename(bytes, m).value, back) == Some(bytes)
  {
    hide GoodObject, ReadObject, Rename, OthersUnedited, DistinctTargets, Undoes, EditedAreMinimal, KeepsWidths;
    hide SameMarks, RenamedObject;
    var o := ReadObject(bytes).value;
    var o' := RenamedObject(m, o);
    ReadObjectIsGood(bytes);
    RenameGivesRenamed(bytes, m);
    RenamedObjectIsGood(m, o);
    GoodObjectIsRead(o');
    DistinctTargetsKept(m, back, o);
    RenameGivesRenamed(Rename(bytes, m).value, back);
    ObjectIsRestored(m, back, o);
  }

  // ----- injective maps to fresh names -------------------------------------------------------------------

  ghost predicate Injective(names: Names) {
    forall a, b :: a in names && b in names && names[a] == names[b] ==> a == b
  }

  ghost function Inverse(names: Names): Names
    requires Injective(names)
  {
    map a | a in names :: names[a] := a
  }

  /** No name the object carries, unless it is renamed itself, is one of the new names. */
  ghost predicate FreshNames(names: Names, o: Object) {
    forall i: nat :: i < |o.table.symbols| ==>
      NameOf(o, o.table.symbols[i]) in names || NameOf(o, o.table.symbols[i]) !in names.Values
  }

  /** An injective map to fresh names is undone by its inverse. */
  lemma InverseUndoes(names: Names, undefinedOnly: bool, o: Object)
    requires Injective(names) && FreshNames(names, o)
    ensures Undoes(Renaming(names, undefinedOnly), Renaming(Inverse(names), undefinedOnly), o)
  {
    var back := Inverse(names);
    assert forall a :: a in names ==> names[a] in back && back[names[a]] == a;
    assert forall b :: b in back ==> b in names.Values;
  }
}
