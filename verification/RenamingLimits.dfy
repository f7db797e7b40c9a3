/** Where renaming goes wrong: two symbols named by the same import ask for the same span to be
    replaced twice, and the splice then writes the new name twice.  Renaming gives the renamed
    object exactly when that does not happen. */
module RenamingLimits {
  import opened Options
  import opened Fields
  import opened Leb128
  import opened Sequences
  import opened WasmModule
  import opened NameSplice
  import opened ObjectSymbols
  import opened SymbolTable
  import opened ObjectImports
  import opened ObjectRenaming
  import opened RenamedObjects
  import opened RenamingTheorems

  // ----- repeated edits lengthen the splice --------------------------------------------------------------

  function Dedup(es: seq<Edit>): seq<Edit> {
    if |es| <= 1 then es
    else if es[0] == es[1] then Dedup(es[1..])
    else [es[0]] + Dedup(es[1..])
  }

  ghost predicate Forward(es: seq<Edit>) {
    forall i: nat :: i < |es| ==> es[i].start <= es[i].end
  }

  lemma RepeatedEdit(bytes: Bytes, es: seq<Edit>, cursor: nat)
    requires |es| > 1 && es[0] == es[1] && es[0].start <= es[0].end
    ensures |SpliceFrom(bytes, es, cursor)| > |SpliceFrom(bytes, es[1..], cursor)|
  {
    hide Slice, EncodeName;
    var e := es[0];
    assert Slice(bytes, e.end, e.start) == [] by { EmptySlice(bytes, e.end, e.start); }
    assert es[1..][1..] == es[2..];
    assert |EncodeName(e.name)| > 0 by { NameTakesRoom(e.name); }
  }

  lemma EmptySlice(bytes: Bytes, from: nat, to: nat)
    requires to <= from
    ensures Slice(bytes, from, to) == []
  {
  }

  lemma NameTakesRoom(name: Bytes)
    ensures |EncodeName(name)| > 0
  {
  }

  /** Dropping repetitions never makes the splice longer, and shortens it if there are any. */
  lemma {:induction false} DedupShortens(bytes: Bytes, es: seq<Edit>, cursor: nat)
    requires Forward(es)
    ensures |SpliceFrom(bytes, Dedup(es), cursor)| <= |SpliceFrom(bytes, es, cursor)|
    ensures Dedup(es) != es ==> |SpliceFrom(bytes, Dedup(es), cursor)| < |SpliceFrom(bytes, es, cursor)|
    decreases |es|
  {
    hide Slice, EncodeName;
    if |es| > 1 {
      if es[0] == es[1] {
        RepeatedEdit(bytes, es, cursor);
        DedupShortens(bytes, es[1..], cursor);
      } else {
        DedupShortens(bytes, es[1..], es[0].end);
        assert ([es[0]] + Dedup(es[1..]))[1..] == Dedup(es[1..]);
        assert es == [es[0]] + es[1..];
      }
    }
  }

  /** Edits that start at the same place are the same edit. */
  ghost predicate PlaceDecides(es: seq<Edit>) {
    forall i: nat, j: nat :: i < |es| && j < |es| && es[i].start == es[j].start ==> es[i] == es[j]
  }

  lemma TailKeeps(es: seq<Edit>)
    requires |es| > 0 && SortedEdits(es) && PlaceDecides(es)
    ensures SortedEdits(es[1..]) && PlaceDecides(es[1..]) && AllFrom(es[1..], es[0].start)
    ensures |es| > 1 && es[0] != es[1] ==> AllFrom(es[1..], es[0].start + 1)
  {
    if |es| > 1 && es[0] != es[1] {
      assert es[0].start < es[1].start;
    }
  }

  lemma {:induction false} DedupIsStrict(es: seq<Edit>)
    requires SortedEdits(es) && PlaceDecides(es)
    ensures SortedEdits(Dedup(es)) && DistinctStarts(Dedup(es))
    ensures forall e :: e in Dedup(es) <==> e in es
    ensures forall low: nat :: AllFrom(es, low) ==> AllFrom(Dedup(es), low)
    decreases |es|
  {
    if |es| > 1 {
      TailKeeps(es);
      DedupIsStrict(es[1..]);
      hide SortedEdits, DistinctStarts, PlaceDecides;
      SameElements(es);
      if es[0] == es[1] {
        assert forall low: nat :: AllFrom(es, low) ==> AllFrom(es[1..], low);
      } else {
        StrictCons(es[0], Dedup(es[1..]));
        FromConsAll(es, Dedup(es[1..]));
      }
    }
  }

  lemma SameElements<T(!new)>(es: seq<T>)
    requires |es| > 1
    ensures forall e :: e in es <==> e == es[0] || e in es[1..]
    ensures es[0] == es[1] ==> es[0] in es[1..]
  {
    assert es[1] == es[1..][0];
  }

  lemma FromConsAll(es: seq<Edit>, rest: seq<Edit>)
    requires |es| > 0 && forall low: nat :: AllFrom(es[1..], low) ==> AllFrom(rest, low)
    ensures forall low: nat :: AllFrom(es, low) ==> AllFrom([es[0]] + rest, low)
  {
    forall low: nat | AllFrom(es, low)
      ensures AllFrom([es[0]] + rest, low)
    {
      assert AllFrom(es[1..], low);
      assert AllFrom(rest, low);
    }
  }

  lemma {:induction false} CountsInDistinct(es: seq<Edit>, e: Edit)
    requires DistinctStarts(es)
    ensures multiset(es)[e] == if e in es then 1 else 0
  {
    if |es| > 0 {
      var init, last := es[..|es| - 1], es[|es| - 1];
      InitDistinct(es);
      CountsInDistinct(init, e);
      DropLastBag(es);
      LastIsNew(es);
      assert e in es <==> e in init || e == last by { assert es == init + [last]; }
    }
  }

  lemma LastIsNew(es: seq<Edit>)
    requires |es| > 0 && DistinctStarts(es)
    ensures es[|es| - 1] !in es[..|es| - 1]
  {
  }

  lemma SameSetSameBag(xs: seq<Edit>, ys: seq<Edit>)
    requires DistinctStarts(xs) && DistinctStarts(ys) && forall e :: e in xs <==> e in ys
    ensures multiset(xs) == multiset(ys)
  {
    hide DistinctStarts;
    forall e: Edit
      ensures multiset(xs)[e] == multiset(ys)[e]
    {
      CountsInDistinct(xs, e);
      CountsInDistinct(ys, e);
    }
  }

  // ----- the edits that are asked for -----------------------------------------------------------------------

  lemma {:induction false} EditPresent(items: seq<Item>, news: seq<Option<Bytes>>, j: nat, offset: nat)
    requires |items| == |news| && j < |items| && items[j].name.Some? && news[j].Some?
    ensures ItemEdit(items[j], news[j].value, ItemStart(items, j, offset)) in EditsFor(items, news, offset)
  {
    hide PrintItem, ItemEdit;
    if j > 0 {
      EditPresent(items[1..], news[1..], j - 1, offset + |PrintItem(items[0])|);
    }
  }

  lemma {:induction false} EditsForForward(items: seq<Item>, news: seq<Option<Bytes>>, offset: nat)
    requires |items| == |news|
    ensures Forward(EditsFor(items, news, offset))
  {
    if |items| > 0 {
      EditsForForward(items[1..], news[1..], offset + |PrintItem(items[0])|);
    }
  }

  ghost predicate SameEdits(xs: seq<Edit>, ys: seq<Edit>) {
    forall e :: e in xs <==> e in ys
  }

  ghost function FieldEdits(m: Renaming, o: Object, k: nat): seq<Edit>
    requires k <= |o.table.symbols|
  {
    EditsFor(ImportItems(o.imports.entries), FieldTargets(m, o, k), |o.imports.count|)
  }

  /** The edits asked for are those of the targeted fields, however often each is asked for. */
  lemma {:induction false} ImportEditsSet(m: Renaming, o: Object, k: nat)
    requires k <= |o.table.symbols|
    ensures SameEdits(ImportEdits(m, o, k), FieldEdits(m, o, k))
  {
    if k == 0 {
      Untargeted(m, o);
    } else {
      ImportEditsSet(m, o, k - 1);
      ImportEditsSetStep(m, o, k - 1);
    }
  }

  lemma ImportEditsSetStep(m: Renaming, o: Object, k: nat)
    requires k < |o.table.symbols|
    requires SameEdits(ImportEdits(m, o, k), FieldEdits(m, o, k))
    ensures SameEdits(ImportEdits(m, o, k + 1), FieldEdits(m, o, k + 1))
  {
    hide EditsFor, ImportItems, TargetOf, FieldTargets, ImportEdits, ItemEdit, ItemStart;
    TargetStep(m, o, k);
    var t, before := TargetOf(m, o, k), FieldTargets(m, o, k);
    if t.Some? {
      var items, r := ImportItems(o.imports.entries), t.value;
      var e := ItemEdit(items[r.at], r.name, ItemStart(items, r.at, |o.imports.count|));
      if before[r.at] == None {
        OneMoreEdit(items, before, r.at, r.name, |o.imports.count|);
        MoreOf(ImportEdits(m, o, k), ImportEdits(m, o, k + 1), e);
        MoreOf(FieldEdits(m, o, k), FieldEdits(m, o, k + 1), e);
      } else {
        RepeatedTarget(m, o, k);
        assert FieldTargets(m, o, k + 1) == before;
        EditPresent(items, before, r.at, |o.imports.count|);
        MoreOf(ImportEdits(m, o, k), ImportEdits(m, o, k + 1), e);
      }
    }
  }

  lemma MoreOf<T(!new)>(xs: seq<T>, ys: seq<T>, y: T)
    requires multiset(ys) == multiset(xs) + multiset{y}
    ensures forall e :: e in ys <==> e in xs || e == y
  {
    assert forall e :: e in ys <==> e in multiset(ys);
    assert forall e :: e in xs <==> e in multiset(xs);
  }

  lemma RepeatedTarget(m: Renaming, o: Object, k: nat)
    requires k < |o.table.symbols| && TargetOf(m, o, k).Some?
    requires FieldTargets(m, o, k)[TargetOf(m, o, k).value.at].Some?
    ensures FieldTargets(m, o, k)[TargetOf(m, o, k).value.at].value == TargetOf(m, o, k).value.name
  {
    hide TargetOf, FieldTargets;
    var j := TargetOf(m, o, k).value.at;
    FieldTargetsAre(m, o, k, j);
    var i: nat :| i < k && TargetOf(m, o, i) == Some(Retarget(j, FieldTargets(m, o, k)[j].value));
    TargetedName(m, o, i);
    TargetedName(m, o, k);
  }

  /** A target hit twice leaves its edit in the list twice. */
  lemma {:induction false} EditCount(m: Renaming, o: Object, k: nat, i: nat, j: nat)
    requires i < j < k <= |o.table.symbols| && TargetOf(m, o, i).Some? && TargetOf(m, o, j) == TargetOf(m, o, i)
    ensures multiset(ImportEdits(m, o, k))[EntryEdit(o.imports, TargetOf(m, o, i).value)] >= 2
    decreases k
  {
    hide TargetOf, EntryEdit, ImportEdits;
    if k == j + 1 {
      EditPresence(m, o, j, i);
      EditStep(m, o, j);
    } else {
      EditCount(m, o, k - 1, i, j);
      EditStep(m, o, k - 1);
    }
  }

  lemma EditStep(m: Renaming, o: Object, k: nat)
    requires k < |o.table.symbols|
    ensures var t := TargetOf(m, o, k);
      multiset(ImportEdits(m, o, k + 1))
      == multiset(ImportEdits(m, o, k))
         + if t.Some? then multiset{EntryEdit(o.imports, t.value)} else multiset{}
  {
    hide TargetOf, ItemEdit, ItemStart, ImportItems, FieldTargets, ImportEdits;
    TargetStep(m, o, k);
  }

  lemma {:induction false} EditPresence(m: Renaming, o: Object, k: nat, i: nat)
    requires i < k <= |o.table.symbols| && TargetOf(m, o, i).Some?
    ensures multiset(ImportEdits(m, o, k))[EntryEdit(o.imports, TargetOf(m, o, i).value)] >= 1
    decreases k
  {
    hide TargetOf, EntryEdit, ImportEdits;
    EditStep(m, o, k - 1);
    if i < k - 1 {
      EditPresence(m, o, k - 1, i);
    }
  }

  lemma SameAtSameTarget(m: Renaming, o: Object, i: nat, j: nat)
    requires i < |o.table.symbols| && j < |o.table.symbols| && TargetOf(m, o, i).Some? && TargetOf(m, o, j).Some?
    requires TargetOf(m, o, i).value.at == TargetOf(m, o, j).value.at
    ensures TargetOf(m, o, i) == TargetOf(m, o, j)
  {
    hide TargetOf;
    TargetedName(m, o, i);
    TargetedName(m, o, j);
  }

  lemma AskedTwice(m: Renaming, o: Object)
    requires !DistinctTargets(m, o)
    ensures !DistinctStarts(SortEdits(ImportEdits(m, o, |o.table.symbols|)))
  {
    var i: nat, j: nat :| i < j < |o.table.symbols| && TargetOf(m, o, i).Some? && TargetOf(m, o, j).Some?
      && TargetOf(m, o, i).value.at == TargetOf(m, o, j).value.at;
    SameAtSameTarget(m, o, i, j);
    var ie := ImportEdits(m, o, |o.table.symbols|);
    EditCount(m, o, |o.table.symbols|, i, j);
    hide DistinctStarts, ImportEdits, TargetOf, EntryEdit;
    SortEditsSorts(ie);
    if DistinctStarts(SortEdits(ie)) {
      CountsInDistinct(SortEdits(ie), EntryEdit(o.imports, TargetOf(m, o, i).value));
    }
  }

  lemma EditsAreOrderly(m: Renaming, o: Object)
    requires GoodImports(o.imports)
    ensures var n := |o.table.symbols|;
      var es := SortEdits(ImportEdits(m, o, n));
      && SortedEdits(es) && PlaceDecides(es) && Forward(es)
      && SortedEdits(FieldEdits(m, o, n)) && DistinctStarts(FieldEdits(m, o, n))
      && SameEdits(es, FieldEdits(m, o, n))
  {
    var n := |o.table.symbols|;
    var items, news, ie := ImportItems(o.imports.entries), FieldTargets(m, o, n), ImportEdits(m, o, n);
    FieldNames(o.imports.entries, o.imports.after);
    EditsForOrder(items, news, |o.imports.count|);
    EditsForForward(items, news, |o.imports.count|);
    ImportEditsSet(m, o, n);
    SortEditsSorts(ie);
    hide ImportEdits, EditsFor, FieldTargets, SortedEdits, DistinctStarts, GoodEntries;
    SameBagSameElements(SortEdits(ie), ie);
    PlacesFrom(SortEdits(ie), FieldEdits(m, o, n));
  }

  lemma SameBagSameElements<T(!new)>(xs: seq<T>, ys: seq<T>)
    requires multiset(xs) == multiset(ys)
    ensures forall e :: e in xs <==> e in ys
  {
    assert forall e :: e in xs <==> e in multiset(xs);
    assert forall e :: e in ys <==> e in multiset(ys);
  }

  lemma PlacesFrom(es: seq<Edit>, fs: seq<Edit>)
    requires DistinctStarts(fs) && Forward(fs) && forall e :: e in es ==> e in fs
    ensures PlaceDecides(es) && Forward(es)
  {
    forall i: nat, j: nat | i < |es| && j < |es| && es[i].start == es[j].start
      ensures es[i] == es[j]
    {
      assert es[i] in fs && es[j] in fs;
    }
    forall i: nat | i < |es|
      ensures es[i].start <= es[i].end
    {
      assert es[i] in fs;
    }
  }

  /** Asked for twice, a name is written twice: the import section comes out too long. */
  lemma SpliceIsTooLong(m: Renaming, o: Object)
    requires GoodImports(o.imports) && !DistinctTargets(m, o)
    ensures |Splice(PrintImports(o.imports), ImportEdits(m, o, |o.table.symbols|))|
         > |PrintImports(RenamedImports(m, o))|
  {
    var n := |o.table.symbols|;
    var es, fs := SortEdits(ImportEdits(m, o, n)), FieldEdits(m, o, n);
    var bytes := PrintImports(o.imports);
    EditsAreOrderly(m, o);
    AskedTwice(m, o);
    DedupIsStrict(es);
    hide SortedEdits, DistinctStarts, PlaceDecides, ImportEdits, FieldEdits, SpliceFrom, DistinctTargets;
    hide SortEdits, GoodImports;
    SameSetSameBag(Dedup(es), fs);
    SortedIsUnique(Dedup(es), fs);
    DedupShortens(bytes, es, 0);
    assert SpliceFrom(bytes, fs, 0) == PrintImports(RenamedImports(m, o)) by { FieldSplice(m, o); }
  }

  lemma FieldSplice(m: Renaming, o: Object)
    ensures SpliceFrom(PrintImports(o.imports), FieldEdits(m, o, |o.table.symbols|), 0)
         == PrintImports(RenamedImports(m, o))
  {
    hide SpliceFrom, EditsFor, Renamed, PrintItems, FieldTargets;
    var xs, news, c := o.imports.entries, AllFieldTargets(m, o), o.imports.count;
    SpliceRenames(PrintImports(o.imports), 0, c, ImportItems(xs), news, o.imports.after);
    RenamedImportItems(xs, news);
    assert c[0..] == c;
  }

  // ----- exactly when renaming renames --------------------------------------------------------------------------

  /** The size spells the payload's length, at any width. */
  ghost predicate Spelled(x: Section) {
    |x.size| > 0 && |x.payload| < Pow128(|x.size|) && x.size == Padded(|x.payload|, |x.size|)
  }

  lemma SizedIsSpelled(x: Section)
    requires Sized(x)
    ensures Spelled(x)
  {
    SpellingIsUnique(x.size, MAX_LEB_BYTES);
  }

  lemma ResizedIsSpelled(x: Section, payload: Bytes)
    ensures Spelled(Resized(x, payload))
  {
    var n := |Encode(|payload|)|;
    EncodeIsPadded(|payload|);
    if n < |x.size| {
      Pow128Grows(n, |x.size|);
    }
  }

  lemma FrontDecides(x: Section, y: Section, s: Bytes, t: Bytes)
    requires Spelled(x) && Spelled(y) && Raw(x) + s == Raw(y) + t
    ensures x == y && s == t
  {
    hide Padded, DecodeWithin, Pow128;
    var all := Raw(x) + s;
    var budget := |x.size| + |y.size|;
    assert all[1..] == x.size + (x.payload + s) && all[1..] == y.size + (y.payload + t);
    PaddedDecodes(|x.payload|, |x.size|, x.payload + s, budget);
    PaddedDecodes(|y.payload|, |y.size|, y.payload + t, budget);
    var n := 1 + |x.size|;
    assert all[n..n + |x.payload|] == x.payload && all[n..n + |y.payload|] == y.payload;
    assert all[0] == x.id && all[0] == y.id;
    assert all[n + |x.payload|..] == s && all[n + |y.payload|..] == t;
  }

  /** Equally many sections with their sizes spelled are told apart by their bytes. */
  lemma {:induction false} EmitDecides(xs: seq<Section>, ys: seq<Section>)
    requires |xs| == |ys| && Emit(xs) == Emit(ys)
    requires forall i: nat :: i < |xs| ==> Spelled(xs[i]) && Spelled(ys[i])
    ensures xs == ys
  {
    hide Raw, Spelled;
    if |xs| > 0 {
      FrontDecides(xs[0], ys[0], Emit(xs[1..]), Emit(ys[1..]));
      EmitDecides(xs[1..], ys[1..]);
      assert xs == [xs[0]] + xs[1..] && ys == [ys[0]] + ys[1..];
    }
  }

  /** The sections as the code rewrites them. */
  function Given(m: Renaming, o: Object): (r: seq<Section>)
    ensures |r| == |o.sections|
  {
    RewrittenAll(o, SymbolEdits(m, o.table), ImportEdits(m, o, |o.table.symbols|))
  }

  lemma RenameGives(bytes: Bytes, m: Renaming)
    requires ReadObject(bytes).Some?
    ensures Rename(bytes, m) == Some(HEADER + Emit(Given(m, ReadObject(bytes).value)))
  {
    hide ReadSections, SymbolEdits, ImportEdits, Rewritten, Emit, ParseModule;
    var o := ReadObject(bytes).value;
    ModuleTiles(bytes);
    SectionsAreRead(bytes);
    if m.names == map[] {
      NothingToRename(m, o, |o.table.symbols|);
    }
    NothingRewritten(o);
  }

  lemma SectionsAreRead(bytes: Bytes)
    requires ReadObject(bytes).Some?
    ensures ParseModule(bytes) == Some(ReadObject(bytes).value.sections)
  {
    hide ParseModule, ReadTable, ImportsOf;
  }

  lemma GivenIsSpelled(m: Renaming, o: Object, i: nat)
    requires GoodObject(o) && i < |o.sections|
    ensures Spelled(Given(m, o)[i]) && Spelled(RenamedObject(m, o).sections[i])
  {
    hide Spelled, Splice, SymbolEdits, ImportEdits, PrintTable, PrintImports, GoodTable, GoodImports, CustomOf, Resized;
    hide NeedsImports, RenamedTable, RenamedImports, RelinkedPayload;
    var x := o.sections[i];
    assert WellFormed(x);
    SizedIsSpelled(x);
    forall payload: Bytes
      ensures Spelled(Resized(x, payload))
    {
      ResizedIsSpelled(x, payload);
    }
  }

  lemma TargetsNeedImports(m: Renaming, o: Object)
    requires ImportsAgree(o) && !DistinctTargets(m, o)
    ensures ReadsImports(o) && ImportEdits(m, o, |o.table.symbols|) != []
  {
    var i: nat, j: nat :| i < j < |o.table.symbols| && TargetOf(m, o, i).Some? && TargetOf(m, o, j).Some?
      && TargetOf(m, o, i).value.at == TargetOf(m, o, j).value.at;
    EditPresence(m, o, |o.table.symbols|, i);
    EditsNeedImports(m, o, |o.table.symbols|);
  }

  lemma TwiceTargetedDiffers(m: Renaming, o: Object)
    requires GoodObject(o) && !DistinctTargets(m, o)
    ensures ReadsImports(o) && Given(m, o)[ImportsAt(o.sections)] != RenamedObject(m, o).sections[ImportsAt(o.sections)]
  {
    TargetsNeedImports(m, o);
    SpliceIsTooLong(m, o);
    hide DistinctTargets, SymbolEdits, ImportEdits, RenamedTable, RenamedImports, GoodTable, GoodImports, PrintTable,
      PrintImports, Splice, EncodeAtWidth, NeedsImports, CustomOf, AllWellFormed;
    var at := ImportsAt(o.sections);
    assert o.sections[at].id == IMPORT_SECTION;
  }

  lemma EditedDiffers(m: Renaming, o: Object, i: nat)
    requires GoodObject(o) && i < |o.sections| && i != ImportsAt(o.sections) && !UneditedAt(m, o, i)
    ensures Given(m, o)[i] != RenamedObject(m, o).sections[i]
  {
    hide SymbolEdits, ImportEdits, RenamedTable, RenamedImports, GoodTable, GoodImports, PrintTable,
      PrintImports, Splice, EncodeAtWidth, NeedsImports, CustomOf, AllWellFormed;
    assert o.sections[i].id == IMPORT_SECTION;
  }

  /** Renaming gives the renamed object if and only if no two symbols ask for the same import
      to be rewritten, and any further import section already reads as the edits would leave it. */
  lemma RenamesExactly(bytes: Bytes, m: Renaming)
    requires ReadObject(bytes).Some?
    ensures var o := ReadObject(bytes).value;
      Rename(bytes, m) == Some(HEADER + Emit(RenamedObject(m, o).sections))
      <==> DistinctTargets(m, o) && OthersUnedited(m, o)
  {
    var o := ReadObject(bytes).value;
    ReadObjectIsGood(bytes);
    if DistinctTargets(m, o) && OthersUnedited(m, o) {
      RenameGivesRenamed(bytes, m);
    } else {
      hide ReadObject, DistinctTargets, Rename, RenamedObject, Emit, Given, Spelled, UneditedAt, GoodObject;
      var xs, ys := RenamedObject(m, o).sections, Given(m, o);
      RenameGives(bytes, m);
      assert |xs| == |o.sections| by { SameSectionCount(m, o); }
      forall i: nat | i < |xs|
        ensures Spelled(xs[i]) && Spelled(ys[i])
      {
        GivenIsSpelled(m, o, i);
      }
      if !DistinctTargets(m, o) {
        TwiceTargetedDiffers(m, o);
      } else {
        var i: nat :| i < |o.sections| && i != ImportsAt(o.sections) && !UneditedAt(m, o, i);
        EditedDiffers(m, o, i);
      }
      assert xs != ys;
      SameBytesSameSections(xs, ys);
    }
  }

  lemma SameSectionCount(m: Renaming, o: Object)
    ensures |RenamedObject(m, o).sections| == |o.sections|
  {
    hide RenamedTable, RenamedImports;
  }

  lemma SameBytesSameSections(xs: seq<Section>, ys: seq<Section>)
    requires |xs| == |ys| && xs != ys
    requires forall i: nat :: i < |xs| ==> Spelled(xs[i]) && Spelled(ys[i])
    ensures HEADER + Emit(xs) != HEADER + Emit(ys)
  {
    hide Spelled, Emit;
    if HEADER + Emit(xs) == HEADER + Emit(ys) {
      assert Emit(xs) == (HEADER + Emit(xs))[|HEADER|..];
      EmitDecides(xs, ys);
    }
  }

  // ----- such objects exist ---------------------------------------------------------------------------------------

  const A: Bytes := [0x61]
  const B: Bytes := [0x62]

  const SHARED := Symbol(FUNCTION, [0x10], [0], None, [])

  /** Two undefined function symbols, both named by the one import "a". */
  const TWO_REFERENCES := Object(
    [Section(IMPORT_SECTION, [6], [1, 0, 1, 0x61, 0, 0]),
     Section(0, [18], [7, 0x6c, 0x69, 0x6e, 0x6b, 0x69, 0x6e, 0x67, 2, 8, 7, 2, 0, 0x10, 0, 0, 0x10, 0])],
    Table([2], [], [7], [2], [SHARED, SHARED], []),
    Importing(0x61))

  lemma OneByte(b: Byte)
    requires b < 128
    ensures Decode([b]) == Some(Leb(b as nat, 1)) && AreLebs([b], 1) && ValueOf([b]) == b as nat
  {
    assert [b][1..] == [];
    assert LebsLength([], 0) == Some(0);
  }

  /** An undefined function symbol without a name of its own. */
  lemma Reference(x: Symbol, flags: Byte, index: Byte)
    requires x == Symbol(FUNCTION, [flags], [index], None, []) && flags == 0x10 && index < 128
    ensures GoodSymbol(x) && PrintSymbol(x) == [FUNCTION, flags, index]
  {
    OneByte(flags);
    OneByte(index);
    hide AreLebs, Decode, ValueOf;
    assert Undefined(x.flags) && !ExplicitName(x.flags);
  }

  lemma PrintTwo(x: Symbol)
    ensures PrintSymbols([x, x]) == PrintSymbol(x) + PrintSymbol(x)
  {
    hide PrintSymbol, PrintSymbols;
    PrintCons(x, [x]);
    PrintCons(x, []);
    NoSymbols();
    assert [x] + [x] == [x, x] && [x] + [] == [x];
  }

  lemma SharedTable()
    ensures GoodTable(TWO_REFERENCES.table) && PrintTable(TWO_REFERENCES.table) == [2, 8, 7, 2, 0, 0x10, 0, 0, 0x10, 0]
  {
    hide AreLebs, Decode, ValueOf, GoodSymbol, PrintSymbols;
    hide PrintSymbol;
    Reference(SHARED, 0x10, 0);
    PrintTwo(SHARED);
    OneByte(7);
    OneByte(2);
    var t := TWO_REFERENCES.table;
    assert Content(t) == [2, 0, 0x10, 0, 0, 0x10, 0];
    assert Emit([]) == [];
  }

  /** An import of a function, from a module without a name. */
  lemma FunctionImport(x: Import, z: Byte, n: Byte, b: Byte)
    requires z == 0 && n == 1 && x == Import(Named([z], []), Named([n], [b]), IMPORT_FUNCTION, [z])
    ensures GoodImport(x) && Whole(x) && PrintItem(ImportItem(x)) == [z, n, b, IMPORT_FUNCTION, z]
  {
    OneByte(z);
    OneByte(n);
    hide Decode, LebsLength;
  }

  /** One function import, and nothing else. */
  function Importing(b: Byte): Imports {
    Imports([1], [Import(Named([0], []), Named([1], [b]), IMPORT_FUNCTION, [0])], [])
  }

  lemma OneImport(b: Byte)
    ensures GoodImports(Importing(b)) && PrintImports(Importing(b)) == [1, 0, 1, b, 0, 0]
  {
    hide AreLebs, Decode, ValueOf, GoodImport, PrintItem, ImportItem, PrintEntries;
    var e := Importing(b);
    var x := e.entries[0];
    OneByte(1);
    FunctionImport(x, 0, 1, b);
    EntriesCons(x, []);
    NoEntries([]);
    assert PrintEntries([]) == [];
    assert [x] + [] == e.entries;
  }

  lemma SharedTargets(m: Renaming)
    requires m == Renaming(map[A := B], false)
    ensures TargetOf(m, TWO_REFERENCES, 0) == TargetOf(m, TWO_REFERENCES, 1) == Some(Retarget(0, B))
  {
    OneByte(0);
    hide Decode, ValueOf, Undefined;
    assert Matches(TWO_REFERENCES.imports.entries, SHARED, 0);
  }

  lemma SharedSections()
    ensures AllWellFormed(TWO_REFERENCES.sections)
    ensures LinkingAt(TWO_REFERENCES.sections) == 1 && ImportsAt(TWO_REFERENCES.sections) == 0
    ensures CustomOf(TWO_REFERENCES.sections[1].payload).Some?
    ensures CustomOf(TWO_REFERENCES.sections[1].payload).value.data == [2, 8, 7, 2, 0, 0x10, 0, 0, 0x10, 0]
  {
    var x := TWO_REFERENCES.sections[1];
    assert Decode([6]) == Some(Leb(6, 1)) && Decode([18]) == Some(Leb(18, 1));
    assert Decode(x.payload) == Some(Leb(7, 1));
    assert x.payload[1..8] == LINKING;
    assert TWO_REFERENCES.sections[1..][0] == x;
  }

  /** An object on which renaming "a" to "b" does not give the renamed object. */
  lemma RenamingCanGoWrong()
    ensures var bytes := HEADER + Emit(TWO_REFERENCES.sections);
      var m := Renaming(map[A := B], false);
      && ReadObject(bytes) == Some(TWO_REFERENCES)
      && OneImportSection(TWO_REFERENCES.sections) && !DistinctTargets(m, TWO_REFERENCES)
      && Rename(bytes, m) != Some(HEADER + Emit(RenamedObject(m, TWO_REFERENCES).sections))
  {
    var o := TWO_REFERENCES;
    var m := Renaming(map[A := B], false);
    hide GoodTable, PrintTable, GoodImports, PrintImports, AllWellFormed, TargetOf, CustomOf, LinkingAt;
    hide ImportsAt, RenamedObject;
    SharedTable();
    OneImport(0x61);
    SharedSections();
    SharedTargets(m);
    assert ImportNamed(o.table.symbols[0]);
    GoodObjectIsRead(o);
    RenamesExactly(HEADER + Emit(o.sections), m);
  }

  /** One undefined function symbol, named by an import that a second import section repeats. */
  const TWO_SECTIONS := Object(
    [Section(IMPORT_SECTION, [6], [1, 0, 1, 0x61, 0, 0]),
     Section(IMPORT_SECTION, [6], [1, 0, 1, 0x61, 0, 0]),
     Section(0, [15], [7, 0x6c, 0x69, 0x6e, 0x6b, 0x69, 0x6e, 0x67, 2, 8, 4, 1, 0, 0x10, 0])],
    Table([2], [], [4], [1], [SHARED], []),
    Importing(0x61))

  lemma SingleTable()
    ensures GoodTable(TWO_SECTIONS.table) && PrintTable(TWO_SECTIONS.table) == [2, 8, 4, 1, 0, 0x10, 0]
  {
    hide AreLebs, Decode, ValueOf, GoodSymbol, PrintSymbols;
    hide PrintSymbol;
    Reference(SHARED, 0x10, 0);
    PrintCons(SHARED, []);
    NoSymbols();
    assert [SHARED] + [] == [SHARED];
    OneByte(4);
    OneByte(2);
    OneByte(1);
    var t := TWO_SECTIONS.table;
    assert Content(t) == [1, 0, 0x10, 0];
    assert Emit([]) == [];
  }

  lemma RepeatedSections()
    ensures AllWellFormed(TWO_SECTIONS.sections)
    ensures LinkingAt(TWO_SECTIONS.sections) == 2 && ImportsAt(TWO_SECTIONS.sections) == 0
    ensures CustomOf(TWO_SECTIONS.sections[2].payload).Some?
    ensures CustomOf(TWO_SECTIONS.sections[2].payload).value.data == [2, 8, 4, 1, 0, 0x10, 0]
  {
    var xs := TWO_SECTIONS.sections;
    assert Decode([6]) == Some(Leb(6, 1)) && Decode([15]) == Some(Leb(15, 1));
    assert Decode(xs[2].payload) == Some(Leb(7, 1));
    assert xs[2].payload[1..8] == LINKING;
    assert xs[1..][0] == xs[1] && xs[1..][1..][0] == xs[2];
    assert LinkingAt(xs[1..][1..]) == 0;
    assert LinkingAt(xs[1..]) == 1;
  }

  lemma SingleTarget(m: Renaming)
    requires m == Renaming(map[A := B], false)
    ensures TargetOf(m, TWO_SECTIONS, 0) == Some(Retarget(0, B))
  {
    OneByte(0);
    hide Decode, ValueOf, Undefined;
    assert Matches(TWO_SECTIONS.imports.entries, SHARED, 0);
  }

  lemma RepeatedImports(m: Renaming)
    requires m == Renaming(map[A := B], false)
    ensures DistinctTargets(m, TWO_SECTIONS) && RenamedImports(m, TWO_SECTIONS) == Importing(0x62)
    ensures ImportEdits(m, TWO_SECTIONS, 1) != []
  {
    SingleTarget(m);
    hide ImportTarget, EntryEdit;
    assert Encode(1) == [1];
    assert FieldTargets(m, TWO_SECTIONS, 0) == [None];
    assert FieldTargets(m, TWO_SECTIONS, 1) == [Some(B)];
  }

  lemma RepeatedIsRead()
    ensures GoodObject(TWO_SECTIONS) && ReadObject(HEADER + Emit(TWO_SECTIONS.sections)) == Some(TWO_SECTIONS)
  {
    hide GoodTable, PrintTable, GoodImports, PrintImports, AllWellFormed, CustomOf, LinkingAt, ImportsAt;
    hide Importing, Emit;
    SingleTable();
    OneImport(0x61);
    RepeatedSections();
    assert ImportNamed(TWO_SECTIONS.table.symbols[0]);
    GoodObjectIsRead(TWO_SECTIONS);
  }

  lemma SecondIsEdited(m: Renaming)
    requires m == Renaming(map[A := B], false)
    ensures !UneditedAt(m, TWO_SECTIONS, 1)
  {
    hide GoodImports, PrintImports, RenamedImports, DistinctTargets, ImportEdits, Splice, Importing;
    OneImport(0x61);
    OneImport(0x62);
    RepeatedImports(m);
    ImportSplice(m, TWO_SECTIONS);
    assert PrintImports(RenamedImports(m, TWO_SECTIONS))[3] != TWO_SECTIONS.sections[1].payload[3];
  }

  /** An object on which renaming also rewrites an import section it never read. */
  lemma OtherImportsCanBeEdited()
    ensures var bytes := HEADER + Emit(TWO_SECTIONS.sections);
      var m := Renaming(map[A := B], false);
      && ReadObject(bytes) == Some(TWO_SECTIONS) && DistinctTargets(m, TWO_SECTIONS) && !UneditedAt(m, TWO_SECTIONS, 1)
      && Rename(bytes, m) != Some(HEADER + Emit(RenamedObject(m, TWO_SECTIONS).sections))
  {
    var o, m := TWO_SECTIONS, Renaming(map[A := B], false);
    hide ReadObject, Rename, RenamedObject, UneditedAt, DistinctTargets, Emit, ImportsAt, ImportEdits, RenamedImports;
    RepeatedIsRead();
    RepeatedImports(m);
    SecondIsEdited(m);
    assert ImportsAt(o.sections) == 0 by { RepeatedSections(); }
    RenamesExactly(HEADER + Emit(o.sections), m);
  }
}
