/** The loops of the object renamer: cursors over the linking data and the import section, edits
    collected symbol by symbol, and sections rewritten one after another. */
module ObjectLoops {
  import opened Options
  import opened Fields
  import opened Leb128
  import opened Sequences
  import opened WasmModule
  import opened NameSplice
  import opened ObjectSymbols
  import opened SymbolTable
  import opened ObjectImports
  import opened ObjectRenaming

  // ----- reading at a cursor -----------------------------------------------------------------------------

  method LebAt(bytes: Bytes, cursor: nat) returns (r: Option<Bytes>, next: nat)
    requires cursor <= |bytes|
    ensures match TakeLebs(bytes[cursor..], 1)
      case None => r == None
      case Some(t) => r == Some(t.raw) && cursor <= next <= |bytes| && t.rest == bytes[next..]
  {
    var l := DecodeLoop(bytes, cursor);
    assert LebsLength(bytes[cursor..], 1) == match Decode(bytes[cursor..])
                                             case None => None
                                             case Some(x) => Some(x.length + 0);
    if l == None {
      return None, cursor;
    }
    next := cursor + l.value.length;
    assert bytes[cursor..][l.value.length..] == bytes[next..];
    assert bytes[cursor..][..l.value.length] == bytes[cursor..next];
    return Some(bytes[cursor..next]), next;
  }

  /** Fields are stepped over one at a time. */
  lemma LebsStep(bytes: Bytes, cursor: nat, n: nat)
    requires cursor <= |bytes|
    ensures LebsLength(bytes[cursor..], n + 1)
         == match Decode(bytes[cursor..])
            case None => None
            case Some(l) => Ahead(l.length, LebsLength(bytes[cursor + l.length..], n))
  {
    var l := Decode(bytes[cursor..]);
    if l.Some? {
      assert bytes[cursor..][l.value.length..] == bytes[cursor + l.value.length..];
    }
  }

  function Ahead(k: nat, rest: Option<nat>): Option<nat> {
    match rest
    case None => None
    case Some(n) => Some(k + n)
  }

  method NameAt(bytes: Bytes, cursor: nat) returns (r: Option<Named>, next: nat)
    requires cursor <= |bytes|
    ensures match TakeName(bytes[cursor..])
      case None => r == None
      case Some(t) => r == Some(t.name) && cursor <= next <= |bytes| && t.rest == bytes[next..]
  {
    var l := DecodeLoop(bytes, cursor);
    if l == None {
      return None, cursor;
    }
    var start := cursor + l.value.length;
    next := start + l.value.value;
    if next > |bytes| {
      return None, cursor;
    }
    assert bytes[cursor..][..l.value.length] == bytes[cursor..start];
    assert bytes[cursor..][l.value.length..l.value.length + l.value.value] == bytes[start..next];
    assert bytes[cursor..][l.value.length + l.value.value..] == bytes[next..];
    return Some(Named(bytes[cursor..start], bytes[start..next])), next;
  }

  // ----- symbols -----------------------------------------------------------------------------------------

  method SymbolAt(payload: Bytes, start: nat) returns (r: Option<Symbol>, next: nat)
    requires start <= |payload|
    ensures match TakeSymbol(payload[start..])
      case None => r == None
      case Some(t) => r == Some(t.symbol) && start <= next <= |payload| && t.rest == payload[next..]
  {
    hide TakeLebs, TakeName, TakeBody;
    if start == |payload| {
      return None, start;
    }
    var kind := payload[start];
    assert payload[start..][1..] == payload[start + 1..];
    var flags, cursor := LebAt(payload, start + 1);
    if flags == None {
      return None, start;
    }
    r, next := BodyAt(payload, cursor, kind, flags.value);
  }

  method BodyAt(payload: Bytes, start: nat, kind: Byte, flags: Bytes) returns (r: Option<Symbol>, next: nat)
    requires start <= |payload|
    ensures match TakeBody(kind, flags, payload[start..])
      case None => r == None
      case Some(t) => r == Some(t.symbol) && start <= next <= |payload| && t.rest == payload[next..]
  {
    hide TakeLebs, TakeName, OwnName, Undefined;
    if Indexed(kind) {
      var element, cursor := LebAt(payload, start);
      if element == None {
        return None, start;
      }
      if !OwnName(flags) {
        return Some(Symbol(kind, flags, element.value, None, [])), cursor;
      }
      var name, end := NameAt(payload, cursor);
      if name == None {
        return None, start;
      }
      return Some(Symbol(kind, flags, element.value, name, [])), end;
    } else if kind == DATA {
      var name, end := NameAt(payload, start);
      if name == None {
        return None, start;
      }
      if Undefined(flags) {
        return Some(Symbol(kind, flags, [], name, [])), end;
      }
      var tail, stop := PlacementAt(payload, end);
      if tail == None {
        return None, start;
      }
      return Some(Symbol(kind, flags, [], name, tail.value)), stop;
    } else if kind == SECTION {
      var element, cursor := LebAt(payload, start);
      if element == None {
        return None, start;
      }
      return Some(Symbol(kind, flags, element.value, None, [])), cursor;
    }
    return None, start;
  }

  /** Segment index, offset and size of a defined data symbol. */
  method PlacementAt(payload: Bytes, start: nat) returns (r: Option<Bytes>, next: nat)
    requires start <= |payload|
    ensures match TakeLebs(payload[start..], 3)
      case None => r == None
      case Some(t) => r == Some(t.raw) && start <= next <= |payload| && t.rest == payload[next..]
  {
    hide LebsLength, Decode;
    var segment := DecodeLoop(payload, start);
    LebsStep(payload, start, 2);
    if segment == None {
      return None, start;
    }
    next := start + segment.value.length;
    var offset := DecodeLoop(payload, next);
    LebsStep(payload, next, 1);
    if offset == None {
      return None, start;
    }
    next := next + offset.value.length;
    var size := DecodeLoop(payload, next);
    LebsStep(payload, next, 0);
    if size == None {
      return None, start;
    }
    next := next + size.value.length;
    NoLebs(payload[next..]);
    CutAt(payload, start, next);
    return Some(payload[start..next]), next;
  }

  lemma NoLebs(s: Bytes)
    ensures LebsLength(s, 0) == Some(0)
  {
  }

  lemma CutAt<T>(s: seq<T>, from: nat, to: nat)
    requires from <= to <= |s|
    ensures s[from..][to - from..] == s[to..] && s[from..][..to - from] == s[from..to]
  {
  }

  /** A run of symbols continued: what was read so far, then the rest. */
  function Continued(xs: seq<Symbol>, rest: Option<TakenSymbols>): Option<TakenSymbols> {
    match rest
    case None => None
    case Some(t) => Some(TakenSymbols(xs + t.symbols, t.rest))
  }

  lemma SymbolsStep(xs: seq<Symbol>, s: Bytes, n: nat)
    requires n > 0
    ensures Continued(xs, TakeSymbols(s, n)) ==
      match TakeSymbol(s)
      case None => None
      case Some(t) => Continued(xs + [t.symbol], TakeSymbols(t.rest, n - 1))
  {
    hide TakeSymbol;
    if TakeSymbol(s).Some? {
      var t := TakeSymbol(s).value;
      var rest := TakeSymbols(t.rest, n - 1);
      if rest.Some? {
        assert xs + [t.symbol] + rest.value.symbols == xs + ([t.symbol] + rest.value.symbols);
      }
    }
  }

  method SymbolsAt(payload: Bytes, start: nat, count: nat) returns (r: Option<seq<Symbol>>, next: nat)
    requires start <= |payload|
    ensures match TakeSymbols(payload[start..], count)
      case None => r == None
      case Some(t) => r == Some(t.symbols) && start <= next <= |payload| && t.rest == payload[next..]
  {
    hide TakeSymbol, TakeSymbols;
    var symbols: seq<Symbol> := [];
    next := start;
    assert forall t: TakenSymbols :: [] + t.symbols == t.symbols;
    for index := 0 to count
      invariant start <= next <= |payload|
      invariant TakeSymbols(payload[start..], count) == Continued(symbols, TakeSymbols(payload[next..], count - index))
    {
      hide Continued;
      var x, end := SymbolAt(payload, next);
      SymbolsStep(symbols, payload[next..], count - index);
      if x == None {
        return None, start;
      }
      symbols := symbols + [x.value];
      next := end;
    }
    assert TakeSymbols(payload[next..], 0) == Some(TakenSymbols([], payload[next..])) by {
      NoSymbolsLeft(payload[next..]);
    }
    assert symbols + [] == symbols;
    return Some(symbols), next;
  }

  lemma NoSymbolsLeft(s: Bytes)
    ensures TakeSymbols(s, 0) == Some(TakenSymbols([], s))
  {
  }

  /** A search for the table continued: the subsections stepped over so far, then the rest. */
  function FoundAfter(before: seq<Section>, rest: Option<Found>): Option<Found> {
    match rest
    case None => None
    case Some(f) => Some(f.(before := before + f.before))
  }

  lemma FindStep(before: seq<Section>, s: Bytes)
    requires |s| > 0
    ensures FoundAfter(before, FindTable(s)) ==
      match TakeSub(s)
      case None => None
      case Some(x) =>
        if x.id == SYMBOL_TABLE_ID then Some(Found(before, x, s[|Raw(x)|..]))
        else FoundAfter(before + [x], FindTable(s[|Raw(x)|..]))
  {
    hide TakeSub, Raw;
    var x := TakeSub(s);
    if x.Some? {
      if x.value.id == SYMBOL_TABLE_ID {
        assert before + [] == before;
      } else {
        var rest := FindTable(s[|Raw(x.value)|..]);
        if rest.Some? {
          assert before + [x.value] + rest.value.before == before + ([x.value] + rest.value.before);
        }
      }
    }
  }

  method SubAt(payload: Bytes, offset: nat) returns (r: Option<Section>)
    requires offset < |payload|
    ensures r == TakeSub(payload[offset..])
    ensures r.Some? ==> var end := offset + |Raw(r.value)|; payload[end - |r.value.payload|..end] == r.value.payload
  {
    assert payload[offset..][1..] == payload[offset + 1..];
    var sizeInfo := DecodeLoop(payload, offset + 1);
    if sizeInfo == None {
      return None;
    }
    var contentStart := offset + 1 + sizeInfo.value.length;
    var contentEnd := contentStart + sizeInfo.value.value;
    if contentEnd > |payload| {
      return None;
    }
    assert payload[offset..][1..contentStart - offset] == payload[offset + 1..contentStart];
    assert payload[offset..][contentStart - offset..contentEnd - offset] == payload[contentStart..contentEnd];
    return Some(Section(payload[offset], payload[offset + 1..contentStart], payload[contentStart..contentEnd]));
  }

  /** Step over subsections up to the symbol table, then read it. */
  method TableLoop(payload: Bytes) returns (r: Option<Table>)
    ensures r == ReadTable(payload)
  {
    hide TakeLebs, FindTable, TakeSub, Raw, ReadSymbols;
    assert payload[0..] == payload;
    var version, first := LebAt(payload, 0);
    if version == None {
      return None;
    }
    var before: seq<Section>, offset := [], first;
    assert FoundAfter([], FindTable(payload[first..])) == FindTable(payload[first..]) by {
      NothingBefore(FindTable(payload[first..]));
    }
    while offset < |payload|
      invariant first <= offset <= |payload|
      invariant FindTable(payload[first..]) == FoundAfter(before, FindTable(payload[offset..]))
      decreases |payload| - offset
    {
      hide FoundAfter;
      var x := SubAt(payload, offset);
      FindStep(before, payload[offset..]);
      if x == None {
        return None;
      }
      var contentEnd := offset + |Raw(x.value)|;
      assert payload[offset..][|Raw(x.value)|..] == payload[contentEnd..];
      if x.value.id == SYMBOL_TABLE_ID {
        r := ContentAt(payload, contentEnd, version.value, Found(before, x.value, payload[contentEnd..]));
        return;
      }
      before, offset := before + [x.value], contentEnd;
    }
    assert FindTable(payload[offset..]) == None by { NothingFound(payload[offset..]); }
    return None;
  }

  lemma NothingBefore(f: Option<Found>)
    ensures FoundAfter([], f) == f
  {
    if f.Some? {
      assert [] + f.value.before == f.value.before;
    }
  }

  lemma NothingFound(s: Bytes)
    requires s == []
    ensures FindTable(s) == None
  {
  }

  /** The symbols must end where their subsection does. */
  method ContentAt(payload: Bytes, contentEnd: nat, version: Bytes, f: Found) returns (r: Option<Table>)
    requires |f.table.payload| <= contentEnd <= |payload| && f.after == payload[contentEnd..]
    requires payload[contentEnd - |f.table.payload|..contentEnd] == f.table.payload
    ensures r == ReadSymbols(version, f)
  {
    hide TakeLebs, TakeSymbols, ValueOf;
    var contentStart := contentEnd - |f.table.payload|;
    assert payload[contentStart..] == f.table.payload + f.after;
    var count, first := LebAt(payload, contentStart);
    if count == None {
      return None;
    }
    var symbols, cursor := SymbolsAt(payload, first, ValueOf(count.value));
    if symbols == None || cursor != contentEnd {
      return None;
    }
    return Some(Table(version, f.before, f.table.size, count.value, symbols.value, f.after));
  }

  // ----- imports -------------------------------------------------------------------------------------------

  method LimitsAt(bytes: Bytes, start: nat) returns (r: Option<nat>)
    requires start <= |bytes|
    ensures r == Ahead(start, LimitsLength(bytes[start..]))
  {
    hide LebsLength, Decode;
    if start == |bytes| {
      return None;
    }
    var flags, cursor := bytes[start], start + 1;
    var more := Bit(flags, 1) + Bit(flags, 8);
    assert bytes[start..][1..] == bytes[cursor..];
    var minimum := DecodeLoop(bytes, cursor);
    LebsStep(bytes, cursor, more);
    if minimum == None {
      return None;
    }
    cursor := cursor + minimum.value.length;
    if Bit(flags, 1) == 1 {
      var maximum := DecodeLoop(bytes, cursor);
      LebsStep(bytes, cursor, more - 1);
      if maximum == None {
        return None;
      }
      cursor := cursor + maximum.value.length;
    }
    if Bit(flags, 8) == 1 {
      var page := DecodeLoop(bytes, cursor);
      LebsStep(bytes, cursor, 0);
      if page == None {
        return None;
      }
      cursor := cursor + page.value.length;
    }
    NoLebs(bytes[cursor..]);
    return Some(cursor);
  }

  /** Where an import's description ends. */
  method DescAt(bytes: Bytes, start: nat, kind: Byte) returns (r: Option<nat>)
    requires start <= |bytes|
    ensures r == Ahead(start, DescLength(kind, bytes[start..]))
  {
    hide LebsLength, LimitsLength, Decode;
    if kind == IMPORT_FUNCTION {
      r := FieldAt(bytes, start);
    } else if kind == IMPORT_MEMORY {
      r := LimitsAt(bytes, start);
    } else if kind == IMPORT_GLOBAL {
      if start < |bytes| && TypedReference(bytes[start]) {
        return None;
      }
      return Some(if start + 2 <= |bytes| then start + 2 else |bytes|);
    } else if start == |bytes| {
      return None;
    } else {
      assert bytes[start..][1..] == bytes[start + 1..];
      if kind == IMPORT_TABLE {
        if TypedReference(bytes[start]) {
          return None;
        }
        r := LimitsAt(bytes, start + 1);
      } else if kind == IMPORT_TAG {
        r := FieldAt(bytes, start + 1);
      } else {
        r := None;
      }
    }
  }

  method FieldAt(bytes: Bytes, start: nat) returns (r: Option<nat>)
    requires start <= |bytes|
    ensures r == Ahead(start, LebsLength(bytes[start..], 1))
  {
    hide LebsLength, Decode;
    var l := DecodeLoop(bytes, start);
    LebsStep(bytes, start, 0);
    if l == None {
      return None;
    }
    NoLebs(bytes[start + l.value.length..]);
    return Some(start + l.value.length);
  }

  method ImportAt(bytes: Bytes, start: nat) returns (r: Option<Import>, next: nat)
    requires start <= |bytes|
    ensures match TakeImport(bytes[start..])
      case None => r == None
      case Some(t) => r == Some(t.entry) && start <= next <= |bytes| && t.rest == bytes[next..]
  {
    hide TakeName, DescLength;
    var mod, modEnd := NameAt(bytes, start);
    if mod == None {
      return None, start;
    }
    var field, cursor := NameAt(bytes, modEnd);
    if field == None || cursor == |bytes| {
      return None, start;
    }
    var kind := bytes[cursor];
    assert bytes[cursor..][1..] == bytes[cursor + 1..];
    var end := DescAt(bytes, cursor + 1, kind);
    if end == None {
      return None, start;
    }
    CutAt(bytes, cursor + 1, end.value);
    return Some(Import(mod.value, field.value, kind, bytes[cursor + 1..end.value])), end.value;
  }

  function ImportsContinued(xs: seq<Import>, rest: Option<TakenImports>): Option<TakenImports> {
    match rest
    case None => None
    case Some(t) => Some(TakenImports(xs + t.entries, t.rest))
  }

  lemma ImportsStep(xs: seq<Import>, s: Bytes, n: nat)
    requires n > 0
    ensures ImportsContinued(xs, TakeImports(s, n)) ==
      match TakeImport(s)
      case None => None
      case Some(t) => ImportsContinued(xs + [t.entry], TakeImports(t.rest, n - 1))
  {
    hide TakeImport;
    if TakeImport(s).Some? {
      var t := TakeImport(s).value;
      var rest := TakeImports(t.rest, n - 1);
      if rest.Some? {
        assert xs + [t.entry] + rest.value.entries == xs + ([t.entry] + rest.value.entries);
      }
    }
  }

  method ImportsLoop(payload: Bytes) returns (r: Option<Imports>)
    ensures r == ReadImports(payload)
  {
    hide TakeLebs, TakeImports, TakeImport, ValueOf;
    assert payload[0..] == payload;
    var count, first := LebAt(payload, 0);
    if count == None {
      return None;
    }
    var entries: seq<Import>, cursor := [], first;
    assert forall t: TakenImports :: [] + t.entries == t.entries;
    for index := 0 to ValueOf(count.value)
      invariant first <= cursor <= |payload|
      invariant TakeImports(payload[first..], ValueOf(count.value))
             == ImportsContinued(entries, TakeImports(payload[cursor..], ValueOf(count.value) - index))
    {
      hide ImportsContinued;
      var x, end := ImportAt(payload, cursor);
      ImportsStep(entries, payload[cursor..], ValueOf(count.value) - index);
      if x == None {
        return None;
      }
      entries, cursor := entries + [x.value], end;
    }
    assert TakeImports(payload[cursor..], 0) == Some(TakenImports([], payload[cursor..])) by {
      NoImportsLeft(payload[cursor..]);
    }
    assert entries + [] == entries;
    return Some(Imports(count.value, entries, payload[cursor..]));
  }

  lemma NoImportsLeft(s: Bytes)
    ensures TakeImports(s, 0) == Some(TakenImports([], s))
  {
  }

  // ----- renaming ------------------------------------------------------------------------------------------------

  /** Copy between the edits, which are sorted by start. */
  method SpliceLoop(bytes: Bytes, sorted: seq<Edit>) returns (out: Bytes)
    ensures out == SpliceFrom(bytes, sorted, 0)
  {
    hide Slice, EncodeName;
    out := [];
    var cursor := 0;
    for i := 0 to |sorted|
      invariant SpliceFrom(bytes, sorted, 0) == out + SpliceFrom(bytes, sorted[i..], cursor)
    {
      var e := sorted[i];
      assert sorted[i..][0] == e && sorted[i..][1..] == sorted[i + 1..];
      Regroup3(out, Slice(bytes, cursor, e.start), EncodeName(e.name), SpliceFrom(bytes, sorted[i + 1..], e.end));
      out := out + Slice(bytes, cursor, e.start) + EncodeName(e.name);
      cursor := e.end;
    }
    assert sorted[|sorted|..] == [];
    out := out + Slice(bytes, cursor, |bytes|);
  }

  lemma Regroup3<T>(a: seq<T>, b: seq<T>, c: seq<T>, d: seq<T>)
    ensures a + (b + c + d) == a + b + c + d
  {
  }

  /** The edits the symbols ask for, in symbol order: in the table for a symbol with its own
      name, in the import section for one named by its import. */
  method CollectEdits(m: Renaming, o: Object) returns (symbolEdits: seq<Edit>, importEdits: seq<Edit>)
    ensures symbolEdits == SymbolEdits(m, o.table)
    ensures importEdits == ImportEdits(m, o, |o.table.symbols|)
  {
    hide EditsFor, ImportEdits, PrintItem, EntryEdit, SymbolItem, ImportTarget, Items, OwnTargets;
    symbolEdits, importEdits := [], [];
    var offset: nat := |o.table.count|;
    ghost var items, news := Items(o.table.symbols), OwnTargets(m, o.table.symbols);
    assert items[0..] == items && news[0..] == news;
    assert ImportEdits(m, o, 0) == [] by { NoneYet(m, o); }
    for index := 0 to |o.table.symbols|
      invariant SymbolEdits(m, o.table) == symbolEdits + EditsFor(items[index..], news[index..], offset)
      invariant importEdits == ImportEdits(m, o, index)
    {
      hide SymbolEdits, OwnEdit, OwnTarget;
      var x := o.table.symbols[index];
      EditsTail(items, news, index, offset);
      EditsSoFar(m, o, index);
      var own := OwnEdit(SymbolItem(x), OwnTarget(m, x), offset);
      offset := offset + |PrintItem(SymbolItem(x))|;
      Assoc(symbolEdits, own, EditsFor(items[index + 1..], news[index + 1..], offset));
      symbolEdits := symbolEdits + own;
      var entry := ImportTarget(m, o.imports.entries, x);
      if entry.Some? {
        importEdits := importEdits + [EntryEdit(o.imports, entry.value)];
      }
    }
    NoEditsLeft(items[|items|..], news[|news|..], offset);
    assert symbolEdits + [] == symbolEdits;
  }

  lemma NoneYet(m: Renaming, o: Object)
    ensures ImportEdits(m, o, 0) == []
  {
  }

  lemma NoEditsLeft(items: seq<Item>, news: seq<Option<Bytes>>, offset: nat)
    requires items == [] && news == []
    ensures EditsFor(items, news, offset) == []
  {
  }

  lemma EditsTail(items: seq<Item>, news: seq<Option<Bytes>>, i: nat, offset: nat)
    requires |items| == |news| && i < |items|
    ensures EditsFor(items[i..], news[i..], offset)
         == OwnEdit(items[i], news[i], offset) + EditsFor(items[i + 1..], news[i + 1..], offset + |PrintItem(items[i])|)
  {
    hide OwnEdit, PrintItem;
    assert items[i..][1..] == items[i + 1..] && news[i..][1..] == news[i + 1..];
  }

  lemma EditsSoFar(m: Renaming, o: Object, k: nat)
    requires k < |o.table.symbols|
    ensures ImportEdits(m, o, k + 1) ==
      match ImportTarget(m, o.imports.entries, o.table.symbols[k])
      case None => ImportEdits(m, o, k)
      case Some(r) => ImportEdits(m, o, k) + [EntryEdit(o.imports, r)]
  {
    hide EntryEdit, ImportTarget;
  }

  method RewriteLoop(o: Object, symbolEdits: seq<Edit>, importEdits: seq<Edit>) returns (out: Bytes)
    requires LinkingAt(o.sections) < |o.sections|
    ensures out == HEADER + Emit(RewrittenAll(o, symbolEdits, importEdits))
  {
    out := HEADER;
    ghost var all := RewrittenAll(o, symbolEdits, importEdits);
    assert all[0..] == all;
    for i := 0 to |o.sections|
      invariant HEADER + Emit(all) == out + Emit(all[i..])
    {
      hide Raw, Rewritten, Emit;
      var x := RewriteSection(o, i, symbolEdits, importEdits);
      EmitTail(all, i);
      assert out + (Raw(x) + Emit(all[i + 1..])) == out + Raw(x) + Emit(all[i + 1..]);
      out := out + Raw(x);
    }
    assert all[|all|..] == [];
    assert out + Emit([]) == out;
  }

  lemma EmitTail(xs: seq<Section>, i: nat)
    requires i < |xs|
    ensures Emit(xs[i..]) == Raw(xs[i]) + Emit(xs[i + 1..])
  {
    hide Raw;
    assert xs[i..][1..] == xs[i + 1..];
  }

  method RewriteSection(o: Object, i: nat, symbolEdits: seq<Edit>, importEdits: seq<Edit>) returns (x: Section)
    requires i < |o.sections|
    ensures x == Rewritten(o, i, symbolEdits, importEdits)
  {
    hide SpliceFrom, SortEdits, PrintFound, CustomOf, PrintSymbols, EncodeAtWidth;
    x := o.sections[i];
    if i == LinkingAt(o.sections) && symbolEdits != [] {
      var content := SpliceLoop(Content(o.table), SortEdits(symbolEdits));
      x := Resized(x, RelinkedPayload(x, o.table, content));
    } else if x.id == IMPORT_SECTION && importEdits != [] {
      var payload := SpliceLoop(x.payload, SortEdits(importEdits));
      x := Resized(x, payload);
    }
  }

  method ObjectLoop(bytes: Bytes) returns (r: Option<Object>)
    ensures r == ReadObject(bytes)
  {
    hide ParseModule, ReadTable, ReadImports, CustomOf, LinkingAt, ImportsAt, NeedsImports;
    var sections := ParseLoop(bytes);
    if sections == None {
      return None;
    }
    var xs := sections.value;
    var l := LinkingAt(xs);
    if l == |xs| {
      return None;
    }
    var table := TableLoop(CustomOf(xs[l].payload).value.data);
    if table == None {
      return None;
    }
    if !NeedsImports(table.value.symbols) || ImportsAt(xs) == |xs| {
      return Some(Object(xs, table.value, NO_IMPORTS));
    }
    var imports := ImportsLoop(xs[ImportsAt(xs)].payload);
    if imports == None {
      return None;
    }
    return Some(Object(xs, table.value, imports.value));
  }

  method RenameLoop(bytes: Bytes, m: Renaming) returns (r: Option<Bytes>)
    ensures r == Rename(bytes, m)
  {
    hide ReadSections, SymbolEdits, ImportEdits, RewrittenAll, Emit, ParseModule;
    if m.names == map[] {
      return Some(bytes);
    }
    var read := ObjectLoop(bytes);
    if read == None {
      return None;
    }
    var symbolEdits, importEdits := CollectEdits(m, read.value);
    if symbolEdits == [] && importEdits == [] {
      return Some(bytes);
    }
    assert LinkingAt(read.value.sections) < |read.value.sections| by { HasLinking(bytes); }
    var out := RewriteLoop(read.value, symbolEdits, importEdits);
    return Some(out);
  }

  lemma HasLinking(bytes: Bytes)
    requires ReadObject(bytes).Some?
    ensures var xs := ReadObject(bytes).value.sections; LinkingAt(xs) < |xs|
  {
  }

  method ListLoop(bytes: Bytes) returns (r: Option<seq<Listed>>)
    ensures r == ListSymbols(bytes)
  {
    hide ReadObject, ListedAs;
    var read := ObjectLoop(bytes);
    if read == None {
      return None;
    }
    var o: Object, out: seq<Listed> := read.value, [];
    for index := 0 to |o.table.symbols|
      invariant out == Listing(o)[..index]
    {
      out := out + [ListedAs(o, index)];
    }
    assert Listing(o)[..|o.table.symbols|] == Listing(o);
    return Some(out);
  }
}
