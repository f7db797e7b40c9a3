/** Listing and renaming the symbols of a relocatable wasm object.  A symbol's name lives in the
    symbol table, or, for an undefined symbol without an explicit name, in the import it refers
    to by its index within its kind.  Names are byte strings. */
module ObjectRenaming {
  import opened Options
  import opened Fields
  import opened Leb128
  import opened WasmModule
  import opened NameSplice
  import opened ObjectSymbols
  import opened SymbolTable
  import opened ObjectImports

  const LINKING: Bytes := [0x6c, 0x69, 0x6e, 0x6b, 0x69, 0x6e, 0x67]
  const IMPORT_SECTION: Byte := 2
  const NO_IMPORTS := Imports([], [], [])

  type Names = map<Bytes, Bytes>

  // ----- the object as read ---------------------------------------------------------------------------

  datatype Object = Object(sections: seq<Section>, table: Table, imports: Imports)

  /** The first "linking" section, or the number of sections. */
  function LinkingAt(xs: seq<Section>): (r: nat)
    ensures r <= |xs| && (r < |xs| ==> IsCustom(xs[r], LINKING))
  {
    if |xs| == 0 || IsCustom(xs[0], LINKING) then 0 else 1 + LinkingAt(xs[1..])
  }

  /** The first import section, or the number of sections. */
  function ImportsAt(xs: seq<Section>): (r: nat)
    ensures r <= |xs| && (r < |xs| ==> xs[r].id == IMPORT_SECTION)
  {
    if |xs| == 0 || xs[0].id == IMPORT_SECTION then 0 else 1 + ImportsAt(xs[1..])
  }

  /** Named by the import it refers to. */
  predicate ImportNamed(x: Symbol) {
    x.name == None && x.kind != SECTION
  }

  predicate NeedsImports(xs: seq<Symbol>) {
    exists i: nat :: i < |xs| && ImportNamed(xs[i])
  }

  /** Imports are read only when some symbol is named by one. */
  function ReadObject(bytes: Bytes): Option<Object> {
    match ParseModule(bytes)
    case None => None
    case Some(xs) => ReadSections(xs)
  }

  function ReadSections(xs: seq<Section>): Option<Object> {
    var l := LinkingAt(xs);
    if l == |xs| then None
    else
      match ReadTable(CustomOf(xs[l].payload).value.data)
      case None => None
      case Some(t) =>
        match ImportsOf(xs, t.symbols)
        case None => None
        case Some(e) => Some(Object(xs, t, e))
  }

  function ImportsOf(xs: seq<Section>, symbols: seq<Symbol>): Option<Imports> {
    if !NeedsImports(symbols) || ImportsAt(xs) == |xs| then Some(NO_IMPORTS)
    else ReadImports(xs[ImportsAt(xs)].payload)
  }

  // ----- names through imports --------------------------------------------------------------------------

  function ImportKind(kind: Byte): Byte {
    if kind == GLOBAL then IMPORT_GLOBAL
    else if kind == EVENT then IMPORT_TAG
    else if kind == TABLE then IMPORT_TABLE
    else IMPORT_FUNCTION
  }

  /** How many imports of a kind come before entry `j`. */
  function KindIndex(xs: seq<Import>, kind: Byte, j: nat): nat
    requires j <= |xs|
  {
    if j == 0 then 0 else KindIndex(xs, kind, j - 1) + if xs[j - 1].kind == kind then 1 else 0
  }

  predicate Matches(xs: seq<Import>, x: Symbol, j: nat)
    requires j < |xs|
  {
    xs[j].kind == ImportKind(x.kind) && KindIndex(xs, xs[j].kind, j) == ValueOf(x.index)
  }

  /** The import a symbol refers to: the first match from `j` on, or the number of imports. */
  function FindImport(xs: seq<Import>, x: Symbol, j: nat): (r: nat)
    requires j <= |xs|
    ensures j <= r <= |xs|
    decreases |xs| - j
  {
    if j == |xs| || Matches(xs, x, j) then j else FindImport(xs, x, j + 1)
  }

  function NameOf(o: Object, x: Symbol): Bytes {
    if x.name.Some? then x.name.value.text
    else if x.kind == SECTION then []
    else
      var j := FindImport(o.imports.entries, x, 0);
      if j < |o.imports.entries| then o.imports.entries[j].field.text else []
  }

  datatype Listed = Listed(index: nat, kind: Byte, flags: nat, name: Bytes, defined: bool, isLocal: bool, weak: bool)

  function ListedAs(o: Object, i: nat): Listed
    requires i < |o.table.symbols|
  {
    var x := o.table.symbols[i];
    Listed(i, x.kind, ValueOf(x.flags), NameOf(o, x), !Undefined(x.flags), Local(x.flags), Weak(x.flags))
  }

  function Listing(o: Object): (r: seq<Listed>)
    ensures |r| == |o.table.symbols| && forall i: nat :: i < |r| ==> r[i] == ListedAs(o, i)
  {
    seq(|o.table.symbols|, i requires 0 <= i < |o.table.symbols| => ListedAs(o, i))
  }

  function ListSymbols(bytes: Bytes): Option<seq<Listed>> {
    match ReadObject(bytes)
    case None => None
    case Some(o) => Some(Listing(o))
  }

  // ----- renaming as edits --------------------------------------------------------------------------------

  datatype Renaming = Renaming(names: Names, undefinedOnly: bool)

  function Target(m: Renaming, x: Symbol, name: Bytes): Option<Bytes> {
    if x.kind == SECTION || (m.undefinedOnly && !Undefined(x.flags)) then None
    else if name in m.names && m.names[name] != name then Some(m.names[name])
    else None
  }

  /** The new name of a symbol that carries its own. */
  function OwnTarget(m: Renaming, x: Symbol): Option<Bytes> {
    if x.name.Some? then Target(m, x, x.name.value.text) else None
  }

  function OwnTargets(m: Renaming, xs: seq<Symbol>): (r: seq<Option<Bytes>>)
    ensures |r| == |xs| && forall i: nat :: i < |xs| ==> r[i] == OwnTarget(m, xs[i])
  {
    seq(|xs|, i requires 0 <= i < |xs| => OwnTarget(m, xs[i]))
  }

  datatype Retarget = Retarget(at: nat, name: Bytes)

  /** The import entry a symbol's renaming rewrites. */
  function ImportTarget(m: Renaming, entries: seq<Import>, x: Symbol): (r: Option<Retarget>)
    ensures r.Some? ==> r.value.at < |entries| && r.value.at == FindImport(entries, x, 0)
  {
    if !ImportNamed(x) then None
    else
      var j := FindImport(entries, x, 0);
      if j == |entries| then None
      else
        match Target(m, x, entries[j].field.text)
        case None => None
        case Some(name) => Some(Retarget(j, name))
  }

  function SymbolEdits(m: Renaming, t: Table): seq<Edit> {
    EditsFor(Items(t.symbols), OwnTargets(m, t.symbols), |t.count|)
  }

  /** The edits the first `k` symbols ask for, in symbol order. */
  function ImportEdits(m: Renaming, o: Object, k: nat): seq<Edit>
    requires k <= |o.table.symbols|
  {
    if k == 0 then []
    else
      ImportEdits(m, o, k - 1) +
      match ImportTarget(m, o.imports.entries, o.table.symbols[k - 1])
      case None => []
      case Some(r) => [EntryEdit(o.imports, r)]
  }

  function EntryEdit(e: Imports, r: Retarget): Edit
    requires r.at < |e.entries|
  {
    var items := ImportItems(e.entries);
    ItemEdit(items[r.at], r.name, ItemStart(items, r.at, |e.count|))
  }

  /** A section with a new payload and its size at the width it had. */
  function Resized(x: Section, payload: Bytes): Section {
    Section(x.id, EncodeAtWidth(|payload|, |x.size|), payload)
  }

  function RelinkedPayload(x: Section, t: Table, content: Bytes): Bytes
    requires CustomOf(x.payload).Some?
  {
    var c := CustomOf(x.payload).value;
    var sub := Section(SYMBOL_TABLE_ID, EncodeAtWidth(|content|, |t.size|), content);
    c.nameLength + c.name + (t.version + PrintFound(Found(t.before, sub, t.after)))
  }

  function Rewritten(o: Object, i: nat, symbolEdits: seq<Edit>, importEdits: seq<Edit>): Section
    requires i < |o.sections|
  {
    var x := o.sections[i];
    if i == LinkingAt(o.sections) && symbolEdits != [] then
      Resized(x, RelinkedPayload(x, o.table, Splice(Content(o.table), symbolEdits)))
    else if x.id == IMPORT_SECTION && importEdits != [] then Resized(x, Splice(x.payload, importEdits))
    else x
  }

  function RewrittenAll(o: Object, symbolEdits: seq<Edit>, importEdits: seq<Edit>): (r: seq<Section>)
    ensures |r| == |o.sections|
    ensures forall i: nat :: i < |r| ==> r[i] == Rewritten(o, i, symbolEdits, importEdits)
  {
    seq(|o.sections|, i requires 0 <= i < |o.sections| => Rewritten(o, i, symbolEdits, importEdits))
  }

  /** The object's bytes with the names replaced. */
  function Rename(bytes: Bytes, m: Renaming): Option<Bytes> {
    if m.names == map[] then Some(bytes)
    else
      match ReadObject(bytes)
      case None => None
      case Some(o) =>
        var symbolEdits, importEdits := SymbolEdits(m, o.table), ImportEdits(m, o, |o.table.symbols|);
        if symbolEdits == [] && importEdits == [] then Some(bytes)
        else Some(HEADER + Emit(RewrittenAll(o, symbolEdits, importEdits)))
  }
}
