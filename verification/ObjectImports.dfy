/** The import section of a relocatable wasm object, read far enough to find each field name
    and the index an import has within its kind.  Value types are single bytes. */
module ObjectImports {
  import opened Options
  import opened Fields
  import opened Leb128
  import opened NameSplice
  import opened ObjectSymbols

  const IMPORT_FUNCTION: Byte := 0
  const IMPORT_TABLE: Byte := 1
  const IMPORT_MEMORY: Byte := 2
  const IMPORT_GLOBAL: Byte := 3
  const IMPORT_TAG: Byte := 4

  datatype Import = Import(mod: Named, field: Named, kind: Byte, desc: Bytes)

  datatype Imports = Imports(count: Bytes, entries: seq<Import>, after: Bytes)

  // ----- descriptions --------------------------------------------------------------------------------

  function Bit(b: Byte, weight: Byte): nat
    requires weight > 0
  {
    ((b / weight) % 2) as nat
  }

  /** Flags, a minimum, a maximum if bit 0 is set, a page size if bit 3 is. */
  function LimitsLength(s: Bytes): (r: Option<nat>)
    ensures r.Some? ==> r.value <= |s|
  {
    if |s| == 0 then None
    else
      match LebsLength(s[1..], 1 + Bit(s[0], 1) + Bit(s[0], 8))
      case None => None
      case Some(k) => Some(1 + k)
  }

  predicate TypedReference(b: Byte) {
    b == 0x63 || b == 0x64
  }

  /** How many bytes describe an import of this kind.  A global's type and mutability are
      stepped over without looking whether the section still holds them. */
  function DescLength(kind: Byte, s: Bytes): (r: Option<nat>)
    ensures r.Some? ==> r.value <= |s|
  {
    if kind == IMPORT_FUNCTION then LebsLength(s, 1)
    else if kind == IMPORT_MEMORY then LimitsLength(s)
    else if kind == IMPORT_GLOBAL then
      if |s| == 0 then Some(0)
      else if TypedReference(s[0]) then None
      else if |s| == 1 then Some(1)
      else Some(2)
    else if |s| == 0 then None
    else if kind == IMPORT_TABLE then
      if TypedReference(s[0]) then None else Longer(LimitsLength(s[1..]))
    else if kind == IMPORT_TAG then Longer(LebsLength(s[1..], 1))
    else None
  }

  function Longer(k: Option<nat>): Option<nat> {
    match k
    case None => None
    case Some(n) => Some(n + 1)
  }

  /** Not a global import cut short by the section's end. */
  predicate Whole(x: Import) {
    x.kind == IMPORT_GLOBAL ==> |x.desc| == 2
  }

  lemma LimitsAreLocal(s: Bytes, u: Bytes)
    requires LimitsLength(s).Some?
    ensures LimitsLength(s[..LimitsLength(s).value] + u) == LimitsLength(s)
  {
    hide LebsLength;
    var k := LimitsLength(s).value;
    LebsLengthIsLocal(s[1..], 1 + Bit(s[0], 1) + Bit(s[0], 8), u);
    ShiftFront(s, k, u);
  }

  lemma ShiftFront<T>(s: seq<T>, k: nat, u: seq<T>)
    requires 0 < k <= |s|
    ensures (s[..k] + u)[1..] == s[1..][..k - 1] + u && (s[..k] + u)[0] == s[0]
  {
  }

  lemma DescIsLocal(kind: Byte, s: Bytes, u: Bytes)
    requires DescLength(kind, s).Some?
    requires kind != IMPORT_GLOBAL || DescLength(kind, s).value == 2 || u == []
    ensures DescLength(kind, s[..DescLength(kind, s).value] + u) == DescLength(kind, s)
    ensures kind == IMPORT_GLOBAL && DescLength(kind, s).value != 2 ==> DescLength(kind, s).value == |s|
  {
    hide LebsLength, LimitsLength;
    var k := DescLength(kind, s).value;
    if kind == IMPORT_FUNCTION {
      LebsLengthIsLocal(s, 1, u);
    } else if kind == IMPORT_MEMORY {
      LimitsAreLocal(s, u);
    } else if kind == IMPORT_TABLE {
      LimitsAreLocal(s[1..], u);
      ShiftFront(s, k, u);
    } else if kind == IMPORT_TAG {
      LebsLengthIsLocal(s[1..], 1, u);
      ShiftFront(s, k, u);
    }
  }

  // ----- one import ------------------------------------------------------------------------------------

  function ImportItem(x: Import): Item {
    Item(PrintName(Some(x.mod)), Some(x.field), [x.kind] + x.desc)
  }

  datatype TakenImport = TakenImport(entry: Import, rest: Bytes)

  function TakeImport(s: Bytes): Option<TakenImport> {
    match TakeName(s)
    case None => None
    case Some(m) =>
      match TakeName(m.rest)
      case None => None
      case Some(f) => if |f.rest| == 0 then None else TakeDesc(m.name, f.name, f.rest[0], f.rest[1..])
  }

  function TakeDesc(mod: Named, field: Named, kind: Byte, s: Bytes): Option<TakenImport> {
    match DescLength(kind, s)
    case None => None
    case Some(k) => Some(TakenImport(Import(mod, field, kind, s[..k]), s[k..]))
  }

  predicate GoodImport(x: Import) {
    IsName(x.mod) && IsName(x.field) && DescLength(x.kind, x.desc) == Some(|x.desc|)
  }

  lemma ImportParts(x: Import, u: Bytes)
    ensures PrintItem(ImportItem(x)) + u
         == PrintName(Some(x.mod)) + (PrintName(Some(x.field)) + ([x.kind] + (x.desc + u)))
  {
  }

  lemma TakenImportIsGood(s: Bytes)
    requires TakeImport(s).Some?
    ensures var t := TakeImport(s).value;
      && GoodImport(t.entry) && (Whole(t.entry) || t.rest == [])
      && PrintItem(ImportItem(t.entry)) + t.rest == s
  {
    hide TakeName, DescLength, PrintItem, ImportItem, IsName;
    var t, m := TakeImport(s).value, TakeName(s).value;
    var f := TakeName(m.rest).value;
    TakenIsName(s);
    TakenIsName(m.rest);
    var kind, tail := f.rest[0], f.rest[1..];
    var k := DescLength(kind, tail).value;
    DescIsLocal(kind, tail, []);
    assert tail[..k] + [] == tail[..k];
    ImportParts(t.entry, t.rest);
    assert tail == tail[..k] + tail[k..] && f.rest == [kind] + tail;
    assert PrintName(Some(m.name)) + m.rest == s && PrintName(Some(f.name)) + f.rest == m.rest;
  }

  lemma GoodImportIsTaken(x: Import, u: Bytes)
    requires GoodImport(x) && (Whole(x) || u == [])
    ensures TakeImport(PrintItem(ImportItem(x)) + u) == Some(TakenImport(x, u))
  {
    hide TakeName, DescLength, PrintItem, ImportItem, IsName;
    ImportParts(x, u);
    NameIsTaken(x.mod, PrintName(Some(x.field)) + ([x.kind] + (x.desc + u)));
    NameIsTaken(x.field, [x.kind] + (x.desc + u));
    assert ([x.kind] + (x.desc + u))[1..] == x.desc + u;
    assert x.desc[..|x.desc|] == x.desc;
    DescIsLocal(x.kind, x.desc, u);
  }

  // ----- a run of imports ---------------------------------------------------------------------------------

  datatype TakenImports = TakenImports(entries: seq<Import>, rest: Bytes)

  function TakeImports(s: Bytes, n: nat): Option<TakenImports>
    decreases n
  {
    if n == 0 then Some(TakenImports([], s))
    else
      match TakeImport(s)
      case None => None
      case Some(t) =>
        match TakeImports(t.rest, n - 1)
        case None => None
        case Some(ts) => Some(TakenImports([t.entry] + ts.entries, ts.rest))
  }

  function ImportItems(xs: seq<Import>): (r: seq<Item>)
    ensures |r| == |xs| && forall i: nat :: i < |xs| ==> r[i] == ImportItem(xs[i])
  {
    seq(|xs|, i requires 0 <= i < |xs| => ImportItem(xs[i]))
  }

  function PrintEntries(xs: seq<Import>): Bytes {
    PrintItems(ImportItems(xs))
  }

  /** Only the last import of a section with nothing behind it can be cut short. */
  ghost predicate GoodEntries(xs: seq<Import>, after: Bytes) {
    forall i: nat :: i < |xs| ==> GoodImport(xs[i]) && (Whole(xs[i]) || (i == |xs| - 1 && after == []))
  }

  lemma EntriesCons(x: Import, xs: seq<Import>)
    ensures PrintEntries([x] + xs) == PrintItem(ImportItem(x)) + PrintEntries(xs)
  {
    hide PrintItem, ImportItem;
    assert ImportItems([x] + xs)[1..] == ImportItems(xs);
  }

  lemma GoodEntriesCons(x: Import, xs: seq<Import>, after: Bytes)
    requires GoodEntries(xs, after) && GoodImport(x)
    requires Whole(x) || PrintEntries(xs) + after == []
    ensures GoodEntries([x] + xs, after)
  {
    hide GoodImport, Whole;
    if |xs| > 0 {
      assert PrintEntries(xs) != [] by { EntriesNonempty(xs); }
    }
  }

  lemma EntriesNonempty(xs: seq<Import>)
    requires |xs| > 0
    ensures PrintEntries(xs) != []
  {
    EntriesCons(xs[0], xs[1..]);
    assert xs == [xs[0]] + xs[1..];
    ImportParts(xs[0], []);
  }

  lemma {:induction false} TakenEntriesAreGood(s: Bytes, n: nat)
    requires TakeImports(s, n).Some?
    ensures var ts := TakeImports(s, n).value;
      |ts.entries| == n && GoodEntries(ts.entries, ts.rest) && PrintEntries(ts.entries) + ts.rest == s
    decreases n
  {
    hide TakeImport, PrintEntries, PrintItem, ImportItem, GoodEntries, GoodImport;
    if n == 0 {
      NoEntries(s);
    } else {
      var t := TakeImport(s).value;
      var ts := TakeImports(t.rest, n - 1).value;
      TakenImportIsGood(s);
      TakenEntriesAreGood(t.rest, n - 1);
      GoodEntriesCons(t.entry, ts.entries, ts.rest);
      EntriesCons(t.entry, ts.entries);
      var p := PrintItem(ImportItem(t.entry));
      assert p + PrintEntries(ts.entries) + ts.rest == p + (PrintEntries(ts.entries) + ts.rest);
    }
  }

  lemma NoEntries(u: Bytes)
    ensures GoodEntries([], u) && PrintEntries([]) + u == u
  {
    assert [] + u == u;
  }

  lemma GoodEntriesTail(xs: seq<Import>, after: Bytes)
    requires |xs| > 0 && GoodEntries(xs, after)
    ensures GoodImport(xs[0]) && GoodEntries(xs[1..], after)
    ensures Whole(xs[0]) || PrintEntries(xs[1..]) + after == []
  {
    hide GoodImport, Whole;
    NoEntries(after);
  }

  lemma {:induction false} GoodEntriesAreTaken(xs: seq<Import>, u: Bytes)
    requires GoodEntries(xs, u)
    ensures TakeImports(PrintEntries(xs) + u, |xs|) == Some(TakenImports(xs, u))
  {
    hide TakeImport, PrintEntries, PrintItem, ImportItem, GoodEntries, GoodImport, Whole;
    if |xs| == 0 {
      NoEntries(u);
    } else {
      GoodEntriesTail(xs, u);
      GoodImportIsTaken(xs[0], PrintEntries(xs[1..]) + u);
      GoodEntriesAreTaken(xs[1..], u);
      EntriesCons(xs[0], xs[1..]);
      assert xs == [xs[0]] + xs[1..];
      var p := PrintItem(ImportItem(xs[0]));
      assert p + PrintEntries(xs[1..]) + u == p + (PrintEntries(xs[1..]) + u);
    }
  }

  // ----- the section ------------------------------------------------------------------------------------------

  /** A count and that many imports; whatever follows is not looked at. */
  function ReadImports(payload: Bytes): Option<Imports> {
    match TakeLebs(payload, 1)
    case None => None
    case Some(c) =>
      match TakeImports(c.rest, ValueOf(c.raw))
      case None => None
      case Some(ts) => Some(Imports(c.raw, ts.entries, ts.rest))
  }

  function PrintImports(x: Imports): Bytes {
    x.count + PrintEntries(x.entries) + x.after
  }

  ghost predicate GoodImports(x: Imports) {
    AreLebs(x.count, 1) && ValueOf(x.count) == |x.entries| && GoodEntries(x.entries, x.after)
  }

  lemma ReadImportsIsGood(payload: Bytes)
    requires ReadImports(payload).Some?
    ensures GoodImports(ReadImports(payload).value) && PrintImports(ReadImports(payload).value) == payload
  {
    hide TakeLebs, AreLebs, TakeImports, GoodEntries, PrintEntries, ValueOf;
    var c := TakeLebs(payload, 1).value;
    TakenAreLebs(payload, 1);
    TakenEntriesAreGood(c.rest, ValueOf(c.raw));
    var ts := TakeImports(c.rest, ValueOf(c.raw)).value;
    assert c.raw + PrintEntries(ts.entries) + ts.rest == c.raw + (PrintEntries(ts.entries) + ts.rest);
  }

  lemma GoodImportsAreRead(x: Imports)
    requires GoodImports(x)
    ensures ReadImports(PrintImports(x)) == Some(x)
  {
    hide TakeLebs, AreLebs, TakeImports, GoodEntries, PrintEntries, ValueOf;
    LebsAreTaken(x.count, 1, PrintEntries(x.entries) + x.after);
    GoodEntriesAreTaken(x.entries, x.after);
    assert PrintImports(x) == x.count + (PrintEntries(x.entries) + x.after);
  }
}
