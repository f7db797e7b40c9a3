/** The names a linked object carries: guest-link symbols under a prefix spelled from the plugin
    id, library symbols under the library's namespace, and a module's references renamed to
    match the library definitions they mean. */
module LinkNamespaces {
  import opened Options
  import opened Fields
  import opened Leb128
  import opened ObjectSymbols
  import opened ObjectRenaming
  import opened RenamedObjects
  import opened RenamingTheorems

  // ----- prefixes -----------------------------------------------------------------------------------------

  const UNDERSCORE: Byte := 0x5f
  const SDM_GUEST: Bytes := [0x73, 0x64, 0x6d, 0x5f, 0x67, 0x75, 0x65, 0x73, 0x74, 0x5f]

  function HexDigit(n: nat): (r: Byte)
    requires n < 16
    ensures r != UNDERSCORE
  {
    (if n < 10 then 0x30 + n else 0x61 + n - 10) as Byte
  }

  /** Two lower-case digits for every byte. */
  function Hex(id: Bytes): (r: Bytes)
    ensures |r| == 2 * |id|
  {
    if |id| == 0 then [] else [HexDigit(id[0] as nat / 16), HexDigit(id[0] as nat % 16)] + Hex(id[1..])
  }

  function GuestPrefix(pluginId: Bytes): Bytes {
    SDM_GUEST + (Hex(pluginId) + [UNDERSCORE])
  }

  lemma {:induction false} HexHasNoUnderscore(id: Bytes, i: nat)
    requires i < |Hex(id)|
    ensures Hex(id)[i] != UNDERSCORE
  {
    if i >= 2 {
      HexHasNoUnderscore(id[1..], i - 2);
    }
  }

  lemma {:induction false} HexDecides(a: Bytes, b: Bytes)
    requires Hex(a) == Hex(b)
    ensures a == b
  {
    assert |a| == |b|;
    if |a| > 0 {
      var x, y := Hex(a), Hex(b);
      assert x[0] == y[0] && x[1] == y[1] && x[2..] == y[2..];
      assert x[2..] == Hex(a[1..]) && y[2..] == Hex(b[1..]);
      HexDecides(a[1..], b[1..]);
      assert a[0] as nat / 16 == b[0] as nat / 16 && a[0] as nat % 16 == b[0] as nat % 16;
      assert a[0] == b[0];
      assert a == [a[0]] + a[1..] && b == [b[0]] + b[1..];
    }
  }

  /** The underscore after the digits ends them: no prefix is the beginning of another. */
  lemma PrefixDecides(a: Bytes, b: Bytes, x: Bytes, y: Bytes)
    requires GuestPrefix(a) + x == GuestPrefix(b) + y
    ensures a == b && x == y
  {
    var s := GuestPrefix(a) + x;
    var m, n := |SDM_GUEST| + |Hex(a)|, |SDM_GUEST| + |Hex(b)|;
    assert s[m] == UNDERSCORE && s[n] == UNDERSCORE;
    if m < n {
      HexHasNoUnderscore(b, |Hex(a)|);
    }
    if n < m {
      HexHasNoUnderscore(a, |Hex(b)|);
    }
    assert Hex(a) == s[|SDM_GUEST|..m] && Hex(b) == s[|SDM_GUEST|..n];
    HexDecides(a, b);
    assert x == s[m + 1..] && y == s[n + 1..];
  }

  // ----- guest-link objects -------------------------------------------------------------------------------

  predicate IsLetter(b: Byte) {
    0x41 <= b <= 0x5a || 0x61 <= b <= 0x7a || b == UNDERSCORE
  }

  predicate IsIdentifier(name: Bytes) {
    |name| > 0 && IsLetter(name[0]) && forall i: nat :: i < |name| ==> IsLetter(name[i]) || 0x30 <= name[i] <= 0x39
  }

  predicate StrongGlobal(l: Listed) {
    l.defined && !l.isLocal && !l.weak
  }

  /** The strong global identifiers an object defines. */
  function DefinedIdentifiers(ls: seq<Listed>): set<Bytes> {
    set i: nat | i < |ls| && StrongGlobal(ls[i]) && IsIdentifier(ls[i].name) :: ls[i].name
  }

  function MethodIdentifiers(methods: seq<Bytes>): set<Bytes> {
    set i: nat | i < |methods| && IsIdentifier(methods[i]) :: methods[i]
  }

  function GuestNames(ls: seq<Listed>, pluginId: Bytes, methods: seq<Bytes>): Names {
    map name | name in DefinedIdentifiers(ls) + MethodIdentifiers(methods) :: GuestPrefix(pluginId) + name
  }

  function GuestRenaming(o: Object, pluginId: Bytes, methods: seq<Bytes>): Renaming {
    Renaming(GuestNames(Listing(o), pluginId, methods), false)
  }

  /** Some symbol defines the name, neither locally nor weakly. */
  ghost predicate DefinedStrongly(ls: seq<Listed>, name: Bytes) {
    exists i: nat :: i < |ls| && ls[i].defined && !ls[i].isLocal && !ls[i].weak && ls[i].name == name
  }

  /** Exactly the object's strong global identifiers and the method identifiers are prefixed. */
  lemma GuestNamesAre(ls: seq<Listed>, pluginId: Bytes, methods: seq<Bytes>, name: Bytes)
    ensures var names := GuestNames(ls, pluginId, methods);
      && (name in names <==> IsIdentifier(name) && (name in methods || DefinedStrongly(ls, name)))
      && (name in names ==> names[name] == GuestPrefix(pluginId) + name)
  {
    hide IsIdentifier, GuestPrefix;
  }

  /** An object that a renaming treats as it should. */
  ghost predicate Renameable(bytes: Bytes, m: Renaming) {
    && ReadObject(bytes).Some? && OthersUnedited(m, ReadObject(bytes).value)
    && DistinctTargets(m, ReadObject(bytes).value)
    && (Rename(bytes, m).Some? ==> |Rename(bytes, m).value| < SAFE_LIMIT)
  }

  /** A defined symbol, or one with a name, is neither dangling nor, if named, a section. */
  lemma NamedIsThere(o: Object, i: nat)
    requires GoodObject(o) && i < |o.table.symbols|
    ensures var x := o.table.symbols[i];
      && (!Undefined(x.flags) || NameOf(o, x) != [] ==> !Dangling(o, x))
      && (NameOf(o, x) != [] ==> x.kind != SECTION)
  {
    GoodSymbols(o, i);
    hide GoodObject, FindImport, Undefined, AreLebs, IsName, ExplicitName;
  }

  /** In a guest-link object every strong global identifier carries the plugin's prefix. */
  lemma GuestNamesArePrefixed(bytes: Bytes, pluginId: Bytes, methods: seq<Bytes>, i: nat)
    requires ReadObject(bytes).Some?
    requires var m := GuestRenaming(ReadObject(bytes).value, pluginId, methods); Renameable(bytes, m)
    requires i < |Listing(ReadObject(bytes).value)|
    ensures var r := Rename(bytes, GuestRenaming(ReadObject(bytes).value, pluginId, methods));
      && r.Some? && ListSymbols(r.value).Some? && |ListSymbols(r.value).value| == |Listing(ReadObject(bytes).value)|
      && var l := ListSymbols(r.value).value[i];
        StrongGlobal(l) && IsIdentifier(l.name) ==> GuestPrefix(pluginId) <= l.name
  {
    hide ReadObject, Rename, RenamedObject, OthersUnedited, DistinctTargets, NewName, GuestPrefix, IsIdentifier;
    hide GuestRenaming;
    var o := ReadObject(bytes).value;
    var m := GuestRenaming(o, pluginId, methods);
    OnlyNamesChange(bytes, m);
    ReadObjectIsGood(bytes);
    GuestNewName(o, pluginId, methods, i);
  }

  /** Every symbol whose name is neither such an identifier nor a method's keeps its name. */
  lemma OthersKeepNames(bytes: Bytes, pluginId: Bytes, methods: seq<Bytes>, i: nat)
    requires ReadObject(bytes).Some?
    requires var m := GuestRenaming(ReadObject(bytes).value, pluginId, methods); Renameable(bytes, m)
    requires var ls := Listing(ReadObject(bytes).value);
      i < |ls| && !(IsIdentifier(ls[i].name) && (ls[i].name in methods || DefinedStrongly(ls, ls[i].name)))
    ensures var r := Rename(bytes, GuestRenaming(ReadObject(bytes).value, pluginId, methods));
      && r.Some? && ListSymbols(r.value).Some? && i < |ListSymbols(r.value).value|
      && ListSymbols(r.value).value[i] == Listing(ReadObject(bytes).value)[i]
  {
    hide ReadObject, Rename, RenamedObject, OthersUnedited, DistinctTargets, GuestPrefix;
    hide IsIdentifier, NameOf, Dangling;
    var o := ReadObject(bytes).value;
    var m := GuestRenaming(o, pluginId, methods);
    OnlyNamesChange(bytes, m);
    GuestNamesAre(Listing(o), pluginId, methods, Listing(o)[i].name);
    var l := Listing(o)[i];
    assert l.(name := l.name) == l;
  }

  lemma GuestNewName(o: Object, pluginId: Bytes, methods: seq<Bytes>, i: nat)
    requires GoodObject(o) && i < |o.table.symbols|
    ensures var name := NewName(GuestRenaming(o, pluginId, methods), o, o.table.symbols[i]);
      StrongGlobal(ListedAs(o, i)) && IsIdentifier(name) ==> GuestPrefix(pluginId) <= name
  {
    var m, x := GuestRenaming(o, pluginId, methods), o.table.symbols[i];
    hide GoodObject, NameOf, GuestPrefix, IsIdentifier, Dangling, Undefined, Local, Weak, ValueOf;
    if StrongGlobal(ListedAs(o, i)) && IsIdentifier(NewName(m, o, x)) {
      NamedIsThere(o, i);
      var name := NameOf(o, x);
      IdentifierIsListed(Listing(o), i);
      if name in m.names {
        assert m.names[name] == GuestPrefix(pluginId) + name;
        Begins(GuestPrefix(pluginId), name);
      }
    }
  }

  lemma IdentifierIsListed(ls: seq<Listed>, i: nat)
    requires i < |ls|
    ensures StrongGlobal(ls[i]) && IsIdentifier(ls[i].name) ==> ls[i].name in DefinedIdentifiers(ls)
  {
  }

  lemma Begins<T>(a: seq<T>, b: seq<T>)
    ensures a <= a + b
  {
  }

  /** Guest-link objects of different plugins define no strong global identifier in common. */
  lemma GuestsDoNotClash(bytes: Bytes, bytes': Bytes, id: Bytes, id': Bytes, methods: seq<Bytes>,
                         methods': seq<Bytes>, i: nat, j: nat)
    requires ReadObject(bytes).Some? && ReadObject(bytes').Some? && id != id'
    requires Renameable(bytes, GuestRenaming(ReadObject(bytes).value, id, methods))
    requires Renameable(bytes', GuestRenaming(ReadObject(bytes').value, id', methods'))
    requires i < |Listing(ReadObject(bytes).value)| && j < |Listing(ReadObject(bytes').value)|
    ensures var r := Rename(bytes, GuestRenaming(ReadObject(bytes).value, id, methods));
      var r' := Rename(bytes', GuestRenaming(ReadObject(bytes').value, id', methods'));
      && r.Some? && ListSymbols(r.value).Some? && i < |ListSymbols(r.value).value|
      && r'.Some? && ListSymbols(r'.value).Some? && j < |ListSymbols(r'.value).value|
      && var l, l' := ListSymbols(r.value).value[i], ListSymbols(r'.value).value[j];
        StrongGlobal(l) && StrongGlobal(l') && IsIdentifier(l.name) ==> l.name != l'.name
  {
    hide ReadObject, Rename, ListSymbols, Renameable, GuestRenaming, GuestPrefix, IsIdentifier;
    GuestNamesArePrefixed(bytes, id, methods, i);
    GuestNamesArePrefixed(bytes', id', methods', j);
    var l := ListSymbols(Rename(bytes, GuestRenaming(ReadObject(bytes).value, id, methods)).value).value[i];
    var l' := ListSymbols(Rename(bytes', GuestRenaming(ReadObject(bytes').value, id', methods')).value).value[j];
    if StrongGlobal(l) && StrongGlobal(l') && IsIdentifier(l.name) && l.name == l'.name {
      var p, p' := GuestPrefix(id), GuestPrefix(id');
      assert p + l.name[|p|..] == l.name && p' + l.name[|p'|..] == l.name;
      PrefixDecides(id, id', l.name[|p|..], l.name[|p'|..]);
    }
  }

  // ----- libraries ----------------------------------------------------------------------------------------

  datatype Library = Library(bytes: Bytes, namespace: Bytes)

  /** The strong global definitions of a library, and where they go. */
  function LibraryNames(ls: seq<Listed>, namespace: Bytes): Names {
    map name | name in ExportedNames(ls) :: namespace + name
  }

  function ExportedNames(ls: seq<Listed>): set<Bytes> {
    set i: nat | i < |ls| && StrongGlobal(ls[i]) && ls[i].name != [] :: ls[i].name
  }

  /** Exactly the strong global names move, each behind the namespace. */
  lemma LibraryNamesAre(ls: seq<Listed>, namespace: Bytes, name: Bytes)
    ensures var names := LibraryNames(ls, namespace);
      && (name in names <==> name != [] && DefinedStrongly(ls, name))
      && (name in names ==> names[name] == namespace + name)
  {
  }

  function NamesOf(lib: Library): Names {
    match ListSymbols(lib.bytes)
    case None => map[]
    case Some(ls) => LibraryNames(ls, lib.namespace)
  }

  /** Every library's names together; two libraries must not define the same symbol. */
  function References(libs: seq<Library>): Option<Names> {
    if |libs| == 0 then Some(map[])
    else
      match References(libs[..|libs| - 1])
      case None => None
      case Some(before) =>
        var more := NamesOf(libs[|libs| - 1]);
        if before.Keys !! more.Keys then Some(before + more) else None
  }

  lemma {:induction false} ReferencesAre(libs: seq<Library>, k: nat, name: Bytes)
    requires References(libs).Some? && k < |libs| && name in NamesOf(libs[k])
    ensures name in References(libs).value && References(libs).value[name] == NamesOf(libs[k])[name]
    ensures forall j: nat :: j < |libs| && j != k ==> name !in NamesOf(libs[j])
    decreases |libs|
  {
    hide NamesOf;
    var n := |libs| - 1;
    var before := References(libs[..n]).value;
    if k < n {
      ReferencesAre(libs[..n], k, name);
      assert name in before;
      forall j: nat | j < |libs| && j != k
        ensures name !in NamesOf(libs[j])
      {
        if j < n {
          assert libs[..n][j] == libs[j];
        }
      }
    } else {
      forall j: nat | j < n
        ensures name !in NamesOf(libs[j])
      {
        if name in NamesOf(libs[..n][j]) {
          ReferencesAre(libs[..n], j, name);
        }
      }
    }
  }

  /** A library's strong global definitions move into its namespace. */
  lemma DefinitionsMove(lib: Library, i: nat)
    requires ListSymbols(lib.bytes).Some? && i < |ListSymbols(lib.bytes).value|
    requires Renameable(lib.bytes, Renaming(NamesOf(lib), false))
    requires var l := ListSymbols(lib.bytes).value[i]; StrongGlobal(l) && l.name != []
    ensures var r := Rename(lib.bytes, Renaming(NamesOf(lib), false));
      && r.Some? && ListSymbols(r.value).Some? && i < |ListSymbols(r.value).value|
      && ListSymbols(r.value).value[i]
         == ListSymbols(lib.bytes).value[i].(name := lib.namespace + ListSymbols(lib.bytes).value[i].name)
  {
    hide ReadObject, Rename, RenamedObject, OthersUnedited, DistinctTargets, NameOf, Dangling;
    var o, m := ReadObject(lib.bytes).value, Renaming(NamesOf(lib), false);
    OnlyNamesChange(lib.bytes, m);
    ReadObjectIsGood(lib.bytes);
    var l, x := Listing(o)[i], o.table.symbols[i];
    assert l.name in ExportedNames(Listing(o));
    NamedIsThere(o, i);
  }

  /** After library linking, a module's reference to a library symbol has exactly the name that
      symbol's definition moved to, no other library defines it, and the module's own
      definitions keep their names. */
  lemma ReferencesResolve(bytes: Bytes, libs: seq<Library>, k: nat, i: nat, j: nat)
    requires References(libs).Some? && Renameable(bytes, Renaming(References(libs).value, true))
    requires k < |libs| && ListSymbols(libs[k].bytes).Some? && i < |ListSymbols(libs[k].bytes).value|
    requires Renameable(libs[k].bytes, Renaming(NamesOf(libs[k]), false))
    requires var l := ListSymbols(libs[k].bytes).value[i]; StrongGlobal(l) && l.name != []
    requires ListSymbols(bytes).Some? && j < |ListSymbols(bytes).value|
    ensures var r := Rename(bytes, Renaming(References(libs).value, true));
      var d := Rename(libs[k].bytes, Renaming(NamesOf(libs[k]), false));
      && r.Some? && ListSymbols(r.value).Some? && j < |ListSymbols(r.value).value|
      && d.Some? && ListSymbols(d.value).Some? && i < |ListSymbols(d.value).value|
      && var was, now := ListSymbols(bytes).value[j], ListSymbols(r.value).value[j];
        && (was.defined ==> now == was)
        && (!was.defined && was.name == ListSymbols(libs[k].bytes).value[i].name ==>
              now.name == ListSymbols(d.value).value[i].name)
    ensures forall n: nat :: n < |libs| && n != k ==> ListSymbols(libs[k].bytes).value[i].name !in NamesOf(libs[n])
  {
    hide ReadObject, Rename, RenamedObject, OthersUnedited, DistinctTargets, NameOf, References;
    var m := Renaming(References(libs).value, true);
    DefinitionsMove(libs[k], i);
    var name := ListSymbols(libs[k].bytes).value[i].name;
    assert name in NamesOf(libs[k]) && NamesOf(libs[k])[name] == libs[k].namespace + name by {
      assert name in ExportedNames(ListSymbols(libs[k].bytes).value);
    }
    ReferencesAre(libs, k, name);
    hide NamesOf, Dangling;
    var o := ReadObject(bytes).value;
    OnlyNamesChange(bytes, m);
    var was, x := Listing(o)[j], o.table.symbols[j];
    if was.defined {
      assert !Considered(m, x);
      assert was.(name := was.name) == was;
    } else if was.name == name {
      ReadObjectIsGood(bytes);
      NamedIsThere(o, j);
    }
  }
}
