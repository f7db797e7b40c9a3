/** The content-addressed store of compile and link results, shared by any number of builds. */
module CompileCache {
  import opened Options
  import opened Leb128
  import opened Digest
  import opened CacheEntry
  import opened CacheKeys

  const OBJECT: Bytes := [0x6f, 0x62, 0x6a, 0x65, 0x63, 0x74]
  const WASM: Bytes := [0x77, 0x61, 0x73, 0x6d]

  /** Entry files by key. */
  type Store = map<Bytes, Bytes>

  // ----- dependencies -------------------------------------------------------------------------------------

  function Describe(w: World, ps: seq<Path>, f: Files): (r: seq<Dependency>)
    requires forall i: nat :: i < |ps| ==> ps[i] in f
    ensures |r| == |ps|
    ensures forall i: nat :: i < |ps| ==>
      r[i] == Dependency(ps[i], f[ps[i]].size, f[ps[i]].mtime, w.sha(w.content(ps[i], f[ps[i]])))
  {
    seq(|ps|, i requires 0 <= i < |ps| =>
      Dependency(ps[i], f[ps[i]].size, f[ps[i]].mtime, w.sha(w.content(ps[i], f[ps[i]]))))
  }

  /** A file counts as unchanged if its size and time are, or if its size and bytes are. */
  predicate UnchangedFile(w: World, d: Dependency, f: Files) {
    && d.path in f && f[d.path].size == d.size
    && (f[d.path].mtime == d.mtime || w.sha(w.content(d.path, f[d.path])) == d.sha)
  }

  predicate Unchanged(w: World, ds: seq<Dependency>, f: Files) {
    forall i: nat :: i < |ds| ==> UnchangedFile(w, ds[i], f)
  }

  /** Dependencies that count as unchanged have the bytes they were recorded with. */
  lemma UnchangedAreSame(w: World, ps: seq<Path>, f: Files, g: Files)
    requires CollisionFree(w) && GoodFiles(w, f) && GoodFiles(w, g)
    requires forall i: nat :: i < |ps| ==> ps[i] in f
    requires Unchanged(w, Describe(w, ps, f), g)
    ensures SameFiles(w, f, g, ps)
  {
    var ds := Describe(w, ps, f);
    forall i: nat | i < |ps|
      ensures SameFile(w, f, g, ps[i])
    {
      assert UnchangedFile(w, ds[i], g);
      var p := ps[i];
      if g[p].mtime == f[p].mtime {
        assert g[p] == f[p];
      }
    }
  }

  // ----- what a step stores ---------------------------------------------------------------------------------

  function Output(w: World, b: Base, r: Request, f: Files): Bytes {
    if r.Unit? then w.compile(b, r, f) else w.link(b, r)
  }

  function BlobName(r: Request): Bytes {
    if r.Unit? then OBJECT else WASM
  }

  /** A link reads nothing but its objects. */
  function Headers(w: World, b: Base, r: Request, f: Files): seq<Path> {
    if r.Unit? then w.headers(b, r, f) else []
  }

  ghost predicate HeadersExist(w: World, b: Base, r: Request, f: Files) {
    forall i: nat :: i < |Headers(w, b, r, f)| ==> Headers(w, b, r, f)[i] in f
  }

  function EntryFor(w: World, b: Base, r: Request, f: Files): Entry
    requires HeadersExist(w, b, r, f)
  {
    Entry(KeyOf(w.sha, b, r), Describe(w, Headers(w, b, r, f), f), [Blob(BlobName(r), Output(w, b, r, f))])
  }

  lemma HeadersDoExist(w: World, b: Base, r: Request, f: Files)
    requires Lawful(w)
    ensures HeadersExist(w, b, r, f)
  {
  }

  lemma EntryIsGood(w: World, b: Base, r: Request, f: Files)
    requires Lawful(w) && GoodFiles(w, f) && HeadersExist(w, b, r, f)
    ensures GoodEntry(EntryFor(w, b, r, f))
  {
    hide KeyOf;
    var e := EntryFor(w, b, r, f);
    assert |KeyOf(w.sha, b, r)| == HASH_BYTES by { KeyLength(w, b, r); }
    forall i: nat | i < |e.deps|
      ensures GoodDependency(e.deps[i])
    {
    }
    forall i: nat | i < |e.blobs|
      ensures GoodBlob(e.blobs[i])
    {
      assert |Output(w, b, r, f)| < U32_LIMIT;
    }
  }

  lemma KeyLength(w: World, b: Base, r: Request)
    requires IsHash(w.sha)
    ensures |KeyOf(w.sha, b, r)| == HASH_BYTES
  {
    hide Feed;
  }

  /** The step and the files an entry was made from. */
  datatype Origin = Origin(base: Base, request: Request, files: Files)

  ghost predicate Justified(w: World, key: Bytes, file: Bytes, o: Origin) {
    && GoodRequest(w, o.base, o.request) && GoodFiles(w, o.files) && HeadersExist(w, o.base, o.request, o.files)
    && key == KeyOf(w.sha, o.base, o.request)
    && file == PrintEntry(w.sha, EntryFor(w, o.base, o.request, o.files))
  }

  /** Every entry was stored by a step that ran, at some time, on the files of that time. */
  ghost predicate Sound(w: World, store: Store, origins: map<Bytes, Origin>) {
    forall key :: key in store ==> key in origins && Justified(w, key, store[key], origins[key])
  }

  // ----- lookups ----------------------------------------------------------------------------------------------

  function Lookup(w: World, store: Store, key: Bytes, f: Files): Option<Entry> {
    if key !in store then None
    else
      match DecodeEntry(w.sha, store[key])
      case None => None
      case Some(e) => if e.key != key || !Unchanged(w, e.deps, f) then None else Some(e)
  }

  lemma LookupReads(w: World, store: Store, origins: map<Bytes, Origin>, key: Bytes)
    requires Lawful(w) && Sound(w, store, origins) && key in store
    ensures var o := origins[key];
      && HeadersExist(w, o.base, o.request, o.files)
      && DecodeEntry(w.sha, store[key]) == Some(EntryFor(w, o.base, o.request, o.files))
  {
    hide PrintEntry, DecodeEntry, GoodEntry, KeyOf, GoodRequest, Lawful;
    var o := origins[key];
    assert Justified(w, key, store[key], o);
    var e := EntryFor(w, o.base, o.request, o.files);
    EntryIsGood(w, o.base, o.request, o.files);
    assert IsHash(w.sha) by { LawfulHash(w); }
    AcceptedExactly(w.sha, store[key], e);
  }

  lemma LawfulHash(w: World)
    requires Lawful(w)
    ensures IsHash(w.sha) && CollisionFree(w)
  {
  }

  /** What a lookup gives: the entry under that key, if it can be read, says it is of that key, and every
      header it lists is there with its size and with its time or its bytes. */
  lemma LookupExactly(w: World, store: Store, key: Bytes, f: Files, e: Entry)
    ensures Lookup(w, store, key, f) == Some(e) <==>
      && key in store && DecodeEntry(w.sha, store[key]) == Some(e) && e.key == key
      && forall i: nat :: i < |e.deps| ==>
           && e.deps[i].path in f && f[e.deps[i].path].size == e.deps[i].size
           && (f[e.deps[i].path].mtime == e.deps[i].mtime
               || w.sha(w.content(e.deps[i].path, f[e.deps[i].path])) == e.deps[i].sha)
  {
    hide DecodeEntry;
    if key in store && DecodeEntry(w.sha, store[key]) == Some(e) {
      assert Unchanged(w, e.deps, f) <==> forall i: nat :: i < |e.deps| ==>
        && e.deps[i].path in f && f[e.deps[i].path].size == e.deps[i].size
        && (f[e.deps[i].path].mtime == e.deps[i].mtime
            || w.sha(w.content(e.deps[i].path, f[e.deps[i].path])) == e.deps[i].sha);
    }
  }

  /** A hit is what running the step now would give. */
  lemma HitIsRight(w: World, store: Store, origins: map<Bytes, Origin>, b: Base, r: Request, f: Files)
    requires Lawful(w) && Sound(w, store, origins) && GoodRequest(w, b, r) && GoodFiles(w, f)
    requires Lookup(w, store, KeyOf(w.sha, b, r), f).Some?
    ensures Lookup(w, store, KeyOf(w.sha, b, r), f).value.blobs == [Blob(BlobName(r), Output(w, b, r, f))]
  {
    hide KeyOf, DecodeEntry, GoodRequest, GoodFiles, PrintEntry, Describe, Unchanged, IsHash, CollisionFree;
    var key := KeyOf(w.sha, b, r);
    var o := origins[key];
    LookupReads(w, store, origins, key);
    KeyDecides(w, b, r, o.base, o.request);
    UnchangedAreSame(w, Headers(w, b, r, o.files), o.files, f);
    if r.Unit? {
      assert w.compile(b, r, f) == w.compile(b, r, o.files);
    }
  }

  /** A stored result is found again while its headers keep their sizes and bytes. */
  lemma StoredIsFound(w: World, store: Store, b: Base, r: Request, f: Files, g: Files)
    requires Lawful(w) && GoodRequest(w, b, r) && GoodFiles(w, f) && HeadersExist(w, b, r, f)
    requires SameFiles(w, f, g, Headers(w, b, r, f))
    requires forall i: nat :: i < |Headers(w, b, r, f)| ==>
      g[Headers(w, b, r, f)[i]].size == f[Headers(w, b, r, f)[i]].size
    ensures var key := KeyOf(w.sha, b, r);
      Lookup(w, store[key := PrintEntry(w.sha, EntryFor(w, b, r, f))], key, g) == Some(EntryFor(w, b, r, f))
  {
    hide KeyOf, DecodeEntry, GoodRequest, GoodFiles, PrintEntry, IsHash, CollisionFree, GoodEntry, Headers;
    var e := EntryFor(w, b, r, f);
    EntryIsGood(w, b, r, f);
    AcceptedExactly(w.sha, PrintEntry(w.sha, e), e);
    forall i: nat | i < |e.deps|
      ensures UnchangedFile(w, e.deps[i], g)
    {
      assert SameFile(w, f, g, Headers(w, b, r, f)[i]);
    }
  }

  // ----- runs of the store -------------------------------------------------------------------------------------

  /** What builds and pruning do to the store, in any order and from any number of processes. */
  datatype Action = Stores(origin: Origin) | Removes(keys: set<Bytes>)

  ghost predicate Possible(w: World, a: Action) {
    a.Stores? ==> GoodRequest(w, a.origin.base, a.origin.request) && GoodFiles(w, a.origin.files)
  }

  ghost function Stored(w: World, store: Store, a: Action): Store {
    match a
    case Removes(keys) => store - keys
    case Stores(o) =>
      if HeadersExist(w, o.base, o.request, o.files) then
        store[KeyOf(w.sha, o.base, o.request) := PrintEntry(w.sha, EntryFor(w, o.base, o.request, o.files))]
      else store
  }

  ghost function StoreAfter(w: World, actions: seq<Action>): Store {
    if |actions| == 0 then map[] else Stored(w, StoreAfter(w, actions[..|actions| - 1]), actions[|actions| - 1])
  }

  ghost function OriginsAfter(w: World, actions: seq<Action>): map<Bytes, Origin> {
    if |actions| == 0 then map[]
    else
      var rest, a := OriginsAfter(w, actions[..|actions| - 1]), actions[|actions| - 1];
      if a.Stores? && HeadersExist(w, a.origin.base, a.origin.request, a.origin.files) then
        rest[KeyOf(w.sha, a.origin.base, a.origin.request) := a.origin]
      else rest
  }

  lemma {:induction false} EveryStoreIsSound(w: World, actions: seq<Action>)
    requires forall i: nat :: i < |actions| ==> Possible(w, actions[i])
    ensures Sound(w, StoreAfter(w, actions), OriginsAfter(w, actions))
  {
    hide KeyOf, PrintEntry, EntryFor, GoodRequest, GoodFiles, HeadersExist;
    if |actions| > 0 {
      EveryStoreIsSound(w, actions[..|actions| - 1]);
      assert Possible(w, actions[|actions| - 1]);
    }
  }

  /** After any run of stores and removals, on any files, a lookup gives nothing or what running
      the step now would give. */
  lemma EveryHitIsRight(w: World, actions: seq<Action>, b: Base, r: Request, f: Files)
    requires Lawful(w) && GoodRequest(w, b, r) && GoodFiles(w, f)
    requires forall i: nat :: i < |actions| ==> Possible(w, actions[i])
    ensures var found := Lookup(w, StoreAfter(w, actions), KeyOf(w.sha, b, r), f);
      found == None || found.value.blobs == [Blob(BlobName(r), Output(w, b, r, f))]
  {
    hide Lawful, GoodRequest, GoodFiles, Lookup, KeyOf, Output, Sound, StoreAfter;
    EveryStoreIsSound(w, actions);
    if Lookup(w, StoreAfter(w, actions), KeyOf(w.sha, b, r), f).Some? {
      HitIsRight(w, StoreAfter(w, actions), OriginsAfter(w, actions), b, r, f);
    }
  }
}
