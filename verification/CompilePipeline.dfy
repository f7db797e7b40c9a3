/** A build: every step and the link looked up, run where missing, stored, and reported as a hit
    or a miss.  Other builds and pruning change the shared store between any two operations;
    the files stay as they are while one build runs. */
module CompilePipeline {
  import opened Options
  import opened Leb128
  import opened CacheEntry
  import opened CacheEntryLoops
  import opened CacheKeys
  import opened CompileCache
  import opened BuildSteps

  // ----- the shared store --------------------------------------------------------------------------------

  class Cache {
    const world: World
    var store: Store
    ghost var origins: map<Bytes, Origin>
    var hits: nat
    var misses: nat
    var stores: nat

    ghost predicate Valid()
      reads `store, `origins
    {
      Sound(world, store, origins)
    }

    constructor (w: World)
      ensures world == w && store == map[] && Valid() && hits == misses == stores == 0
    {
      world, store, origins := w, map[], map[];
      hits, misses, stores := 0, 0, 0;
    }

    /** The entry for `key` if it is readable, is its own, and its headers are unchanged. */
    method Get(key: Bytes, f: Files) returns (r: Option<Entry>)
      modifies `hits, `misses
      ensures r == Lookup(world, store, key, f)
      ensures hits + misses == old(hits + misses) + 1 && (r.Some? <==> hits == old(hits) + 1)
    {
      hide DecodeEntry, Unchanged;
      r := None;
      if key in store {
        r := ReadEntry(world.sha, store[key]);
        if r.Some? {
          var same := DependenciesUnchanged(r.value.deps, f);
          if r.value.key != key || !same {
            r := None;
          }
        }
      }
      if r == None {
        misses := misses + 1;
      } else {
        hits := hits + 1;
      }
    }

    /** The bytes of that name in the entry for `key`. */
    method GetData(key: Bytes, f: Files, name: Bytes) returns (data: Option<Bytes>)
      modifies `hits, `misses
      ensures data == LookupData(world, store, key, f, name)
    {
      hide Lookup, DataOf;
      var found := Get(key, f);
      if found.Some? {
        data := DataOf(found.value.blobs, name);
      } else {
        data := None;
      }
    }

    method DependenciesUnchanged(deps: seq<Dependency>, f: Files) returns (ok: bool)
      ensures ok <==> Unchanged(world, deps, f)
    {
      for i := 0 to |deps|
        invariant forall j: nat :: j < i ==> UnchangedFile(world, deps[j], f)
      {
        var d := deps[i];
        if d.path !in f {
          return false;
        }
        if f[d.path].size == d.size && f[d.path].mtime == d.mtime {
          continue;
        }
        if f[d.path].size != d.size {
          return false;
        }
        if world.sha(world.content(d.path, f[d.path])) != d.sha {
          return false;
        }
      }
      return true;
    }

    /** Store the result of a step that ran on files `f`, if the store can be written. */
    method Put(b: Base, r: Request, f: Files, result: Bytes, writable: bool)
      requires Valid() && Lawful(world) && GoodRequest(world, b, r) && GoodFiles(world, f)
      requires result == Output(world, b, r, f)
      modifies `store, `origins, `stores
      ensures Valid()
      ensures stores == old(stores) + if writable then 1 else 0
      ensures forall key :: key != KeyOf(world.sha, b, r) ==> (key in store <==> key in old(store))
      ensures forall key :: key != KeyOf(world.sha, b, r) && key in store ==> store[key] == old(store[key])
      ensures writable ==> HeadersExist(world, b, r, f) && KeyOf(world.sha, b, r) in store
      ensures writable ==> store[KeyOf(world.sha, b, r)] == PrintEntry(world.sha, EntryFor(world, b, r, f))
      ensures !writable ==> store == old(store)
    {
      hide KeyOf, PrintEntry, GoodRequest, GoodFiles, Describe, Lawful;
      if writable {
        HeadersDoExist(world, b, r, f);
        var key := KeyOf(world.sha, b, r);
        var entry := Entry(key, Describe(world, Headers(world, b, r, f), f), [Blob(BlobName(r), result)]);
        store := store[key := PrintEntry(world.sha, entry)];
        origins := origins[key := Origin(b, r, f)];
        stores := stores + 1;
      }
    }

    /** Other builds, and pruning, have left the store as `next`. */
    method Others(next: Store, ghost from: map<Bytes, Origin>)
      requires Sound(world, next, from)
      modifies `store, `origins
      ensures Valid() && store == next
    {
      hide Sound;
      store, origins := next, from;
    }

    /** Newest first, keep what still fits beside what is kept; everything else goes. */
    method Prune(listing: seq<File>, maxBytes: nat) returns (kept: nat, removedEntries: nat, removedBytes: nat)
      requires Valid()
      modifies `store
      ensures Valid() && store == old(store) - Victims(listing, maxBytes)
      ensures kept == KeptBytes(listing, maxBytes) && kept + removedBytes == TotalBytes(listing)
      ensures kept <= maxBytes && removedEntries <= |listing|
    {
      hide Sound, Victims, KeptBytes, TotalBytes;
      kept, removedEntries, removedBytes := 0, 0, 0;
      ghost var gone: set<Bytes>, was := {}, store;
      assert listing[0..] == listing;
      for i := 0 to |listing|
        invariant kept <= maxBytes && removedEntries <= i
        invariant kept + KeptBytes(listing[i..], maxBytes - kept) == KeptBytes(listing, maxBytes)
        invariant kept + removedBytes + TotalBytes(listing[i..]) == TotalBytes(listing)
        invariant gone + Victims(listing[i..], maxBytes - kept) == Victims(listing, maxBytes)
        invariant store == was - gone
      {
        var entry := listing[i];
        PruneStep(listing, i, maxBytes - kept);
        if kept + entry.size <= maxBytes {
          kept := kept + entry.size;
        } else {
          OneMoreGone(was, gone, entry.key);
          store := store - {entry.key};
          gone := gone + {entry.key};
          removedEntries, removedBytes := removedEntries + 1, removedBytes + entry.size;
        }
      }
      assert listing[|listing|..] == [];
      NothingToPrune(maxBytes - kept);
      SoundWithout(world, was, origins, gone);
    }
  }

  /** An entry file as the directory lists it; a listing is newest first. */
  datatype File = File(key: Bytes, size: nat)

  function KeptBytes(fs: seq<File>, room: nat): nat {
    if |fs| == 0 then 0
    else if fs[0].size <= room then fs[0].size + KeptBytes(fs[1..], room - fs[0].size)
    else KeptBytes(fs[1..], room)
  }

  function Victims(fs: seq<File>, room: nat): set<Bytes> {
    if |fs| == 0 then {}
    else if fs[0].size <= room then Victims(fs[1..], room - fs[0].size)
    else {fs[0].key} + Victims(fs[1..], room)
  }

  function TotalBytes(fs: seq<File>): nat {
    if |fs| == 0 then 0 else fs[0].size + TotalBytes(fs[1..])
  }

  lemma PruneStep(fs: seq<File>, i: nat, room: nat)
    requires i < |fs|
    ensures TotalBytes(fs[i..]) == fs[i].size + TotalBytes(fs[i + 1..])
    ensures fs[i].size <= room ==>
      && KeptBytes(fs[i..], room) == fs[i].size + KeptBytes(fs[i + 1..], room - fs[i].size)
      && Victims(fs[i..], room) == Victims(fs[i + 1..], room - fs[i].size)
    ensures fs[i].size > room ==>
      && KeptBytes(fs[i..], room) == KeptBytes(fs[i + 1..], room)
      && Victims(fs[i..], room) == {fs[i].key} + Victims(fs[i + 1..], room)
  {
    assert fs[i..][1..] == fs[i + 1..];
  }

  lemma NothingToPrune(room: nat)
    ensures TotalBytes([]) == KeptBytes([], room) == 0 && Victims([], room) == {}
  {
  }

  lemma OneMoreGone<K, V>(m: map<K, V>, gone: set<K>, k: K)
    ensures m - gone - {k} == m - (gone + {k})
  {
  }

  lemma SoundWithout(w: World, store: Store, origins: map<Bytes, Origin>, keys: set<Bytes>)
    requires Sound(w, store, origins)
    ensures Sound(w, store - keys, origins)
  {
    hide Justified;
  }

  /** Pruning removes nothing that fits: an entry goes only if it does not fit beside the newer
      ones that are kept, and a store within its bound loses nothing. */
  lemma {:induction false} PruneIsNeeded(fs: seq<File>, room: nat)
    ensures KeptBytes(fs, room) <= room && KeptBytes(fs, room) <= TotalBytes(fs)
    ensures TotalBytes(fs) <= room ==> Victims(fs, room) == {}
    ensures forall key :: key in Victims(fs, room) ==>
      exists i: nat :: i < |fs| && fs[i].key == key && KeptBytes(fs[..i], room) + fs[i].size > room
  {
    if |fs| > 0 {
      var rest := if fs[0].size <= room then room - fs[0].size else room;
      PruneIsNeeded(fs[1..], rest);
      forall key | key in Victims(fs, room)
        ensures exists i: nat :: i < |fs| && fs[i].key == key && KeptBytes(fs[..i], room) + fs[i].size > room
      {
        if key in Victims(fs[1..], rest) {
          var i: nat :| i < |fs[1..]| && fs[1..][i].key == key
            && KeptBytes(fs[1..][..i], rest) + fs[1..][i].size > rest;
          assert fs[..i + 1][1..] == fs[1..][..i] && fs[..i + 1][0] == fs[0];
          assert fs[i + 1].key == key && KeptBytes(fs[..i + 1], room) + fs[i + 1].size > room;
        } else {
          assert fs[..0] == [] && fs[0].key == key && KeptBytes(fs[..0], room) + fs[0].size > room;
        }
      }
    }
  }

  // ----- what a build needs ---------------------------------------------------------------------------------

  /** Every list of objects that some steps compile to can be linked. */
  ghost predicate GoodJob(w: World, job: Job, f: Files) {
    && GoodSteps(w, job)
    && (forall objects: seq<Bytes> ::
          Gatherable(w, job, f, objects) ==> GoodRequest(w, job.base, LinkOf(job, objects)))
  }

  ghost predicate Gatherable(w: World, job: Job, f: Files, objects: seq<Bytes>) {
    && |objects| == |job.steps|
    && (forall i: nat :: i < |objects| ==> CompiledTo(w, job, f, job.steps[i].output, objects[i]))
  }

  /** The store at each lookup of a step: as it was, then as other builds left it. */
  ghost function Looks(store: Store, next: nat -> Store): nat -> Store {
    (t: nat) => if t == 0 then store else next(t - 1)
  }

  lemma LooksAreSound(w: World, store: Store, origins: map<Bytes, Origin>, next: nat -> Store, from: nat -> map<Bytes,
                      Origin>)
    requires Sound(w, store, origins) && SoundLooks(w, next, from)
    ensures exists o: nat -> map<Bytes, Origin> :: SoundLooks(w, Looks(store, next), o)
  {
    hide Sound;
    var o: nat -> map<Bytes, Origin> := (t: nat) => if t == 0 then origins else from(t - 1);
    assert SoundLooks(w, Looks(store, next), o);
  }

  lemma LinkIsGood(w: World, job: Job, f: Files, objects: map<Bytes, Bytes>)
    requires GoodJob(w, job, f) && FromSteps(w, job, f, objects) && Complete(job, objects)
    ensures GoodRequest(w, job.base, LinkOf(job, Gathered(job, objects)))
  {
    hide GoodSteps, GoodRequest, LinkOf, CompiledTo;
    assert Gatherable(w, job, f, Gathered(job, objects));
  }

  lemma StepIsGood(w: World, job: Job, f: Files, i: nat)
    requires GoodJob(w, job, f) && i < |job.steps|
    ensures GoodRequest(w, job.base, UnitOf(job.steps[i]))
  {
    hide GoodRequest, LinkOf, Gatherable;
  }

  lemma {:induction false} FoundKeys(w: World, job: Job, f: Files, looks: nat -> Store, k: nat)
    requires k <= |job.steps|
    ensures Found(w, job, f, looks, k).Keys <= Outputs(job.steps)
  {
    hide LookupData, KeyFor;
    if k > 0 {
      FoundKeys(w, job, f, looks, k - 1);
      assert job.steps[k - 1].output in Outputs(job.steps);
    }
  }

  lemma {:induction false} OutputsAreFew(steps: seq<Step>)
    ensures |Outputs(steps)| <= |steps|
  {
    if |steps| > 0 {
      var init, last := steps[..|steps| - 1], steps[|steps| - 1];
      OutputsAreFew(init);
      assert Outputs(steps) == Outputs(init) + {last.output};
    } else {
      assert Outputs(steps) == {};
    }
  }

  lemma AllOfThem<T>(a: set<T>, b: set<T>)
    requires a <= b && |b| <= |a|
    ensures a == b
  {
    assert b == a + (b - a);
    assert |b| == |a| + |b - a|;
  }

  /** As many objects as steps: every step was found. */
  lemma EnoughIsComplete(job: Job, objects: map<Bytes, Bytes>)
    requires objects.Keys <= Outputs(job.steps) && |objects| == |job.steps|
    ensures Complete(job, objects)
  {
    OutputsAreFew(job.steps);
    AllOfThem(objects.Keys, Outputs(job.steps));
    forall i: nat | i < |job.steps|
      ensures job.steps[i].output in objects
    {
      assert job.steps[i].output in Outputs(job.steps);
    }
  }

  // ----- one build -----------------------------------------------------------------------------------------

  /** Look every step up. */
  method FromCache(w: World, job: Job, f: Files, cache: Cache, next: nat -> Store, ghost from: nat -> map<Bytes,
                   Origin>)
    returns (objects: map<Bytes, Bytes>)
    requires cache.world == w && cache.Valid() && SoundLooks(w, next, from)
    modifies cache
    ensures cache.Valid() && objects == Found(w, job, f, Looks(old(cache.store), next), |job.steps|)
    ensures cache.store == Looks(old(cache.store), next)(|job.steps|) && cache.stores == old(cache.stores)
  {
    hide LookupData, KeyFor, Sound, Found, Looks;
    objects := map[];
    ghost var looks := Looks(cache.store, next);
    assert looks(0) == cache.store && Found(w, job, f, looks, 0) == objects by {
      NothingFound(w, job, f, looks);
      StartOfLooks(cache.store, next);
    }
    for i := 0 to |job.steps|
      invariant cache.Valid() && cache.store == looks(i) && cache.stores == old(cache.stores)
      invariant objects == Found(w, job, f, looks, i)
    {
      var data := cache.GetData(KeyFor(w, job, i), f, OBJECT);
      if data.Some? {
        objects := objects[job.steps[i].output := data.value];
      }
      OneMoreLook(w, job, f, old(cache.store), next, i);
      cache.Others(next(i), from(i));
    }
  }

  lemma NothingFound(w: World, job: Job, f: Files, looks: nat -> Store)
    ensures Found(w, job, f, looks, 0) == map[]
  {
  }

  lemma StartOfLooks(store: Store, next: nat -> Store)
    ensures Looks(store, next)(0) == store
  {
  }

  lemma OneMoreLook(w: World, job: Job, f: Files, store: Store, next: nat -> Store, i: nat)
    requires i < |job.steps|
    ensures var looks := Looks(store, next);
      && looks(i + 1) == next(i)
      && Found(w, job, f, looks, i + 1)
         == match LookupData(w, looks(i), KeyFor(w, job, i), f, OBJECT)
            case None => Found(w, job, f, looks, i)
            case Some(data) => Found(w, job, f, looks, i)[job.steps[i].output := data]
  {
    hide LookupData, KeyFor;
  }

  /** Run the steps that are missing, and report every step as a hit or a miss. */
  method CompileSteps(w: World, job: Job, f: Files, cache: Cache?, found: map<Bytes, Bytes>, writable: bool,
                      next: nat -> Store, ghost from: nat -> map<Bytes, Origin>)
    returns (objects: map<Bytes, Bytes>, hits: seq<Bytes>, misses: seq<Bytes>)
    requires cache != null ==> cache.world == w && cache.Valid()
    requires Lawful(w) && GoodFiles(w, f) && GoodJob(w, job, f) && SoundLooks(w, next, from)
    modifies if cache == null then {} else {cache}
    ensures cache != null ==> cache.Valid()
    ensures objects == Built(w, job, f, found, |job.steps|)
    ensures hits == Hits(job.steps, found, |job.steps|) && misses == Misses(job.steps, found, |job.steps|)
    ensures cache != null ==>
      && cache.stores == old(cache.stores) + (if writable then |misses| else 0)
      && cache.store == StoreAfterSteps(job.steps, found, old(cache.store), next, |job.steps|)
  {
    hide *;
    objects, hits, misses := found, [], [];
    StartOfSteps(w, job, f, found);
    NothingRun(job.steps, found, if cache == null then map[] else cache.store, next);
    for i := 0 to |job.steps|
      invariant cache != null ==> cache.Valid()
      invariant objects == Built(w, job, f, found, i)
      invariant hits == Hits(job.steps, found, i) && misses == Misses(job.steps, found, i)
      invariant cache != null ==> cache.stores == old(cache.stores) + (if writable then |misses| else 0)
      invariant cache != null ==> cache.store == StoreAfterSteps(job.steps, found, old(cache.store), next, i)
    {
      var step := job.steps[i];
      OneMoreStep(w, job, f, found, i);
      OneMoreRun(w, job, f, found, if cache == null then map[] else old(cache.store), next, i);
      if step.output in objects {
        hits := hits + [step.name];
      } else {
        misses := misses + [step.name];
        var data := RunStep(w, job, f, cache, i, writable, next, from);
        objects := objects[step.output := data];
      }
    }
  }

  /** The store once the first `k` steps are done with: as other builds left it after the last step
      that ran. */
  ghost function StoreAfterSteps(steps: seq<Step>, found: map<Bytes, Bytes>, store: Store, next: nat -> Store,
                                 k: nat): Store
    requires k <= |steps|
  {
    if k == 0 then store
    else if IsHit(steps, found, k - 1) then StoreAfterSteps(steps, found, store, next, k - 1)
    else next(|steps| + k)
  }

  lemma NothingRun(steps: seq<Step>, found: map<Bytes, Bytes>, store: Store, next: nat -> Store)
    ensures StoreAfterSteps(steps, found, store, next, 0) == store
  {
  }

  lemma OneMoreRun(w: World, job: Job, f: Files, found: map<Bytes, Bytes>, store: Store, next: nat -> Store, i: nat)
    requires i < |job.steps|
    ensures StoreAfterSteps(job.steps, found, store, next, i + 1)
         == if job.steps[i].output in Built(w, job, f, found, i) then StoreAfterSteps(job.steps, found, store, next, i)
            else next(|job.steps| + 1 + i)
  {
    hide ObjectOf;
    BuiltKeys(w, job, f, found, i, job.steps[i].output);
  }

  lemma StartOfSteps(w: World, job: Job, f: Files, found: map<Bytes, Bytes>)
    ensures Built(w, job, f, found, 0) == found
    ensures Hits(job.steps, found, 0) == [] && Misses(job.steps, found, 0) == []
  {
  }

  lemma OneMoreStep(w: World, job: Job, f: Files, found: map<Bytes, Bytes>, i: nat)
    requires i < |job.steps|
    ensures var step, before := job.steps[i], Built(w, job, f, found, i);
      if step.output in before then
        && Built(w, job, f, found, i + 1) == before
        && Hits(job.steps, found, i + 1) == Hits(job.steps, found, i) + [step.name]
        && Misses(job.steps, found, i + 1) == Misses(job.steps, found, i)
      else
        && Built(w, job, f, found, i + 1) == before[step.output := ObjectOf(w, job, f, i)]
        && Hits(job.steps, found, i + 1) == Hits(job.steps, found, i)
        && Misses(job.steps, found, i + 1) == Misses(job.steps, found, i) + [step.name]
  {
    hide ObjectOf;
    BuiltKeys(w, job, f, found, i, job.steps[i].output);
  }

  /** Run one step and store what it gives. */
  method RunStep(w: World, job: Job, f: Files, cache: Cache?, i: nat, writable: bool,
                 next: nat -> Store, ghost from: nat -> map<Bytes, Origin>)
    returns (data: Bytes)
    requires cache != null ==> cache.world == w && cache.Valid()
    requires Lawful(w) && GoodFiles(w, f) && GoodJob(w, job, f) && SoundLooks(w, next, from) && i < |job.steps|
    modifies if cache == null then {} else {cache}
    ensures cache != null ==>
      && cache.Valid() && cache.store == next(|job.steps| + 1 + i)
      && cache.stores == old(cache.stores) + if writable then 1 else 0
    ensures data == ObjectOf(w, job, f, i)
  {
    hide Lawful, GoodFiles, GoodJob, KeyOf, Sound, GoodRequest, PrintEntry, EntryFor;
    data := ObjectOf(w, job, f, i);
    if cache != null {
      StepIsGood(w, job, f, i);
      cache.Put(job.base, UnitOf(job.steps[i]), f, data, writable);
      cache.Others(next(|job.steps| + 1 + i), from(|job.steps| + 1 + i));
    }
  }

  /** Look the link up once every object is at hand. */
  method LinkFromCache(w: World, b: Base, r: Request, f: Files, cache: Cache, next: Store, ghost from: map<Bytes,
                       Origin>)
    returns (wasm: Option<Bytes>)
    requires cache.world == w && cache.Valid() && Lawful(w) && GoodFiles(w, f) && GoodRequest(w, b, r) && r.Link?
    requires Sound(w, next, from)
    modifies cache
    ensures cache.Valid() && (wasm.Some? ==> wasm.value == w.link(b, r))
    ensures wasm == LookupData(w, old(cache.store), KeyOf(w.sha, b, r), f, WASM)
    ensures cache.store == next && cache.stores == old(cache.stores)
  {
    hide Lawful, GoodFiles, Lookup, KeyOf, Sound, GoodRequest;
    wasm := cache.GetData(KeyOf(w.sha, b, r), f, WASM);
    if wasm.Some? {
      HitIsRight(w, cache.store, cache.origins, b, r, f);
    }
    cache.Others(next, from);
  }

  /** Link, and store what the link gives. */
  method RunLink(w: World, b: Base, r: Request, f: Files, cache: Cache?, writable: bool)
    returns (wasm: Bytes)
    requires cache != null ==> cache.world == w && cache.Valid()
    requires Lawful(w) && GoodFiles(w, f) && GoodRequest(w, b, r) && r.Link?
    modifies if cache == null then {} else {cache}
    ensures cache != null ==> cache.Valid() && cache.stores == old(cache.stores) + if writable then 1 else 0
    ensures cache != null && writable ==> LookupData(w, cache.store, KeyOf(w.sha, b, r), f, WASM) == Some(wasm)
    ensures wasm == w.link(b, r)
  {
    hide Lawful, GoodFiles, KeyOf, Sound, GoodRequest, PrintEntry, EntryFor, Lookup;
    wasm := w.link(b, r);
    if cache != null {
      cache.Put(b, r, f, wasm, writable);
      if writable {
        PutIsFound(w, cache.store, b, r, f);
      }
    }
  }

  lemma PutIsFound(w: World, store: Store, b: Base, r: Request, f: Files)
    requires Lawful(w) && GoodFiles(w, f) && GoodRequest(w, b, r) && r.Link? && HeadersExist(w, b, r, f)
    requires KeyOf(w.sha, b, r) in store && store[KeyOf(w.sha, b, r)] == PrintEntry(w.sha, EntryFor(w, b, r, f))
    ensures LookupData(w, store, KeyOf(w.sha, b, r), f, WASM) == Some(w.link(b, r))
  {
    hide Lawful, GoodFiles, KeyOf, GoodRequest, PrintEntry, Lookup;
    StoredIsFound(w, store, b, r, f, f);
    var key := KeyOf(w.sha, b, r);
    assert store[key := PrintEntry(w.sha, EntryFor(w, b, r, f))] == store;
    assert EntryFor(w, b, r, f).blobs == [Blob(WASM, w.link(b, r))];
    assert DataOf([Blob(WASM, w.link(b, r))], WASM) == Some(w.link(b, r));
  }

  /** Every step is reported by whether its output was there, and the link by whether it was found. */
  ghost predicate Reports(job: Job, found: map<Bytes, Bytes>, linked: bool, hits: seq<Bytes>, misses: seq<Bytes>) {
    var h, m := Hits(job.steps, found, |job.steps|), Misses(job.steps, found, |job.steps|);
    if linked then hits == h + [LINK] && misses == m else hits == h && misses == m + [LINK]
  }

  /** The link is found: at once, if every step was, or else when the steps have run. */
  ghost predicate LinkFound(w: World, job: Job, f: Files, found: map<Bytes, Bytes>, store: Store, next: nat -> Store,
                            key: Bytes) {
    var n, first := |job.steps|, Looks(store, next)(|job.steps|);
    var second := if |found| == n then next(n) else first;
    || (|found| == n && LookupData(w, first, key, f, WASM).Some?)
    || LookupData(w, StoreAfterSteps(job.steps, found, second, next, n), key, f, WASM).Some?
  }

  /** What a build with a cache finds. */
  ghost function FoundBy(w: World, job: Job, f: Files, store: Store, next: nat -> Store): map<Bytes, Bytes> {
    Found(w, job, f, Looks(store, next), |job.steps|)
  }

  lemma ReportsEverything(job: Job, found: map<Bytes, Bytes>, linked: bool, hits: seq<Bytes>, misses: seq<Bytes>)
    requires Reports(job, found, linked, hits, misses)
    ensures multiset(hits) + multiset(misses) == multiset(Names(job) + [LINK])
    ensures found == map[] && hits == Hits(job.steps, found, |job.steps|) ==>
      (hits == [] <==> DistinctOutputs(job.steps))
  {
    hide Hits, Misses, DistinctOutputs, Names;
    var h, m := Hits(job.steps, found, |job.steps|), Misses(job.steps, found, |job.steps|);
    EveryStepIsReported(job, found, |job.steps|);
    assert Names(job)[..|job.steps|] == Names(job);
    LinkReported(h, m, Names(job), LINK);
    NoHitsExactly(job.steps);
  }

  lemma LinkReported<T>(hits: seq<T>, misses: seq<T>, names: seq<T>, name: T)
    requires multiset(hits) + multiset(misses) == multiset(names)
    ensures multiset(hits + [name]) + multiset(misses) == multiset(names + [name])
    ensures multiset(hits) + multiset(misses + [name]) == multiset(names + [name])
  {
    OneMoreReported(hits, misses, names, name, true);
    OneMoreReported(hits, misses, names, name, false);
    assert hits + [] == hits && misses + [] == misses;
  }

  lemma {:induction false} BuiltFromSteps(w: World, job: Job, f: Files, found: map<Bytes, Bytes>, k: nat)
    requires FromSteps(w, job, f, found) && k <= |job.steps|
    ensures FromSteps(w, job, f, Built(w, job, f, found, k))
  {
    hide ObjectOf;
    if k > 0 {
      BuiltFromSteps(w, job, f, found, k - 1);
      assert CompiledTo(w, job, f, job.steps[k - 1].output, ObjectOf(w, job, f, k - 1));
    }
  }

  /** What a build links, once it has run the steps that were not found. */
  lemma WhatIsLinked(w: World, job: Job, f: Files, found: map<Bytes, Bytes>)
    requires GoodJob(w, job, f) && FromSteps(w, job, f, found)
    ensures var objects := Built(w, job, f, found, |job.steps|);
      && Complete(job, objects)
      && GoodRequest(w, job.base, LinkOf(job, Gathered(job, objects)))
      && (found == map[] || SharedAgree(w, job, f) ==> Gathered(job, objects) == UncachedObjects(w, job, f))
  {
    hide *;
    BuiltIsComplete(w, job, f, found);
    BuiltFromSteps(w, job, f, found, |job.steps|);
    LinkIsGood(w, job, f, Built(w, job, f, found, |job.steps|));
    if found == map[] {
      NothingFoundGathers(w, job, f);
    } else if SharedAgree(w, job, f) {
      AgreeingGathers(w, job, f, found);
    }
  }

  lemma NothingIsFromSteps(w: World, job: Job, f: Files)
    ensures FromSteps(w, job, f, map[])
  {
  }

  lemma FoundIsGood(w: World, job: Job, f: Files, store: Store, origins: map<Bytes, Origin>,
                    next: nat -> Store, from: nat -> map<Bytes, Origin>)
    requires Lawful(w) && GoodFiles(w, f) && GoodJob(w, job, f) && Sound(w, store, origins) && SoundLooks(w, next, from)
    ensures var found := FoundBy(w, job, f, store, next);
      && FromSteps(w, job, f, found) && found.Keys <= Outputs(job.steps)
      && Complete(job, Built(w, job, f, found, |job.steps|))
      && Gathered(job, Built(w, job, f, found, |job.steps|)) == LinkedObjects(w, job, f, Looks(store, next))
  {
    hide Lawful, GoodFiles, GoodSteps, Sound, SoundLooks, FromSteps, Outputs, Found, Built, Gathered, Looks;
    LooksAreSound(w, store, origins, next, from);
    var o: nat -> map<Bytes, Origin> :| SoundLooks(w, Looks(store, next), o);
    FoundIsFromSteps(w, job, f, Looks(store, next), o, |job.steps|);
    FoundKeys(w, job, f, Looks(store, next), |job.steps|);
    BuiltIsComplete(w, job, f, FoundBy(w, job, f, store, next));
  }

  /** When every step was found, nothing is run and every step is a hit. */
  lemma {:induction false} AllFound(w: World, job: Job, f: Files, found: map<Bytes, Bytes>, k: nat)
    requires Complete(job, found) && k <= |job.steps|
    ensures Built(w, job, f, found, k) == found
    ensures Hits(job.steps, found, k) == Names(job)[..k] && Misses(job.steps, found, k) == []
  {
    hide ObjectOf;
    if k > 0 {
      AllFound(w, job, f, found, k - 1);
    }
  }

  /** A build, with a cache or without, returns what a build without one returns, unless steps that
      share an output compile to different objects, and reports every step and the link exactly once,
      as a hit or as a miss.  Other builds and pruning leave any sound store after each of its
      operations: moments 0 to n - 1 follow the lookups of its n steps, n the first lookup of the link,
      n + 1 to 2n the steps it runs, and 2n + 1 the last lookup of the link. */
  method Build(w: World, job: Job, f: Files, cache: Cache?, writable: bool,
               next: nat -> Store, ghost from: nat -> map<Bytes, Origin>)
    returns (wasm: Bytes, hits: seq<Bytes>, misses: seq<Bytes>)
    requires cache != null ==> cache.world == w && cache.Valid()
    requires Lawful(w) && GoodFiles(w, f) && GoodJob(w, job, f) && SoundLooks(w, next, from)
    modifies if cache == null then {} else {cache}
    ensures cache != null ==> cache.Valid()
    ensures cache == null || SharedAgree(w, job, f) ==> wasm == Uncached(w, job, f)
    ensures cache != null ==>
      var objects := LinkedObjects(w, job, f, Looks(old(cache.store), next));
      wasm == w.link(job.base, Link(job.linkArgv, job.prepare(objects)))
    ensures cache == null ==> Reports(job, map[], false, hits, misses)
    ensures cache != null ==>
      var found := FoundBy(w, job, f, old(cache.store), next);
      var key := KeyOf(w.sha, job.base, LinkOf(job, LinkedObjects(w, job, f, Looks(old(cache.store), next))));
      var linked := LinkFound(w, job, f, found, old(cache.store), next, key);
      && Reports(job, found, linked, hits, misses)
      && cache.stores == old(cache.stores) + (if writable then |misses| else 0)
      && (writable && !linked ==> LookupData(w, cache.store, key, f, WASM) == Some(wasm))
    ensures multiset(hits) + multiset(misses) == multiset(Names(job) + [LINK])
    ensures cache == null ==> (hits == [] <==> DistinctOutputs(job.steps))
  {
    hide Lawful, GoodFiles, GoodJob, GoodRequest, FromSteps, SharedAgree, Found, Built, Hits, Misses, Names;
    hide Sound, LinkedObjects, Looks, DistinctOutputs, UncachedObjects, Outputs, Gathered;
    hide LookupData, KeyOf, StoreAfterSteps;
    var n := |job.steps|;
    var objects: map<Bytes, Bytes>, ready: Option<Bytes> := map[], None;
    NothingIsFromSteps(w, job, f);
    if cache != null {
      FoundIsGood(w, job, f, cache.store, cache.origins, next, from);
      objects := FromCache(w, job, f, cache, next, from);
    }
    ghost var found := objects;
    WhatIsLinked(w, job, f, found);
    if cache != null && |objects| == n {
      EnoughIsComplete(job, objects);
      AllFound(w, job, f, objects, n);
      var r := LinkOf(job, Gathered(job, objects));
      ready := LinkFromCache(w, job.base, r, f, cache, next(n), from(n));
      if ready.Some? {
        wasm, hits, misses := ready.value, Names(job) + [LINK], [];
        ReportsEverything(job, found, true, hits, misses);
        return;
      }
    }
    objects, hits, misses := CompileSteps(w, job, f, cache, objects, writable, next, from);
    var r := LinkOf(job, Gathered(job, objects));
    if cache != null {
      ready := LinkFromCache(w, job.base, r, f, cache, next(2 * n + 1), from(2 * n + 1));
      if ready.Some? {
        wasm, hits := ready.value, hits + [LINK];
        ReportsEverything(job, found, true, hits, misses);
        return;
      }
    }
    misses := misses + [LINK];
    ReportsEverything(job, found, false, hits, misses);
    wasm := RunLink(w, job.base, r, f, cache, writable);
  }
}
