/** A build's steps as functions: which objects a build without a cache links, which ones a build
    with a cache links, what each reports, and when the two agree.  Steps may share an output
    file: two libraries whose names differ only in punctuation do. */
module BuildSteps {
  import opened Options
  import opened Leb128
  import opened CacheEntry
  import opened CacheKeys
  import opened CompileCache

  datatype Step = Step(name: Bytes, output: Bytes, argv: seq<Bytes>, source: Bytes)

  /** The steps, how their objects become link inputs, and the link's command. */
  datatype Job = Job(base: Base, steps: seq<Step>, prepare: seq<Bytes> -> seq<Bytes>, linkArgv: seq<Bytes>)

  function UnitOf(s: Step): Request {
    Unit(s.name, s.argv, s.source)
  }

  function ObjectOf(w: World, job: Job, f: Files, i: nat): Bytes
    requires i < |job.steps|
  {
    w.compile(job.base, UnitOf(job.steps[i]), f)
  }

  function LinkOf(job: Job, objects: seq<Bytes>): Request {
    Link(job.linkArgv, job.prepare(objects))
  }

  function KeyFor(w: World, job: Job, i: nat): Bytes
    requires i < |job.steps|
  {
    KeyOf(w.sha, job.base, UnitOf(job.steps[i]))
  }

  function Names(job: Job): (r: seq<Bytes>)
    ensures |r| == |job.steps| && forall i: nat :: i < |r| ==> r[i] == job.steps[i].name
  {
    seq(|job.steps|, i requires 0 <= i < |job.steps| => job.steps[i].name)
  }

  // ----- steps that share an output -------------------------------------------------------------------

  function Outputs(steps: seq<Step>): set<Bytes> {
    set i: nat | i < |steps| :: steps[i].output
  }

  /** The first step from `j` on with this output, or the number of steps. */
  function FirstWith(steps: seq<Step>, output: Bytes, j: nat): (r: nat)
    requires j <= |steps|
    ensures j <= r <= |steps| && (r < |steps| ==> steps[r].output == output)
    ensures forall k: nat :: j <= k < r ==> steps[k].output != output
    decreases |steps| - j
  {
    if j == |steps| || steps[j].output == output then j else FirstWith(steps, output, j + 1)
  }

  /** The first step with the output of step `i`. */
  function FirstLike(steps: seq<Step>, i: nat): (r: nat)
    requires i < |steps|
    ensures r <= i && steps[r].output == steps[i].output
    ensures forall k: nat :: k < r ==> steps[k].output != steps[i].output
  {
    FirstWith(steps, steps[i].output, 0)
  }

  ghost predicate DistinctOutputs(steps: seq<Step>) {
    forall i: nat, j: nat :: i < j < |steps| ==> steps[i].output != steps[j].output
  }

  lemma LikeIsFirst(steps: seq<Step>, i: nat, j: nat)
    requires i < |steps| && j < |steps| && steps[i].output == steps[j].output
    ensures FirstLike(steps, i) == FirstLike(steps, j)
  {
  }

  lemma DistinctMeansFirst(steps: seq<Step>)
    ensures DistinctOutputs(steps) <==> forall i: nat :: i < |steps| ==> FirstLike(steps, i) == i
  {
    forall i: nat, j: nat | i < j < |steps| && steps[i].output == steps[j].output
      ensures FirstLike(steps, j) != j
    {
      LikeIsFirst(steps, i, j);
    }
    forall i: nat | i < |steps| && FirstLike(steps, i) != i
      ensures !DistinctOutputs(steps)
    {
      assert steps[FirstLike(steps, i)].output == steps[i].output;
    }
  }

  // ----- the build without a cache ----------------------------------------------------------------------

  /** A step whose output is there already is not run: the first one decides. */
  function UncachedObjects(w: World, job: Job, f: Files): (r: seq<Bytes>)
    ensures |r| == |job.steps| && forall i: nat :: i < |r| ==> r[i] == ObjectOf(w, job, f, FirstLike(job.steps, i))
  {
    seq(|job.steps|, i requires 0 <= i < |job.steps| => ObjectOf(w, job, f, FirstLike(job.steps, i)))
  }

  function Uncached(w: World, job: Job, f: Files): Bytes {
    w.link(job.base, LinkOf(job, UncachedObjects(w, job, f)))
  }

  // ----- the build with a cache -------------------------------------------------------------------------

  function DataOf(blobs: seq<Blob>, name: Bytes): Option<Bytes> {
    if |blobs| == 0 then None else if blobs[0].name == name then Some(blobs[0].data) else DataOf(blobs[1..], name)
  }

  function LookupData(w: World, store: Store, key: Bytes, f: Files, name: Bytes): Option<Bytes> {
    match Lookup(w, store, key, f)
    case None => None
    case Some(e) => DataOf(e.blobs, name)
  }

  /** The objects found by the first `k` lookups, the store being `looks(i)` at the `i`th. */
  function Found(w: World, job: Job, f: Files, looks: nat -> Store, k: nat): map<Bytes, Bytes>
    requires k <= |job.steps|
  {
    if k == 0 then map[]
    else
      var before := Found(w, job, f, looks, k - 1);
      match LookupData(w, looks(k - 1), KeyFor(w, job, k - 1), f, OBJECT)
      case None => before
      case Some(data) => before[job.steps[k - 1].output := data]
  }

  /** The objects after the first `k` steps: what was found, and what missing steps compile to. */
  function Built(w: World, job: Job, f: Files, found: map<Bytes, Bytes>, k: nat): map<Bytes, Bytes>
    requires k <= |job.steps|
  {
    if k == 0 then found
    else
      var before := Built(w, job, f, found, k - 1);
      if job.steps[k - 1].output in before then before
      else before[job.steps[k - 1].output := ObjectOf(w, job, f, k - 1)]
  }

  ghost predicate Complete(job: Job, objects: map<Bytes, Bytes>) {
    forall i: nat :: i < |job.steps| ==> job.steps[i].output in objects
  }

  function Gathered(job: Job, objects: map<Bytes, Bytes>): (r: seq<Bytes>)
    requires forall i: nat :: i < |job.steps| ==> job.steps[i].output in objects
    ensures |r| == |job.steps| && forall i: nat :: i < |r| ==> r[i] == objects[job.steps[i].output]
  {
    seq(|job.steps|, i requires 0 <= i < |job.steps| => objects[job.steps[i].output])
  }

  lemma {:induction false} BuiltKeys(w: World, job: Job, f: Files, found: map<Bytes, Bytes>, k: nat, output: Bytes)
    requires k <= |job.steps|
    ensures output in Built(w, job, f, found, k) <==> output in found || FirstWith(job.steps, output, 0) < k
  {
    hide ObjectOf;
    if k > 0 {
      BuiltKeys(w, job, f, found, k - 1, output);
    }
  }

  /** A found object stays; otherwise the first step with the output decides. */
  lemma {:induction false} BuiltIs(w: World, job: Job, f: Files, found: map<Bytes, Bytes>, k: nat, i: nat)
    requires i < |job.steps| && FirstLike(job.steps, i) < k <= |job.steps|
    ensures var output := job.steps[i].output;
      && output in Built(w, job, f, found, k)
      && Built(w, job, f, found, k)[output]
         == if output in found then found[output] else ObjectOf(w, job, f, FirstLike(job.steps, i))
    decreases k
  {
    hide ObjectOf;
    var output := job.steps[i].output;
    BuiltKeys(w, job, f, found, k - 1, output);
    if FirstLike(job.steps, i) < k - 1 {
      BuiltIs(w, job, f, found, k - 1, i);
    } else if output in found {
      FoundStays(w, job, f, found, k - 1, output);
    }
  }

  lemma {:induction false} FoundStays(w: World, job: Job, f: Files, found: map<Bytes, Bytes>, k: nat, output: Bytes)
    requires k <= |job.steps| && output in found
    ensures output in Built(w, job, f, found, k) && Built(w, job, f, found, k)[output] == found[output]
  {
    hide ObjectOf;
    if k > 0 {
      FoundStays(w, job, f, found, k - 1, output);
    }
  }

  lemma BuiltIsComplete(w: World, job: Job, f: Files, found: map<Bytes, Bytes>)
    ensures Complete(job, Built(w, job, f, found, |job.steps|))
  {
    forall i: nat | i < |job.steps|
      ensures job.steps[i].output in Built(w, job, f, found, |job.steps|)
    {
      BuiltIs(w, job, f, found, |job.steps|, i);
    }
  }

  /** Without a cache nothing is found, and the objects are those of the first steps. */
  lemma NothingFoundGathers(w: World, job: Job, f: Files)
    requires Complete(job, Built(w, job, f, map[], |job.steps|))
    ensures Gathered(job, Built(w, job, f, map[], |job.steps|)) == UncachedObjects(w, job, f)
  {
    hide Built, ObjectOf;
    forall i: nat | i < |job.steps|
      ensures Built(w, job, f, map[], |job.steps|)[job.steps[i].output] == ObjectOf(w, job, f, FirstLike(job.steps, i))
    {
      BuiltIs(w, job, f, map[], |job.steps|, i);
    }
  }

  // ----- what a build reports -----------------------------------------------------------------------------

  /** A step is reported as a hit if its output is there when its turn comes. */
  predicate IsHit(steps: seq<Step>, found: map<Bytes, Bytes>, i: nat)
    requires i < |steps|
  {
    steps[i].output in found || FirstLike(steps, i) < i
  }

  function Hits(steps: seq<Step>, found: map<Bytes, Bytes>, k: nat): seq<Bytes>
    requires k <= |steps|
  {
    if k == 0 then [] else Hits(steps, found, k - 1) + if IsHit(steps, found, k - 1) then [steps[k - 1].name] else []
  }

  function Misses(steps: seq<Step>, found: map<Bytes, Bytes>, k: nat): seq<Bytes>
    requires k <= |steps|
  {
    if k == 0 then [] else Misses(steps, found, k - 1) + if IsHit(steps, found, k - 1) then [] else [steps[k - 1].name]
  }

  /** Every step is reported exactly once. */
  lemma {:induction false} EveryStepIsReported(job: Job, found: map<Bytes, Bytes>, k: nat)
    requires k <= |job.steps|
    ensures multiset(Hits(job.steps, found, k)) + multiset(Misses(job.steps, found, k)) == multiset(Names(job)[..k])
  {
    hide IsHit, Names, Hits, Misses;
    ReportStep(job.steps, found, k);
    if k > 0 {
      EveryStepIsReported(job, found, k - 1);
      var hits, misses, names := Hits(job.steps, found, k - 1), Misses(job.steps, found, k - 1), Names(job)[..k - 1];
      assert Names(job)[..k] == names + [job.steps[k - 1].name];
      OneMoreReported(hits, misses, names, job.steps[k - 1].name, IsHit(job.steps, found, k - 1));
    } else {
      assert Names(job)[..0] == [];
    }
  }

  lemma ReportStep(steps: seq<Step>, found: map<Bytes, Bytes>, k: nat)
    requires k <= |steps|
    ensures k == 0 ==> Hits(steps, found, k) == [] && Misses(steps, found, k) == []
    ensures k > 0 ==>
      var hit := IsHit(steps, found, k - 1);
      && Hits(steps, found, k) == Hits(steps, found, k - 1) + (if hit then [steps[k - 1].name] else [])
      && Misses(steps, found, k) == Misses(steps, found, k - 1) + (if hit then [] else [steps[k - 1].name])
  {
    hide IsHit;
  }

  lemma OneMoreReported<T>(hits: seq<T>, misses: seq<T>, names: seq<T>, name: T, hit: bool)
    requires multiset(hits) + multiset(misses) == multiset(names)
    ensures multiset(hits + if hit then [name] else []) + multiset(misses + if hit then [] else [name])
         == multiset(names + [name])
  {
    assert hits + [] == hits && misses + [] == misses;
  }

  lemma {:induction false} NoHits(steps: seq<Step>, found: map<Bytes, Bytes>, k: nat)
    requires k <= |steps|
    ensures Hits(steps, found, k) == [] <==> forall i: nat :: i < k ==> !IsHit(steps, found, i)
  {
    hide IsHit;
    if k > 0 {
      NoHits(steps, found, k - 1);
    }
  }

  /** Without a cache, no step is reported as a hit exactly when outputs are not shared. */
  lemma NoHitsExactly(steps: seq<Step>)
    ensures Hits(steps, map[], |steps|) == [] <==> DistinctOutputs(steps)
  {
    NoHits(steps, map[], |steps|);
    DistinctMeansFirst(steps);
    assert forall i: nat :: i < |steps| ==> (IsHit(steps, map[], i) <==> FirstLike(steps, i) != i);
  }

  // ----- when the cache makes no difference -----------------------------------------------------------------

  ghost predicate GoodSteps(w: World, job: Job) {
    forall i: nat :: i < |job.steps| ==> GoodRequest(w, job.base, UnitOf(job.steps[i]))
  }

  /** Every object is what some step with that output compiles to. */
  ghost predicate FromSteps(w: World, job: Job, f: Files, objects: map<Bytes, Bytes>) {
    forall output :: output in objects ==> CompiledTo(w, job, f, output, objects[output])
  }

  ghost predicate CompiledTo(w: World, job: Job, f: Files, output: Bytes, data: Bytes) {
    exists i: nat :: i < |job.steps| && job.steps[i].output == output && data == ObjectOf(w, job, f, i)
  }

  /** Steps that share an output compile to the same object. */
  ghost predicate SharedAgree(w: World, job: Job, f: Files) {
    forall i: nat :: i < |job.steps| ==> ObjectOf(w, job, f, i) == ObjectOf(w, job, f, FirstLike(job.steps, i))
  }

  /** In particular, steps that share no output do. */
  lemma DistinctAgree(w: World, job: Job, f: Files)
    requires DistinctOutputs(job.steps)
    ensures SharedAgree(w, job, f)
  {
    hide ObjectOf;
    DistinctMeansFirst(job.steps);
  }

  /** What builds leave in the store is sound at every moment. */
  ghost predicate SoundLooks(w: World, looks: nat -> Store, from: nat -> map<Bytes, Origin>) {
    forall t: nat :: Sound(w, looks(t), from(t))
  }

  /** A lookup of a step gives nothing or what the step compiles to. */
  lemma StepLookup(w: World, store: Store, from: map<Bytes, Origin>, job: Job, f: Files, i: nat)
    requires Lawful(w) && Sound(w, store, from) && GoodFiles(w, f) && GoodSteps(w, job) && i < |job.steps|
    ensures var found := LookupData(w, store, KeyFor(w, job, i), f, OBJECT);
      found == None || found == Some(ObjectOf(w, job, f, i))
  {
    hide Lawful, Sound, GoodFiles, GoodRequest, Lookup, KeyOf;
    if Lookup(w, store, KeyFor(w, job, i), f).Some? {
      HitIsRight(w, store, from, job.base, UnitOf(job.steps[i]), f);
    }
  }

  lemma {:induction false} FoundIsFromSteps(w: World, job: Job, f: Files, looks: nat -> Store, from: nat -> map<Bytes,
                                            Origin>, k: nat)
    requires Lawful(w) && SoundLooks(w, looks, from) && GoodFiles(w, f) && GoodSteps(w, job) && k <= |job.steps|
    ensures FromSteps(w, job, f, Found(w, job, f, looks, k))
  {
    hide Lawful, GoodFiles, GoodSteps, LookupData, ObjectOf, KeyFor, Sound;
    if k > 0 {
      FoundIsFromSteps(w, job, f, looks, from, k - 1);
      StepLookup(w, looks(k - 1), from(k - 1), job, f, k - 1);
      assert CompiledTo(w, job, f, job.steps[k - 1].output, ObjectOf(w, job, f, k - 1));
    }
  }

  lemma AgreeingObject(w: World, job: Job, f: Files, found: map<Bytes, Bytes>, i: nat)
    requires FromSteps(w, job, f, found) && SharedAgree(w, job, f) && i < |job.steps| && job.steps[i].output in found
    ensures found[job.steps[i].output] == ObjectOf(w, job, f, FirstLike(job.steps, i))
  {
    hide ObjectOf;
    var output := job.steps[i].output;
    assert CompiledTo(w, job, f, output, found[output]);
    var j: nat :| j < |job.steps| && job.steps[j].output == output && found[output] == ObjectOf(w, job, f, j);
    LikeIsFirst(job.steps, i, j);
  }

  lemma AgreeingGathers(w: World, job: Job, f: Files, found: map<Bytes, Bytes>)
    requires FromSteps(w, job, f, found) && SharedAgree(w, job, f)
    requires Complete(job, Built(w, job, f, found, |job.steps|))
    ensures Gathered(job, Built(w, job, f, found, |job.steps|)) == UncachedObjects(w, job, f)
  {
    hide Built, ObjectOf, FromSteps, SharedAgree;
    forall i: nat | i < |job.steps|
      ensures Built(w, job, f, found, |job.steps|)[job.steps[i].output] == ObjectOf(w, job, f, FirstLike(job.steps, i))
    {
      BuiltIs(w, job, f, found, |job.steps|, i);
      if job.steps[i].output in found {
        AgreeingObject(w, job, f, found, i);
      }
    }
  }

  /** The objects a build links, given the store at each of its lookups. */
  ghost function LinkedObjects(w: World, job: Job, f: Files, looks: nat -> Store): seq<Bytes> {
    var found := Found(w, job, f, looks, |job.steps|);
    BuiltIsComplete(w, job, f, found);
    Gathered(job, Built(w, job, f, found, |job.steps|))
  }

  /** The store that holds the result of one step and nothing else. */
  ghost function OnlyStep(w: World, job: Job, f: Files, i: nat): Store
    requires i < |job.steps| && HeadersExist(w, job.base, UnitOf(job.steps[i]), f)
  {
    map[KeyFor(w, job, i) := PrintEntry(w.sha, EntryFor(w, job.base, UnitOf(job.steps[i]), f))]
  }

  lemma OnlyStepIsSound(w: World, job: Job, f: Files, i: nat)
    requires GoodFiles(w, f) && GoodSteps(w, job) && i < |job.steps|
    requires HeadersExist(w, job.base, UnitOf(job.steps[i]), f)
    ensures Sound(w, OnlyStep(w, job, f, i), map[KeyFor(w, job, i) := Origin(job.base, UnitOf(job.steps[i]), f)])
  {
    hide GoodFiles, GoodRequest, HeadersExist, PrintEntry, EntryFor, KeyOf;
  }

  /** In that store the step is found, and every other step that is found has the same object. */
  lemma OnlyStepLookups(w: World, job: Job, f: Files, i: nat, t: nat)
    requires Lawful(w) && GoodFiles(w, f) && GoodSteps(w, job) && i < |job.steps| && t < |job.steps|
    requires HeadersExist(w, job.base, UnitOf(job.steps[i]), f)
    ensures var found := LookupData(w, OnlyStep(w, job, f, i), KeyFor(w, job, t), f, OBJECT);
      && (found == None || found == Some(ObjectOf(w, job, f, i)))
      && (t == i ==> found == Some(ObjectOf(w, job, f, i)))
  {
    var store, r := OnlyStep(w, job, f, i), UnitOf(job.steps[i]);
    OnlyStepIsSound(w, job, f, i);
    StepLookup(w, store, map[KeyFor(w, job, i) := Origin(job.base, r, f)], job, f, t);
    if t == i {
      StoredHere(w, job.base, r, f);
      assert store == map[][KeyOf(w.sha, job.base, r) := PrintEntry(w.sha, EntryFor(w, job.base, r, f))];
      hide KeyOf, PrintEntry, Describe, Lookup;
    } else if KeyFor(w, job, t) == KeyFor(w, job, i) {
      hide KeyOf, PrintEntry, EntryFor, Lookup, OnlyStep;
      KeyDecides(w, job.base, UnitOf(job.steps[t]), job.base, r);
    } else {
      hide KeyOf, PrintEntry, EntryFor;
    }
  }

  lemma StoredHere(w: World, b: Base, r: Request, f: Files)
    requires Lawful(w) && GoodFiles(w, f) && GoodRequest(w, b, r) && HeadersExist(w, b, r, f)
    ensures var key := KeyOf(w.sha, b, r);
      Lookup(w, map[][key := PrintEntry(w.sha, EntryFor(w, b, r, f))], key, f) == Some(EntryFor(w, b, r, f))
  {
    hide Lawful, GoodRequest, GoodFiles, KeyOf, PrintEntry, EntryFor, Lookup;
    StoredIsFound(w, map[], b, r, f, f);
  }

  lemma {:induction false} OnlyStepFound(w: World, job: Job, f: Files, i: nat, k: nat)
    requires Lawful(w) && GoodFiles(w, f) && GoodSteps(w, job) && i < k <= |job.steps|
    requires HeadersExist(w, job.base, UnitOf(job.steps[i]), f)
    ensures var found := Found(w, job, f, OnlyLooks(w, job, f, i), k);
      job.steps[i].output in found && found[job.steps[i].output] == ObjectOf(w, job, f, i)
    decreases k
  {
    hide Lawful, GoodFiles, GoodSteps, LookupData, ObjectOf, KeyFor, HeadersExist, OnlyStep;
    OnlyStepLookups(w, job, f, i, k - 1);
    if i < k - 1 {
      OnlyStepFound(w, job, f, i, k - 1);
    }
  }

  /** The linked objects do not depend on what sound stores the lookups meet. */
  ghost predicate NoDifference(w: World, job: Job, f: Files) {
    forall looks: nat -> Store, from: nat -> map<Bytes, Origin> ::
      SoundLooks(w, looks, from) ==> LinkedObjects(w, job, f, looks) == UncachedObjects(w, job, f)
  }

  /** The cache makes no difference, whatever sound stores the lookups meet, exactly when steps
      that share an output compile to the same object. */
  lemma CacheMakesNoDifference(w: World, job: Job, f: Files)
    requires Lawful(w) && GoodFiles(w, f) && GoodSteps(w, job)
    ensures NoDifference(w, job, f) <==> SharedAgree(w, job, f)
  {
    hide Lawful, GoodFiles, GoodSteps, SoundLooks, ObjectOf, LinkedObjects;
    if SharedAgree(w, job, f) {
      forall looks: nat -> Store, from: nat -> map<Bytes, Origin> | SoundLooks(w, looks, from)
        ensures LinkedObjects(w, job, f, looks) == UncachedObjects(w, job, f)
      {
        AgreeingLinks(w, job, f, looks, from);
      }
    } else {
      var i: nat :| i < |job.steps| && ObjectOf(w, job, f, i) != ObjectOf(w, job, f, FirstLike(job.steps, i));
      HeadersDoExist(w, job.base, UnitOf(job.steps[i]), f);
      OnlyStepLinks(w, job, f, i);
      var looks := OnlyLooks(w, job, f, i);
      assert LinkedObjects(w, job, f, looks) != UncachedObjects(w, job, f);
    }
  }

  lemma AgreeingLinks(w: World, job: Job, f: Files, looks: nat -> Store, from: nat -> map<Bytes, Origin>)
    requires Lawful(w) && GoodFiles(w, f) && GoodSteps(w, job) && SoundLooks(w, looks, from) && SharedAgree(w, job, f)
    ensures LinkedObjects(w, job, f, looks) == UncachedObjects(w, job, f)
  {
    hide Lawful, GoodFiles, GoodSteps, SoundLooks, SharedAgree, Found, Built, ObjectOf;
    FoundIsFromSteps(w, job, f, looks, from, |job.steps|);
    BuiltIsComplete(w, job, f, Found(w, job, f, looks, |job.steps|));
    AgreeingGathers(w, job, f, Found(w, job, f, looks, |job.steps|));
  }

  ghost function OnlyLooks(w: World, job: Job, f: Files, i: nat): nat -> Store
    requires i < |job.steps| && HeadersExist(w, job.base, UnitOf(job.steps[i]), f)
  {
    t => OnlyStep(w, job, f, i)
  }

  /** A build that meets that store at every lookup links the object of that step. */
  lemma OnlyStepLinks(w: World, job: Job, f: Files, i: nat)
    requires Lawful(w) && GoodFiles(w, f) && GoodSteps(w, job) && i < |job.steps|
    requires HeadersExist(w, job.base, UnitOf(job.steps[i]), f)
    ensures LinkedObjects(w, job, f, OnlyLooks(w, job, f, i))[i] == ObjectOf(w, job, f, i)
    ensures exists from: nat -> map<Bytes, Origin> :: SoundLooks(w, OnlyLooks(w, job, f, i), from)
  {
    hide Lawful, GoodFiles, GoodSteps, Found, Built, ObjectOf, Sound, HeadersExist, OnlyStep, KeyFor;
    var looks := OnlyLooks(w, job, f, i);
    var from: nat -> map<Bytes, Origin> := t => map[KeyFor(w, job, i) := Origin(job.base, UnitOf(job.steps[i]), f)];
    OnlyStepIsSound(w, job, f, i);
    assert SoundLooks(w, looks, from);
    OnlyStepFound(w, job, f, i, |job.steps|);
    var found := Found(w, job, f, looks, |job.steps|);
    BuiltIs(w, job, f, found, |job.steps|, i);
    BuiltIsComplete(w, job, f, found);
  }

  // ----- libraries --------------------------------------------------------------------------------------------

  const UNDERSCORE: Byte := 0x5f

  predicate Alphanumeric(b: Byte) {
    0x30 <= b <= 0x39 || 0x41 <= b <= 0x5a || 0x61 <= b <= 0x7a
  }

  /** Anything but letters and digits becomes an underscore. */
  function Safe(name: Bytes): (r: Bytes)
    ensures |r| == |name|
    ensures forall i: nat :: i < |name| ==> r[i] == if Alphanumeric(name[i]) then name[i] else UNDERSCORE
  {
    seq(|name|, i requires 0 <= i < |name| => if Alphanumeric(name[i]) then name[i] else UNDERSCORE)
  }

  const LIBRARY_STEM: Bytes := [0x6c, 0x69, 0x62, 0x72, 0x61, 0x72, 0x79, 0x2d]
  const LIBRARY_STEP: Bytes := [0x6c, 0x69, 0x62, 0x72, 0x61, 0x72, 0x79, 0x3a]
  const OBJECT_SUFFIX: Bytes := [0x2e, 0x6f]

  /** The step that compiles a library. */
  function LibraryStep(name: Bytes, argv: seq<Bytes>, source: Bytes): Step {
    Step(LIBRARY_STEP + name, LIBRARY_STEM + Safe(name) + OBJECT_SUFFIX, argv, source)
  }

  /** Two libraries share an output exactly when their names differ only in punctuation. */
  lemma LibrariesShare(a: Bytes, b: Bytes, argv: seq<Bytes>, argv': seq<Bytes>, source: Bytes, source': Bytes)
    ensures LibraryStep(a, argv, source).output == LibraryStep(b, argv', source').output <==> Safe(a) == Safe(b)
  {
    var x, y := LIBRARY_STEM + Safe(a) + OBJECT_SUFFIX, LIBRARY_STEM + Safe(b) + OBJECT_SUFFIX;
    if x == y {
      assert Safe(a) == x[|LIBRARY_STEM|..|x| - |OBJECT_SUFFIX|];
      assert Safe(b) == y[|LIBRARY_STEM|..|y| - |OBJECT_SUFFIX|];
    }
  }

  const A_DASH_B: Bytes := [0x61, 0x2d, 0x62]
  const A_DOT_B: Bytes := [0x61, 0x2e, 0x62]

  /** A build of the libraries "a-b" and "a.b" runs only the first and, without any cache, reports
      the second as a hit. */
  lemma SecondLibraryIsSkipped(job: Job, argv: seq<Bytes>, argv': seq<Bytes>, source: Bytes, source': Bytes)
    requires job.steps == [LibraryStep(A_DASH_B, argv, source), LibraryStep(A_DOT_B, argv', source')]
    ensures !DistinctOutputs(job.steps)
    ensures Hits(job.steps, map[], 2) == [LIBRARY_STEP + A_DOT_B]
    ensures Misses(job.steps, map[], 2) == [LIBRARY_STEP + A_DASH_B]
  {
    var steps := job.steps;
    assert Safe(A_DASH_B) == Safe(A_DOT_B);
    LibrariesShare(A_DASH_B, A_DOT_B, argv, argv', source, source');
    assert steps[0].output == steps[1].output;
    assert FirstLike(steps, 1) == 0 && FirstLike(steps, 0) == 0;
    assert IsHit(steps, map[], 1) && !IsHit(steps, map[], 0);
    assert Hits(steps, map[], 1) == [] + [] == [] && Misses(steps, map[], 1) == [] + [steps[0].name];
    assert Hits(steps, map[], 2) == Hits(steps, map[], 1) + [steps[1].name];
    assert Misses(steps, map[], 2) == Misses(steps, map[], 1) + [];
  }
}
