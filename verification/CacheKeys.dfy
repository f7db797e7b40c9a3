/** The toolchain as the cache sees it, and what a cache key is made of.  The hash has no
    collision among what a build hashes, and the toolchain is deterministic: what a step
    produces depends on its key and on the external files it reads, each of which it reports. */
module CacheKeys {
  import opened Leb128
  import opened Digest
  import opened CacheEntry
  import opened StagedFiles

  type Path = Bytes

  /** Size and modification time, as the doubles that are recorded. */
  datatype Stat = Stat(size: Bytes, mtime: Bytes)

  type Files = map<Path, Stat>

  /** What every key of one build shares: among other things the SDK's own compiler sources and
      the headers it stages, each a list of files in name order. */
  datatype Base = Base(
    format: Bytes,
    sdkVersion: Bytes,
    compilerSources: seq<StagedFile>,
    kind: Bytes,
    toolchain: Bytes,
    support: seq<StagedFile>)

  /** One step: a translation unit with its source, or the link of a list of objects. */
  datatype Request =
    | Unit(step: Bytes, argv: seq<Bytes>, source: Bytes)
    | Link(argv: seq<Bytes>, objects: seq<Bytes>)

  datatype World = World(
    sha: Hash,
    hashed: Bytes -> bool,
    content: (Path, Stat) -> Bytes,
    compile: (Base, Request, Files) -> Bytes,
    headers: (Base, Request, Files) -> seq<Path>,
    link: (Base, Request) -> Bytes)

  // ----- hypotheses on the toolchain ----------------------------------------------------------------------

  /** No two of the byte strings that are hashed collide. */
  ghost predicate CollisionFree(w: World) {
    forall x: Bytes, y: Bytes :: w.hashed(x) && w.hashed(y) && w.sha(x) == w.sha(y) ==> x == y
  }

  /** The same bytes at a path; equal size and time mean equal bytes. */
  ghost predicate SameFile(w: World, a: Files, b: Files, p: Path) {
    p in a && p in b && w.content(p, a[p]) == w.content(p, b[p])
  }

  ghost predicate SameFiles(w: World, a: Files, b: Files, ps: seq<Path>) {
    forall i: nat :: i < |ps| ==> SameFile(w, a, b, ps[i])
  }

  /** A unit reports the files it reads, they exist, and nothing else decides its object. */
  ghost predicate ReportsReads(w: World) {
    && (forall b: Base, r: Request, f: Files, i: nat :: i < |w.headers(b, r, f)| ==> w.headers(b, r, f)[i] in f)
    && (forall b: Base, r: Request, f: Files, g: Files :: SameFiles(w, f, g, w.headers(b, r, f)) ==>
          w.compile(b, r, g) == w.compile(b, r, f))
  }

  /** Everything fits the entry layout. */
  ghost predicate Bounded(w: World) {
    && (forall b: Base, r: Request, f: Files :: |w.headers(b, r, f)| < U32_LIMIT && |w.compile(b, r, f)| < U32_LIMIT)
    && (forall b: Base, r: Request :: |w.link(b, r)| < U32_LIMIT)
  }

  ghost predicate Lawful(w: World) {
    IsHash(w.sha) && CollisionFree(w) && ReportsReads(w) && Bounded(w)
  }

  ghost predicate GoodFiles(w: World, f: Files) {
    forall p: Path :: p in f ==>
      |p| < U32_LIMIT && |f[p].size| == 8 && |f[p].mtime| == 8 && w.hashed(w.content(p, f[p]))
  }

  // ----- keys ---------------------------------------------------------------------------------------------

  const FORMAT: Bytes := [0x66, 0x6f, 0x72, 0x6d, 0x61, 0x74]
  const SDK: Bytes := [0x73, 0x64, 0x6b]
  const SDK_VERSION: Bytes := [0x73, 0x64, 0x6b, 0x56, 0x65, 0x72, 0x73, 0x69, 0x6f, 0x6e]
  const COMPILER_SOURCES: Bytes :=
    [0x63, 0x6f, 0x6d, 0x70, 0x69, 0x6c, 0x65, 0x72, 0x53, 0x6f, 0x75, 0x72, 0x63, 0x65, 0x73]
  const TOOLCHAIN: Bytes := [0x74, 0x6f, 0x6f, 0x6c, 0x63, 0x68, 0x61, 0x69, 0x6e]
  const KIND: Bytes := [0x6b, 0x69, 0x6e, 0x64]
  const ID: Bytes := [0x69, 0x64]
  const SUPPORT: Bytes := [0x73, 0x75, 0x70, 0x70, 0x6f, 0x72, 0x74]
  const STEP: Bytes := [0x73, 0x74, 0x65, 0x70]
  const ARGV: Bytes := [0x61, 0x72, 0x67, 0x76]
  const SOURCE: Bytes := [0x73, 0x6f, 0x75, 0x72, 0x63, 0x65]
  const OBJECTS: Bytes := [0x6f, 0x62, 0x6a, 0x65, 0x63, 0x74, 0x73]
  const LINK: Bytes := [0x6c, 0x69, 0x6e, 0x6b]

  function Texts(xs: seq<Bytes>): (r: Value)
    ensures r.List?
  {
    List(seq(|xs|, i requires 0 <= i < |xs| => Text(xs[i])))
  }

  function Hashes(sha: Hash, xs: seq<Bytes>): (r: seq<Bytes>)
    ensures |r| == |xs| && forall i: nat :: i < |xs| ==> r[i] == sha(xs[i])
  {
    seq(|xs|, i requires 0 <= i < |xs| => sha(xs[i]))
  }

  function FilesHash(sha: Hash, fs: seq<StagedFile>): Bytes {
    sha(FilesStream(fs))
  }

  function SdkValue(sha: Hash, b: Base): Value {
    Record([Member(SDK_VERSION, Text(b.sdkVersion)), Member(COMPILER_SOURCES, Text(FilesHash(sha, b.compilerSources)))])
  }

  function ToolchainValue(b: Base): Value {
    Record([Member(KIND, Text(b.kind)), Member(ID, Text(b.toolchain))])
  }

  function StepName(r: Request): Bytes {
    if r.Unit? then r.step else LINK
  }

  /** The last member: the hash of the unit's source, or the hashes of the linked objects. */
  function InputMember(sha: Hash, r: Request): Member {
    if r.Unit? then Member(SOURCE, Text(sha(r.source))) else Member(OBJECTS, Texts(Hashes(sha, r.objects)))
  }

  function KeyMembers(sha: Hash, b: Base, r: Request): (ms: seq<Member>)
    ensures |ms| == 7
  {
    [Member(FORMAT, Text(b.format)), Member(SDK, SdkValue(sha, b)), Member(TOOLCHAIN, ToolchainValue(b)),
     Member(SUPPORT, Text(FilesHash(sha, b.support))), Member(STEP, Text(StepName(r))),
     Member(ARGV, Texts(r.argv)), InputMember(sha, r)]
  }

  function KeyOf(sha: Hash, b: Base, r: Request): Bytes {
    sha(Feed(Record(KeyMembers(sha, b, r))))
  }

  predicate Short(x: Bytes) {
    |x| < U32_LIMIT
  }

  ghost predicate ShortList(xs: seq<Bytes>) {
    |xs| < U32_LIMIT && forall i: nat :: i < |xs| ==> Short(xs[i])
  }

  /** File names hold no NUL, and the stream is hashed. */
  ghost predicate GoodStaged(w: World, fs: seq<StagedFile>) {
    PlainNames(fs) && w.hashed(FilesStream(fs))
  }

  ghost predicate GoodBase(w: World, b: Base) {
    && Short(b.format) && Short(b.sdkVersion) && Short(b.kind) && Short(b.toolchain)
    && GoodStaged(w, b.compilerSources) && GoodStaged(w, b.support)
  }

  ghost predicate GoodRequest(w: World, b: Base, r: Request) {
    && GoodBase(w, b) && ShortList(r.argv)
    && (if r.Unit? then Short(r.step) && w.hashed(r.source)
        else |r.objects| < U32_LIMIT && forall i: nat :: i < |r.objects| ==> w.hashed(r.objects[i]))
    && w.hashed(Feed(Record(KeyMembers(w.sha, b, r))))
  }

  // ----- a key decides its step -----------------------------------------------------------------------------

  /** Records with the same distinct, defined keys mean the same member by member. */
  lemma SameMembers(ms: seq<Member>, ns: seq<Member>, i: nat)
    requires DistinctKeys(ms) && DistinctKeys(ns) && MembersOf(ms) == MembersOf(ns)
    requires i < |ms| && i < |ns| && ms[i].key == ns[i].key && !ms[i].value.Undefined? && !ns[i].value.Undefined?
    ensures MeaningOf(ms[i].value) == MeaningOf(ns[i].value)
  {
    hide MeaningOf, MembersOf;
    MemberAt(ms, i);
    MemberAt(ns, i);
  }

  lemma TextsAreEncodable(xs: seq<Bytes>)
    requires ShortList(xs)
    ensures Encodable(Texts(xs))
  {
    hide U32;
  }

  lemma TextsDecide(xs: seq<Bytes>, ys: seq<Bytes>)
    requires MeaningOf(Texts(xs)) == MeaningOf(Texts(ys))
    ensures xs == ys
  {
    var a, b := MeaningOf(Texts(xs)).items, MeaningOf(Texts(ys)).items;
    assert |a| == |xs| && |b| == |ys|;
    forall i: nat | i < |xs|
      ensures xs[i] == ys[i]
    {
      assert a[i] == MText(xs[i]) && b[i] == MText(ys[i]);
    }
  }

  lemma TwoMembers(k: Bytes, l: Bytes, x: Bytes, y: Bytes)
    requires k != l && Short(k) && Short(l) && Short(x) && Short(y)
    ensures Encodable(Record([Member(k, Text(x)), Member(l, Text(y))]))
  {
  }

  lemma TwoMembersDecide(k: Bytes, l: Bytes, x: Bytes, y: Bytes, x': Bytes, y': Bytes)
    requires k != l
    requires MeaningOf(Record([Member(k, Text(x)), Member(l, Text(y))]))
         == MeaningOf(Record([Member(k, Text(x')), Member(l, Text(y'))]))
    ensures x == x' && y == y'
  {
    var ms, ns := [Member(k, Text(x)), Member(l, Text(y))], [Member(k, Text(x')), Member(l, Text(y'))];
    SameMembers(ms, ns, 0);
    SameMembers(ms, ns, 1);
  }

  lemma KeysAreDistinct(sha: Hash, b: Base, r: Request)
    ensures DistinctKeys(KeyMembers(sha, b, r))
  {
    hide SdkValue, ToolchainValue, Texts, Hashes;
    var ms := KeyMembers(sha, b, r);
    assert FORMAT[0] == 0x66 && SOURCE[0] == 0x73 && STEP[0] == 0x73;
    assert ARGV[0] == 0x61 && SUPPORT[0] == 0x73 && OBJECTS[0] == 0x6f;
  }

  lemma KeyIsEncodable(w: World, b: Base, r: Request)
    requires IsHash(w.sha) && GoodRequest(w, b, r)
    ensures Encodable(Record(KeyMembers(w.sha, b, r)))
  {
    hide Texts, Hashes, DistinctKeys, Feed, IsHash, FilesHash, GoodStaged;
    FilesHashIsShort(w, b.compilerSources);
    FilesHashIsShort(w, b.support);
    TwoMembers(SDK_VERSION, COMPILER_SOURCES, b.sdkVersion, FilesHash(w.sha, b.compilerSources));
    TwoMembers(KIND, ID, b.kind, b.toolchain);
    TextsAreEncodable(r.argv);
    KeysAreDistinct(w.sha, b, r);
    assert Encodable(InputMember(w.sha, r).value) by { InputIsEncodable(w, b, r); }
  }

  lemma FilesHashIsShort(w: World, fs: seq<StagedFile>)
    requires IsHash(w.sha)
    ensures Short(FilesHash(w.sha, fs))
  {
  }

  /** Staged files with equal hashes are the same files. */
  lemma StagedDecide(w: World, fs: seq<StagedFile>, gs: seq<StagedFile>)
    requires CollisionFree(w) && GoodStaged(w, fs) && GoodStaged(w, gs) && FilesHash(w.sha, fs) == FilesHash(w.sha, gs)
    ensures fs == gs
  {
    hide FilesStream;
    FilesDecide(fs, gs);
  }

  lemma InputIsEncodable(w: World, b: Base, r: Request)
    requires IsHash(w.sha) && GoodRequest(w, b, r)
    ensures Encodable(InputMember(w.sha, r).value)
  {
    hide Feed;
    if r.Link? {
      TextsAreEncodable(Hashes(w.sha, r.objects));
    }
  }

  lemma InputDecides(w: World, b: Base, r: Request, b': Base, r': Request)
    requires CollisionFree(w) && GoodRequest(w, b, r) && GoodRequest(w, b', r')
    requires MembersOf(KeyMembers(w.sha, b, r)) == MembersOf(KeyMembers(w.sha, b', r'))
    ensures (r.Unit? <==> r'.Unit?) && (r.Unit? ==> r.source == r'.source) && (r.Link? ==> r.objects == r'.objects)
  {
    hide SdkValue, ToolchainValue, Feed, MembersOf, DistinctKeys, Texts;
    var ms, ns := KeyMembers(w.sha, b, r), KeyMembers(w.sha, b', r');
    KeysAreDistinct(w.sha, b, r);
    KeysAreDistinct(w.sha, b', r');
    MemberAt(ms, 6);
    var i := MemberFrom(ns, ms[6].key);
    assert i == 6;
    SameMembers(ms, ns, 6);
    if r.Link? {
      TextsDecide(Hashes(w.sha, r.objects), Hashes(w.sha, r'.objects));
      assert r.objects == r'.objects;
    }
  }

  /** Equal keys belong to the same step of the same build. */
  lemma KeyDecides(w: World, b: Base, r: Request, b': Base, r': Request)
    requires IsHash(w.sha) && CollisionFree(w) && GoodRequest(w, b, r) && GoodRequest(w, b', r')
    requires KeyOf(w.sha, b, r) == KeyOf(w.sha, b', r')
    ensures b == b' && r == r'
  {
    hide Feed, MembersOf, DistinctKeys, Texts, Encodable, InputMember, IsHash, SdkValue, ToolchainValue;
    var ms, ns := KeyMembers(w.sha, b, r), KeyMembers(w.sha, b', r');
    KeyIsEncodable(w, b, r);
    KeyIsEncodable(w, b', r');
    StreamDecides(Record(ms), Record(ns), [], []);
    assert MembersOf(ms) == MembersOf(ns);
    KeysAreDistinct(w.sha, b, r);
    KeysAreDistinct(w.sha, b', r');
    InputDecides(w, b, r, b', r');
    BaseDecides(w, b, r, b', r');
    SameMembers(ms, ns, 4);
    SameMembers(ms, ns, 5);
    TextsDecide(r.argv, r'.argv);
  }

  lemma BaseDecides(w: World, b: Base, r: Request, b': Base, r': Request)
    requires CollisionFree(w) && GoodBase(w, b) && GoodBase(w, b')
    requires DistinctKeys(KeyMembers(w.sha, b, r)) && DistinctKeys(KeyMembers(w.sha, b', r'))
    requires MembersOf(KeyMembers(w.sha, b, r)) == MembersOf(KeyMembers(w.sha, b', r'))
    ensures b == b'
  {
    hide CollisionFree, GoodStaged, MembersOf, DistinctKeys, Texts, InputMember, FilesHash;
    var ms, ns := KeyMembers(w.sha, b, r), KeyMembers(w.sha, b', r');
    SameMembers(ms, ns, 0);
    SameMembers(ms, ns, 1);
    SameMembers(ms, ns, 2);
    SameMembers(ms, ns, 3);
    TwoMembersDecide(SDK_VERSION, COMPILER_SOURCES, b.sdkVersion, FilesHash(w.sha, b.compilerSources),
                     b'.sdkVersion, FilesHash(w.sha, b'.compilerSources));
    TwoMembersDecide(KIND, ID, b.kind, b.toolchain, b'.kind, b'.toolchain);
    StagedDecide(w, b.compilerSources, b'.compilerSources);
    StagedDecide(w, b.support, b'.support);
  }

  /** Any staged header or compiler source that is added, removed, renamed or changed, by one byte,
      changes every key of the build. */
  lemma ChangedFilesChangeKeys(w: World, b: Base, b': Base, r: Request, r': Request)
    requires IsHash(w.sha) && CollisionFree(w) && GoodRequest(w, b, r) && GoodRequest(w, b', r')
    requires b.support != b'.support || b.compilerSources != b'.compilerSources
    ensures KeyOf(w.sha, b, r) != KeyOf(w.sha, b', r')
  {
    hide IsHash, CollisionFree, GoodRequest, KeyOf;
    if KeyOf(w.sha, b, r) == KeyOf(w.sha, b', r') {
      KeyDecides(w, b, r, b', r');
    }
  }
}
