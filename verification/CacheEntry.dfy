/** One cache entry as one file: a fixed little-endian layout, read back only if every byte is
    accounted for and every blob has the hash recorded for it.  The hash is a parameter. */
module CacheEntry {
  import opened Options
  import opened Leb128
  import opened Digest

  type Hash = Bytes -> Bytes

  const MAGIC: Bytes := [0x53, 0x44, 0x4d, 0x43, 0x43, 0x32, 0x0a]
  const HASH_BYTES: nat := 32
  const NAME_LIMIT: nat := 0x1_0000

  ghost predicate IsHash(sha: Hash) {
    forall x: Bytes :: |sha(x)| == HASH_BYTES
  }

  /** A header outside the build directory: path, size and mtime as doubles, and its hash. */
  datatype Dependency = Dependency(path: Bytes, size: Bytes, mtime: Bytes, sha: Bytes)

  datatype Blob = Blob(name: Bytes, data: Bytes)

  datatype Entry = Entry(key: Bytes, deps: seq<Dependency>, blobs: seq<Blob>)

  // ----- the layout -------------------------------------------------------------------------------------

  function U16(n: nat): (r: Bytes)
    ensures |r| == 2
  {
    [(n % 256) as Byte, (n / 256 % 256) as Byte]
  }

  function PrintDependency(d: Dependency): Bytes {
    U32(|d.path|) + (d.path + (d.size + (d.mtime + d.sha)))
  }

  function PrintDependencies(ds: seq<Dependency>): Bytes {
    if |ds| == 0 then [] else PrintDependency(ds[0]) + PrintDependencies(ds[1..])
  }

  function PrintHeading(sha: Hash, b: Blob): Bytes {
    U16(|b.name|) + (b.name + (U32(|b.data|) + sha(b.data)))
  }

  function PrintHeadings(sha: Hash, bs: seq<Blob>): Bytes {
    if |bs| == 0 then [] else PrintHeading(sha, bs[0]) + PrintHeadings(sha, bs[1..])
  }

  function PrintData(bs: seq<Blob>): Bytes {
    if |bs| == 0 then [] else bs[0].data + PrintData(bs[1..])
  }

  function PrintEntry(sha: Hash, e: Entry): Bytes {
    MAGIC + (e.key + (U32(|e.deps|) +
      (PrintDependencies(e.deps) + (U32(|e.blobs|) + (PrintHeadings(sha, e.blobs) + PrintData(e.blobs))))))
  }

  // ----- what fits it -----------------------------------------------------------------------------------

  predicate GoodDependency(d: Dependency) {
    |d.path| < U32_LIMIT && |d.size| == 8 && |d.mtime| == 8 && |d.sha| == HASH_BYTES
  }

  predicate GoodBlob(b: Blob) {
    |b.name| < NAME_LIMIT && |b.data| < U32_LIMIT
  }

  ghost predicate GoodDependencies(ds: seq<Dependency>) {
    forall i: nat :: i < |ds| ==> GoodDependency(ds[i])
  }

  ghost predicate GoodBlobs(bs: seq<Blob>) {
    forall i: nat :: i < |bs| ==> GoodBlob(bs[i])
  }

  ghost predicate GoodEntry(e: Entry) {
    && |e.key| == HASH_BYTES && |e.deps| < U32_LIMIT && |e.blobs| < U32_LIMIT
    && GoodDependencies(e.deps) && GoodBlobs(e.blobs)
  }

  // ----- reading ----------------------------------------------------------------------------------------

  datatype Cut = Cut(raw: Bytes, rest: Bytes)

  function Take(s: Bytes, n: nat): (r: Option<Cut>)
    ensures r.Some? ==> r.value.raw + r.value.rest == s && |r.value.raw| == n
  {
    if n > |s| then None else Some(Cut(s[..n], s[n..]))
  }

  function Value32(x: Bytes): (r: nat)
    requires |x| == 4
    ensures r < U32_LIMIT
  {
    x[0] as nat + 256 * x[1] as nat + 65536 * x[2] as nat + 16777216 * x[3] as nat
  }

  function Value16(x: Bytes): (r: nat)
    requires |x| == 2
    ensures r < NAME_LIMIT
  {
    x[0] as nat + 256 * x[1] as nat
  }

  lemma TakeFront(a: Bytes, b: Bytes)
    ensures Take(a + b, |a|) == Some(Cut(a, b))
  {
  }

  lemma Read32(n: nat)
    requires n < U32_LIMIT
    ensures Value32(U32(n)) == n
  {
    U32Value(n);
  }

  lemma Spell32(x: Bytes)
    requires |x| == 4
    ensures U32(Value32(x)) == x
  {
    var a, b, c, d := x[0] as nat, x[1] as nat, x[2] as nat, x[3] as nat;
    var n := a + 256 * b + 65536 * c + 16777216 * d;
    Quotient(a, b + 256 * c + 65536 * d);
    Quotient(b, c + 256 * d);
    Quotient(c, d);
    assert n / 65536 == n / 256 / 256 && n / 16777216 == n / 256 / 256 / 256;
    assert x == [x[0], x[1], x[2], x[3]];
  }

  lemma Quotient(low: nat, high: nat)
    requires low < 256
    ensures (low + 256 * high) % 256 == low && (low + 256 * high) / 256 == high
  {
  }

  lemma Spell16(x: Bytes)
    requires |x| == 2
    ensures U16(Value16(x)) == x
  {
    Quotient(x[0] as nat, x[1] as nat);
    assert x == [x[0], x[1]];
  }

  lemma Read16(n: nat)
    requires n < NAME_LIMIT
    ensures Value16(U16(n)) == n
  {
  }

  datatype TakenDependency = TakenDependency(dep: Dependency, rest: Bytes)

  function TakeDependency(s: Bytes): Option<TakenDependency> {
    match Take(s, 4)
    case None => None
    case Some(l) =>
      match Take(l.rest, Value32(l.raw))
      case None => None
      case Some(path) =>
        match Take(path.rest, 48)
        case None => None
        case Some(stat) =>
          Some(TakenDependency(Dependency(path.raw, stat.raw[..8], stat.raw[8..16], stat.raw[16..]), stat.rest))
  }

  lemma Stats(raw: Bytes, u: Bytes)
    requires |raw| == 48
    ensures raw[..8] + (raw[8..16] + raw[16..]) == raw
  {
  }

  lemma TakenDependencyIsGood(s: Bytes)
    requires TakeDependency(s).Some?
    ensures var t := TakeDependency(s).value; GoodDependency(t.dep) && PrintDependency(t.dep) + t.rest == s
  {
    var l := Take(s, 4).value;
    var path := Take(l.rest, Value32(l.raw)).value;
    var stat := Take(path.rest, 48).value;
    Spell32(l.raw);
    Stats(stat.raw, stat.rest);
    hide U32, Value32, Take;
    DependencyParts(TakeDependency(s).value.dep, stat.rest);
    assert stat.raw[..8] + (stat.raw[8..16] + (stat.raw[16..] + stat.rest)) == stat.raw + stat.rest;
  }

  lemma DependencyParts(d: Dependency, u: Bytes)
    ensures PrintDependency(d) + u == U32(|d.path|) + (d.path + (d.size + (d.mtime + (d.sha + u))))
  {
    hide U32;
  }

  lemma GoodDependencyIsTaken(d: Dependency, u: Bytes)
    requires GoodDependency(d)
    ensures TakeDependency(PrintDependency(d) + u) == Some(TakenDependency(d, u))
  {
    DependencyParts(d, u);
    Read32(|d.path|);
    hide U32, Value32, Take;
    var stat := d.size + (d.mtime + d.sha);
    var tail := d.size + (d.mtime + (d.sha + u));
    TakeFront(U32(|d.path|), d.path + tail);
    TakeFront(d.path, tail);
    assert tail == stat + u;
    TakeFront(stat, u);
    assert stat[..8] == d.size && stat[8..16] == d.mtime && stat[16..] == d.sha;
  }

  datatype TakenDependencies = TakenDependencies(deps: seq<Dependency>, rest: Bytes)

  function TakeDependencies(s: Bytes, n: nat): Option<TakenDependencies>
    decreases n
  {
    if n == 0 then Some(TakenDependencies([], s))
    else
      match TakeDependency(s)
      case None => None
      case Some(d) =>
        match TakeDependencies(d.rest, n - 1)
        case None => None
        case Some(t) => Some(TakenDependencies([d.dep] + t.deps, t.rest))
  }

  lemma DependenciesCons(d: Dependency, ds: seq<Dependency>, u: Bytes)
    requires GoodDependency(d) && GoodDependencies(ds)
    ensures GoodDependencies([d] + ds)
    ensures PrintDependencies([d] + ds) + u == PrintDependency(d) + (PrintDependencies(ds) + u)
  {
    hide GoodDependency, PrintDependency;
    assert ([d] + ds)[1..] == ds;
  }

  lemma NoDependencies(u: Bytes)
    ensures GoodDependencies([]) && PrintDependencies([]) + u == u
  {
    assert [] + u == u;
  }

  lemma {:induction false} TakenDependenciesAreGood(s: Bytes, n: nat)
    requires TakeDependencies(s, n).Some?
    ensures var t := TakeDependencies(s, n).value;
      |t.deps| == n && GoodDependencies(t.deps) && PrintDependencies(t.deps) + t.rest == s
    decreases n
  {
    hide TakeDependency, GoodDependency, GoodDependencies, PrintDependency, PrintDependencies;
    if n == 0 {
      NoDependencies(s);
    } else {
      var d := TakeDependency(s).value;
      TakenDependencyIsGood(s);
      TakenDependenciesAreGood(d.rest, n - 1);
      var t := TakeDependencies(d.rest, n - 1).value;
      DependenciesCons(d.dep, t.deps, t.rest);
    }
  }

  lemma {:induction false} GoodDependenciesAreTaken(ds: seq<Dependency>, u: Bytes)
    requires GoodDependencies(ds)
    ensures TakeDependencies(PrintDependencies(ds) + u, |ds|) == Some(TakenDependencies(ds, u))
  {
    hide TakeDependency, GoodDependency, PrintDependency, PrintDependencies;
    if |ds| == 0 {
      NoDependencies(u);
    } else {
      GoodDependencyIsTaken(ds[0], PrintDependencies(ds[1..]) + u);
      GoodDependenciesAreTaken(ds[1..], u);
      DependenciesCons(ds[0], ds[1..], u);
      assert ds == [ds[0]] + ds[1..];
    }
  }

  // ----- blobs: all headings, then all data ---------------------------------------------------------------

  datatype Heading = Heading(name: Bytes, size: nat, sha: Bytes)

  datatype TakenHeading = TakenHeading(heading: Heading, rest: Bytes)

  function TakeHeading(s: Bytes): Option<TakenHeading> {
    match Take(s, 2)
    case None => None
    case Some(l) =>
      match Take(l.rest, Value16(l.raw))
      case None => None
      case Some(name) =>
        match Take(name.rest, 36)
        case None => None
        case Some(t) => Some(TakenHeading(Heading(name.raw, Value32(t.raw[..4]), t.raw[4..]), t.rest))
  }

  function PrintAs(h: Heading): Bytes {
    U16(|h.name|) + (h.name + (U32(h.size) + h.sha))
  }

  predicate GoodHeading(h: Heading) {
    |h.name| < NAME_LIMIT && h.size < U32_LIMIT && |h.sha| == HASH_BYTES
  }

  function HeadingOf(sha: Hash, b: Blob): Heading {
    Heading(b.name, |b.data|, sha(b.data))
  }

  lemma TakenHeadingIsGood(s: Bytes)
    requires TakeHeading(s).Some?
    ensures var t := TakeHeading(s).value; GoodHeading(t.heading) && PrintAs(t.heading) + t.rest == s
  {
    var l := Take(s, 2).value;
    var name := Take(l.rest, Value16(l.raw)).value;
    var t := Take(name.rest, 36).value;
    Spell16(l.raw);
    Spell32(t.raw[..4]);
    hide U32, U16, Value32, Value16, Take;
    assert t.raw == t.raw[..4] + t.raw[4..];
    assert l.raw + (name.raw + t.raw) + t.rest == l.raw + (name.raw + (t.raw + t.rest));
  }

  lemma GoodHeadingIsTaken(h: Heading, u: Bytes)
    requires GoodHeading(h)
    ensures TakeHeading(PrintAs(h) + u) == Some(TakenHeading(h, u))
  {
    Read16(|h.name|);
    Read32(h.size);
    hide U32, U16, Value32, Value16, Take;
    var t := U32(h.size) + h.sha;
    assert PrintAs(h) + u == U16(|h.name|) + (h.name + (t + u));
    TakeFront(U16(|h.name|), h.name + (t + u));
    TakeFront(h.name, t + u);
    TakeFront(t, u);
    assert t[..4] == U32(h.size) && t[4..] == h.sha;
  }

  datatype TakenHeadings = TakenHeadings(headings: seq<Heading>, rest: Bytes)

  function TakeHeadings(s: Bytes, n: nat): Option<TakenHeadings>
    decreases n
  {
    if n == 0 then Some(TakenHeadings([], s))
    else
      match TakeHeading(s)
      case None => None
      case Some(h) =>
        match TakeHeadings(h.rest, n - 1)
        case None => None
        case Some(t) => Some(TakenHeadings([h.heading] + t.headings, t.rest))
  }

  datatype TakenBlobs = TakenBlobs(blobs: seq<Blob>, rest: Bytes)

  /** The data in the order of the headings; one wrong hash spoils the entry. */
  function TakeBlobs(sha: Hash, hs: seq<Heading>, s: Bytes): Option<TakenBlobs> {
    if |hs| == 0 then Some(TakenBlobs([], s))
    else
      match Take(s, hs[0].size)
      case None => None
      case Some(d) =>
        if sha(d.raw) != hs[0].sha then None
        else
          match TakeBlobs(sha, hs[1..], d.rest)
          case None => None
          case Some(t) => Some(TakenBlobs([Blob(hs[0].name, d.raw)] + t.blobs, t.rest))
  }

  ghost predicate Heads(sha: Hash, hs: seq<Heading>, bs: seq<Blob>) {
    |hs| == |bs| && forall i: nat :: i < |bs| ==> hs[i] == HeadingOf(sha, bs[i])
  }

  ghost predicate GoodHeadings(hs: seq<Heading>) {
    forall i: nat :: i < |hs| ==> GoodHeading(hs[i])
  }

  function PrintAll(hs: seq<Heading>): Bytes {
    if |hs| == 0 then [] else PrintAs(hs[0]) + PrintAll(hs[1..])
  }

  lemma HeadingsCons(h: Heading, hs: seq<Heading>, u: Bytes)
    requires GoodHeading(h) && GoodHeadings(hs)
    ensures GoodHeadings([h] + hs) && PrintAll([h] + hs) + u == PrintAs(h) + (PrintAll(hs) + u)
  {
    hide GoodHeading, PrintAs;
    assert ([h] + hs)[1..] == hs;
  }

  lemma NoHeadings(u: Bytes)
    ensures GoodHeadings([]) && PrintAll([]) + u == u
  {
    assert [] + u == u;
  }

  lemma {:induction false} TakenHeadingsAreGood(s: Bytes, n: nat)
    requires TakeHeadings(s, n).Some?
    ensures var t := TakeHeadings(s, n).value;
      |t.headings| == n && GoodHeadings(t.headings) && PrintAll(t.headings) + t.rest == s
    decreases n
  {
    hide TakeHeading, GoodHeading, GoodHeadings, PrintAs, PrintAll;
    if n == 0 {
      NoHeadings(s);
    } else {
      var h := TakeHeading(s).value;
      TakenHeadingIsGood(s);
      TakenHeadingsAreGood(h.rest, n - 1);
      var t := TakeHeadings(h.rest, n - 1).value;
      HeadingsCons(h.heading, t.headings, t.rest);
    }
  }

  lemma {:induction false} GoodHeadingsAreTaken(hs: seq<Heading>, u: Bytes)
    requires GoodHeadings(hs)
    ensures TakeHeadings(PrintAll(hs) + u, |hs|) == Some(TakenHeadings(hs, u))
  {
    hide TakeHeading, GoodHeading, PrintAs, PrintAll;
    if |hs| == 0 {
      NoHeadings(u);
    } else {
      GoodHeadingIsTaken(hs[0], PrintAll(hs[1..]) + u);
      GoodHeadingsAreTaken(hs[1..], u);
      HeadingsCons(hs[0], hs[1..], u);
      assert hs == [hs[0]] + hs[1..];
    }
  }

  lemma {:induction false} TakenBlobsHaveHeadings(sha: Hash, hs: seq<Heading>, s: Bytes)
    requires TakeBlobs(sha, hs, s).Some?
    ensures var t := TakeBlobs(sha, hs, s).value; Heads(sha, hs, t.blobs) && PrintData(t.blobs) + t.rest == s
  {
    hide Take;
    if |hs| == 0 {
      assert [] + s == s;
    } else {
      var d := Take(s, hs[0].size).value;
      TakenBlobsHaveHeadings(sha, hs[1..], d.rest);
      var t := TakeBlobs(sha, hs[1..], d.rest).value;
      DataCons(Blob(hs[0].name, d.raw), t.blobs, t.rest);
      HeadsCons(sha, hs, Blob(hs[0].name, d.raw), t.blobs);
    }
  }

  lemma DataCons(b: Blob, bs: seq<Blob>, u: Bytes)
    ensures PrintData([b] + bs) + u == b.data + (PrintData(bs) + u)
  {
    assert ([b] + bs)[1..] == bs;
  }

  lemma HeadsCons(sha: Hash, hs: seq<Heading>, b: Blob, bs: seq<Blob>)
    requires |hs| > 0 && hs[0] == HeadingOf(sha, b) && Heads(sha, hs[1..], bs)
    ensures Heads(sha, hs, [b] + bs)
  {
    assert hs == [hs[0]] + hs[1..];
  }

  lemma {:induction false} HeadedBlobsAreTaken(sha: Hash, hs: seq<Heading>, bs: seq<Blob>, u: Bytes)
    requires Heads(sha, hs, bs)
    ensures TakeBlobs(sha, hs, PrintData(bs) + u) == Some(TakenBlobs(bs, u))
  {
    hide Take;
    if |hs| == 0 {
      assert [] + u == u;
    } else {
      var tail := PrintData(bs[1..]) + u;
      assert bs == [bs[0]] + bs[1..];
      DataCons(bs[0], bs[1..], u);
      TakeFront(bs[0].data, tail);
      HeadedBlobsAreTaken(sha, hs[1..], bs[1..], u);
    }
  }

  lemma {:induction false} HeadingsPrint(sha: Hash, hs: seq<Heading>, bs: seq<Blob>)
    requires Heads(sha, hs, bs)
    ensures PrintAll(hs) == PrintHeadings(sha, bs)
  {
    hide U16, U32;
    if |hs| > 0 {
      HeadingsPrint(sha, hs[1..], bs[1..]);
    }
  }

  ghost function HeadingsOf(sha: Hash, bs: seq<Blob>): (r: seq<Heading>)
    ensures Heads(sha, r, bs)
  {
    seq(|bs|, i requires 0 <= i < |bs| => HeadingOf(sha, bs[i]))
  }

  lemma HeadingsAreGood(sha: Hash, hs: seq<Heading>, bs: seq<Blob>)
    requires IsHash(sha) && Heads(sha, hs, bs)
    ensures GoodHeadings(hs) <==> GoodBlobs(bs)
  {
    if GoodHeadings(hs) {
      forall i: nat | i < |bs|
        ensures GoodBlob(bs[i])
      {
        assert GoodHeading(hs[i]);
      }
    }
  }

  // ----- the entry ----------------------------------------------------------------------------------------

  datatype TakenEntry = TakenEntry(entry: Entry, rest: Bytes)

  function TakeEntry(sha: Hash, s: Bytes): Option<TakenEntry> {
    match Take(s, |MAGIC|)
    case None => None
    case Some(m) =>
      if m.raw != MAGIC then None
      else
        match Take(m.rest, HASH_BYTES)
        case None => None
        case Some(k) => TakeLists(sha, k.raw, k.rest)
  }

  function TakeLists(sha: Hash, key: Bytes, s: Bytes): Option<TakenEntry> {
    match Take(s, 4)
    case None => None
    case Some(n) =>
      match TakeDependencies(n.rest, Value32(n.raw))
      case None => None
      case Some(ds) =>
        match Take(ds.rest, 4)
        case None => None
        case Some(c) =>
          match TakeHeadings(c.rest, Value32(c.raw))
          case None => None
          case Some(hs) =>
            match TakeBlobs(sha, hs.headings, hs.rest)
            case None => None
            case Some(bs) => Some(TakenEntry(Entry(key, ds.deps, bs.blobs), bs.rest))
  }

  /** An entry is read only if nothing is left over. */
  function DecodeEntry(sha: Hash, bytes: Bytes): Option<Entry> {
    match TakeEntry(sha, bytes)
    case None => None
    case Some(t) => if t.rest == [] then Some(t.entry) else None
  }

  function PrintLists(sha: Hash, e: Entry): Bytes {
    U32(|e.deps|) + (PrintDependencies(e.deps) + (U32(|e.blobs|) + (PrintHeadings(sha, e.blobs) + PrintData(e.blobs))))
  }

  lemma ListParts(sha: Hash, e: Entry, u: Bytes)
    ensures PrintLists(sha, e) + u
         == U32(|e.deps|) +
            (PrintDependencies(e.deps) + (U32(|e.blobs|) + (PrintHeadings(sha, e.blobs) + (PrintData(e.blobs) + u))))
  {
    hide U32, PrintDependencies, PrintHeadings, PrintData;
  }

  lemma TakenListsAreGood(sha: Hash, key: Bytes, s: Bytes)
    requires IsHash(sha) && |key| == HASH_BYTES && TakeLists(sha, key, s).Some?
    ensures var t := TakeLists(sha, key, s).value;
      t.entry.key == key && GoodEntry(t.entry) && PrintLists(sha, t.entry) + t.rest == s
  {
    hide U32, Value32, Take, TakeDependencies, TakeHeadings, TakeBlobs, PrintDependencies, PrintHeadings;
    hide PrintData, Heads, IsHash, GoodHeadings, GoodDependencies, GoodBlobs, PrintAll;
    var n := Take(s, 4).value;
    Spell32(n.raw);
    TakenDependenciesAreGood(n.rest, Value32(n.raw));
    var ds := TakeDependencies(n.rest, Value32(n.raw)).value;
    var c := Take(ds.rest, 4).value;
    Spell32(c.raw);
    TakenHeadingsAreGood(c.rest, Value32(c.raw));
    var hs := TakeHeadings(c.rest, Value32(c.raw)).value;
    TakenBlobsHaveHeadings(sha, hs.headings, hs.rest);
    var t := TakeLists(sha, key, s).value;
    HeadingsPrint(sha, hs.headings, t.entry.blobs);
    HeadingsAreGood(sha, hs.headings, t.entry.blobs);
    assert |hs.headings| == |t.entry.blobs| by { SameCount(sha, hs.headings, t.entry.blobs); }
    ListParts(sha, t.entry, t.rest);
  }

  lemma SameCount(sha: Hash, hs: seq<Heading>, bs: seq<Blob>)
    requires Heads(sha, hs, bs)
    ensures |hs| == |bs|
  {
  }

  lemma GoodListsAreTaken(sha: Hash, e: Entry, u: Bytes)
    requires IsHash(sha) && GoodEntry(e)
    ensures TakeLists(sha, e.key, PrintLists(sha, e) + u) == Some(TakenEntry(e, u))
  {
    hide U32, Value32, Take, TakeDependencies, TakeHeadings, TakeBlobs, PrintDependencies, PrintHeadings;
    hide PrintData, Heads, IsHash, GoodHeadings, GoodDependencies, GoodBlobs, HeadingsOf, PrintAll;
    var hs := HeadingsOf(sha, e.blobs);
    assert |hs| == |e.blobs| by { SameCount(sha, hs, e.blobs); }
    var s4 := PrintData(e.blobs) + u;
    var s3 := PrintHeadings(sha, e.blobs) + s4;
    var s2 := U32(|e.blobs|) + s3;
    var s1 := PrintDependencies(e.deps) + s2;
    ListParts(sha, e, u);
    TakeFront(U32(|e.deps|), s1);
    Read32(|e.deps|);
    GoodDependenciesAreTaken(e.deps, s2);
    TakeFront(U32(|e.blobs|), s3);
    Read32(|e.blobs|);
    HeadingsPrint(sha, hs, e.blobs);
    HeadingsAreGood(sha, hs, e.blobs);
    GoodHeadingsAreTaken(hs, s4);
    HeadedBlobsAreTaken(sha, hs, e.blobs, u);
  }

  lemma TakenEntryIsGood(sha: Hash, s: Bytes)
    requires IsHash(sha) && TakeEntry(sha, s).Some?
    ensures var t := TakeEntry(sha, s).value; GoodEntry(t.entry) && PrintEntry(sha, t.entry) + t.rest == s
  {
    hide Take, TakeLists, IsHash, GoodEntry, PrintLists;
    var m := Take(s, |MAGIC|).value;
    var k := Take(m.rest, HASH_BYTES).value;
    TakenListsAreGood(sha, k.raw, k.rest);
    var t := TakeLists(sha, k.raw, k.rest).value;
    EntryParts(sha, t.entry, t.rest);
  }

  lemma EntryParts(sha: Hash, e: Entry, u: Bytes)
    ensures PrintEntry(sha, e) + u == MAGIC + (e.key + (PrintLists(sha, e) + u))
  {
    hide U32, PrintDependencies, PrintHeadings, PrintData;
    var lists := PrintLists(sha, e);
    assert PrintEntry(sha, e) == MAGIC + (e.key + lists);
  }

  lemma GoodEntryIsTaken(sha: Hash, e: Entry, u: Bytes)
    requires IsHash(sha) && GoodEntry(e)
    ensures TakeEntry(sha, PrintEntry(sha, e) + u) == Some(TakenEntry(e, u))
  {
    hide Take, TakeLists, IsHash, PrintLists, PrintEntry, GoodDependencies, GoodBlobs;
    EntryParts(sha, e, u);
    TakeFront(MAGIC, e.key + (PrintLists(sha, e) + u));
    TakeFront(e.key, PrintLists(sha, e) + u);
    GoodListsAreTaken(sha, e, u);
  }

  /** A file is accepted exactly when it is the print of an entry that fits the layout: every
      byte is consumed and every blob has its recorded hash. */
  lemma AcceptedExactly(sha: Hash, bytes: Bytes, e: Entry)
    requires IsHash(sha)
    ensures DecodeEntry(sha, bytes) == Some(e) <==> GoodEntry(e) && PrintEntry(sha, e) == bytes
  {
    hide TakeEntry, IsHash, GoodEntry, PrintEntry;
    if DecodeEntry(sha, bytes) == Some(e) {
      TakenEntryIsGood(sha, bytes);
      assert PrintEntry(sha, e) + [] == PrintEntry(sha, e);
    }
    if GoodEntry(e) && PrintEntry(sha, e) == bytes {
      GoodEntryIsTaken(sha, e, []);
      assert PrintEntry(sha, e) + [] == PrintEntry(sha, e);
    }
  }

  /** No accepted file is a proper beginning of another: cutting one short or adding to it
      makes it unreadable. */
  lemma TruncationsAndExtensionsAreRejected(sha: Hash, bytes: Bytes, more: Bytes)
    requires IsHash(sha) && more != []
    ensures DecodeEntry(sha, bytes + more).Some? ==> DecodeEntry(sha, bytes) == None
    ensures DecodeEntry(sha, bytes).Some? ==> DecodeEntry(sha, bytes + more) == None
  {
    hide TakeEntry, IsHash, GoodEntry, PrintEntry;
    if DecodeEntry(sha, bytes).Some? {
      var e := DecodeEntry(sha, bytes).value;
      AcceptedExactly(sha, bytes, e);
      GoodEntryIsTaken(sha, e, more);
    }
  }
}
