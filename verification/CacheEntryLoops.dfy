/** Reading a cache entry with one moving offset, and writing one with its blobs in name order. */
module CacheEntryLoops {
  import opened Options
  import opened Leb128
  import opened Digest
  import opened CacheEntry

  // ----- writing --------------------------------------------------------------------------------------------

  function PairsOf(bs: seq<Blob>): (r: seq<Pair>)
    ensures |r| == |bs| && forall i: nat :: i < |bs| ==> r[i] == Pair(bs[i].name, bs[i].data)
  {
    seq(|bs|, i requires 0 <= i < |bs| => Pair(bs[i].name, bs[i].data))
  }

  function BlobsOf(ps: seq<Pair>): (r: seq<Blob>)
    ensures |r| == |ps| && forall i: nat :: i < |ps| ==> r[i] == Blob(ps[i].key, ps[i].stream)
  {
    seq(|ps|, i requires 0 <= i < |ps| => Blob(ps[i].key, ps[i].stream))
  }

  function SortBlobs(bs: seq<Blob>): seq<Blob> {
    BlobsOf(SortPairs(PairsOf(bs)))
  }

  /** A name whose length does not fit two bytes cannot be written. */
  function EncodeEntry(sha: Hash, key: Bytes, blobs: seq<Blob>, deps: seq<Dependency>): Option<Bytes> {
    if exists i: nat :: i < |blobs| && |blobs[i].name| >= NAME_LIMIT then None
    else Some(PrintEntry(sha, Entry(key, deps, SortBlobs(blobs))))
  }

  lemma SortedBlobsAreSame(bs: seq<Blob>)
    requires forall i: nat, j: nat :: i < j < |bs| ==> bs[i].name != bs[j].name
    ensures |SortBlobs(bs)| == |bs| && forall b :: b in SortBlobs(bs) <==> b in bs
  {
    var ps := PairsOf(bs);
    SortPairsSorts(ps);
    var qs := SortPairs(ps);
    forall b
      ensures b in SortBlobs(bs) <==> b in bs
    {
      var p := Pair(b.name, b.data);
      if b in bs {
        var i: nat :| i < |bs| && bs[i] == b;
        assert ps[i] == p && p in qs;
        var j: nat :| j < |qs| && qs[j] == p;
        assert SortBlobs(bs)[j] == b;
      }
      if b in SortBlobs(bs) {
        var j: nat :| j < |qs| && SortBlobs(bs)[j] == b;
        assert qs[j] == p && p in ps;
        var i: nat :| i < |ps| && ps[i] == p;
        assert bs[i] == b;
      }
    }
  }

  /** What is written is read back: the key, the dependencies, and the same blobs. */
  lemma WrittenIsRead(sha: Hash, key: Bytes, blobs: seq<Blob>, deps: seq<Dependency>)
    requires IsHash(sha) && GoodEntry(Entry(key, deps, blobs))
    requires forall i: nat, j: nat :: i < j < |blobs| ==> blobs[i].name != blobs[j].name
    ensures EncodeEntry(sha, key, blobs, deps).Some?
    ensures DecodeEntry(sha, EncodeEntry(sha, key, blobs, deps).value) == Some(Entry(key, deps, SortBlobs(blobs)))
  {
    hide PrintEntry, DecodeEntry, IsHash, SortBlobs;
    SortedBlobsAreSame(blobs);
    assert forall i: nat :: i < |blobs| ==> GoodBlob(blobs[i]);
    var e := Entry(key, deps, SortBlobs(blobs));
    forall i: nat | i < |e.blobs|
      ensures GoodBlob(e.blobs[i])
    {
      assert e.blobs[i] in blobs;
    }
    AcceptedExactly(sha, PrintEntry(sha, e), e);
  }

  // ----- reading --------------------------------------------------------------------------------------------

  lemma TakeAt(s: Bytes, offset: nat, n: nat)
    requires offset <= |s|
    ensures Take(s[offset..], n) == if offset + n > |s| then None else Some(Cut(s[offset..offset + n], s[offset + n..]))
  {
    if offset + n <= |s| {
      assert s[offset..][..n] == s[offset..offset + n] && s[offset..][n..] == s[offset + n..];
    }
  }

  method DependencyAt(s: Bytes, start: nat) returns (r: Option<Dependency>, next: nat)
    requires start <= |s|
    ensures match TakeDependency(s[start..])
      case None => r == None
      case Some(t) => r == Some(t.dep) && start <= next <= |s| && t.rest == s[next..]
  {
    hide Value32, Take;
    TakeAt(s, start, 4);
    if start + 4 > |s| {
      return None, start;
    }
    var length, offset := Value32(s[start..start + 4]), start + 4;
    TakeAt(s, offset, length);
    if offset + length > |s| || offset + length + 48 > |s| {
      if offset + length <= |s| {
        TakeAt(s, offset + length, 48);
      }
      return None, start;
    }
    var path, stat := s[offset..offset + length], offset + length;
    TakeAt(s, stat, 48);
    next := stat + 48;
    var raw := s[stat..next];
    return Some(Dependency(path, raw[..8], raw[8..16], raw[16..])), next;
  }

  function DependenciesAfter(ds: seq<Dependency>, rest: Option<TakenDependencies>): Option<TakenDependencies> {
    match rest
    case None => None
    case Some(t) => Some(TakenDependencies(ds + t.deps, t.rest))
  }

  lemma DependenciesStep(ds: seq<Dependency>, s: Bytes, n: nat)
    requires n > 0
    ensures DependenciesAfter(ds, TakeDependencies(s, n)) ==
      match TakeDependency(s)
      case None => None
      case Some(t) => DependenciesAfter(ds + [t.dep], TakeDependencies(t.rest, n - 1))
  {
    hide TakeDependency;
    if TakeDependency(s).Some? {
      var t := TakeDependency(s).value;
      var rest := TakeDependencies(t.rest, n - 1);
      if rest.Some? {
        assert ds + [t.dep] + rest.value.deps == ds + ([t.dep] + rest.value.deps);
      }
    }
  }

  method DependenciesAt(s: Bytes, start: nat, count: nat) returns (r: Option<seq<Dependency>>, next: nat)
    requires start <= |s|
    ensures match TakeDependencies(s[start..], count)
      case None => r == None
      case Some(t) => r == Some(t.deps) && start <= next <= |s| && t.rest == s[next..]
  {
    hide TakeDependency, TakeDependencies;
    var deps: seq<Dependency> := [];
    next := start;
    assert forall t: TakenDependencies :: [] + t.deps == t.deps;
    for i := 0 to count
      invariant start <= next <= |s|
      invariant TakeDependencies(s[start..], count) == DependenciesAfter(deps, TakeDependencies(s[next..], count - i))
    {
      hide DependenciesAfter;
      var d, end := DependencyAt(s, next);
      DependenciesStep(deps, s[next..], count - i);
      if d == None {
        return None, start;
      }
      deps, next := deps + [d.value], end;
    }
    assert TakeDependencies(s[next..], 0) == Some(TakenDependencies([], s[next..])) by {
      NoDependenciesLeft(s[next..]);
    }
    assert deps + [] == deps;
    return Some(deps), next;
  }

  lemma NoDependenciesLeft(s: Bytes)
    ensures TakeDependencies(s, 0) == Some(TakenDependencies([], s)) && TakeHeadings(s, 0) == Some(TakenHeadings([], s))
  {
  }

  method HeadingAt(s: Bytes, start: nat) returns (r: Option<Heading>, next: nat)
    requires start <= |s|
    ensures match TakeHeading(s[start..])
      case None => r == None
      case Some(t) => r == Some(t.heading) && start <= next <= |s| && t.rest == s[next..]
  {
    hide Value32, Value16, Take;
    TakeAt(s, start, 2);
    if start + 2 > |s| {
      return None, start;
    }
    var length, offset := Value16(s[start..start + 2]), start + 2;
    TakeAt(s, offset, length);
    if offset + length > |s| || offset + length + 36 > |s| {
      if offset + length <= |s| {
        TakeAt(s, offset + length, 36);
      }
      return None, start;
    }
    var name, tail := s[offset..offset + length], offset + length;
    TakeAt(s, tail, 36);
    next := tail + 36;
    var raw := s[tail..next];
    return Some(Heading(name, Value32(raw[..4]), raw[4..])), next;
  }

  function HeadingsAfter(hs: seq<Heading>, rest: Option<TakenHeadings>): Option<TakenHeadings> {
    match rest
    case None => None
    case Some(t) => Some(TakenHeadings(hs + t.headings, t.rest))
  }

  lemma HeadingsStep(hs: seq<Heading>, s: Bytes, n: nat)
    requires n > 0
    ensures HeadingsAfter(hs, TakeHeadings(s, n)) ==
      match TakeHeading(s)
      case None => None
      case Some(t) => HeadingsAfter(hs + [t.heading], TakeHeadings(t.rest, n - 1))
  {
    hide TakeHeading;
    if TakeHeading(s).Some? {
      var t := TakeHeading(s).value;
      var rest := TakeHeadings(t.rest, n - 1);
      if rest.Some? {
        assert hs + [t.heading] + rest.value.headings == hs + ([t.heading] + rest.value.headings);
      }
    }
  }

  method HeadingsAt(s: Bytes, start: nat, count: nat) returns (r: Option<seq<Heading>>, next: nat)
    requires start <= |s|
    ensures match TakeHeadings(s[start..], count)
      case None => r == None
      case Some(t) => r == Some(t.headings) && start <= next <= |s| && t.rest == s[next..]
  {
    hide TakeHeading, TakeHeadings;
    var headings: seq<Heading> := [];
    next := start;
    assert forall t: TakenHeadings :: [] + t.headings == t.headings;
    for i := 0 to count
      invariant start <= next <= |s|
      invariant TakeHeadings(s[start..], count) == HeadingsAfter(headings, TakeHeadings(s[next..], count - i))
    {
      hide HeadingsAfter;
      var h, end := HeadingAt(s, next);
      HeadingsStep(headings, s[next..], count - i);
      if h == None {
        return None, start;
      }
      headings, next := headings + [h.value], end;
    }
    assert TakeHeadings(s[next..], 0) == Some(TakenHeadings([], s[next..])) by { NoDependenciesLeft(s[next..]); }
    assert headings + [] == headings;
    return Some(headings), next;
  }

  function BlobsAfter(bs: seq<Blob>, rest: Option<TakenBlobs>): Option<TakenBlobs> {
    match rest
    case None => None
    case Some(t) => Some(TakenBlobs(bs + t.blobs, t.rest))
  }

  lemma BlobsStep(sha: Hash, bs: seq<Blob>, hs: seq<Heading>, s: Bytes, offset: nat)
    requires |hs| > 0 && offset <= |s|
    ensures var end := offset + hs[0].size;
      BlobsAfter(bs, TakeBlobs(sha, hs, s[offset..])) ==
        if end > |s| || sha(s[offset..end]) != hs[0].sha then None
        else BlobsAfter(bs + [Blob(hs[0].name, s[offset..end])], TakeBlobs(sha, hs[1..], s[end..]))
  {
    hide Take;
    TakeAt(s, offset, hs[0].size);
    var end := offset + hs[0].size;
    if end <= |s| && sha(s[offset..end]) == hs[0].sha {
      var rest, b := TakeBlobs(sha, hs[1..], s[end..]), Blob(hs[0].name, s[offset..end]);
      if rest.Some? {
        assert bs + [b] + rest.value.blobs == bs + ([b] + rest.value.blobs);
      }
    }
  }

  method BlobsAt(sha: Hash, s: Bytes, start: nat, hs: seq<Heading>) returns (r: Option<seq<Blob>>, next: nat)
    requires start <= |s|
    ensures match TakeBlobs(sha, hs, s[start..])
      case None => r == None
      case Some(t) => r == Some(t.blobs) && start <= next <= |s| && t.rest == s[next..]
  {
    hide TakeBlobs;
    var blobs: seq<Blob> := [];
    next := start;
    assert hs[0..] == hs;
    assert forall t: TakenBlobs :: [] + t.blobs == t.blobs;
    for i := 0 to |hs|
      invariant start <= next <= |s|
      invariant TakeBlobs(sha, hs, s[start..]) == BlobsAfter(blobs, TakeBlobs(sha, hs[i..], s[next..]))
    {
      hide BlobsAfter;
      BlobsStep(sha, blobs, hs[i..], s, next);
      assert hs[i..][1..] == hs[i + 1..];
      var end := next + hs[i].size;
      if end > |s| || sha(s[next..end]) != hs[i].sha {
        return None, start;
      }
      blobs, next := blobs + [Blob(hs[i].name, s[next..end])], end;
    }
    assert TakeBlobs(sha, hs[|hs|..], s[next..]) == Some(TakenBlobs([], s[next..])) by { NoBlobsLeft(sha, s[next..]); }
    assert blobs + [] == blobs;
    return Some(blobs), next;
  }

  lemma NoBlobsLeft(sha: Hash, s: Bytes)
    ensures TakeBlobs(sha, [], s) == Some(TakenBlobs([], s))
  {
  }

  /** Magic, key, dependencies, headings, blobs; then nothing may be left. */
  method ReadEntry(sha: Hash, bytes: Bytes) returns (r: Option<Entry>)
    ensures r == DecodeEntry(sha, bytes)
  {
    hide Take, TakeLists;
    var offset := |MAGIC|;
    assert bytes[0..] == bytes;
    TakeAt(bytes, 0, offset);
    if offset + HASH_BYTES > |bytes| {
      if offset <= |bytes| {
        TakeAt(bytes, offset, HASH_BYTES);
      }
      return None;
    }
    if bytes[..offset] != MAGIC {
      return None;
    }
    TakeAt(bytes, offset, HASH_BYTES);
    r := ListsAt(sha, bytes, offset + HASH_BYTES, bytes[offset..offset + HASH_BYTES]);
  }

  method ListsAt(sha: Hash, bytes: Bytes, start: nat, key: Bytes) returns (r: Option<Entry>)
    requires start <= |bytes|
    ensures match TakeLists(sha, key, bytes[start..])
      case None => r == None
      case Some(t) => r == if t.rest == [] then Some(t.entry) else None
  {
    hide Take, Value32, TakeDependencies, TakeHeadings, TakeBlobs;
    TakeAt(bytes, start, 4);
    if start + 4 > |bytes| {
      return None;
    }
    var deps, middle := DependenciesAt(bytes, start + 4, Value32(bytes[start..start + 4]));
    if deps == None {
      return None;
    }
    TakeAt(bytes, middle, 4);
    if middle + 4 > |bytes| {
      return None;
    }
    var headings, data := HeadingsAt(bytes, middle + 4, Value32(bytes[middle..middle + 4]));
    if headings == None {
      return None;
    }
    var blobs, end := BlobsAt(sha, bytes, data, headings.value);
    if blobs == None || end != |bytes| {
      return None;
    }
    return Some(Entry(key, deps.value, blobs.value));
  }
}
