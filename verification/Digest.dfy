/** The byte stream a cache key is hashed from: every value fed as a tag and length-prefixed
    bytes, object members in key order, undefined members left out. */
module Digest {
  import opened Leb128

  /** A value as the caller builds it.  Numbers are their eight little-endian bytes; strings are
      their UTF-8 bytes; an object's members come in insertion order. */
  datatype Value =
    | Undefined
    | Null
    | Bool(b: bool)
    | Number(bits: Bytes)
    | Text(text: Bytes)
    | Data(data: Bytes)
    | List(items: seq<Value>)
    | Record(members: seq<Member>)

  datatype Member = Member(key: Bytes, value: Value)

  // ----- what a value means -----------------------------------------------------------------------------

  /** Undefined is null, undefined members are absent, and members have no order. */
  datatype Meaning =
    | MNull
    | MBool(b: bool)
    | MNumber(bits: Bytes)
    | MText(text: Bytes)
    | MData(data: Bytes)
    | MList(items: seq<Meaning>)
    | MRecord(members: map<Bytes, Meaning>)

  ghost function MeaningOf(v: Value): Meaning
    decreases v
  {
    match v
    case Undefined => MNull
    case Null => MNull
    case Bool(b) => MBool(b)
    case Number(bits) => MNumber(bits)
    case Text(text) => MText(text)
    case Data(data) => MData(data)
    case List(items) => MList(seq(|items|, i requires 0 <= i < |items| => MeaningOf(items[i])))
    case Record(members) => MRecord(MembersOf(members))
  }

  ghost function MembersOf(ms: seq<Member>): map<Bytes, Meaning>
    decreases ms
  {
    if |ms| == 0 then map[]
    else
      var rest, m := MembersOf(ms[1..]), ms[0];
      if m.value.Undefined? then rest else rest[m.key := MeaningOf(m.value)]
  }

  // ----- the stream -------------------------------------------------------------------------------------

  /** Four little-endian bytes; a longer length wraps. */
  function U32(n: nat): (r: Bytes)
    ensures |r| == 4
  {
    [(n % 256) as Byte, (n / 256 % 256) as Byte, (n / 65536 % 256) as Byte, (n / 16777216 % 256) as Byte]
  }

  const U32_LIMIT: nat := 0x1_0000_0000

  function Prefixed(tag: Byte, bytes: Bytes): Bytes {
    [tag] + (U32(|bytes|) + bytes)
  }

  /** A member as it is fed: its key, and the stream of its value. */
  datatype Pair = Pair(key: Bytes, stream: Bytes)

  /** Keys in dictionary order. */
  predicate KeyLess(a: Bytes, b: Bytes) {
    |b| > 0 && (|a| == 0 || a[0] < b[0] || (a[0] == b[0] && KeyLess(a[1..], b[1..])))
  }

  function InsertPair(ps: seq<Pair>, p: Pair): seq<Pair> {
    if |ps| == 0 || KeyLess(p.key, ps[0].key) then [p] + ps
    else [ps[0]] + InsertPair(ps[1..], p)
  }

  function SortPairs(ps: seq<Pair>): seq<Pair> {
    if |ps| == 0 then [] else InsertPair(SortPairs(ps[1..]), ps[0])
  }

  function PrintPairs(ps: seq<Pair>): Bytes {
    if |ps| == 0 then [] else Prefixed(4, ps[0].key) + (ps[0].stream + PrintPairs(ps[1..]))
  }

  function Feed(v: Value): (r: Bytes)
    ensures |r| > 0
    decreases v
  {
    match v
    case Undefined => [0]
    case Null => [0]
    case Bool(b) => [if b then 2 else 1]
    case Number(bits) => [3] + bits
    case Text(text) => Prefixed(4, text)
    case Data(data) => Prefixed(5, data)
    case List(items) => [6] + (U32(|items|) + FeedAll(items))
    case Record(members) =>
      var pairs := Pairs(members);
      [7] + (U32(|pairs|) + PrintPairs(SortPairs(pairs)))
  }

  function FeedAll(vs: seq<Value>): Bytes
    decreases vs
  {
    if |vs| == 0 then [] else Feed(vs[0]) + FeedAll(vs[1..])
  }

  function Pairs(ms: seq<Member>): (r: seq<Pair>)
    ensures |r| <= |ms|
    decreases ms
  {
    if |ms| == 0 then []
    else (if ms[0].value.Undefined? then [] else [Pair(ms[0].key, Feed(ms[0].value))]) + Pairs(ms[1..])
  }

  /** Lengths below 2^32, eight-byte numbers, and an object's keys are distinct. */
  ghost predicate Encodable(v: Value)
    decreases v
  {
    match v
    case Undefined => true
    case Null => true
    case Bool(_) => true
    case Number(bits) => |bits| == 8
    case Text(text) => |text| < U32_LIMIT
    case Data(data) => |data| < U32_LIMIT
    case List(items) => |items| < U32_LIMIT && forall i: nat :: i < |items| ==> Encodable(items[i])
    case Record(members) =>
      && |members| < U32_LIMIT && DistinctKeys(members)
      && forall i: nat :: i < |members| ==> |members[i].key| < U32_LIMIT && Encodable(members[i].value)
  }

  ghost predicate DistinctKeys(ms: seq<Member>) {
    forall i: nat, j: nat :: i < j < |ms| ==> ms[i].key != ms[j].key
  }

  // ----- sorting ----------------------------------------------------------------------------------------

  lemma {:induction false} KeysCompare(a: Bytes, b: Bytes)
    ensures a == b || KeyLess(a, b) || KeyLess(b, a)
    ensures !(KeyLess(a, b) && KeyLess(b, a)) && !KeyLess(a, a)
  {
    if |a| > 0 && |b| > 0 {
      KeysCompare(a[1..], b[1..]);
      assert a == [a[0]] + a[1..] && b == [b[0]] + b[1..];
    }
    if |a| > 0 {
      KeysCompare(a[1..], a[1..]);
    }
  }

  lemma {:induction false} KeyLessChains(a: Bytes, b: Bytes, c: Bytes)
    requires KeyLess(a, b) && KeyLess(b, c)
    ensures KeyLess(a, c)
  {
    if |a| > 0 && a[0] == b[0] == c[0] {
      KeyLessChains(a[1..], b[1..], c[1..]);
    }
  }

  ghost predicate Ascending(ps: seq<Pair>) {
    forall i: nat, j: nat :: i < j < |ps| ==> KeyLess(ps[i].key, ps[j].key)
  }

  ghost predicate SameElements<T(!new)>(xs: seq<T>, ys: seq<T>) {
    forall x :: x in xs <==> x in ys
  }

  /** Every key in `ps` is above `key`. */
  ghost predicate Above(ps: seq<Pair>, key: Bytes) {
    forall i: nat :: i < |ps| ==> KeyLess(key, ps[i].key)
  }

  lemma AscendingCons(p: Pair, ps: seq<Pair>)
    ensures Ascending([p] + ps) <==> Ascending(ps) && Above(ps, p.key)
  {
    var q := [p] + ps;
    if Ascending(q) {
      forall i: nat, j: nat | i < j < |ps|
        ensures KeyLess(ps[i].key, ps[j].key)
      {
        assert KeyLess(q[i + 1].key, q[j + 1].key);
      }
      forall i: nat | i < |ps|
        ensures KeyLess(p.key, ps[i].key)
      {
        assert KeyLess(q[0].key, q[i + 1].key);
      }
    }
  }

  lemma AboveHead(p: Pair, ps: seq<Pair>, key: Bytes)
    requires Ascending([p] + ps) && KeyLess(key, p.key)
    ensures Above([p] + ps, key)
  {
    AscendingCons(p, ps);
    forall i: nat | i < |ps|
      ensures KeyLess(key, ps[i].key)
    {
      KeyLessChains(key, p.key, ps[i].key);
    }
  }

  ghost predicate NewKey(ps: seq<Pair>, key: Bytes) {
    forall i: nat :: i < |ps| ==> ps[i].key != key
  }

  lemma {:induction false} InsertPairSorts(ps: seq<Pair>, p: Pair)
    requires Ascending(ps) && NewKey(ps, p.key)
    ensures Ascending(InsertPair(ps, p)) && SameElements(InsertPair(ps, p), [p] + ps)
    ensures |InsertPair(ps, p)| == |ps| + 1
    ensures forall key :: Above(ps, key) && KeyLess(key, p.key) ==> Above(InsertPair(ps, p), key)
  {
    hide KeyLess;
    if |ps| == 0 {
    } else if KeyLess(p.key, ps[0].key) {
      assert ps == [ps[0]] + ps[1..];
      AboveHead(ps[0], ps[1..], p.key);
      AscendingCons(p, ps);
    } else {
      var q, rest := ps[0], ps[1..];
      assert ps == [q] + rest;
      AscendingCons(q, rest);
      InsertPairSorts(rest, p);
      KeysCompare(p.key, q.key);
      AscendingCons(q, InsertPair(rest, p));
    }
  }

  lemma {:induction false} SortPairsSorts(ps: seq<Pair>)
    requires forall i: nat, j: nat :: i < j < |ps| ==> ps[i].key != ps[j].key
    ensures Ascending(SortPairs(ps)) && SameElements(SortPairs(ps), ps) && |SortPairs(ps)| == |ps|
  {
    hide Ascending, InsertPair;
    if |ps| == 0 {
      assert Ascending([]) by { NothingAscends(); }
    } else {
      SortPairsSorts(ps[1..]);
      var rest := SortPairs(ps[1..]);
      forall i: nat | i < |rest|
        ensures rest[i].key != ps[0].key
      {
        assert rest[i] in ps[1..];
      }
      InsertPairSorts(rest, ps[0]);
      assert ps == [ps[0]] + ps[1..];
    }
  }

  lemma NothingAscends()
    ensures Ascending([])
  {
  }

  /** Two ascending lists of the same pairs are the same list. */
  lemma {:induction false} AscendingIsUnique(xs: seq<Pair>, ys: seq<Pair>)
    requires Ascending(xs) && Ascending(ys) && SameElements(xs, ys)
    ensures xs == ys
  {
    hide KeyLess;
    if |xs| > 0 {
      assert xs[0] in ys;
      HeadsAgree(xs, ys);
      assert xs == [xs[0]] + xs[1..] && ys == [ys[0]] + ys[1..];
      AscendingCons(xs[0], xs[1..]);
      AscendingCons(ys[0], ys[1..]);
      TailElements(xs, ys);
      AscendingIsUnique(xs[1..], ys[1..]);
    } else {
      FirstIsIn(ys);
    }
  }

  lemma FirstIsIn<T>(xs: seq<T>)
    ensures xs != [] ==> xs[0] in xs
  {
  }

  lemma HeadsAgree(xs: seq<Pair>, ys: seq<Pair>)
    requires Ascending(xs) && Ascending(ys) && SameElements(xs, ys) && |xs| > 0 && |ys| > 0
    ensures xs[0] == ys[0]
  {
    hide KeyLess;
    assert xs[0] in ys && ys[0] in xs;
    var i: nat :| i < |ys| && ys[i] == xs[0];
    var j: nat :| j < |xs| && xs[j] == ys[0];
    if i > 0 && j > 0 {
      assert KeyLess(ys[0].key, ys[i].key) && KeyLess(xs[0].key, xs[j].key);
      KeysCompare(xs[0].key, ys[0].key);
    }
  }

  lemma TailElements(xs: seq<Pair>, ys: seq<Pair>)
    requires Ascending(xs) && Ascending(ys) && SameElements(xs, ys) && |xs| > 0 && |ys| > 0 && xs[0] == ys[0]
    ensures SameElements(xs[1..], ys[1..])
  {
    NotInTail(xs);
    NotInTail(ys);
    assert xs == [xs[0]] + xs[1..] && ys == [ys[0]] + ys[1..];
    forall x: Pair
      ensures x in xs[1..] <==> x in ys[1..]
    {
      assert x in xs <==> x == xs[0] || x in xs[1..];
      assert x in ys <==> x == ys[0] || x in ys[1..];
    }
  }

  lemma NotInTail(xs: seq<Pair>)
    requires Ascending(xs) && |xs| > 0
    ensures xs[0] !in xs[1..]
  {
    hide KeyLess;
    if xs[0] in xs[1..] {
      var i: nat :| i < |xs[1..]| && xs[1..][i] == xs[0];
      assert KeyLess(xs[0].key, xs[i + 1].key);
      KeysCompare(xs[0].key, xs[0].key);
    }
  }

  // ----- members and pairs ------------------------------------------------------------------------------

  lemma {:induction false} PairFrom(ms: seq<Member>, p: Pair) returns (i: nat)
    requires p in Pairs(ms)
    ensures i < |ms| && !ms[i].value.Undefined? && p == Pair(ms[i].key, Feed(ms[i].value))
  {
    hide Feed;
    if !ms[0].value.Undefined? && p == Pair(ms[0].key, Feed(ms[0].value)) {
      i := 0;
    } else {
      assert p in Pairs(ms[1..]);
      var j := PairFrom(ms[1..], p);
      i := j + 1;
    }
  }

  lemma {:induction false} PairOf(ms: seq<Member>, i: nat)
    requires i < |ms| && !ms[i].value.Undefined?
    ensures Pair(ms[i].key, Feed(ms[i].value)) in Pairs(ms)
  {
    hide Feed;
    if i > 0 {
      PairOf(ms[1..], i - 1);
    }
  }

  ghost predicate DistinctPairs(ps: seq<Pair>) {
    forall i: nat, j: nat :: i < j < |ps| ==> ps[i].key != ps[j].key
  }

  lemma {:induction false} PairsAreDistinct(ms: seq<Member>)
    requires DistinctKeys(ms)
    ensures DistinctPairs(Pairs(ms))
  {
    hide Feed;
    if |ms| > 0 {
      PairsAreDistinct(ms[1..]);
      var rest := Pairs(ms[1..]);
      forall i: nat | i < |rest|
        ensures rest[i].key != ms[0].key
      {
        var j := PairFrom(ms[1..], rest[i]);
        assert ms[1..][j] == ms[j + 1];
      }
    }
  }

  lemma {:induction false} MemberFrom(ms: seq<Member>, key: Bytes) returns (i: nat)
    requires key in MembersOf(ms)
    ensures i < |ms| && !ms[i].value.Undefined? && ms[i].key == key
  {
    if !ms[0].value.Undefined? && ms[0].key == key {
      i := 0;
    } else {
      var j := MemberFrom(ms[1..], key);
      i := j + 1;
    }
  }

  lemma {:induction false} MemberAt(ms: seq<Member>, i: nat)
    requires DistinctKeys(ms) && i < |ms| && !ms[i].value.Undefined?
    ensures ms[i].key in MembersOf(ms) && MembersOf(ms)[ms[i].key] == MeaningOf(ms[i].value)
  {
    hide MeaningOf;
    if i > 0 {
      MemberAt(ms[1..], i - 1);
      assert ms[0].key != ms[i].key;
    }
  }

  // ----- the stream decides the meaning -------------------------------------------------------------------

  lemma U32Decides(m: nat, n: nat)
    requires m < U32_LIMIT && n < U32_LIMIT && U32(m) == U32(n)
    ensures m == n
  {
    var x, y := U32(m), U32(n);
    assert x[0] == y[0] && x[1] == y[1] && x[2] == y[2] && x[3] == y[3];
    U32Value(m);
    U32Value(n);
  }

  lemma U32Value(n: nat)
    requires n < U32_LIMIT
    ensures var x := U32(n); n == x[0] as nat + 256 * x[1] as nat + 65536 * x[2] as nat + 16777216 * x[3] as nat
  {
    assert n / 65536 == n / 256 / 256 && n / 16777216 == n / 65536 / 256;
  }

  lemma CutEqually<T>(a: seq<T>, b: seq<T>, c: seq<T>, d: seq<T>)
    requires a + b == c + d && |a| == |c|
    ensures a == c && b == d
  {
    assert a == (a + b)[..|a|] && c == (c + d)[..|c|];
    assert b == (a + b)[|a|..] && d == (c + d)[|c|..];
  }

  lemma PrefixedSplits(tag: Byte, x: Bytes, y: Bytes, s: Bytes, t: Bytes)
    requires |x| < U32_LIMIT && |y| < U32_LIMIT && Prefixed(tag, x) + s == Prefixed(tag, y) + t
    ensures x == y && s == t
  {
    Counted(tag, |x|, x, s);
    Counted(tag, |y|, y, t);
    hide U32;
    CutEqually([tag], U32(|x|) + (x + s), [tag], U32(|y|) + (y + t));
    CutEqually(U32(|x|), x + s, U32(|y|), y + t);
    U32Decides(|x|, |y|);
    CutEqually(x, s, y, t);
  }

  lemma Counted(tag: Byte, n: nat, body: Bytes, s: Bytes)
    ensures [tag] + (U32(n) + body) + s == [tag] + (U32(n) + (body + s))
  {
    hide U32;
  }

  lemma CountedSplits(tag: Byte, m: nat, x: Bytes, n: nat, y: Bytes, s: Bytes, t: Bytes)
    requires m < U32_LIMIT && n < U32_LIMIT && [tag] + (U32(m) + x) + s == [tag] + (U32(n) + y) + t
    ensures m == n && x + s == y + t
  {
    Counted(tag, m, x, s);
    Counted(tag, n, y, t);
    hide U32;
    CutEqually([tag], U32(m) + (x + s), [tag], U32(n) + (y + t));
    CutEqually(U32(m), x + s, U32(n), y + t);
    U32Decides(m, n);
  }

  /** Streams are prefix-free: one that starts another is the whole of it, and means the same. */
  lemma {:induction false} StreamDecides(a: Value, b: Value, s: Bytes, t: Bytes)
    requires Encodable(a) && Encodable(b) && Feed(a) + s == Feed(b) + t
    ensures MeaningOf(a) == MeaningOf(b) && s == t
    decreases a
  {
    hide U32, Pairs, MembersOf, SortPairs, PrintPairs, FeedAll;
    TagDecides(a, b, s, t);
    match a
    case Undefined => CutEqually(Feed(a), s, Feed(b), t);
    case Null => CutEqually(Feed(a), s, Feed(b), t);
    case Bool(_) => CutEqually(Feed(a), s, Feed(b), t);
    case Number(bits) =>
      CutEqually(Feed(a), s, Feed(b), t);
      CutEqually([3], bits, [3], b.bits);
    case Text(x) => PrefixedSplits(4, x, b.text, s, t);
    case Data(x) => PrefixedSplits(5, x, b.data, s, t);
    case List(xs) =>
      CountedSplits(6, |xs|, FeedAll(xs), |b.items|, FeedAll(b.items), s, t);
      ListDecides(xs, b.items, s, t);
    case Record(ms) =>
      var ns := b.members;
      CountedSplits(7, |Pairs(ms)|, PrintPairs(SortPairs(Pairs(ms))),
                    |Pairs(ns)|, PrintPairs(SortPairs(Pairs(ns))), s, t);
      RecordDecides(ms, ns, s, t);
  }

  lemma TagDecides(a: Value, b: Value, s: Bytes, t: Bytes)
    requires Feed(a) + s == Feed(b) + t
    ensures a.Undefined? || a.Null? <==> b.Undefined? || b.Null?
    ensures a.Bool? <==> b.Bool?
    ensures a.Bool? && b.Bool? ==> a.b == b.b
    ensures a.Number? <==> b.Number?
    ensures a.Text? <==> b.Text?
    ensures a.Data? <==> b.Data?
    ensures a.List? <==> b.List?
    ensures a.Record? <==> b.Record?
  {
    hide U32, Pairs, SortPairs, PrintPairs, FeedAll;
    assert (Feed(a) + s)[0] == Feed(a)[0] && (Feed(b) + t)[0] == Feed(b)[0];
  }

  lemma {:induction false} ListDecides(xs: seq<Value>, ys: seq<Value>, s: Bytes, t: Bytes)
    requires |xs| == |ys| && FeedAll(xs) + s == FeedAll(ys) + t
    requires forall i: nat :: i < |xs| ==> Encodable(xs[i]) && Encodable(ys[i])
    ensures s == t && forall i: nat :: i < |xs| ==> MeaningOf(xs[i]) == MeaningOf(ys[i])
    decreases xs
  {
    hide Feed, MeaningOf, Encodable;
    if |xs| == 0 {
      assert [] + s == s && [] + t == t;
    } else {
      var u, v := FeedAll(xs[1..]) + s, FeedAll(ys[1..]) + t;
      assert FeedAll(xs) + s == Feed(xs[0]) + u && FeedAll(ys) + t == Feed(ys[0]) + v;
      StreamDecides(xs[0], ys[0], u, v);
      ListDecides(xs[1..], ys[1..], s, t);
      forall i: nat | i < |xs|
        ensures MeaningOf(xs[i]) == MeaningOf(ys[i])
      {
        if i > 0 {
          assert xs[i] == xs[1..][i - 1] && ys[i] == ys[1..][i - 1];
        }
      }
    }
  }

  ghost predicate AllEncodable(ms: seq<Member>) {
    forall i: nat :: i < |ms| ==> |ms[i].key| < U32_LIMIT && Encodable(ms[i].value)
  }

  /** Equal prints of members are prints of equal members. */
  lemma {:induction false} PairsDecide(ms: seq<Member>, ns: seq<Member>, xs: seq<Pair>, ys: seq<Pair>, s: Bytes,
                                       t: Bytes)
    requires AllEncodable(ms) && AllEncodable(ns)
    requires forall i: nat :: i < |xs| ==> xs[i] in Pairs(ms)
    requires forall i: nat :: i < |ys| ==> ys[i] in Pairs(ns)
    requires |xs| == |ys| && PrintPairs(xs) + s == PrintPairs(ys) + t
    ensures xs == ys && s == t
    decreases ms, |xs|
  {
    hide Feed, Pairs, Encodable, Prefixed, MeaningOf;
    if |xs| == 0 {
      assert [] + s == s && [] + t == t;
    } else {
      var x, y := xs[0], ys[0];
      var i := PairFrom(ms, x);
      var j := PairFrom(ns, y);
      var u, v := PrintPairs(xs[1..]) + s, PrintPairs(ys[1..]) + t;
      PairPrint(xs, s);
      PairPrint(ys, t);
      PrefixedSplits(4, x.key, y.key, x.stream + u, y.stream + v);
      StreamDecides(ms[i].value, ns[j].value, u, v);
      SameFront(x.stream, y.stream, u);
      PairsDecide(ms, ns, xs[1..], ys[1..], s, t);
      assert xs == [x] + xs[1..] && ys == [y] + ys[1..];
    }
  }

  lemma PairPrint(ps: seq<Pair>, s: Bytes)
    requires |ps| > 0
    ensures PrintPairs(ps) + s == Prefixed(4, ps[0].key) + (ps[0].stream + (PrintPairs(ps[1..]) + s))
  {
    hide Prefixed;
  }

  lemma SameFront<T>(a: seq<T>, b: seq<T>, u: seq<T>)
    requires a + u == b + u
    ensures a == b
  {
    assert |a| == |b|;
    CutEqually(a, u, b, u);
  }

  lemma SortedPairs(ms: seq<Member>)
    requires DistinctKeys(ms)
    ensures SameElements(SortPairs(Pairs(ms)), Pairs(ms))
    ensures |SortPairs(Pairs(ms))| == |Pairs(ms)| && Ascending(SortPairs(Pairs(ms)))
  {
    PairsAreDistinct(ms);
    SortPairsSorts(Pairs(ms));
  }

  lemma {:induction false} RecordDecides(ms: seq<Member>, ns: seq<Member>, s: Bytes, t: Bytes)
    requires AllEncodable(ms) && AllEncodable(ns) && DistinctKeys(ms) && DistinctKeys(ns)
    requires |Pairs(ms)| == |Pairs(ns)|
    requires PrintPairs(SortPairs(Pairs(ms))) + s == PrintPairs(SortPairs(Pairs(ns))) + t
    ensures s == t && MembersOf(ms) == MembersOf(ns)
    decreases ms, |ms| + 1
  {
    hide Feed, Pairs, Encodable, PrintPairs, SortPairs, Ascending, MeaningOf, MembersOf, DistinctKeys;
    SortedPairs(ms);
    SortedPairs(ns);
    var xs, ys := SortPairs(Pairs(ms)), SortPairs(Pairs(ns));
    PairsDecide(ms, ns, xs, ys, s, t);
    assert SameElements(Pairs(ms), Pairs(ns));
    forall key | key in MembersOf(ms)
      ensures key in MembersOf(ns) && MembersOf(ms)[key] == MembersOf(ns)[key]
    {
      var i := MemberFrom(ms, key);
      PairOf(ms, i);
      var j := PairFrom(ns, Pair(key, Feed(ms[i].value)));
      MemberAt(ms, i);
      MemberAt(ns, j);
      StreamDecides(ms[i].value, ns[j].value, [], []);
    }
    forall key | key in MembersOf(ns)
      ensures key in MembersOf(ms)
    {
      var j := MemberFrom(ns, key);
      PairOf(ns, j);
      var i := PairFrom(ms, Pair(key, Feed(ns[j].value)));
      MemberAt(ms, i);
    }
  }

  // ----- the meaning decides the stream -------------------------------------------------------------------

  /** Values that mean the same are fed as the same bytes, whatever the order of their members. */
  lemma {:induction false} MeaningDecides(a: Value, b: Value)
    requires Encodable(a) && Encodable(b) && MeaningOf(a) == MeaningOf(b)
    ensures Feed(a) == Feed(b)
    decreases a
  {
    hide U32, Pairs, MembersOf, SortPairs, PrintPairs, FeedAll;
    match a
    case Undefined =>
    case Null =>
    case Bool(_) =>
    case Number(_) =>
    case Text(_) =>
    case Data(_) =>
    case List(xs) =>
      assert |xs| == |b.items| by { assert |MeaningOf(a).items| == |MeaningOf(b).items|; }
      forall i: nat | i < |xs|
        ensures Feed(xs[i]) == Feed(b.items[i])
      {
        assert MeaningOf(a).items[i] == MeaningOf(b).items[i];
        MeaningDecides(xs[i], b.items[i]);
      }
      SameFeeds(xs, b.items);
    case Record(ms) =>
      SamePairs(ms, b.members);
      SortedPairs(ms);
      SortedPairs(b.members);
      AscendingIsUnique(SortPairs(Pairs(ms)), SortPairs(Pairs(b.members)));
  }

  lemma {:induction false} SameFeeds(xs: seq<Value>, ys: seq<Value>)
    requires |xs| == |ys| && forall i: nat :: i < |xs| ==> Feed(xs[i]) == Feed(ys[i])
    ensures FeedAll(xs) == FeedAll(ys)
  {
    hide Feed;
    if |xs| > 0 {
      SameFeeds(xs[1..], ys[1..]);
    }
  }

  lemma {:induction false} SamePairs(ms: seq<Member>, ns: seq<Member>)
    requires AllEncodable(ms) && AllEncodable(ns) && DistinctKeys(ms)
    requires DistinctKeys(ns) && MembersOf(ms) == MembersOf(ns)
    ensures SameElements(Pairs(ms), Pairs(ns))
    decreases ms, |ms| + 1
  {
    hide Feed, Pairs, Encodable, MeaningOf, MembersOf, DistinctKeys;
    forall p | p in Pairs(ms)
      ensures p in Pairs(ns)
    {
      var i := PairFrom(ms, p);
      MemberAt(ms, i);
      var j := MemberFrom(ns, p.key);
      MemberAt(ns, j);
      MeaningDecides(ms[i].value, ns[j].value);
      PairOf(ns, j);
    }
    forall p | p in Pairs(ns)
      ensures p in Pairs(ms)
    {
      var j := PairFrom(ns, p);
      MemberAt(ns, j);
      var i := MemberFrom(ms, p.key);
      MemberAt(ms, i);
      MeaningDecides(ms[i].value, ns[j].value);
      PairOf(ms, i);
    }
  }

  /** Two values are fed as the same bytes exactly when they mean the same. */
  lemma StreamIsMeaning(a: Value, b: Value)
    requires Encodable(a) && Encodable(b)
    ensures Feed(a) == Feed(b) <==> MeaningOf(a) == MeaningOf(b)
  {
    hide Feed, MeaningOf, Encodable;
    if Feed(a) == Feed(b) {
      StreamDecides(a, b, [], []);
    } else if MeaningOf(a) == MeaningOf(b) {
      MeaningDecides(a, b);
    }
  }
}
