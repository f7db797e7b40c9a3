/** The `target_features` custom section: the features a module says it was built with, as far as
    they can be read.  Names are byte strings. */
module TargetFeatures {
  import opened Options
  import opened Leb128
  import opened WasmModule

  const TARGET_FEATURES: Bytes :=
    [0x74, 0x61, 0x72, 0x67, 0x65, 0x74, 0x5f, 0x66, 0x65, 0x61, 0x74, 0x75, 0x72, 0x65, 0x73]

  datatype Feature = Feature(prefix: Byte, name: Bytes)

  /** What was read, and whether reading came to its end. */
  datatype Reading = Reading(features: seq<Feature>, whole: bool)

  function Least(a: nat, b: nat): nat {
    if a < b then a else b
  }

  datatype One = One(feature: Feature, rest: Bytes)

  /** The entry at the front of `s`.  A name that runs past the end is cut short there. */
  function TakeFeature(s: Bytes): Option<One> {
    if |s| == 0 then None
    else
      match Decode(s[1..])
      case None => None
      case Some(l) =>
        var start := 1 + l.length;
        var end := Least(start + l.value, |s|);
        Some(One(Feature(s[0], s[start..end]), s[end..]))
  }

  function Joined(fs: seq<Feature>, rest: Reading): Reading {
    Reading(fs + rest.features, rest.whole)
  }

  /** `n` entries from the front of `s`, until one cannot be read. */
  function TakeFeatures(s: Bytes, n: nat): Reading {
    if n == 0 then Reading([], true)
    else
      match TakeFeature(s)
      case None => Reading([], false)
      case Some(o) => Joined([o.feature], TakeFeatures(o.rest, n - 1))
  }

  /** Entries that were read before a failure are kept; a failure before the first is no section. */
  function FeaturesIn(data: Bytes): Option<seq<Feature>> {
    match Decode(data)
    case None => None
    case Some(l) =>
      var r := TakeFeatures(data[l.length..], l.value);
      if r.whole || r.features != [] then Some(r.features) else None
  }

  /** The first `target_features` section, or the number of sections. */
  function FeatureSectionAt(xs: seq<Section>): (r: nat)
    ensures r <= |xs| && (r < |xs| ==> IsCustom(xs[r], TARGET_FEATURES))
    ensures forall i: nat :: i < r ==> !IsCustom(xs[i], TARGET_FEATURES)
  {
    if |xs| == 0 || IsCustom(xs[0], TARGET_FEATURES) then 0 else 1 + FeatureSectionAt(xs[1..])
  }

  function FeaturesOf(xs: seq<Section>): Option<seq<Feature>> {
    var at := FeatureSectionAt(xs);
    if at == |xs| then None else FeaturesIn(CustomOf(xs[at].payload).value.data)
  }

  // ----- the loop -----------------------------------------------------------------------------------------

  /** One entry from `cursor` on; a name that runs past the end leaves the cursor past the end. */
  method FeatureAt(data: Bytes, cursor: nat) returns (r: Option<Feature>, next: nat)
    ensures var o := TakeFeature(data[Least(cursor, |data|)..]);
      && (r == None <==> o == None)
      && (r.Some? ==> o == Some(One(r.value, data[Least(next, |data|)..])))
  {
    hide Decode;
    next := cursor + 1;
    if cursor >= |data| {
      return None, next;
    }
    ghost var s := data[cursor..];
    assert s[1..] == data[next..];
    var nameLength := DecodeLoop(data, next);
    if nameLength == None {
      return None, next;
    }
    var start, end := next + nameLength.value.length, next + nameLength.value.length + nameLength.value.value;
    var name := data[start..Least(end, |data|)];
    Reslice(data, cursor, start, Least(end, |data|));
    return Some(Feature(data[cursor], name)), end;
  }

  lemma Reslice(data: Bytes, a: nat, b: nat, c: nat)
    requires a <= b <= c <= |data|
    ensures data[a..][b - a..c - a] == data[b..c] && data[a..][c - a..] == data[c..]
  {
  }

  method ReadFeatures(data: Bytes) returns (r: Option<seq<Feature>>)
    ensures r == FeaturesIn(data)
  {
    hide Decode, TakeFeature;
    assert data[0..] == data;
    var count := DecodeLoop(data, 0);
    if count == None {
      return None;
    }
    var entries: seq<Feature>, cursor: nat := [], count.value.length;
    ghost var all := TakeFeatures(data[cursor..], count.value.value);
    assert [] + all.features == all.features;
    for i := 0 to count.value.value
      invariant all == Joined(entries, TakeFeatures(data[Least(cursor, |data|)..], count.value.value - i))
    {
      ghost var s := data[Least(cursor, |data|)..];
      var entry, next := FeatureAt(data, cursor);
      if entry == None {
        assert entries + [] == entries;
        return if |entries| > 0 then Some(entries) else None;
      }
      JoinStep(entries, entry.value, TakeFeatures(data[Least(next, |data|)..], count.value.value - i - 1));
      entries := entries + [entry.value];
      cursor := next;
    }
    assert entries + [] == entries;
    return Some(entries);
  }

  lemma JoinStep(fs: seq<Feature>, f: Feature, rest: Reading)
    ensures Joined(fs, Joined([f], rest)) == Joined(fs + [f], rest)
  {
    assert fs + ([f] + rest.features) == fs + [f] + rest.features;
  }

  // ----- what is read -------------------------------------------------------------------------------------

  /** An entry with the spelling of its name's length. */
  datatype Entry = Entry(prefix: Byte, size: Bytes, name: Bytes)

  function PrintEntry(e: Entry): Bytes {
    [e.prefix] + e.size + e.name
  }

  function PrintEntries(es: seq<Entry>): Bytes {
    if |es| == 0 then [] else PrintEntry(es[0]) + PrintEntries(es[1..])
  }

  ghost predicate Whole(e: Entry) {
    Decode(e.size) == Some(Leb(|e.name|, |e.size|))
  }

  /** The name's length is spelled, but the name is shorter. */
  ghost predicate Cut(e: Entry) {
    Decode(e.size).Some? && Decode(e.size).value.length == |e.size| && Decode(e.size).value.value > |e.name|
  }

  function FeaturesFrom(es: seq<Entry>): (r: seq<Feature>)
    ensures |r| == |es| && forall i: nat :: i < |r| ==> r[i] == Feature(es[i].prefix, es[i].name)
  {
    seq(|es|, i requires 0 <= i < |es| => Feature(es[i].prefix, es[i].name))
  }

  ghost predicate AllWhole(es: seq<Entry>) {
    forall i: nat :: i < |es| ==> Whole(es[i])
  }

  lemma EntryIsTaken(e: Entry, t: Bytes)
    requires Whole(e)
    ensures TakeFeature(PrintEntry(e) + t) == Some(One(Feature(e.prefix, e.name), t))
  {
    hide Decode;
    var s := PrintEntry(e) + t;
    assert s[1..] == e.size + (e.name + t);
    DecodeExtends(e.size, e.name + t);
    var start := 1 + |e.size|;
    assert s[start..start + |e.name|] == e.name && s[start + |e.name|..] == t;
  }

  lemma {:induction false} EntriesAreTaken(es: seq<Entry>, t: Bytes)
    requires AllWhole(es)
    ensures TakeFeatures(PrintEntries(es) + t, |es|) == Reading(FeaturesFrom(es), true)
  {
    hide Whole, PrintEntry, TakeFeature;
    if |es| > 0 {
      assert PrintEntries(es) + t == PrintEntry(es[0]) + (PrintEntries(es[1..]) + t);
      EntryIsTaken(es[0], PrintEntries(es[1..]) + t);
      EntriesAreTaken(es[1..], t);
      assert FeaturesFrom(es) == [Feature(es[0].prefix, es[0].name)] + FeaturesFrom(es[1..]);
    }
  }

  /** Every well-formed list of features is read back, however its lengths are spelled and
      whatever follows it. */
  lemma FeaturesAreReadBack(count: Bytes, es: seq<Entry>, rest: Bytes)
    requires Decode(count) == Some(Leb(|es|, |count|)) && AllWhole(es)
    ensures FeaturesIn(count + (PrintEntries(es) + rest)) == Some(FeaturesFrom(es))
  {
    hide Decode;
    DecodeExtends(count, PrintEntries(es) + rest);
    EntriesAreTaken(es, rest);
    assert (count + (PrintEntries(es) + rest))[|count|..] == PrintEntries(es) + rest;
  }

  ghost predicate WholeOrLast(e: Entry, more: Bytes) {
    Whole(e) || (Cut(e) && more == [])
  }

  /** Entries followed by nothing more that can be read as one; only the last may be cut short. */
  ghost predicate Exhausted(es: seq<Entry>, rest: Bytes, n: nat) {
    if |es| == 0 then n == 0 || TakeFeature(rest) == None
    else n > 0 && WholeOrLast(es[0], PrintEntries(es[1..]) + rest) && Exhausted(es[1..], rest, n - 1)
  }

  lemma {:induction false} TakenFeatures(s: Bytes, n: nat) returns (es: seq<Entry>, rest: Bytes)
    ensures s == PrintEntries(es) + rest && Exhausted(es, rest, n)
    ensures TakeFeatures(s, n) == Reading(FeaturesFrom(es), |es| == n)
    decreases n
  {
    hide TakeFeature, PrintEntry, WholeOrLast;
    if n == 0 || TakeFeature(s) == None {
      es, rest := [], s;
    } else {
      var o := TakeFeature(s).value;
      var e := EntryAtFront(s);
      es, rest := TakenFeatures(o.rest, n - 1);
      var es' := [e] + es;
      assert es'[1..] == es;
      assert PrintEntries(es') + rest == PrintEntry(e) + (PrintEntries(es) + rest);
      assert FeaturesFrom(es') == [o.feature] + FeaturesFrom(es);
      es := es';
    }
  }

  lemma EntryAtFront(s: Bytes) returns (e: Entry)
    requires TakeFeature(s).Some?
    ensures var o := TakeFeature(s).value;
      s == PrintEntry(e) + o.rest && o.feature == Feature(e.prefix, e.name) && WholeOrLast(e, o.rest)
  {
    hide Decode;
    var l := Decode(s[1..]).value;
    var start, end := 1 + l.length, Least(1 + l.length + l.value, |s|);
    e := Entry(s[0], s[1..start], s[start..end]);
    DecodeFrontOnly(s[1..]);
    assert s[1..][..l.length] == s[1..start];
    assert s == [s[0]] + s[1..start] + s[start..end] + s[end..];
  }

  lemma DecodeFrontOnly(s: Bytes)
    requires Decode(s).Some?
    ensures Decode(s[..Decode(s).value.length]) == Decode(s)
  {
    DecodeIsLocal(s, [], MAX_LEB_BYTES);
    assert s[..Decode(s).value.length] + [] == s[..Decode(s).value.length];
  }

  /** Nothing is read exactly when the count, or the first of the entries it promises, cannot be. */
  lemma NothingIsRead(data: Bytes)
    ensures FeaturesIn(data) == None <==>
      || Decode(data) == None
      || (Decode(data).value.value > 0 && TakeFeature(data[Decode(data).value.length..]) == None)
  {
    hide TakeFeature, Decode;
  }

  /** Whatever is read was there: the count, whole entries in order, at most the last one cut short by
      the end of the data, and then either as many as were counted or nothing more to read. */
  lemma ReadFeaturesAreThere(data: Bytes) returns (count: Bytes, es: seq<Entry>, rest: Bytes)
    requires FeaturesIn(data).Some?
    ensures data == count + (PrintEntries(es) + rest) && FeaturesIn(data) == Some(FeaturesFrom(es))
    ensures Decode(count).Some? && Decode(count).value.length == |count|
    ensures Exhausted(es, rest, Decode(count).value.value)
  {
    hide Decode, TakeFeatures, Exhausted;
    var l := Decode(data).value;
    DecodeFrontOnly(data);
    count := data[..l.length];
    es, rest := TakenFeatures(data[l.length..], l.value);
  }
}
