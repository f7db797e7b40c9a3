/** Replacing names inside a byte string: a list of spans, each with the name that goes
    there, spliced in order of position.  Symbol tables and import sections are both lists of
    items that carry at most one replaceable name. */
module NameSplice {
  import opened Options
  import opened Leb128
  import opened Sequences

  /** A name as it is spelled: its length field and its text. */
  datatype Named = Named(length: Bytes, text: Bytes)

  datatype Item = Item(head: Bytes, name: Option<Named>, tail: Bytes)

  /** Replace the bytes from `start` to `end` with `name` and its minimal length. */
  datatype Edit = Edit(start: nat, end: nat, name: Bytes)

  function EncodeName(name: Bytes): Bytes {
    Encode(|name|) + name
  }

  function PrintName(name: Option<Named>): Bytes {
    match name
    case None => []
    case Some(n) => n.length + n.text
  }

  function PrintItem(x: Item): Bytes {
    x.head + PrintName(x.name) + x.tail
  }

  function PrintItems(xs: seq<Item>): Bytes {
    if |xs| == 0 then [] else PrintItem(xs[0]) + PrintItems(xs[1..])
  }

  // ----- edits as spans -----------------------------------------------------------------------------

  /** `bytes[from..to]`, with both ends clamped to the bytes there are. */
  function Slice(bytes: Bytes, from: nat, to: nat): Bytes {
    var hi := if to < |bytes| then to else |bytes|;
    if from <= hi then bytes[from..hi] else []
  }

  /** Copy the bytes from `cursor` on, with each edit's span replaced by its name. */
  function SpliceFrom(bytes: Bytes, edits: seq<Edit>, cursor: nat): Bytes {
    if |edits| == 0 then Slice(bytes, cursor, |bytes|)
    else
      Slice(bytes, cursor, edits[0].start) + EncodeName(edits[0].name) + SpliceFrom(bytes, edits[1..], edits[0].end)
  }

  predicate SortedEdits(edits: seq<Edit>) {
    forall i: nat, j: nat :: i < j < |edits| ==> edits[i].start <= edits[j].start
  }

  /** Stable insertion of one edit by start. */
  function InsertEdit(edits: seq<Edit>, e: Edit): seq<Edit> {
    if |edits| == 0 || edits[|edits| - 1].start <= e.start then edits + [e]
    else InsertEdit(edits[..|edits| - 1], e) + [edits[|edits| - 1]]
  }

  function SortEdits(edits: seq<Edit>): seq<Edit> {
    if |edits| == 0 then [] else InsertEdit(SortEdits(edits[..|edits| - 1]), edits[|edits| - 1])
  }

  function Splice(bytes: Bytes, edits: seq<Edit>): Bytes {
    SpliceFrom(bytes, SortEdits(edits), 0)
  }

  lemma AppendSorted(edits: seq<Edit>, e: Edit)
    requires SortedEdits(edits) && AllUpTo(edits, e.start)
    ensures SortedEdits(edits + [e])
  {
  }

  predicate AllUpTo(edits: seq<Edit>, limit: nat) {
    forall i: nat :: i < |edits| ==> edits[i].start <= limit
  }

  lemma InitSorted(edits: seq<Edit>)
    requires SortedEdits(edits) && |edits| > 0
    ensures SortedEdits(edits[..|edits| - 1]) && AllUpTo(edits[..|edits| - 1], edits[|edits| - 1].start)
  {
  }

  lemma {:induction false} InsertEditSorts(edits: seq<Edit>, e: Edit)
    requires SortedEdits(edits)
    ensures SortedEdits(InsertEdit(edits, e))
    ensures multiset(InsertEdit(edits, e)) == multiset(edits) + multiset{e}
    ensures forall limit: nat :: AllUpTo(edits, limit) && e.start <= limit ==> AllUpTo(InsertEdit(edits, e), limit)
  {
    if |edits| > 0 {
      hide SortedEdits, AllUpTo;
      InitSorted(edits);
      var init, last := edits[..|edits| - 1], edits[|edits| - 1];
      if last.start > e.start {
        InsertEditSorts(init, e);
        DropLastBag(edits);
        AppendSorted(InsertEdit(init, e), last);
        UpToAppend(edits, InsertEdit(init, e), last);
      } else {
        UpToLast(edits, e);
        AppendSorted(edits, e);
      }
    }
  }

  lemma UpToLast(edits: seq<Edit>, e: Edit)
    requires SortedEdits(edits) && |edits| > 0 && edits[|edits| - 1].start <= e.start
    ensures AllUpTo(edits, e.start)
    ensures forall limit: nat :: AllUpTo(edits, limit) && e.start <= limit ==> AllUpTo(edits + [e], limit)
  {
  }

  lemma UpToAppend(edits: seq<Edit>, r: seq<Edit>, last: Edit)
    requires |edits| > 0 && last == edits[|edits| - 1]
    ensures forall limit: nat :: AllUpTo(edits, limit) && AllUpTo(r, limit) ==> AllUpTo(r + [last], limit)
    ensures forall limit: nat :: AllUpTo(edits, limit) ==> AllUpTo(edits[..|edits| - 1], limit)
  {
  }

  lemma {:induction false} SortEditsSorts(edits: seq<Edit>)
    ensures SortedEdits(SortEdits(edits)) && multiset(SortEdits(edits)) == multiset(edits)
  {
    if |edits| > 0 {
      SortEditsSorts(edits[..|edits| - 1]);
      InsertEditSorts(SortEdits(edits[..|edits| - 1]), edits[|edits| - 1]);
      DropLastBag(edits);
    }
  }

  ghost predicate DistinctStarts(edits: seq<Edit>) {
    forall i: nat, j: nat :: i < j < |edits| ==> edits[i].start != edits[j].start
  }

  /** Two sorted lists of the same edits with distinct starts are the same list. */
  lemma {:induction false} SortedIsUnique(xs: seq<Edit>, ys: seq<Edit>)
    requires SortedEdits(xs) && SortedEdits(ys) && DistinctStarts(ys) && multiset(xs) == multiset(ys)
    ensures xs == ys
    decreases |xs|
  {
    hide SortedEdits, DistinctStarts;
    assert |xs| == |multiset(xs)| == |multiset(ys)| == |ys|;
    if |xs| > 0 {
      LastEditsAgree(xs, ys);
      InitSorted(xs);
      InitSorted(ys);
      InitDistinct(ys);
      var n := |xs| - 1;
      DropLastBag(xs);
      DropLastBag(ys);
      SortedIsUnique(xs[..n], ys[..n]);
      assert xs == xs[..n] + [xs[n]] && ys == ys[..n] + [ys[n]];
    }
  }

  lemma InitDistinct(edits: seq<Edit>)
    requires DistinctStarts(edits) && |edits| > 0
    ensures DistinctStarts(edits[..|edits| - 1])
  {
  }

  lemma LastEditsAgree(xs: seq<Edit>, ys: seq<Edit>)
    requires SortedEdits(xs) && SortedEdits(ys) && DistinctStarts(ys) && multiset(xs) == multiset(ys)
    requires |xs| == |ys| > 0
    ensures xs[|xs| - 1] == ys[|ys| - 1]
  {
    var n := |xs| - 1;
    assert xs[n] in multiset(ys) && ys[n] in multiset(xs);
    var i: nat :| i < |ys| && ys[i] == xs[n];
    var j: nat :| j < |xs| && xs[j] == ys[n];
    assert ys[i].start <= ys[n].start && xs[j].start <= xs[n].start;
  }

  // ----- edits of items --------------------------------------------------------------------------------

  /** The items with new names where `news` has one; a new name is spelled minimally. */
  function Renamed(xs: seq<Item>, news: seq<Option<Bytes>>): (r: seq<Item>)
    requires |xs| == |news|
    ensures |r| == |xs|
    ensures forall i: nat :: i < |xs| ==> r[i] == RenamedItem(xs[i], news[i])
  {
    seq(|xs|, i requires 0 <= i < |xs| => RenamedItem(xs[i], news[i]))
  }

  function RenamedItem(x: Item, new': Option<Bytes>): Item {
    if x.name.Some? && new'.Some? then x.(name := Some(Named(Encode(|new'.value|), new'.value))) else x
  }

  function ItemEdit(x: Item, name: Bytes, offset: nat): Edit {
    Edit(offset + |x.head|, offset + |x.head| + |PrintName(x.name)|, name)
  }

  /** The edits for items printed from `offset` on. */
  function EditsFor(xs: seq<Item>, news: seq<Option<Bytes>>, offset: nat): seq<Edit>
    requires |xs| == |news|
  {
    if |xs| == 0 then []
    else OwnEdit(xs[0], news[0], offset) + EditsFor(xs[1..], news[1..], offset + |PrintItem(xs[0])|)
  }

  function OwnEdit(x: Item, new': Option<Bytes>, offset: nat): seq<Edit> {
    if x.name.Some? && new'.Some? then [ItemEdit(x, new'.value, offset)] else []
  }

  ghost predicate NonemptyNames(xs: seq<Item>) {
    forall i: nat :: i < |xs| && xs[i].name.Some? ==> |PrintName(xs[i].name)| > 0
  }

  /** Every edit starts at or after `low`. */
  ghost predicate AllFrom(edits: seq<Edit>, low: nat) {
    forall i: nat :: i < |edits| ==> low <= edits[i].start
  }

  lemma StrictCons(e: Edit, rest: seq<Edit>)
    requires SortedEdits(rest) && DistinctStarts(rest) && AllFrom(rest, e.start + 1)
    ensures SortedEdits([e] + rest) && DistinctStarts([e] + rest)
  {
  }

  lemma FromCons(own: seq<Edit>, rest: seq<Edit>, low: nat, high: nat)
    requires low <= high && AllFrom(own, low) && AllFrom(rest, high)
    ensures AllFrom(own + rest, low)
  {
  }

  /** The edits of printed items come in strictly increasing order. */
  lemma {:induction false} EditsForOrder(xs: seq<Item>, news: seq<Option<Bytes>>, offset: nat)
    requires |xs| == |news| && NonemptyNames(xs)
    ensures AllFrom(EditsFor(xs, news, offset), offset)
    ensures SortedEdits(EditsFor(xs, news, offset)) && DistinctStarts(EditsFor(xs, news, offset))
  {
    if |xs| > 0 {
      var offset' := offset + |PrintItem(xs[0])|;
      var own, rest := OwnEdit(xs[0], news[0], offset), EditsFor(xs[1..], news[1..], offset');
      EditsForOrder(xs[1..], news[1..], offset');
      assert EditsFor(xs, news, offset) == own + rest;
      hide EditsFor, NonemptyNames, SortedEdits, DistinctStarts;
      OwnEditIsInside(xs[0], news[0], offset);
      FromCons(own, rest, offset, offset');
      if own == [] {
        assert own + rest == rest;
      } else {
        FromMore(rest, own[0].start + 1, offset');
        StrictCons(own[0], rest);
        assert own == [own[0]];
      }
    }
  }

  lemma OwnEditIsInside(x: Item, new': Option<Bytes>, offset: nat)
    ensures var own := OwnEdit(x, new', offset);
      && AllFrom(own, offset)
      && (own != [] ==> |own| == 1 && own[0].start + |PrintName(x.name)| <= offset + |PrintItem(x)|)
  {
  }

  lemma FromMore(edits: seq<Edit>, low: nat, high: nat)
    requires low <= high && AllFrom(edits, high)
    ensures AllFrom(edits, low)
  {
  }

  /** Splicing the edits of printed items prints the renamed items, and touches nothing else. */
  lemma {:induction false} SpliceRenames(bytes: Bytes, cursor: nat, pre: Bytes, xs: seq<Item>,
                                         news: seq<Option<Bytes>>, post: Bytes)
    requires |xs| == |news| && cursor <= |pre|
    requires bytes == pre + PrintItems(xs) + post
    ensures SpliceFrom(bytes, EditsFor(xs, news, |pre|), cursor)
         == pre[cursor..] + PrintItems(Renamed(xs, news)) + post
    decreases |xs|
  {
    hide PrintItem, RenamedItem, SpliceFrom;
    if |xs| == 0 {
      NothingToSplice(bytes, cursor, pre, post);
      assert EditsFor(xs, news, |pre|) == [] && PrintItems(Renamed(xs, news)) == [];
    } else {
      var x, pre' := xs[0], pre + PrintItem(xs[0]);
      Shift(pre, PrintItem(x), PrintItems(xs[1..]), post);
      assert Renamed(xs, news)[1..] == Renamed(xs[1..], news[1..]);
      var rest, edits := PrintItems(Renamed(xs[1..], news[1..])), EditsFor(xs[1..], news[1..], |pre'|);
      if x.name.Some? && news[0].Some? {
        var e := ItemEdit(x, news[0].value, |pre|);
        EditedItem(bytes, cursor, pre, x, news[0].value, PrintItems(xs[1..]) + post);
        SpliceRenames(bytes, e.end, pre', xs[1..], news[1..], post);
        SpliceEdited(bytes, cursor, e, edits, pre, pre', x, rest, post);
      } else {
        KeepsItem(x, news[0]);
        SpliceRenames(bytes, cursor, pre', xs[1..], news[1..], post);
        DropFront(pre, PrintItem(x), cursor);
        Regroup(pre[cursor..], PrintItem(x), [], pre[cursor..], PrintItem(x), rest, post);
        assert [] + edits == edits;
      }
    }
  }

  /** Where item `j` starts when the items are printed from `offset` on. */
  function ItemStart(xs: seq<Item>, j: nat, offset: nat): nat
    requires j < |xs|
  {
    if j == 0 then offset else ItemStart(xs[1..], j - 1, offset + |PrintItem(xs[0])|)
  }

  /** One more new name is one more edit. */
  lemma {:induction false} OneMoreEdit(xs: seq<Item>, news: seq<Option<Bytes>>, j: nat, name: Bytes, offset: nat)
    requires |xs| == |news| && j < |xs| && xs[j].name.Some? && news[j] == None
    ensures multiset(EditsFor(xs, news[j := Some(name)], offset))
         == multiset(EditsFor(xs, news, offset)) + multiset{ItemEdit(xs[j], name, ItemStart(xs, j, offset))}
  {
    var news' := news[j := Some(name)];
    var offset' := offset + |PrintItem(xs[0])|;
    var rest, rest' := EditsFor(xs[1..], news[1..], offset'), EditsFor(xs[1..], news'[1..], offset');
    var own, own' := OwnEdit(xs[0], news[0], offset), OwnEdit(xs[0], news'[0], offset);
    assert EditsFor(xs, news, offset) == own + rest;
    assert EditsFor(xs, news', offset) == own' + rest';
    var e := ItemEdit(xs[j], name, ItemStart(xs, j, offset));
    if j == 0 {
      assert news'[1..] == news[1..];
      assert own == [] && own' == [e];
      hide *;
      ConsBag(rest, e);
    } else {
      assert own == own';
      assert news'[1..] == news[1..][j - 1 := Some(name)];
      assert xs[1..][j - 1] == xs[j] && ItemStart(xs[1..], j - 1, offset') == ItemStart(xs, j, offset);
      OneMoreEdit(xs[1..], news[1..], j - 1, name, offset');
      hide *;
      BehindBag(own, rest, rest', e);
    }
  }

  lemma NothingToSplice(bytes: Bytes, cursor: nat, pre: Bytes, post: Bytes)
    requires cursor <= |pre| && bytes == pre + [] + post
    ensures SpliceFrom(bytes, [], cursor) == pre[cursor..] + [] + post
  {
  }

  lemma SpliceEdited(bytes: Bytes, cursor: nat, e: Edit, edits: seq<Edit>, pre: Bytes, pre': Bytes, x: Item,
                     rest: Bytes, post: Bytes)
    requires cursor <= |pre| && e.end <= |pre'|
    requires Slice(bytes, cursor, e.start) + EncodeName(e.name) + pre'[e.end..]
             == pre[cursor..] + PrintItem(RenamedItem(x, Some(e.name)))
    requires SpliceFrom(bytes, edits, e.end) == pre'[e.end..] + rest + post
    ensures SpliceFrom(bytes, [e] + edits, cursor)
         == pre[cursor..] + (PrintItem(RenamedItem(x, Some(e.name))) + rest) + post
  {
    hide PrintItem, RenamedItem, Slice, EncodeName;
    assert ([e] + edits)[1..] == edits;
    Regroup(Slice(bytes, cursor, e.start), EncodeName(e.name), pre'[e.end..], pre[cursor..],
            PrintItem(RenamedItem(x, Some(e.name))), rest, post);
  }

  lemma Shift<T>(pre: seq<T>, x: seq<T>, rest: seq<T>, post: seq<T>)
    ensures pre + (x + rest) + post == pre + x + rest + post == pre + x + (rest + post)
  {
  }

  lemma DropFront<T>(pre: seq<T>, x: seq<T>, cursor: nat)
    requires cursor <= |pre|
    ensures (pre + x)[cursor..] == pre[cursor..] + x == pre[cursor..] + x + []
  {
  }

  lemma Regroup<T>(a: seq<T>, b: seq<T>, c: seq<T>, p: seq<T>, q: seq<T>, rest: seq<T>, post: seq<T>)
    requires a + b + c == p + q
    ensures a + b + (c + rest + post) == p + (q + rest) + post
  {
    assert a + b + (c + rest + post) == (a + b + c) + (rest + post);
    assert p + (q + rest) + post == (p + q) + (rest + post);
  }

  lemma KeepsItem(x: Item, new': Option<Bytes>)
    requires !(x.name.Some? && new'.Some?)
    ensures RenamedItem(x, new') == x
  {
  }

  /** The bytes up to an item's name, the new name, and the item's tail make the renamed item. */
  lemma EditedItem(bytes: Bytes, cursor: nat, pre: Bytes, x: Item, name: Bytes, post: Bytes)
    requires cursor <= |pre| && x.name.Some?
    requires bytes == pre + PrintItem(x) + post
    ensures var e := ItemEdit(x, name, |pre|);
      && e.name == name
      && |pre| <= e.start <= e.end <= |pre + PrintItem(x)|
      && Slice(bytes, cursor, e.start) + EncodeName(name) + (pre + PrintItem(x))[e.end..]
         == pre[cursor..] + PrintItem(RenamedItem(x, Some(name)))
  {
    hide EncodeName;
    var e := ItemEdit(x, name, |pre|);
    var n := PrintName(x.name);
    CutBefore(bytes, cursor, pre, x.head, n + x.tail + post);
    assert pre + PrintItem(x) == (pre + x.head + n) + x.tail;
    assert (pre + PrintItem(x))[e.end..] == x.tail;
    EncodeNameIs(name);
    assert PrintItem(RenamedItem(x, Some(name))) == x.head + EncodeName(name) + x.tail;
    assert pre[cursor..] + (x.head + EncodeName(name) + x.tail) == pre[cursor..] + x.head + EncodeName(name) + x.tail;
  }

  lemma EncodeNameIs(name: Bytes)
    ensures EncodeName(name) == PrintName(Some(Named(Encode(|name|), name)))
  {
  }

  lemma CutBefore(bytes: Bytes, cursor: nat, pre: Bytes, head: Bytes, rest: Bytes)
    requires cursor <= |pre| && bytes == pre + head + rest
    ensures Slice(bytes, cursor, |pre| + |head|) == pre[cursor..] + head
  {
  }
}
