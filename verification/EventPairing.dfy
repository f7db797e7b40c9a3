/** Interval pairing: on a component that never samples exactly zero, the hits of a
    complete scan alternate direction, so opening and closing crossings pair up, and the
    endpoint signs say which interval is open at either end. */
module EventPairing {
  import opened EventTypes
  import opened EventScan
  import opened EventGrid
  import opened EventAccounting
  import opened EventRuns
  import opened Sequences

  /** The hits of one component, in list order. */
  function HitsOf(hits: seq<Hit>, c: nat): seq<Hit> {
    if |hits| == 0 then []
    else HitsOf(hits[..|hits| - 1], c) + if hits[|hits| - 1].component == c then [hits[|hits| - 1]] else []
  }

  lemma {:induction false} HitsOfAppend(xs: seq<Hit>, ys: seq<Hit>, c: nat)
    ensures HitsOf(xs + ys, c) == HitsOf(xs, c) + HitsOf(ys, c)
  {
    if |ys| == 0 {
      assert xs + ys == xs;
    } else {
      HitsOfAppend(xs, ys[..|ys| - 1], c);
      assert (xs + ys)[..|xs + ys| - 1] == xs + ys[..|ys| - 1];
    }
  }

  lemma {:induction false} HitsOfBag(xs: seq<Hit>, c: nat, h: Hit)
    ensures multiset(HitsOf(xs, c))[h] == if h.component == c then multiset(xs)[h] else 0
  {
    if |xs| > 0 {
      HitsOfBag(xs[..|xs| - 1], c, h);
      assert xs == xs[..|xs| - 1] + [xs[|xs| - 1]];
    }
  }

  lemma {:induction false} HitsOfPlain(hits: seq<Hit>, c: nat)
    ensures HitsOf(Plains(hits), c) == Plains(HitsOf(hits, c))
  {
    if |hits| > 0 {
      HitsOfPlain(hits[..|hits| - 1], c);
      assert Plains(hits)[..|hits| - 1] == Plains(hits[..|hits| - 1]);
    }
  }

  lemma {:induction false} HitsOfOrder(u: Setup, hits: seq<Hit>, c: nat)
    requires InScanOrder(u, hits)
    ensures InScanOrder(u, HitsOf(hits, c))
    ensures forall x :: x in HitsOf(hits, c) ==> x in hits && x.component == c
  {
    if |hits| > 0 {
      HitsOfOrder(u, hits[..|hits| - 1], c);
    }
  }

  // ----- the grid's own list for one component --------------------------------------------------

  ghost function GridHits(u: Setup, c: nat, k: nat): seq<Hit>
    requires c < |u.config|
  {
    if k == 0 then []
    else GridHits(u, c, k - 1) + if GridQualifies(u, c, k - 1) then [Report(u, c, Locate(u, c, k - 1))] else []
  }

  lemma HitsOfOne(xs: seq<Hit>, h: Hit, c: nat)
    ensures HitsOf(xs + [h], c) == HitsOf(xs, c) + if h.component == c then [h] else []
  {
    assert (xs + [h])[..|xs|] == xs;
  }

  lemma SampleEventsStep(u: Setup, k: nat, j: nat)
    requires 0 < j <= |u.config|
    ensures SampleEvents(u, k, j) == SampleEvents(u, k, j - 1)
              + if GridQualifies(u, j - 1, k) then [Event(j - 1, k, Locate(u, j - 1, k))] else []
  {
  }

  lemma {:induction false} SampleHitsOf(u: Setup, c: nat, k: nat, j: nat)
    requires c < |u.config| && j <= |u.config|
    ensures HitsOf(Reports(u, SampleEvents(u, k, j)), c)
            == if c < j && GridQualifies(u, c, k) then [Report(u, c, Locate(u, c, k))] else []
  {
    if j > 0 {
      hide Report, Reports, Locate, GridQualifies, SampleEvents, HitsOf;
      SampleHitsOf(u, c, k, j - 1);
      SampleEventsStep(u, k, j);
      var xs := SampleEvents(u, k, j - 1);
      if GridQualifies(u, j - 1, k) {
        var e := Event(j - 1, k, Locate(u, j - 1, k));
        ReportsAppend(u, xs, [e]);
        ReportOne(u, e);
        ReportFields(u, j - 1, e.finding);
        HitsOfOne(Reports(u, xs), Report(u, j - 1, e.finding), c);
      } else {
        assert xs + [] == xs;
      }
    }
  }

  lemma {:induction false} GridHitsOf(u: Setup, c: nat, k: nat)
    requires c < |u.config|
    ensures HitsOf(Reports(u, GridEvents(u, k)), c) == GridHits(u, c, k)
  {
    hide Report, Reports, Locate, GridQualifies, SampleEvents, HitsOf, GridHits;
    if k > 0 {
      GridHitsOf(u, c, k - 1);
      SampleHitsOf(u, c, k - 1, |u.config|);
      GridHitsStep(u, c, k);
      var xs, ys := GridEvents(u, k - 1), SampleEvents(u, k - 1, |u.config|);
      ReportsAppend(u, xs, ys);
      HitsOfAppend(Reports(u, xs), Reports(u, ys), c);
      assert GridHits(u, c, k - 1) + [] == GridHits(u, c, k - 1);
    } else {
      NoGridHits(u, c);
    }
  }

  lemma NoGridHits(u: Setup, c: nat)
    requires c < |u.config|
    ensures HitsOf(Reports(u, GridEvents(u, 0)), c) == [] == GridHits(u, c, 0)
  {
  }

  lemma ReportFields(u: Setup, c: nat, x: Finding)
    ensures Report(u, c, x).seconds == u.interval.startSeconds + x.t
    ensures Report(u, c, x).direction == x.direction
    ensures Report(u, c, x).component == c
  {
  }

  lemma AppendKeepsOrder(u: Setup, xs: seq<Hit>, h: Hit)
    requires InScanOrder(u, xs)
    requires forall x :: x in xs ==> !Later(u, x, h.seconds)
    ensures InScanOrder(u, xs + [h])
  {
  }

  /** The grid's list is in scan order and ends no later than its last sample. */
  lemma {:induction false} GridHitsOrder(u: Setup, c: nat, k: nat)
    requires ValidSetup(u) && c < |u.config| && k <= u.sampleCount
    ensures InScanOrder(u, GridHits(u, c, k))
    ensures k > 0 ==> forall h :: h in GridHits(u, c, k) ==>
              !Later(u, h, u.interval.startSeconds + SampleTime(u, k - 1))
  {
    hide Report, Locate, SampleTime, ValidSetup;
    if k > 1 {
      GridHitsOrder(u, c, k - 1);
      GridOrder(u, k - 2, k - 1);
      if GridQualifies(u, c, k - 1) {
        LocateStaysInside(u, c, k - 1);
        ReportFields(u, c, Locate(u, c, k - 1));
        AppendKeepsOrder(u, GridHits(u, c, k - 1), Report(u, c, Locate(u, c, k - 1)));
      }
    }
  }

  ghost predicate Alternates(hits: seq<Hit>) {
    forall i: nat :: i + 1 < |hits| ==> hits[i + 1].direction == -hits[i].direction
  }

  /** How a component's crossings read between an interval that starts with sign `first`
      and ends with sign `last`. */
  ghost predicate PairsUp(hits: seq<Hit>, first: int, last: int) {
    && Alternates(hits)
    && (|hits| > 0 ==> hits[0].direction == -first && hits[|hits| - 1].direction == last)
    && (|hits| % 2 == 1 <==> first != last)
  }

  ghost predicate NeverZero(u: Setup, c: nat, k: nat) {
    forall i: nat :: i < k ==> SignAt(u, c, i) != 0
  }

  ghost predicate Unfiltered(u: Setup, c: nat)
    requires c < |u.config|
  {
    Scanned(u, c) && u.config[c].direction == 0 && u.interval.direction == 0
  }

  lemma CrossingFlipsSign(u: Setup, c: nat, k: nat)
    requires c < |u.config| && Unfiltered(u, c)
    requires k > 0 && SignAt(u, c, k - 1) != 0 && SignAt(u, c, k) != 0
    ensures GridQualifies(u, c, k) <==> SignAt(u, c, k) != SignAt(u, c, k - 1)
    ensures GridQualifies(u, c, k) ==> DirectionAt(u, c, k) == SignAt(u, c, k) == -SignAt(u, c, k - 1)
    ensures SignAt(u, c, k - 1) == 1 || SignAt(u, c, k - 1) == -1
  {
    hide G, SampleTime;
  }

  lemma GridHitsStep(u: Setup, c: nat, k: nat)
    requires c < |u.config| && k > 0
    ensures var before := GridHits(u, c, k - 1);
      GridHits(u, c, k) == if GridQualifies(u, c, k - 1) then before + [Report(u, c, Locate(u, c, k - 1))] else before
    ensures GridHits(u, c, 0) == []
  {
    hide Report, Locate, GridQualifies;
  }

  lemma NothingPairsUp(sign: int)
    ensures PairsUp([], sign, sign)
  {
  }

  lemma {:induction false} GridHitsPairUp(u: Setup, c: nat, k: nat)
    requires ValidSetup(u) && c < |u.config| && Unfiltered(u, c)
    requires 0 < k <= u.sampleCount && NeverZero(u, c, k)
    ensures PairsUp(GridHits(u, c, k), SignAt(u, c, 0), SignAt(u, c, k - 1))
  {
    assert k > 1 ==> SignAt(u, c, 1) != 0 && SignAt(u, c, k - 2) != 0;
    assert SignAt(u, c, 0) != 0 && SignAt(u, c, k - 1) != 0;
    assert k == 1 ==> !GridQualifies(u, c, 0);
    hide ValidSetup, Report, Locate, SignAt, PairsUp, GridQualifies, GridHits, Unfiltered;
    GridHitsStep(u, c, k);
    if k > 1 {
      GridHitsPairUp(u, c, k - 1);
      CrossingFlipsSign(u, c, 1);
      CrossingFlipsSign(u, c, k - 1);
      if GridQualifies(u, c, k - 1) {
        LocateStaysInside(u, c, k - 1);
        ReportFields(u, c, Locate(u, c, k - 1));
        OneMoreCrossing(GridHits(u, c, k - 1), Report(u, c, Locate(u, c, k - 1)), SignAt(u, c, 0), SignAt(u, c, k - 2));
      }
    } else {
      NothingPairsUp(SignAt(u, c, 0));
    }
  }

  lemma OneMoreCrossing(hits: seq<Hit>, h: Hit, first: int, last: int)
    requires PairsUp(hits, first, last) && h.direction == -last
    requires (first == 1 || first == -1) && (last == 1 || last == -1)
    ensures PairsUp(hits + [h], first, -last)
  {
  }

  // ----- equal bags in scan order are equal lists --------------------------------------------------

  ghost predicate DistinctEpochs(hits: seq<Hit>) {
    forall i: nat, j: nat :: i < j < |hits| ==> hits[i].seconds != hits[j].seconds
  }

  lemma LastsAgree(u: Setup, xs: seq<Hit>, ys: seq<Hit>)
    requires InScanOrder(u, xs) && InScanOrder(u, ys) && DistinctEpochs(xs)
    requires |xs| == |ys| > 0 && multiset(xs) == multiset(ys)
    ensures xs[|xs| - 1] == ys[|ys| - 1]
  {
    var n := |xs| - 1;
    assert xs[n] in multiset(ys) && ys[n] in multiset(xs);
    var i: nat :| i < |ys| && ys[i] == xs[n];
    var j: nat :| j < |xs| && xs[j] == ys[n];
    assert i == n || !Later(u, ys[i], ys[n].seconds);
    assert j == n || !Later(u, xs[j], xs[n].seconds);
  }

  lemma InitKeepsOrder(u: Setup, xs: seq<Hit>)
    requires |xs| > 0
    ensures InScanOrder(u, xs) ==> InScanOrder(u, xs[..|xs| - 1])
    ensures DistinctEpochs(xs) ==> DistinctEpochs(xs[..|xs| - 1])
  {
    hide Later;
  }

  lemma {:induction false} OrderIsUnique(u: Setup, xs: seq<Hit>, ys: seq<Hit>)
    requires InScanOrder(u, xs) && InScanOrder(u, ys) && DistinctEpochs(xs)
    requires multiset(xs) == multiset(ys)
    ensures xs == ys
    decreases |xs|
  {
    hide InScanOrder, DistinctEpochs;
    assert |xs| == |multiset(xs)| == |multiset(ys)| == |ys|;
    if |xs| > 0 {
      var n := |xs| - 1;
      LastsAgree(u, xs, ys);
      InitKeepsOrder(u, xs);
      InitKeepsOrder(u, ys);
      DropLastBag(xs);
      DropLastBag(ys);
      OrderIsUnique(u, xs[..n], ys[..n]);
      assert xs == xs[..n] + [xs[n]] && ys == ys[..n] + [ys[n]];
    }
  }

  /** The TANGENTIAL flag plays no part in order, epochs or directions. */
  lemma PlainsKeep(u: Setup, hits: seq<Hit>, first: int, last: int)
    ensures InScanOrder(u, hits) ==> InScanOrder(u, Plains(hits))
    ensures DistinctEpochs(hits) ==> DistinctEpochs(Plains(hits))
    ensures PairsUp(Plains(hits), first, last) ==> PairsUp(hits, first, last)
  {
    forall i: nat | i < |hits|
      ensures Plains(hits)[i].direction == hits[i].direction && Plains(hits)[i].seconds == hits[i].seconds
    {
    }
    hide Plains;
  }

  /** A component's hits in list order are the grid's crossings in order. */
  lemma ListIsGridList(u: Setup, hits: seq<Hit>, c: nat)
    requires ValidSetup(u) && c < |u.config|
    requires HitBag(hits) == EventBag(u, GridEvents(u, u.sampleCount))
    requires InScanOrder(u, hits) && DistinctEpochs(HitsOf(hits, c))
    ensures Plains(HitsOf(hits, c)) == GridHits(u, c, u.sampleCount)
  {
    hide ValidSetup, InScanOrder, DistinctEpochs, GridEvents, Plains, Reports, GridHits, HitsOf;
    var xs, ys := Plains(hits), Reports(u, GridEvents(u, u.sampleCount));
    forall h: Hit
      ensures multiset(HitsOf(xs, c))[h] == multiset(HitsOf(ys, c))[h]
    {
      HitsOfBag(xs, c, h);
      HitsOfBag(ys, c, h);
    }
    assert multiset(HitsOf(xs, c)) == multiset(HitsOf(ys, c));
    HitsOfPlain(hits, c);
    HitsOfOrder(u, hits, c);
    PlainsKeep(u, HitsOf(hits, c), 0, 0);
    GridHitsOf(u, c, u.sampleCount);
    GridHitsOrder(u, c, u.sampleCount);
    OrderIsUnique(u, Plains(HitsOf(hits, c)), GridHits(u, c, u.sampleCount));
  }

  /** When any run ends, untruncated and below the cap, an unfiltered component that is
      nonzero at every sample and whose hits have distinct epochs pairs up: its hits in
      list order are the grid's crossings in order, their directions alternate, the first is
      opposite to the initial sign, the last is the final sign, and their number is odd
      exactly when the two signs differ. */
  lemma PairingIsTotal(u: Setup, calls: seq<Call>, capacity: nat, r: Scan, c: nat)
    requires ValidSetup(u) && NoOccurrenceFilter(u)
    requires Next(u, After(u, calls), capacity) == (Epochs(0), r) && Clean(u, r.log)
    requires c < |u.config| && Unfiltered(u, c) && NeverZero(u, c, u.sampleCount)
    requires DistinctEpochs(HitsOf(r.log.hits, c))
    ensures Plains(HitsOf(r.log.hits, c)) == GridHits(u, c, u.sampleCount)
    ensures |r.tallies| == |u.config|
    ensures PairsUp(HitsOf(r.log.hits, c), r.tallies[c].firstSign, r.tallies[c].lastSign)
  {
    hide After, InScanOrder, DistinctEpochs, HitBag, EventBag, PairsUp, NeverZero, GridHits, HitsOf, Plains;
    EverythingReportedIsReal(u, calls);
    UntruncatedIsComplete(u, calls, capacity, r);
    ListIsGridList(u, r.log.hits, c);
    GridHitsPairUp(u, c, u.sampleCount);
    PlainsKeep(u, HitsOf(r.log.hits, c), r.tallies[c].firstSign, r.tallies[c].lastSign);
  }
}
