/** What an event cap can hide: a scan that reports one of two events and does not say that
    it was truncated. */
module EventCap {
  import opened Options
  import opened EventTypes
  import opened EventScan
  import opened EventGrid
  import opened EventAccounting
  import opened EventRuns

  /** A step function that is 1 at the first and third sample and -1 at the second. */
  function Blip(jdDay: real, seconds: real, c: nat): real {
    if 0.5 < seconds < 1.5 then -1.0 else 1.0
  }

  /** Two crossings in one batch, and a cap of one event. */
  function CappedSetup(): Setup {
    Setup(Blip, [ComponentConfig(0, 0, Discrete, false)],
          EventInterval(0.0, 0.0, 0.0, 2.0, 1, 0, 0, None, 0),
          RootPolicy(1.0, 0.001, 0.0, 50, RootMethod.Brent), 0.001, false, 2.0, 1.0, 3)
  }

  lemma CappedValues()
    ensures var u := CappedSetup();
      && ValidSetup(u) && NoOccurrenceFilter(u)
      && SampleTime(u, 0) == 0.0 && SampleTime(u, 1) == 1.0 && SampleTime(u, 2) == 2.0
      && G(u, 0)(0.0) == 1.0 && G(u, 0)(1.0) == -1.0 && G(u, 0)(2.0) == 1.0
  {
    var u := CappedSetup();
    assert u.eval(0.0, 0.0 + 0.0, 0) == Blip(0.0, 0.0, 0);
    assert u.eval(0.0, 0.0 + 1.0, 0) == Blip(0.0, 1.0, 0);
    assert u.eval(0.0, 0.0 + 2.0, 0) == Blip(0.0, 2.0, 0);
  }

  lemma TwoGridEvents()
    ensures |GridEvents(CappedSetup(), 3)| == 2
  {
    hide G, CappedSetup, SampleTime, Locate;
    var u := CappedSetup();
    CappedValues();
    assert |u.config| == 1 && Scanned(u, 0) && u.config[0] == ComponentConfig(0, 0, Discrete, false)
           && u.interval.direction == 0 by { CappedShape(); }
    assert GridQualifies(u, 0, 1) && GridQualifies(u, 0, 2) && !GridQualifies(u, 0, 0);
    assert |SampleEvents(u, 0, 1)| == 0 && |SampleEvents(u, 1, 1)| == 1 && |SampleEvents(u, 2, 1)| == 1;
    assert |GridEvents(u, 1)| == 0 && |GridEvents(u, 2)| == 1;
  }

  lemma CappedShape()
    ensures var u := CappedSetup();
      && u.config == [ComponentConfig(0, 0, Discrete, false)]
      && u.interval == EventInterval(0.0, 0.0, 0.0, 2.0, 1, 0, 0, None, 0)
      && u.sampleCount == 3 && u.span == 2.0
  {
  }

  /** The first sample shows no crossing; the second records the only hit and ends the scan. */
  lemma CappedScan(s: Scan)
    requires s == Fresh(CappedSetup())
    ensures Fits(CappedSetup(), s) && Signed(s)
    ensures var r := ScanBatch(CappedSetup(), s, [0.0, 1.0, 2.0]);
      && r.log.phase == Done && |r.log.hits| == 1 && !r.log.truncated
      && r.pending == [] && r.outstanding == [] && r.evaluations == 2
  {
    hide G, CappedSetup, Report;
    var u := CappedSetup();
    CappedValues();
    CappedShape();
    assert Scanned(u, 0);
    var s1 := ScanSample(u, s, 0.0);
    assert s1 == ScanComponent(u, s.(evaluations := 1), 0, 0.0).(prevT := 0.0, havePrevious := true) by {
      assert ScanComponents(u, s.(evaluations := 1), 0, 0.0) == s.(evaluations := 1);
    }
    assert s1.tallies[0].prevG == 1.0 && s1.tallies[0].prevSign == 1 && s1.log == s.log && s1.pending == [];
    var s2 := ScanSample(u, s1, 1.0);
    assert s2 == ScanComponent(u, s1.(evaluations := 2), 0, 1.0).(prevT := 1.0, havePrevious := true) by {
      assert ScanComponents(u, s1.(evaluations := 2), 0, 1.0) == s1.(evaluations := 2);
    }
    assert s2.log.phase == Done && |s2.log.hits| == 1;
    assert [0.0, 1.0, 2.0][1..] == [1.0, 2.0] && [1.0, 2.0][1..] == [2.0];
    assert ScanBatch(u, s1, [1.0, 2.0]) == s2;
  }

  /** One event is missing from the list, and the runner does not say so. */
  lemma CapCanHideAnEvent()
    ensures exists u: Setup, calls: seq<Call>, capacity: nat ::
      && ValidSetup(u) && NoOccurrenceFilter(u)
      && Next(u, After(u, calls), capacity).0 == Epochs(0)
      && !Next(u, After(u, calls), capacity).1.log.truncated
      && |Next(u, After(u, calls), capacity).1.log.hits| < |GridEvents(u, u.sampleCount)|
  {
    hide G, CappedSetup, ScanBatch, GridEvents, NoOccurrenceFilter, ValidSetup;
    var u := CappedSetup();
    CappedValues();
    CappedShape();
    TwoGridEvents();
    var s := Fresh(u);
    AfterCall(u, [], Ask(3));
    AfterCall(u, [Ask(3)], Answer);
    assert [] + [Ask(3)] == [Ask(3)] && [Ask(3)] + [Answer] == [Ask(3), Answer];
    var asked := After(u, [Ask(3)]);
    assert asked == s.(outstanding := Batch(u, 0, 3));
    assert asked.outstanding == [0.0, 1.0, 2.0];
    CappedScan(s);
    var answered := After(u, [Ask(3), Answer]);
    assert answered == ScanBatch(u, s, [0.0, 1.0, 2.0]).(nextSample := 3) by {
      assert asked.(outstanding := []) == s;
      assert Signed(asked);
    }
    assert Next(u, answered, 1).0 == Epochs(0);
    assert !Next(u, answered, 1).1.log.truncated;
  }
}
