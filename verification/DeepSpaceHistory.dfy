/**
 How far a position query depends on the queries made before it.
 */
module DeepSpaceHistory {
  import opened Wrappers
  import opened DeepSpace

  /** The cached grid index after a sequence of queries on a new satellite. */
  function AfterAll(ts: seq<real>): int {
    if ts == [] then 0 else After(AfterAll(ts[..|ts|-1]), ts[|ts|-1])
  }

  /** A whole run of queries on one satellite object. */
  method Queries(s: Satellite, ds: seq<Secular>) returns (rs: seq<Option<Secular>>)
    ensures |rs| == |ds|
    ensures forall i :: 0 <= i < |ds| ==> rs[i] == Answer(s, AfterAll(Times(ds[..i])), ds[i])
  {
    hide Answer, After;
    var o := new Integrator(s);
    rs := [];
    for i := 0 to |ds|
      invariant o.Valid() && o.s == s && fresh(o)
      invariant |rs| == i && (s.resonant ==> o.k == AfterAll(Times(ds[..i])))
      invariant forall j :: 0 <= j < i ==> rs[j] == Answer(s, AfterAll(Times(ds[..j])), ds[j])
    {
      NoCacheNoHistory(s, o.k, AfterAll(Times(ds[..i])), ds[i]);
      var r := o.Secular(ds[i]);
      rs := rs + [r];
      assert ds[..i+1][..i] == ds[..i];
      assert Times(ds[..i+1])[..i] == Times(ds[..i]);
    }
  }

  lemma NoCacheNoHistory(s: Satellite, k: int, k': int, d: Secular)
    ensures !s.resonant ==> Answer(s, k, d) == Answer(s, k', d)
  {
  }

  function Times(ds: seq<Secular>): (ts: seq<real>)
    ensures |ts| == |ds|
  {
    seq(|ds|, i requires 0 <= i < |ds| => ds[i].tsince)
  }

  /** tsince is behind the cached point, away from epoch, by no more than a minute. */
  predicate JustBehind(k: int, t: real) {
    Abs(t) >= STEP && ((k > 0 && At(k) - 1.0 <= t < At(k)) || (k < 0 && At(k) < t <= At(k) + 1.0))
  }

  /**
   A successful query is answered from trunc(tsince/720), except exactly when the cached
   point is ahead by at most a minute: then from that point, one further from epoch.
   */
  lemma AnsweredFromTrunc(k: int, t: real)
    requires !TooFar(k, t)
    ensures Settles(k, t) == Trunc(t) <==> !JustBehind(k, t)
    ensures JustBehind(k, t) ==> Settles(k, t) == k && k == Trunc(t) + (if k > 0 then 1 else -1)
    ensures Abs(t - At(Settles(k, t))) < STEP
  {
    var b := Base(k, t);
    if JustBehind(k, t) {
      if k > 0 { TruncIs(k - 1, t); } else { TruncIs(k + 1, t); }
    } else if Abs(t - At(b)) < STEP {
      TruncIs(b, t);
    } else {
      StartsOutward(k, t);
      TruncReaches(t);
    }
  }

  lemma TruncReaches(t: real)
    ensures Abs(t - At(Trunc(t))) < STEP
  {
    if t >= 0.0 {
      var q := (t / STEP).Floor;
      assert q as real <= t / STEP < q as real + 1.0;
    } else {
      var q := (-t / STEP).Floor;
      assert q as real <= -t / STEP < q as real + 1.0;
    }
  }

  /** From epoch a query fails exactly beyond the span; a warm cache moves that limit. */
  lemma SpanFromCache(k: int, t: real)
    ensures TooFar(0, t) <==> Abs(t) > MAX_INTEGRATE
    ensures Restarts(k, t) ==> (TooFar(k, t) <==> TooFar(0, t))
    ensures !Restarts(k, t) ==> (TooFar(k, t) <==> Abs(t - At(k)) > MAX_INTEGRATE)
    ensures TooFar(k, t) ==> TooFar(0, t)
  {
  }

  /** Beyond the span from epoch, and within the span from a cached point that is kept. */
  predicate WithinCacheOnly(k: int, t: real) {
    Abs(t) > MAX_INTEGRATE && !Restarts(k, t) && Abs(t - At(k)) <= MAX_INTEGRATE
  }

  /**
   The cache is transparent: after any queries, an answer is the one a new satellite would
   give, exactly unless tsince is in the span of the cache only (where a new satellite gives no
   answer at all), or just behind the cached point.
   */
  lemma SameIndexAsFresh(ts: seq<real>, t: real)
    ensures var k := AfterAll(ts);
      (TooFar(k, t) <==> TooFar(0, t)) && (!TooFar(k, t) ==> Settles(k, t) == Settles(0, t))
      <==> !WithinCacheOnly(k, t) && !JustBehind(k, t)
  {
    var k := AfterAll(ts);
    SpanFromCache(k, t);
    if !TooFar(k, t) { AnsweredFromTrunc(k, t); }
    if !TooFar(0, t) { AnsweredFromTrunc(0, t); }
  }

  lemma CacheIsTransparent(s: Satellite, ts: seq<real>, d: Secular)
    requires !JustBehind(AfterAll(ts), d.tsince) && Abs(d.tsince) <= MAX_INTEGRATE
    ensures Answer(s, AfterAll(ts), d) == Answer(s, 0, d)
  {
    SameIndexAsFresh(ts, d.tsince);
  }

  /** Two histories of one satellite agree wherever both answer and neither is just behind. */
  lemma HistoriesAgree(s: Satellite, ts: seq<real>, us: seq<real>, d: Secular)
    requires !JustBehind(AfterAll(ts), d.tsince) && !JustBehind(AfterAll(us), d.tsince)
    requires Answer(s, AfterAll(ts), d).Some? && Answer(s, AfterAll(us), d).Some?
    ensures Answer(s, AfterAll(ts), d) == Answer(s, AfterAll(us), d)
  {
    if s.resonant {
      AnsweredFromTrunc(AfterAll(ts), d.tsince);
      AnsweredFromTrunc(AfterAll(us), d.tsince);
    }
  }

  // ----- a satellite that shows the tolerance -----

  function Ramp(xli: real, atime: real): (real, real) { (atime, 0.0) }

  function Visible(): Satellite {
    Satellite(true, true, Ramp, 0.0, 0.0, 0.0, 0.0, 0.0, 0.0, 0.0, 0.0, 0.0)
  }

  lemma VisibleDotted(atime: real, xli: real, xni: real)
    ensures Visible().Dotted(atime, xli, xni) == Point(atime, xli, xni, xni, atime, 0.0)
  {
  }

  lemma VisibleAdvance(a: real, x: real, n: real)
    ensures Visible().Advance(Point(a, x, n, n, a, 0.0), STEP) ==
      Point(a + 720.0, x + 720.0 * (n + 360.0 * a), n + 720.0 * a, n + 720.0 * a, a + 720.0, 0.0)
  {
    var p := Point(a, x, n, n, a, 0.0);
    assert p.Longitude(STEP) == x + 720.0 * (n + 360.0 * a);
    assert p.MeanMotion(STEP) == n + 720.0 * a;
    VisibleDotted(a + 720.0, x + 720.0 * (n + 360.0 * a), n + 720.0 * a);
  }

  /** One grid step, from known numbers to known numbers. */
  lemma VisibleNext(k: nat, a: real, x: real, n: real)
    requires Visible().Grid(k) == Point(a, x, n, n, a, 0.0)
    ensures Visible().Grid(k + 1) ==
      Point(a + 720.0, x + 720.0 * (n + 360.0 * a), n + 720.0 * a, n + 720.0 * a, a + 720.0, 0.0)
  {
    GridAdvances(Visible(), k, true);
    VisibleAdvance(a, x, n);
  }

  lemma VisibleEpoch()
    ensures Visible().Grid(0) == Point(0.0, 0.0, 0.0, 0.0, 0.0, 0.0)
  {
  }

  lemma VisibleGrid()
    ensures Visible().Grid(1) == Point(720.0, 0.0, 0.0, 0.0, 720.0, 0.0)
    ensures Visible().Grid(2) == Point(1440.0, 186624000.0, 518400.0, 518400.0, 1440.0, 0.0)
  {
    hide Satellite.Grid, Satellite.Advance, Satellite.Dotted;
    VisibleEpoch();
    VisibleNext(0, 0.0, 0.0, 0.0);
    VisibleNext(1, 720.0, 0.0, 0.0);
  }

  lemma AnswerXn(s: Satellite, k: int, d: Secular, p: Point)
    requires s.resonant && !TooFar(k, d.tsince) && s.Grid(Settles(k, d.tsince)) == p
    ensures Answer(s, k, d).Some? && Answer(s, k, d).value.xn == p.MeanMotion(d.tsince - p.atime)
  {
    hide Point.MeanMotion, Point.Longitude, Settles, TooFar;
  }

  lemma VisibleIndices()
    ensures AfterAll([]) == 0 && AfterAll([1440.0]) == 2
    ensures !TooFar(2, 1439.5) && Settles(2, 1439.5) == 2
    ensures !TooFar(0, 1439.5) && Settles(0, 1439.5) == 1
  {
    assert [1440.0][..0] == [];
    TruncIs(2, 1440.0);
    TruncIs(1, 1439.5);
  }

  /**
   The one-minute tolerance is visible: after a query at 1440 minutes, the mean motion at
   1439.5 minutes is not the one a new satellite reports.
   */
  lemma CacheIsVisible(d: Secular)
    requires d.tsince == 1439.5
    ensures Answer(Visible(), AfterAll([1440.0]), d) != Answer(Visible(), AfterAll([]), d)
  {
    hide Answer, AfterAll, Settles, TooFar, Satellite.Grid;
    VisibleIndices();
    VisibleGrid();
    var p2, p1 := Point(1440.0, 186624000.0, 518400.0, 518400.0, 1440.0, 0.0), Point(720.0, 0.0, 0.0, 0.0, 720.0, 0.0);
    AnswerXn(Visible(), 2, d, p2);
    AnswerXn(Visible(), 0, d, p1);
    assert p2.MeanMotion(1439.5 - 1440.0) == 517680.0 && p1.MeanMotion(1439.5 - 720.0) == 518040.0;
  }
}
