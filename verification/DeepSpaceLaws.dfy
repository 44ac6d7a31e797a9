/**
 What the integrated answer is, for forces whose motion is known: nothing at epoch, linear
 drift without a force, exact parabolas under a constant one, and the trapezoid rule under
 one that is linear in the longitude.
 */
module DeepSpaceLaws {
  import opened Wrappers
  import opened DeepSpace

  // ----- the elements at epoch -----

  /** Angles at epoch, their rates, and the drag term of the node. */
  datatype Elements = Elements(
    anomaly: real, node: real, perigee: real, anomalyDot: real, nodeDot: real, perigeeDot: real, nodeDrag: real)

  /** The resonant angle at epoch and its rate, as the constructor sets them for one or two revolutions a day. */
  ghost predicate Initialised(s: Satellite, e: Elements) {
    && s.resonant
    && s.xlamo == (if s.synchronous then e.anomaly + e.node + e.perigee - s.thgr
                   else e.anomaly + e.node + e.node - s.thgr - s.thgr)
    && s.xfact + s.meanMotion == (
         if s.synchronous
         then e.anomalyDot + (e.perigeeDot + e.nodeDot) - THDT + s.ssl + s.ssg + s.ssh
         else e.anomalyDot + e.nodeDot + e.nodeDot - THDT - THDT + s.ssl + s.ssh + s.ssh)
  }

  /** The record a query starts from: the angles moved to tsince by their own rates. */
  ghost predicate Moved(e: Elements, d: Secular) {
    var t := d.tsince;
    && d.xmp == e.anomaly + e.anomalyDot * t
    && d.xnode == e.node + t * (e.nodeDot + t * e.nodeDrag)
    && d.omega == e.perigee + e.perigeeDot * t
  }

  // ----- a constant force -----

  ghost predicate ConstantForce(s: Satellite, a: real) { forall l, t :: s.resonance(l, t) == (a, 0.0) }

  /** The point at time t of the parabola through the epoch. */
  function Parabola(s: Satellite, a: real, t: real): Point {
    Point(t, s.xlamo + (s.meanMotion + s.xfact) * t + 0.5 * a * (t * t), s.meanMotion + a * t,
          s.meanMotion + s.xfact + a * t, a, 0.0)
  }

  /** A step of any length along a parabola is exact. */
  lemma ParabolaStep(x: real, c: real, a: real, t: real, h: real)
    ensures x + c * t + 0.5 * a * (t * t) + h * (c + a * t + h * 0.5 * a)
      == x + c * (t + h) + 0.5 * a * ((t + h) * (t + h))
  {
    var at := a * t;
    assert h * (c + at + h * 0.5 * a) == c * h + h * at + h * (h * 0.5 * a);
    assert h * at == a * (t * h) && h * (h * 0.5 * a) == 0.5 * a * (h * h);
    assert (t + h) * (t + h) == t * t + 2.0 * (t * h) + h * h;
    var tt, th, hh := t * t, t * h, h * h;
    assert 0.5 * a * (tt + 2.0 * th + hh) == 0.5 * a * tt + a * th + 0.5 * a * hh;
  }

  lemma StepOnParabola(s: Satellite, a: real, t: real, h: real)
    requires ConstantForce(s, a)
    ensures var p, q := Parabola(s, a, t), Parabola(s, a, t + h);
      p.Longitude(h) == q.xli && p.MeanMotion(h) == q.xni && s.Advance(p, h) == q
  {
    var p, q := Parabola(s, a, t), Parabola(s, a, t + h);
    ParabolaStep(s.xlamo, s.meanMotion + s.xfact, a, t, h);
    assert h * (a + h * 0.5 * 0.0) == a * h;
    assert p.MeanMotion(h) == s.meanMotion + a * t + a * h;
    assert s.meanMotion + a * (t + h) == s.meanMotion + a * t + a * h;
  }

  lemma {:induction false} GridOnParabola(s: Satellite, a: real, k: int)
    requires s.resonant && ConstantForce(s, a)
    ensures s.Grid(k) == Parabola(s, a, At(k))
    decreases if k < 0 then -k else k
  {
    if k == 0 {
      assert Parabola(s, a, 0.0) == Point(0.0, s.xlamo, s.meanMotion, s.meanMotion + s.xfact, a, 0.0);
    } else {
      var j, h := if k > 0 then k - 1 else k + 1, if k > 0 then STEP else -STEP;
      GridOnParabola(s, a, j);
      StepOnParabola(s, a, At(j), h);
      assert At(j) + h == At(k);
    }
  }

  /** The other elements go linearly from d to r. */
  ghost predicate Drifted(s: Satellite, d: Secular, r: Secular) {
    var t := d.tsince;
    && r.tsince == t && r.omega == d.omega + s.ssg * t && r.xnode == d.xnode + s.ssh * t
    && r.ecc == d.ecc + s.sse * t && r.xinc == d.xinc + s.ssi * t
  }

  /**
   Under a constant force a, for every query that is answered and whatever the history: the mean
   anomaly is the linear drift plus half a t^2, less the drag of the node once for one revolution a
   day and twice for two; the mean motion grows by a t; the rest drifts linearly. Without a force the
   integrator is not seen at all.
   */
  lemma ConstantForceAnswer(s: Satellite, e: Elements, a: real, k: int, d: Secular)
    requires Initialised(s, e) && Moved(e, d) && ConstantForce(s, a) && !TooFar(k, d.tsince)
    ensures var t := d.tsince;
      var drag := e.nodeDrag * (t * t);
      && Answer(s, k, d).Some? && Drifted(s, d, Answer(s, k, d).value)
      && Answer(s, k, d).value.xmp
         == d.xmp + s.ssl * t + 0.5 * a * (t * t) - (if s.synchronous then drag else drag + drag)
      && Answer(s, k, d).value.xn == s.meanMotion + a * t
  {
    hide *;
    var t, j := d.tsince, Settles(k, d.tsince);
    InitialisedIsResonant(s, e);
    ParabolaAnswers(s, a, k, t);
    var xl, xn := Parabola(s, a, t).xli, Parabola(s, a, t).xni;
    ParabolaAt(s, a, t);
    AnswerFields(s, k, d, xl, xn);
    DriftIs(s, d);
    AngleOf(s, e, d, xl, 0.5 * a * (t * t));
    var m := Drift(s, d);
    assert Drifted(s, d, m.(xmp := AngleBehind(s, m, xl), xn := xn));
  }

  lemma InitialisedIsResonant(s: Satellite, e: Elements)
    requires Initialised(s, e)
    ensures s.resonant
  {
  }

  /** The point read off at t is the one of the parabola. */
  lemma ParabolaAnswers(s: Satellite, a: real, k: int, t: real)
    requires s.resonant && ConstantForce(s, a)
    ensures var p, q := s.Grid(Settles(k, t)), Parabola(s, a, t);
      p.Longitude(t - p.atime) == q.xli && p.MeanMotion(t - p.atime) == q.xni
  {
    var j := Settles(k, t);
    AtimeOnGrid(s, j);
    hide *;
    GridOnParabola(s, a, j);
    StepOnParabola(s, a, At(j), t - At(j));
    assert At(j) + (t - At(j)) == t;
  }

  /** The mean anomaly behind a resonant angle xl. */
  function AngleBehind(s: Satellite, m: Secular, xl: real): real {
    var temp0 := -m.xnode + s.thgr + m.tsince * THDT;
    if s.synchronous then xl - m.omega + temp0 else xl + temp0 + temp0
  }

  /** The answer from the longitude and the mean motion at tsince. */
  lemma AnswerFields(s: Satellite, k: int, d: Secular, xl: real, xn: real)
    requires s.resonant && !TooFar(k, d.tsince)
    requires var p := s.Grid(Settles(k, d.tsince));
      p.Longitude(d.tsince - p.atime) == xl && p.MeanMotion(d.tsince - p.atime) == xn
    ensures var m := Drift(s, d);
      Answer(s, k, d) == Some(m.(xmp := AngleBehind(s, m, xl), xn := xn))
  {
    assert Drift(s, d).tsince == d.tsince;
    hide Drift, Settles, TooFar, Satellite.Grid, Point.Longitude, Point.MeanMotion;
  }

  lemma DriftIs(s: Satellite, d: Secular)
    ensures Drifted(s, d, Drift(s, d)) && Drift(s, d).xmp == d.xmp + s.ssl * d.tsince
    ensures forall xmp, xn :: Drifted(s, d, Drift(s, d).(xmp := xmp, xn := xn))
  {
  }

  lemma ParabolaAt(s: Satellite, a: real, t: real)
    ensures Parabola(s, a, t).xli == s.xlamo + (s.meanMotion + s.xfact) * t + 0.5 * a * (t * t)
    ensures Parabola(s, a, t).xni == s.meanMotion + a * t
  {
  }

  /** The rates cancel. */
  lemma AngleOf(s: Satellite, e: Elements, d: Secular, xl: real, grown: real)
    requires Initialised(s, e) && Moved(e, d) && xl == s.xlamo + (s.meanMotion + s.xfact) * d.tsince + grown
    ensures var t := d.tsince;
      var drag := e.nodeDrag * (t * t);
      AngleBehind(s, Drift(s, d), xl) == d.xmp + s.ssl * t + grown - (if s.synchronous then drag else drag + drag)
  {
    if s.synchronous { SynchronousAngle(s, e, d, grown); } else { HalfDayAngle(s, e, d, grown); }
  }

  /** One revolution a day. */
  lemma SynchronousAngle(s: Satellite, e: Elements, d: Secular, grown: real)
    requires Initialised(s, e) && Moved(e, d) && s.synchronous
    ensures var t := d.tsince;
      AngleBehind(s, Drift(s, d), s.xlamo + (s.meanMotion + s.xfact) * t + grown)
      == d.xmp + s.ssl * t + grown - e.nodeDrag * (t * t)
  {
    var t := d.tsince;
    assert (s.meanMotion + s.xfact) * t == e.anomalyDot * t + e.perigeeDot * t + e.nodeDot * t - THDT * t
      + s.ssl * t + s.ssg * t + s.ssh * t;
    assert t * (e.nodeDot + t * e.nodeDrag) == e.nodeDot * t + e.nodeDrag * (t * t);
  }

  /** Two revolutions a day. */
  lemma HalfDayAngle(s: Satellite, e: Elements, d: Secular, grown: real)
    requires Initialised(s, e) && Moved(e, d) && !s.synchronous
    ensures var t := d.tsince;
      AngleBehind(s, Drift(s, d), s.xlamo + (s.meanMotion + s.xfact) * t + grown)
      == d.xmp + s.ssl * t + grown - (e.nodeDrag * (t * t) + e.nodeDrag * (t * t))
  {
    var t := d.tsince;
    assert (s.meanMotion + s.xfact) * t == e.anomalyDot * t + e.nodeDot * t + e.nodeDot * t - THDT * t - THDT * t
      + s.ssl * t + s.ssh * t + s.ssh * t;
    assert t * (e.nodeDot + t * e.nodeDrag) == e.nodeDot * t + e.nodeDrag * (t * t);
  }

  /** Without resonance only the linear part is left. */
  lemma DriftAnswer(s: Satellite, k: int, d: Secular)
    requires !s.resonant
    ensures Answer(s, k, d).Some? && Drifted(s, d, Answer(s, k, d).value)
    ensures Answer(s, k, d).value.xmp == d.xmp + s.ssl * d.tsince && Answer(s, k, d).value.xn == d.xn
  {
  }

  // ----- any force -----

  /** At epoch a query returns the elements of the epoch, whatever the force and the history. */
  lemma EpochAnswer(s: Satellite, e: Elements, k: int, d: Secular)
    requires Initialised(s, e) && Moved(e, d) && d.tsince == 0.0
    ensures Answer(s, k, d) == Some(d.(xn := s.meanMotion))
    ensures d.xmp == e.anomaly
  {
  }

  /** The force of a grid point is the one at its own longitude and time. */
  lemma GridForce(s: Satellite, k: int)
    requires s.resonant
    ensures s.Grid(k).xndot == s.resonance(s.Grid(k).xli, At(k)).0
    ensures s.Grid(k).xldot == s.Grid(k).xni + s.xfact
  {
    AtimeOnGrid(s, k);
    hide Point.Longitude, Point.MeanMotion;
  }

  // ----- a force linear in the longitude -----

  function Force(a: real, b: real, l: real): real { a + b * l }

  ghost predicate LinearForce(s: Satellite, a: real, b: real) {
    forall l, t :: s.resonance(l, t) == (Force(a, b, l), b)
  }

  /** x moved at rate v for h minutes. */
  function Ahead(x: real, v: real, h: real): real { x + h * v }

  /** The integral over h minutes of what goes evenly from v to w. */
  function Trapezoid(h: real, v: real, w: real): real { h * (v + w) / 2.0 }

  /**
   From any grid point and over any time: the longitude moves by the trapezoid of its rates at both
   ends, and the mean motion by the trapezoid of the forces met at both ends.
   */
  lemma TrapezoidRule(s: Satellite, a: real, b: real, k: int, h: real)
    requires s.resonant && LinearForce(s, a, b)
    ensures var p := s.Grid(k);
      var rate, force := p.xni + s.xfact, Force(a, b, p.xli);
      && p.Longitude(h) == p.xli + Trapezoid(h, rate, Ahead(rate, force, h))
      && p.MeanMotion(h) == p.xni + Trapezoid(h, force, Force(a, b, Ahead(p.xli, rate, h)))
  {
    hide *;
    var p := s.Grid(k);
    LinearPoint(s, a, b, k);
    LongitudeMoves(p, h);
    MeanMotionMoves(p, h);
    ForceAhead(a, b, p.xli, p.xldot, p.xnddt, h);
  }

  lemma LongitudeMoves(p: Point, h: real)
    ensures p.Longitude(h) == p.xli + Trapezoid(h, p.xldot, Ahead(p.xldot, p.xndot, h))
  {
    TrapezoidOfRate(h, p.xldot, p.xndot);
  }

  lemma MeanMotionMoves(p: Point, h: real)
    ensures p.MeanMotion(h) == p.xni + Trapezoid(h, p.xndot, Ahead(p.xndot, p.xnddt, h))
  {
    TrapezoidOfRate(h, p.xndot, p.xnddt);
  }

  lemma TrapezoidOfRate(h: real, v: real, w: real)
    ensures Trapezoid(h, v, Ahead(v, w, h)) == h * (v + h * 0.5 * w)
  {
    var u := h * w;
    assert h * 0.5 * w == 0.5 * u;
  }

  lemma ForceAhead(a: real, b: real, x: real, v: real, w: real, h: real)
    requires w == b * v
    ensures Ahead(Force(a, b, x), w, h) == Force(a, b, Ahead(x, v, h))
  {
    assert b * (x + h * v) == b * x + b * (h * v) && b * (h * v) == h * (b * v);
  }

  lemma LinearPoint(s: Satellite, a: real, b: real, k: int)
    requires s.resonant && LinearForce(s, a, b)
    ensures var p := s.Grid(k);
      p.xldot == p.xni + s.xfact && p.xndot == Force(a, b, p.xli) && p.xnddt == b * p.xldot
  {
    hide Point.Longitude, Point.MeanMotion, Force;
  }
}
