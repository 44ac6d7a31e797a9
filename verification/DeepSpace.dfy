/**
 The deep-space secular step of SDP4: a numerical integrator whose last point is cached
 between position queries. Times are minutes from epoch; arithmetic is over the reals.
 */
module DeepSpace {
  import opened Wrappers

  const STEP := 720.0
  const MAX_INTEGRATE := STEP * 10000.0
  const THDT := 4.37526908801129966e-3

  /** The acceleration sums: xndot and xnddt before scaling, from the longitude and the time. */
  type Resonance = (real, real) -> (real, real)

  /** An integrator point with its dot terms. */
  datatype Point = Point(atime: real, xli: real, xni: real, xldot: real, xndot: real, xnddt: real)
  {
    /** Longitude and mean motion `ft` minutes on, by the second-order expansion. */
    function Longitude(ft: real): real { xli + ft * (xldot + ft * 0.5 * xndot) }

    function MeanMotion(ft: real): real { xni + ft * (xndot + ft * 0.5 * xnddt) }
  }

  /** What the constructor fixes for one satellite. */
  datatype Satellite = Satellite(
    resonant: bool, synchronous: bool, resonance: Resonance,
    xfact: real, xlamo: real, meanMotion: real, thgr: real,
    ssl: real, ssg: real, ssh: real, sse: real, ssi: real)
  {
    /** The point with the dot terms of its own state. */
    function Dotted(atime: real, xli: real, xni: real): Point {
      var (xndot, curvature) := resonance(xli, atime);
      var xldot := xni + xfact;
      Point(atime, xli, xni, xldot, xndot, curvature * xldot)
    }

    function Epoch(): Point {
      if resonant then Dotted(0.0, xlamo, meanMotion) else Point(0.0, 0.0, 0.0, 0.0, 0.0, 0.0)
    }

    /** One Taylor step of the integrator over `delt` minutes. */
    function Advance(p: Point, delt: real): Point {
      Dotted(p.atime + delt, p.Longitude(delt), p.MeanMotion(delt))
    }

    /** The trajectory integrated from epoch: k steps of one sign, never any other way. */
    function Grid(k: int): Point
      decreases if k < 0 then -k else k
    {
      if k == 0 then Epoch()
      else if k > 0 then Advance(Grid(k - 1), STEP)
      else Advance(Grid(k + 1), -STEP)
    }
  }

  /** The fields of the computation record that this step reads or writes. */
  datatype Secular = Secular(
    tsince: real, xmp: real, omega: real, xnode: real, ecc: real, xinc: real, xn: real)

  function Abs(x: real): real { if x < 0.0 then -x else x }

  /** Truncation toward zero of t in grid steps. */
  function Trunc(t: real): int {
    if t >= 0.0 then (t / STEP).Floor else -((-t / STEP).Floor)
  }

  function At(k: int): real { (k as real) * STEP }

  // ----- what the step must return -----

  /** The linear part, applied to every satellite. */
  function Drift(s: Satellite, d: Secular): Secular {
    d.(xmp := d.xmp + s.ssl * d.tsince, omega := d.omega + s.ssg * d.tsince,
       xnode := d.xnode + s.ssh * d.tsince, ecc := d.ecc + s.sse * d.tsince,
       xinc := d.xinc + s.ssi * d.tsince)
  }

  /** The result read off a grid point by one short Taylor step to tsince. */
  function ReadOff(s: Satellite, p: Point, d: Secular): Secular {
    var ft := d.tsince - p.atime;
    var xl := p.Longitude(ft);
    var temp0 := -d.xnode + s.thgr + d.tsince * THDT;
    d.(xn := p.MeanMotion(ft),
       xmp := if s.synchronous then xl - d.omega + temp0 else xl + temp0 + temp0)
  }

  /** The cache is dropped: tsince is near epoch, or behind the cached point by over a minute. */
  predicate Restarts(k: int, t: real) {
    Abs(t) < STEP || (k > 0 && t < At(k) - 1.0) || (k < 0 && t > At(k) + 1.0)
  }

  function Base(k: int, t: real): int { if Restarts(k, t) then 0 else k }

  /** Too far from where integration would start. */
  predicate TooFar(k: int, t: real) { Abs(t - At(Base(k, t))) > MAX_INTEGRATE }

  /** The grid index a query at t is answered from, given cached index k. */
  function Settles(k: int, t: real): int {
    if Abs(t - At(Base(k, t))) < STEP then Base(k, t) else Trunc(t)
  }

  /** The cached grid index after one query. */
  function After(k: int, t: real): int {
    if TooFar(k, t) then Base(k, t) else Settles(k, t)
  }

  /** The answer to a query when the cache holds grid point k. */
  function Answer(s: Satellite, k: int, d: Secular): Option<Secular> {
    if !s.resonant then Some(Drift(s, d))
    else if TooFar(k, d.tsince) then None
    else Some(ReadOff(s, s.Grid(Settles(k, d.tsince)), Drift(s, d)))
  }

  /** Truncation is where an outward walk from epoch comes within one step of t. */
  lemma TruncIs(k: int, t: real)
    requires Abs(t - At(k)) < STEP && (if k == 0 then true else if k > 0 then t >= At(k) else t <= At(k))
    ensures Trunc(t) == k
  {
    if t >= 0.0 {
      assert k as real <= t / STEP < k as real + 1.0;
    } else {
      assert (-k) as real <= -t / STEP < (-k) as real + 1.0;
    }
  }

  /** When integration is needed it goes away from epoch. */
  lemma StartsOutward(k: int, t: real)
    requires Abs(t - At(Base(k, t))) >= STEP
    ensures t >= At(Base(k, t)) ==> Base(k, t) >= 0 && t - At(Base(k, t)) >= STEP
    ensures t < At(Base(k, t)) ==> Base(k, t) <= 0
  {
  }

  lemma {:induction false} AtimeOnGrid(s: Satellite, k: int)
    requires s.resonant
    ensures s.Grid(k).atime == At(k)
    decreases if k < 0 then -k else k
  {
    if k > 0 { AtimeOnGrid(s, k - 1); } else if k < 0 { AtimeOnGrid(s, k + 1); }
  }

  function Outward(k: int, steps: int, forward: bool): int {
    if forward then k + steps else k - steps
  }

  lemma GridAdvances(s: Satellite, k: int, forward: bool)
    requires s.resonant && (if forward then k >= 0 else k <= 0)
    ensures var k' := Outward(k, 1, forward);
      s.Grid(k') == s.Advance(s.Grid(k), if forward then STEP else -STEP) && s.Grid(k').atime == At(k')
  {
    AtimeOnGrid(s, Outward(k, 1, forward));
  }

  /** A walk more than one step short of t has not reached its truncation. */
  lemma StillBehind(k: int, t: real)
    ensures k >= 0 && t - At(k) >= STEP ==> k < Trunc(t)
    ensures k <= 0 && t - At(k) <= -STEP ==> Trunc(t) < k
  {
    if k >= 0 && t - At(k) >= STEP { assert t / STEP >= (k + 1) as real; }
    if k <= 0 && t - At(k) <= -STEP { assert -t / STEP >= (1 - k) as real; }
  }

  lemma StepsBounded(k: int, t: real)
    requires STEP <= Abs(t - At(k)) <= MAX_INTEGRATE && (if t >= At(k) then k >= 0 else k <= 0)
    ensures if t >= At(k) then k < Trunc(t) <= k + 10000 else k - 10000 <= Trunc(t) < k
  {
    StillBehind(k, t);
    if t >= At(k) { assert t / STEP <= (k + 10000) as real; } else { assert -t / STEP <= (10000 - k) as real; }
  }

  // ----- the class -----

  class Integrator {
    const s: Satellite
    var cache: Point
    var warned: bool
    // Which grid point the cache holds.
    ghost var k: int

    ghost predicate Valid()
      reads this
    {
      cache == s.Grid(k) && (!s.resonant ==> k == 0)
    }

    constructor (s: Satellite)
      ensures Valid() && this.s == s && k == 0 && !warned
    {
      this.s := s;
      cache := s.Epoch();
      warned := false;
      k := 0;
    }

    /**
     Answers from one grid point and leaves the cache there; None when the integration span
     is exceeded, and the cache is then where integration would have started.
     */
    method Secular(d0: Secular) returns (r: Option<Secular>)
      requires Valid()
      modifies this
      ensures Valid() && warned == (old(warned) || r.None?)
      ensures r == Answer(s, old(k), d0)
      ensures k == if s.resonant then After(old(k), d0.tsince) else old(k)
    {
      var d := Drift(s, d0);
      if !s.resonant { return Some(d); }
      AtimeOnGrid(s, k);
      if Abs(d.tsince) < STEP || (cache.atime > 0.0 && d.tsince < cache.atime - 1.0) ||
         (cache.atime < 0.0 && d.tsince > cache.atime + 1.0)
      {
        cache := s.Epoch();
        k := 0;
      }
      var ft := d.tsince - cache.atime;
      if Abs(ft) > MAX_INTEGRATE {
        warned := true;
        return None;
      }
      if Abs(ft) >= STEP {
        StartsOutward(old(k), d.tsince);
        Integrate(d.tsince);
        ft := d.tsince - cache.atime;
      }
      r := Some(ReadOff(s, cache, d));
    }

    /** One pass of the loop body. */
    method AdvanceOnce(delt: real)
      requires Valid() && s.resonant && (delt == STEP || delt == -STEP)
      requires if delt == STEP then k >= 0 else k <= 0
      modifies this`cache, this`k
      ensures Valid() && k == Outward(old(k), 1, delt == STEP) && cache.atime == At(k)
    {
      GridAdvances(s, k, delt == STEP);
      cache := s.Advance(cache, delt);
      k := Outward(k, 1, delt == STEP);
    }

    /** The do-while loop: at most 10000 steps, none of them back toward epoch. */
    method Integrate(t: real)
      requires Valid() && s.resonant
      requires STEP <= Abs(t - At(k)) <= MAX_INTEGRATE
      requires if t >= At(k) then k >= 0 else k <= 0
      modifies this`cache, this`k
      ensures Valid() && k == Trunc(t) && Abs(t - At(k)) < STEP
      ensures -10000 <= k - old(k) <= 10000
    {
      AtimeOnGrid(s, k);
      var delt := if t >= cache.atime then STEP else -STEP;
      StepsBounded(k, t);
      while true
        invariant Valid() && cache.atime == At(k)
        invariant if delt == STEP then old(k) <= k < Trunc(t) else Trunc(t) < k <= old(k)
        invariant if delt == STEP then k >= 0 && t - At(k) >= STEP else k <= 0 && t - At(k) <= -STEP
        decreases if delt == STEP then Trunc(t) - k else k - Trunc(t)
      {
        AdvanceOnce(delt);
        if !(Abs(t - cache.atime) >= STEP) { break; }
        StillBehind(k, t);
      }
      TruncIs(k, t);
    }
  }
}
