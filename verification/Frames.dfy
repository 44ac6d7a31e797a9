/**
 Coordinate frames: the local frame of an origin on the Earth and the frame of an antenna,
 each reached by a rotation written as a product of elementary ones. An angle is its sine
 and cosine.
 */
module Frames {

  datatype Vector = Vector(x: real, y: real, z: real)

  /** A 3x3 matrix by rows. */
  datatype Matrix = Matrix(r0: Vector, r1: Vector, r2: Vector)

  datatype Angle = Angle(sin: real, cos: real)

  predicate Valid(t: Angle) { t.sin * t.sin + t.cos * t.cos == 1.0 }

  // ----- linear algebra -----

  function Dot(u: Vector, v: Vector): real { u.x * v.x + u.y * v.y + u.z * v.z }

  function Add(u: Vector, v: Vector): Vector { Vector(u.x + v.x, u.y + v.y, u.z + v.z) }

  function Sub(u: Vector, v: Vector): Vector { Vector(u.x - v.x, u.y - v.y, u.z - v.z) }

  function Scale(k: real, v: Vector): Vector { Vector(k * v.x, k * v.y, k * v.z) }

  function Transpose(m: Matrix): Matrix {
    Matrix(Vector(m.r0.x, m.r1.x, m.r2.x), Vector(m.r0.y, m.r1.y, m.r2.y), Vector(m.r0.z, m.r1.z, m.r2.z))
  }

  function Apply(m: Matrix, v: Vector): Vector { Vector(Dot(m.r0, v), Dot(m.r1, v), Dot(m.r2, v)) }

  function Product(a: Matrix, b: Matrix): Matrix {
    var t := Transpose(b);
    Matrix(Apply(t, a.r0), Apply(t, a.r1), Apply(t, a.r2))
  }

  /** Squared distance of two points. */
  function Distance2(u: Vector, v: Vector): real { Dot(Sub(u, v), Sub(u, v)) }

  /** A row combined with a matrix, then with a vector, in either order. */
  lemma RowOfProduct(row: Vector, b: Matrix, v: Vector)
    ensures Dot(Apply(Transpose(b), row), v) == Dot(row, Apply(b, v))
  {
  }

  lemma ApplyProduct(a: Matrix, b: Matrix, v: Vector)
    ensures Apply(Product(a, b), v) == Apply(a, Apply(b, v))
  {
    hide Dot;
    RowOfProduct(a.r0, b, v); RowOfProduct(a.r1, b, v); RowOfProduct(a.r2, b, v);
  }

  lemma DotSub(u: Vector, v: Vector, w: Vector)
    ensures Dot(u, Sub(v, w)) == Dot(u, v) - Dot(u, w)
    ensures Dot(u, Add(v, w)) == Dot(u, v) + Dot(u, w)
  {
  }

  lemma ApplyLinear(m: Matrix, v: Vector, w: Vector)
    ensures Apply(m, Sub(v, w)) == Sub(Apply(m, v), Apply(m, w))
    ensures Apply(m, Add(v, w)) == Add(Apply(m, v), Apply(m, w))
  {
    hide Dot;
    DotSub(m.r0, v, w); DotSub(m.r1, v, w); DotSub(m.r2, v, w);
  }

  /** Moving a matrix to the other side of a dot product transposes it. */
  lemma Adjoint(m: Matrix, u: Vector, v: Vector)
    ensures Dot(Apply(m, u), v) == Dot(u, Apply(Transpose(m), v))
  {
    RowOfProduct(u, Transpose(m), v);
    assert Transpose(Transpose(m)) == m;
  }

  lemma TransposeTwice(m: Matrix)
    ensures Transpose(Transpose(m)) == m
  {
  }

  /** The transpose undoes the matrix, on either side. */
  ghost predicate Orthogonal(m: Matrix) {
    forall v: Vector :: Apply(Transpose(m), Apply(m, v)) == v && Apply(m, Apply(Transpose(m), v)) == v
  }

  lemma TransposeOfProduct(a: Matrix, b: Matrix)
    ensures Transpose(Product(a, b)) == Product(Transpose(b), Transpose(a))
  {
  }

  /** Products of orthogonal matrices are orthogonal. */
  lemma OrthogonalProduct(a: Matrix, b: Matrix)
    requires Orthogonal(a) && Orthogonal(b)
    ensures Orthogonal(Product(a, b))
  {
    hide Apply, Product, Transpose;
    TransposeOfProduct(a, b);
    forall v: Vector
      ensures Apply(Transpose(Product(a, b)), Apply(Product(a, b), v)) == v
      ensures Apply(Product(a, b), Apply(Transpose(Product(a, b)), v)) == v
    {
      var ta, tb := Transpose(a), Transpose(b);
      ApplyProduct(a, b, v);
      ApplyProduct(tb, ta, Apply(a, Apply(b, v)));
      ApplyProduct(tb, ta, v);
      ApplyProduct(a, b, Apply(tb, Apply(ta, v)));
      assert Apply(ta, Apply(a, Apply(b, v))) == Apply(b, v);
      assert Apply(b, Apply(tb, Apply(ta, v))) == Apply(ta, v);
    }
  }

  /** An orthogonal matrix keeps dot products, hence lengths and angles. */
  lemma OrthogonalKeepsDot(m: Matrix, u: Vector, v: Vector)
    requires Orthogonal(m)
    ensures Dot(Apply(m, u), Apply(m, v)) == Dot(u, v)
  {
    hide Apply, Dot, Transpose;
    Adjoint(m, u, Apply(m, v));
  }

  // ----- the local frame of an origin -----

  const A := 6378136.0
  const B := 6356751.36

  /**
   An origin by latitude, longitude and altitude. `reduced` stands for the angle
   atan(b tan(latitude) / a); the conversions do not depend on which angle it is.
   */
  datatype Origin = Origin(phi: Angle, lambda: Angle, reduced: Angle, h: real)

  function Center(o: Origin): Vector {
    var p := A * o.reduced.cos + o.h * o.phi.cos;
    Vector(p * o.lambda.cos, p * o.lambda.sin, B * o.reduced.sin + o.h * o.phi.sin)
  }

  function C1(): Matrix { Matrix(Vector(0.0, 0.0, -1.0), Vector(0.0, 1.0, 0.0), Vector(1.0, 0.0, 0.0)) }

  function C2(phi: Angle): Matrix {
    Matrix(Vector(1.0, 0.0, 0.0), Vector(0.0, phi.cos, -phi.sin), Vector(0.0, phi.sin, phi.cos))
  }

  function C3(lambda: Angle): Matrix {
    Matrix(Vector(lambda.sin, lambda.cos, 0.0), Vector(-lambda.cos, lambda.sin, 0.0), Vector(0.0, 0.0, 1.0))
  }

  function Rotation(o: Origin): Matrix { Product(Product(C3(o.lambda), C2(o.phi)), C1()) }

  function EcefToEnu(p: Vector, o: Origin): Vector {
    var c := Transpose(Rotation(o));
    Sub(Apply(c, p), Apply(c, Center(o)))
  }

  function EnuToEcef(p: Vector, o: Origin): Vector { Add(Center(o), Apply(Rotation(o), p)) }

  predicate ValidOrigin(o: Origin) { Valid(o.phi) && Valid(o.lambda) }

  /** The two coordinates of a point (u, v) in axes turned by t, and the reverse turn. */
  function Along(t: Angle, u: real, v: real): real { t.cos * u + t.sin * v }

  function Across(t: Angle, u: real, v: real): real { t.cos * v - t.sin * u }

  function Reverse(t: Angle): Angle { Angle(-t.sin, t.cos) }

  /** Turning axes and turning them back, in either order, is the identity. */
  lemma TurnBack(t: Angle, u: real, v: real)
    requires Valid(t)
    ensures Along(Reverse(t), Along(t, u, v), Across(t, u, v)) == u
    ensures Across(Reverse(t), Along(t, u, v), Across(t, u, v)) == v
  {
    var s2, c2 := t.sin * t.sin, t.cos * t.cos;
    assert c2 * u + s2 * u == u by { assert (c2 + s2) * u == u; }
    assert c2 * v + s2 * v == v by { assert (c2 + s2) * v == v; }
  }

  lemma TurnForth(t: Angle, u: real, v: real)
    requires Valid(t)
    ensures Along(t, Along(Reverse(t), u, v), Across(Reverse(t), u, v)) == u
    ensures Across(t, Along(Reverse(t), u, v), Across(Reverse(t), u, v)) == v
  {
    assert Reverse(Reverse(t)) == t;
    TurnBack(Reverse(t), u, v);
  }

  lemma C1Orthogonal()
    ensures Orthogonal(C1())
  {
  }

  lemma C2Orthogonal(phi: Angle)
    requires Valid(phi)
    ensures Orthogonal(C2(phi))
  {
    forall v: Vector
      ensures Apply(Transpose(C2(phi)), Apply(C2(phi), v)) == v
      ensures Apply(C2(phi), Apply(Transpose(C2(phi)), v)) == v
    {
      C2UndoneAt(phi, v);
    }
  }

  lemma C2UndoneAt(phi: Angle, v: Vector)
    requires Valid(phi)
    ensures Apply(Transpose(C2(phi)), Apply(C2(phi), v)) == v
    ensures Apply(C2(phi), Apply(Transpose(C2(phi)), v)) == v
  {
    hide C2, Apply, Transpose, Along, Across, Reverse;
    C2Applied(phi, v);
    C2Applied(phi, Apply(C2(phi), v));
    C2Applied(phi, Apply(Transpose(C2(phi)), v));
    TurnBack(phi, v.y, v.z);
    TurnForth(phi, v.y, v.z);
  }

  lemma C2Applied(phi: Angle, v: Vector)
    ensures Apply(C2(phi), v) == Vector(v.x, Along(Reverse(phi), v.y, v.z), Across(Reverse(phi), v.y, v.z))
    ensures Apply(Transpose(C2(phi)), v) == Vector(v.x, Along(phi, v.y, v.z), Across(phi, v.y, v.z))
  {
  }

  lemma C3Applied(lambda: Angle, v: Vector)
    ensures var t := Angle(lambda.cos, lambda.sin);
      && Apply(C3(lambda), v) == Vector(Along(t, v.x, v.y), Across(t, v.x, v.y), v.z)
      && Apply(Transpose(C3(lambda)), v) == Vector(Along(Reverse(t), v.x, v.y), Across(Reverse(t), v.x, v.y), v.z)
  {
  }

  lemma C3Orthogonal(lambda: Angle)
    requires Valid(lambda)
    ensures Orthogonal(C3(lambda))
  {
    forall v: Vector
      ensures Apply(Transpose(C3(lambda)), Apply(C3(lambda), v)) == v
      ensures Apply(C3(lambda), Apply(Transpose(C3(lambda)), v)) == v
    {
      C3UndoneAt(lambda, v);
    }
  }

  lemma C3UndoneAt(lambda: Angle, v: Vector)
    requires Valid(lambda)
    ensures Apply(Transpose(C3(lambda)), Apply(C3(lambda), v)) == v
    ensures Apply(C3(lambda), Apply(Transpose(C3(lambda)), v)) == v
  {
    hide C3, Apply, Transpose, Along, Across, Reverse;
    C3Applied(lambda, v);
    C3Applied(lambda, Apply(C3(lambda), v));
    C3Applied(lambda, Apply(Transpose(C3(lambda)), v));
    TurnBack(Angle(lambda.cos, lambda.sin), v.x, v.y);
    TurnForth(Angle(lambda.cos, lambda.sin), v.x, v.y);
  }

  lemma RotationOrthogonal(o: Origin)
    requires ValidOrigin(o)
    ensures Orthogonal(Rotation(o))
  {
    hide Product, Orthogonal, C1, C2, C3;
    C1Orthogonal();
    C2Orthogonal(o.phi);
    C3Orthogonal(o.lambda);
    OrthogonalProduct(C3(o.lambda), C2(o.phi));
    OrthogonalProduct(Product(C3(o.lambda), C2(o.phi)), C1());
  }

  lemma AddThenSub(u: Vector, v: Vector)
    ensures Sub(Add(u, v), u) == v && Add(u, Sub(v, u)) == v
  {
  }

  /** The two conversions undo each other, for every point and origin. */
  lemma EnuMutuallyInverse(p: Vector, o: Origin)
    requires ValidOrigin(o)
    ensures EnuToEcef(EcefToEnu(p, o), o) == p
    ensures EcefToEnu(EnuToEcef(p, o), o) == p
  {
    hide Apply, Rotation, Center, Transpose, Add, Sub;
    RotationOrthogonal(o);
    var m, c := Rotation(o), Center(o);
    ApplyLinear(Transpose(m), p, c);
    AddThenSub(c, p);
    ApplyLinear(Transpose(m), Add(c, Apply(m, p)), c);
    AddThenSub(c, Apply(m, p));
  }

  lemma SubOfSubs(u: Vector, v: Vector, w: Vector)
    ensures Sub(Sub(u, w), Sub(v, w)) == Sub(u, v)
  {
  }

  /** Distances are the same in both frames. */
  lemma EnuKeepsDistance(p: Vector, q: Vector, o: Origin)
    requires ValidOrigin(o)
    ensures Distance2(EcefToEnu(p, o), EcefToEnu(q, o)) == Distance2(p, q)
    ensures Distance2(EnuToEcef(p, o), EnuToEcef(q, o)) == Distance2(p, q)
  {
    hide Apply, Rotation, Center, Transpose, Sub, Dot;
    RotationOrthogonal(o);
    var t := Transpose(Rotation(o));
    TransposeTwice(Rotation(o));
    SubOfSubs(Apply(t, p), Apply(t, q), Apply(t, Center(o)));
    ApplyLinear(t, p, q);
    assert Orthogonal(t);
    OrthogonalKeepsDot(t, Sub(p, q), Sub(p, q));
    var p', q' := EnuToEcef(p, o), EnuToEcef(q, o);
    EnuMutuallyInverse(p, o);
    EnuMutuallyInverse(q, o);
    SubOfSubs(Apply(t, p'), Apply(t, q'), Apply(t, Center(o)));
    ApplyLinear(t, p', q');
    OrthogonalKeepsDot(t, Sub(p', q'), Sub(p', q'));
  }

  // ----- the axes -----

  function North(o: Origin): Vector {
    Vector(-(o.phi.sin * o.lambda.cos), -(o.phi.sin * o.lambda.sin), o.phi.cos)
  }

  function Up(o: Origin): Vector { Vector(o.phi.cos * o.lambda.cos, o.phi.cos * o.lambda.sin, o.phi.sin) }

  function East(o: Origin): Vector { Vector(-o.lambda.sin, o.lambda.cos, 0.0) }

  /**
   What the coordinates are: components along the directions to the north, up and to the
   east at the origin, in this order.
   */
  lemma AxesAreNorthUpEast(p: Vector, o: Origin)
    ensures EcefToEnu(p, o) ==
      Vector(Dot(North(o), Sub(p, Center(o))), Dot(Up(o), Sub(p, Center(o))), Dot(East(o), Sub(p, Center(o))))
  {
    RotationColumns(o);
    hide Rotation, Center, Transpose, Sub, North, Up, East, Dot;
    ApplyLinear(Transpose(Rotation(o)), p, Center(o));
  }

  const EX := Vector(1.0, 0.0, 0.0)
  const EY := Vector(0.0, 1.0, 0.0)
  const EZ := Vector(0.0, 0.0, 1.0)

  /** The columns of a matrix are the images of the unit vectors. */
  lemma Columns(m: Matrix)
    ensures Transpose(m) == Matrix(Apply(m, EX), Apply(m, EY), Apply(m, EZ))
  {
  }

  /** The three turns on one vector, the first one only exchanging axes. */
  lemma RotationApplied(o: Origin, v: Vector)
    ensures var w := Vector(-v.z, o.phi.cos * v.y - o.phi.sin * v.x, o.phi.cos * v.x + o.phi.sin * v.y);
      Apply(Rotation(o), v) == Vector(
        o.lambda.sin * w.x + o.lambda.cos * w.y, o.lambda.sin * w.y - o.lambda.cos * w.x, w.z)
  {
    C1Applied(v);
    hide Product, Apply, C1, C2, C3;
    var u := Apply(C1(), v);
    C2Applied(o.phi, u);
    C3Applied(o.lambda, Apply(C2(o.phi), u));
    ApplyProduct(Product(C3(o.lambda), C2(o.phi)), C1(), v);
    ApplyProduct(C3(o.lambda), C2(o.phi), u);
  }

  lemma C1Applied(v: Vector)
    ensures Apply(C1(), v) == Vector(-v.z, v.y, v.x)
  {
  }

  lemma MinusProduct(a: real, b: real)
    ensures a * -b == -(b * a) && a * b == b * a
  {
  }

  lemma RotationColumns(o: Origin)
    ensures Transpose(Rotation(o)) == Matrix(North(o), Up(o), East(o))
  {
    hide Rotation, Apply, Transpose;
    Columns(Rotation(o));
    RotationApplied(o, EX);
    RotationApplied(o, EY);
    RotationApplied(o, EZ);
    MinusProduct(o.lambda.cos, o.phi.sin);
    MinusProduct(o.lambda.sin, o.phi.sin);
    MinusProduct(o.lambda.cos, o.phi.cos);
    MinusProduct(o.lambda.sin, o.phi.cos);
  }

  /** The axes are perpendicular unit vectors. */
  lemma AxesAreOrthonormal(o: Origin)
    requires ValidOrigin(o)
    ensures Dot(North(o), North(o)) == 1.0 && Dot(Up(o), Up(o)) == 1.0 && Dot(East(o), East(o)) == 1.0
    ensures Dot(North(o), Up(o)) == 0.0 && Dot(Up(o), East(o)) == 0.0 && Dot(East(o), North(o)) == 0.0
  {
    RotationOrthogonal(o);
    RotationColumns(o);
    hide Dot, Rotation, North, Up, East;
    UnitVectors(Transpose(Rotation(o)));
  }

  lemma UnitVectors(t: Matrix)
    ensures Apply(Transpose(t), EX) == t.r0 && Apply(Transpose(t), EY) == t.r1 && Apply(Transpose(t), EZ) == t.r2
  {
  }

  // ----- where the origin stands -----

  /** The reduced latitude that belongs to the latitude: a tan(reduced) == b tan(phi). */
  predicate Reduced(o: Origin) { A * (o.reduced.sin * o.phi.cos) == B * (o.reduced.cos * o.phi.sin) }

  /** The gradient of the ellipsoid x^2/a^2 + y^2/a^2 + z^2/b^2, up to a factor. */
  function Gradient(p: Vector): Vector { Vector(B * B * p.x, B * B * p.y, A * A * p.z) }

  function Cross(u: Vector, v: Vector): Vector {
    Vector(u.y * v.z - u.z * v.y, u.z * v.x - u.x * v.z, u.x * v.y - u.y * v.x)
  }

  lemma TwoSquares(k: real, t: Angle)
    requires Valid(t)
    ensures (k * t.cos) * (k * t.cos) + (k * t.sin) * (k * t.sin) == k * k
  {
    assert (k * t.cos) * (k * t.cos) == (k * k) * (t.cos * t.cos);
    assert (k * t.sin) * (k * t.sin) == (k * k) * (t.sin * t.sin);
    assert (k * k) * (t.cos * t.cos) + (k * k) * (t.sin * t.sin) == (k * k) * (t.sin * t.sin + t.cos * t.cos);
  }

  /** Without altitude the origin is on the ellipsoid. */
  lemma OriginOnEllipsoid(o: Origin)
    requires Valid(o.lambda) && Valid(o.reduced) && o.h == 0.0
    ensures Dot(Gradient(Center(o)), Center(o)) == A * A * B * B
  {
    var p, k := Center(o), A * o.reduced.cos;
    assert p == Vector(k * o.lambda.cos, k * o.lambda.sin, B * o.reduced.sin);
    TwoSquares(k, o.lambda);
    TwoSquares(A, o.reduced);
    assert p.x * p.x + p.y * p.y == k * k;
    assert p.z * p.z == B * B * (o.reduced.sin * o.reduced.sin);
  }

  /** Altitude moves the origin along the direction up, by as much. */
  lemma AltitudeGoesUp(o: Origin, h: real)
    ensures Sub(Center(o.(h := h)), Center(o)) == Scale(h - o.h, Up(o))
  {
    AlongRay(A * o.reduced.cos, o.phi.cos, o.lambda.cos, h, o.h);
    AlongRay(A * o.reduced.cos, o.phi.cos, o.lambda.sin, h, o.h);
    assert h * o.phi.sin - o.h * o.phi.sin == (h - o.h) * o.phi.sin;
  }

  lemma AlongRay(k: real, c: real, d: real, h: real, g: real)
    ensures (k + h * c) * d - (k + g * c) * d == (h - g) * (c * d)
  {
    assert (k + h * c) * d == k * d + h * (c * d) && (k + g * c) * d == k * d + g * (c * d);
  }

  /** Up is perpendicular to the ellipsoid under the origin. */
  lemma UpIsNormal(o: Origin)
    requires Reduced(o)
    ensures Cross(Gradient(Center(o.(h := 0.0))), Up(o)) == Vector(0.0, 0.0, 0.0)
  {
    var p := Center(o.(h := 0.0));
    var rs, rc, ps, pc := o.reduced.sin, o.reduced.cos, o.phi.sin, o.phi.cos;
    assert p == Vector(A * rc * o.lambda.cos, A * rc * o.lambda.sin, B * rs);
    SameDirection(rc, rs, pc, ps, o.lambda.cos);
    SameDirection(rc, rs, pc, ps, o.lambda.sin);
    Exchanged(rc, pc, o.lambda.cos, o.lambda.sin);
  }

  lemma SameDirection(rc: real, rs: real, pc: real, ps: real, d: real)
    requires A * (rs * pc) == B * (rc * ps)
    ensures B * B * (A * rc * d) * ps == A * A * (B * rs) * (pc * d)
  {
    var x, y := rs * pc, rc * ps;
    assert B * B * (A * rc * d) * ps == B * B * A * (y * d);
    assert A * A * (B * rs) * (pc * d) == A * A * B * (x * d);
    assert A * (x * d) == B * (y * d) by { assert A * (x * d) == A * x * d; assert B * (y * d) == B * y * d; }
  }

  lemma Exchanged(rc: real, pc: real, c: real, d: real)
    ensures B * B * (A * rc * c) * (pc * d) == B * B * (A * rc * d) * (pc * c)
  {
    assert (rc * c) * (pc * d) == (rc * d) * (pc * c);
  }

  // ----- the frame of an antenna -----

  function AboutUp(beta: Angle): Matrix {
    Matrix(Vector(beta.cos, 0.0, -beta.sin), Vector(0.0, 1.0, 0.0), Vector(beta.sin, 0.0, beta.cos))
  }

  function Elevating(eps: Angle): Matrix {
    Matrix(Vector(eps.cos, eps.sin, 0.0), Vector(-eps.sin, eps.cos, 0.0), Vector(0.0, 0.0, 1.0))
  }

  function Pointing(eps: Angle, beta: Angle): Matrix { Product(Elevating(eps), AboutUp(beta)) }

  function EnuToCcsa(p: Vector, eps: Angle, beta: Angle): Vector { Apply(Pointing(eps, beta), p) }

  function CcsaToEnu(p: Vector, eps: Angle, beta: Angle): Vector { Apply(Transpose(Pointing(eps, beta)), p) }

  lemma AboutUpApplied(t: Angle, v: Vector)
    ensures Apply(AboutUp(t), v) == Vector(Along(Reverse(t), v.x, v.z), v.y, Across(Reverse(t), v.x, v.z))
    ensures Apply(Transpose(AboutUp(t)), v) == Vector(Along(t, v.x, v.z), v.y, Across(t, v.x, v.z))
  {
  }

  lemma ElevatingApplied(t: Angle, v: Vector)
    ensures Apply(Elevating(t), v) == Vector(Along(t, v.x, v.y), Across(t, v.x, v.y), v.z)
    ensures Apply(Transpose(Elevating(t)), v) == Vector(Along(Reverse(t), v.x, v.y), Across(Reverse(t), v.x, v.y), v.z)
  {
  }

  lemma AboutUpOrthogonal(t: Angle)
    requires Valid(t)
    ensures Orthogonal(AboutUp(t))
  {
    forall v: Vector
      ensures Apply(Transpose(AboutUp(t)), Apply(AboutUp(t), v)) == v
      ensures Apply(AboutUp(t), Apply(Transpose(AboutUp(t)), v)) == v
    {
      AboutUpUndoneAt(t, v);
    }
  }

  lemma AboutUpUndoneAt(t: Angle, v: Vector)
    requires Valid(t)
    ensures Apply(Transpose(AboutUp(t)), Apply(AboutUp(t), v)) == v
    ensures Apply(AboutUp(t), Apply(Transpose(AboutUp(t)), v)) == v
  {
    hide AboutUp, Apply, Transpose, Along, Across, Reverse;
    AboutUpApplied(t, v);
    AboutUpApplied(t, Apply(AboutUp(t), v));
    AboutUpApplied(t, Apply(Transpose(AboutUp(t)), v));
    TurnBack(t, v.x, v.z);
    TurnForth(t, v.x, v.z);
  }

  lemma ElevatingOrthogonal(t: Angle)
    requires Valid(t)
    ensures Orthogonal(Elevating(t))
  {
    forall v: Vector
      ensures Apply(Transpose(Elevating(t)), Apply(Elevating(t), v)) == v
      ensures Apply(Elevating(t), Apply(Transpose(Elevating(t)), v)) == v
    {
      ElevatingUndoneAt(t, v);
    }
  }

  lemma ElevatingUndoneAt(t: Angle, v: Vector)
    requires Valid(t)
    ensures Apply(Transpose(Elevating(t)), Apply(Elevating(t), v)) == v
    ensures Apply(Elevating(t), Apply(Transpose(Elevating(t)), v)) == v
  {
    hide Elevating, Apply, Transpose, Along, Across, Reverse;
    ElevatingApplied(t, v);
    ElevatingApplied(t, Apply(Elevating(t), v));
    ElevatingApplied(t, Apply(Transpose(Elevating(t)), v));
    TurnBack(t, v.x, v.y);
    TurnForth(t, v.x, v.y);
  }

  lemma PointingOrthogonal(eps: Angle, beta: Angle)
    requires Valid(eps) && Valid(beta)
    ensures Orthogonal(Pointing(eps, beta))
  {
    hide Product, Orthogonal, Elevating, AboutUp;
    ElevatingOrthogonal(eps);
    AboutUpOrthogonal(beta);
    OrthogonalProduct(Elevating(eps), AboutUp(beta));
  }

  /** The two antenna conversions undo each other and keep distances, for every orientation. */
  lemma CcsaMutuallyInverse(p: Vector, q: Vector, eps: Angle, beta: Angle)
    requires Valid(eps) && Valid(beta)
    ensures CcsaToEnu(EnuToCcsa(p, eps, beta), eps, beta) == p
    ensures EnuToCcsa(CcsaToEnu(p, eps, beta), eps, beta) == p
    ensures Distance2(EnuToCcsa(p, eps, beta), EnuToCcsa(q, eps, beta)) == Distance2(p, q)
    ensures Distance2(CcsaToEnu(p, eps, beta), CcsaToEnu(q, eps, beta)) == Distance2(p, q)
  {
    hide Apply, Pointing, Transpose, Sub, Dot;
    PointingOrthogonal(eps, beta);
    var m := Pointing(eps, beta);
    TransposeTwice(m);
    assert Orthogonal(Transpose(m));
    ApplyLinear(m, p, q);
    ApplyLinear(Transpose(m), p, q);
    OrthogonalKeepsDot(m, Sub(p, q), Sub(p, q));
    OrthogonalKeepsDot(Transpose(m), Sub(p, q), Sub(p, q));
  }

  /** The direction of elevation eps and azimuth beta, counted from north towards west; by north, up and east. */
  function Boresight(eps: Angle, beta: Angle): Vector {
    Vector(eps.cos * beta.cos, eps.sin, -(eps.cos * beta.sin))
  }

  /** The antenna's first axis is where it points. */
  lemma FirstAxisIsBoresight(eps: Angle, beta: Angle, range: real)
    ensures CcsaToEnu(Vector(range, 0.0, 0.0), eps, beta) == Scale(range, Boresight(eps, beta))
  {
    hide Elevating, AboutUp, Product, Apply, Transpose;
    var v := Vector(range, 0.0, 0.0);
    TransposeOfProduct(Elevating(eps), AboutUp(beta));
    ApplyProduct(Transpose(AboutUp(beta)), Transpose(Elevating(eps)), v);
    ElevatingApplied(eps, v);
    AboutUpApplied(beta, Apply(Transpose(Elevating(eps)), v));
    Rearranged(range, eps.cos, beta.cos);
    Rearranged(range, eps.cos, beta.sin);
  }

  lemma Rearranged(r: real, a: real, b: real)
    ensures b * (a * r) == r * (a * b) && r * -(a * b) == -(r * (a * b))
  {
  }

  /** A quarter turn further up. */
  function QuarterUp(eps: Angle): Angle { Angle(eps.cos, -eps.sin) }

  /** Its second axis points a quarter turn above that, and its third completes them, first by second. */
  lemma OtherAxes(eps: Angle, beta: Angle)
    requires Valid(eps)
    ensures CcsaToEnu(EY, eps, beta) == Boresight(QuarterUp(eps), beta)
    ensures CcsaToEnu(EZ, eps, beta) == Cross(Boresight(eps, beta), Boresight(QuarterUp(eps), beta))
  {
    AxisInEnu(eps, beta, EY);
    AxisInEnu(eps, beta, EZ);
    ThirdAxis(eps, beta);
    MinusProduct(beta.cos, eps.sin);
    MinusProduct(beta.sin, eps.sin);
  }

  lemma AxisInEnu(eps: Angle, beta: Angle, v: Vector)
    ensures var w := Vector(eps.cos * v.x - eps.sin * v.y, eps.cos * v.y + eps.sin * v.x, v.z);
      CcsaToEnu(v, eps, beta) == Vector(beta.cos * w.x + beta.sin * w.z, w.y, beta.cos * w.z - beta.sin * w.x)
  {
    hide Elevating, AboutUp, Product, Apply, Transpose;
    TransposeOfProduct(Elevating(eps), AboutUp(beta));
    ApplyProduct(Transpose(AboutUp(beta)), Transpose(Elevating(eps)), v);
    ElevatingApplied(eps, v);
    AboutUpApplied(beta, Apply(Transpose(Elevating(eps)), v));
  }

  lemma ThirdAxis(eps: Angle, beta: Angle)
    requires Valid(eps)
    ensures Cross(Boresight(eps, beta), Boresight(QuarterUp(eps), beta)) == Vector(beta.sin, 0.0, beta.cos)
  {
    var s, c, bs, bc := eps.sin, eps.cos, beta.sin, beta.cos;
    var ss, cc := s * s, c * c;
    assert s * (s * bs) == ss * bs && (c * bs) * c == cc * bs && s * (s * bc) == ss * bc && (c * bc) * c == cc * bc;
    assert ss * bs + cc * bs == (ss + cc) * bs && ss * bc + cc * bc == (ss + cc) * bc;
    assert (c * bs) * (s * bc) == (c * bc) * (s * bs);
  }
}
