/**
 The 4x4 matrix kernel of gles2gears over the reals: column-major, in place, with an inverse that
 takes a shortcut.
 */
module Gears {

  // ---- vectors ----

  datatype V3 = V3(x: real, y: real, z: real)

  function Add(a: V3, b: V3): V3 { V3(a.x + b.x, a.y + b.y, a.z + b.z) }

  function Scale(k: real, a: V3): V3 { V3(k * a.x, k * a.y, k * a.z) }

  function Dot(a: V3, b: V3): real { a.x * b.x + a.y * b.y + a.z * b.z }

  function Cross(a: V3, b: V3): V3 {
    V3(a.y * b.z - a.z * b.y, a.z * b.x - a.x * b.z, a.x * b.y - a.y * b.x)
  }

  const E0 := V3(1.0, 0.0, 0.0)
  const E1 := V3(0.0, 1.0, 0.0)
  const E2 := V3(0.0, 0.0, 1.0)
  const ZERO := V3(0.0, 0.0, 0.0)

  lemma DotSymmetric(a: V3, b: V3)
    ensures Dot(a, b) == Dot(b, a)
  {
  }

  lemma DotAdd(a: V3, b: V3, c: V3)
    ensures Dot(Add(a, b), c) == Dot(a, c) + Dot(b, c)
  {
  }

  lemma DotScale(k: real, a: V3, b: V3)
    ensures Dot(Scale(k, a), b) == k * Dot(a, b)
  {
  }

  /** i*u + j*v + k*w */
  function Comb(u: V3, v: V3, w: V3, i: real, j: real, k: real): V3 {
    Add(Scale(i, u), Add(Scale(j, v), Scale(k, w)))
  }

  lemma DotComb(u: V3, v: V3, w: V3, i: real, j: real, k: real, b: V3)
    ensures Dot(Comb(u, v, w, i, j, k), b) == i * Dot(u, b) + j * Dot(v, b) + k * Dot(w, b)
  {
    DotAdd(Scale(i, u), Add(Scale(j, v), Scale(k, w)), b);
    DotAdd(Scale(j, v), Scale(k, w), b);
    DotScale(i, u, b);
    DotScale(j, v, b);
    DotScale(k, w, b);
  }

  // ---- affine matrices ----

  /** The three columns of the linear part and the translation column. */
  datatype Pose = Pose(c0: V3, c1: V3, c2: V3, t: V3)

  const IDENTITY := Pose(E0, E1, E2, ZERO)

  /** The linear part applied to a vector. */
  function Lin(p: Pose, a: V3): V3 {
    Comb(p.c0, p.c1, p.c2, a.x, a.y, a.z)
  }

  function Row0(p: Pose): V3 { V3(p.c0.x, p.c1.x, p.c2.x) }
  function Row1(p: Pose): V3 { V3(p.c0.y, p.c1.y, p.c2.y) }
  function Row2(p: Pose): V3 { V3(p.c0.z, p.c1.z, p.c2.z) }

  /** The transposed linear part, without translation. */
  function Flip(p: Pose): Pose {
    Pose(Row0(p), Row1(p), Row2(p), ZERO)
  }

  /** p after q, as matrices: p * q. */
  function Compose(p: Pose, q: Pose): Pose {
    Pose(Lin(p, q.c0), Lin(p, q.c1), Lin(p, q.c2), Add(Lin(p, q.t), p.t))
  }

  predicate Orthonormal(u: V3, v: V3, w: V3) {
    && Dot(u, u) == 1.0 && Dot(v, v) == 1.0 && Dot(w, w) == 1.0
    && Dot(u, v) == 0.0 && Dot(u, w) == 0.0 && Dot(v, w) == 0.0
  }

  predicate ColumnsOrthonormal(p: Pose) { Orthonormal(p.c0, p.c1, p.c2) }

  predicate RowsOrthonormal(p: Pose) { Orthonormal(Row0(p), Row1(p), Row2(p)) }

  /** The linear part is orthogonal, read by columns and by rows. */
  predicate Rigid(p: Pose) { ColumnsOrthonormal(p) && RowsOrthonormal(p) }

  lemma LinByRows(p: Pose, a: V3)
    ensures Lin(p, a) == V3(Dot(Row0(p), a), Dot(Row1(p), a), Dot(Row2(p), a))
  {
  }

  lemma LinByDots(p: Pose, a: V3)
    ensures Lin(p, a) == V3(Dot(a, Row0(p)), Dot(a, Row1(p)), Dot(a, Row2(p)))
  {
    LinByRows(p, a);
    DotSymmetric(a, Row0(p));
    DotSymmetric(a, Row1(p));
    DotSymmetric(a, Row2(p));
  }

  lemma OrthonormalCoordinates(u: V3, v: V3, w: V3, n: V3)
    requires Orthonormal(u, v, w)
    ensures Dot(Comb(u, v, w, n.x, n.y, n.z), u) == n.x
    ensures Dot(Comb(u, v, w, n.x, n.y, n.z), v) == n.y
    ensures Dot(Comb(u, v, w, n.x, n.y, n.z), w) == n.z
  {
    DotComb(u, v, w, n.x, n.y, n.z, u);
    DotComb(u, v, w, n.x, n.y, n.z, v);
    DotComb(u, v, w, n.x, n.y, n.z, w);
    DotSymmetric(u, v);
    DotSymmetric(u, w);
    DotSymmetric(v, w);
  }

  /** An orthonormal frame preserves dot products. */
  lemma LinPreservesDot(p: Pose, a: V3, b: V3)
    requires ColumnsOrthonormal(p)
    ensures Dot(Lin(p, a), Lin(p, b)) == Dot(a, b)
  {
    var m := Lin(p, b);
    OrthonormalCoordinates(p.c0, p.c1, p.c2, b);
    DotSymmetric(p.c0, m);
    DotSymmetric(p.c1, m);
    DotSymmetric(p.c2, m);
    DotCombIs(p.c0, p.c1, p.c2, a, m, b);
  }

  lemma DotCombIs(u: V3, v: V3, w: V3, a: V3, m: V3, b: V3)
    requires Dot(u, m) == b.x && Dot(v, m) == b.y && Dot(w, m) == b.z
    ensures Dot(Comb(u, v, w, a.x, a.y, a.z), m) == Dot(a, b)
  {
    DotComb(u, v, w, a.x, a.y, a.z, m);
    WeightedSum(a, Dot(u, m), Dot(v, m), Dot(w, m), b);
  }

  lemma WeightedSum(a: V3, x: real, y: real, z: real, b: V3)
    requires x == b.x && y == b.y && z == b.z
    ensures a.x * x + a.y * y + a.z * z == Dot(a, b)
  {
  }

  /** A row of a product is the row of the first factor taken through the transposed second. */
  lemma RowOfProduct(q: Pose, r: V3)
    ensures Lin(Flip(q), r) == V3(Dot(r, q.c0), Dot(r, q.c1), Dot(r, q.c2))
  {
    LinByRows(Flip(q), r);
    DotSymmetric(r, q.c0);
    DotSymmetric(r, q.c1);
    DotSymmetric(r, q.c2);
  }

  lemma RowsOfCompose(p: Pose, q: Pose)
    ensures Row0(Compose(p, q)) == Lin(Flip(q), Row0(p))
    ensures Row1(Compose(p, q)) == Lin(Flip(q), Row1(p))
    ensures Row2(Compose(p, q)) == Lin(Flip(q), Row2(p))
  {
    RowOfProduct(q, Row0(p));
    RowOfProduct(q, Row1(p));
    RowOfProduct(q, Row2(p));
    LinByRows(p, q.c0);
    LinByRows(p, q.c1);
    LinByRows(p, q.c2);
  }

  lemma ComposeRigid(p: Pose, q: Pose)
    requires Rigid(p) && Rigid(q)
    ensures Rigid(Compose(p, q))
  {
    LinPreservesDot(p, q.c0, q.c0);
    LinPreservesDot(p, q.c1, q.c1);
    LinPreservesDot(p, q.c2, q.c2);
    LinPreservesDot(p, q.c0, q.c1);
    LinPreservesDot(p, q.c0, q.c2);
    LinPreservesDot(p, q.c1, q.c2);
    var f := Flip(q);
    RowsOfCompose(p, q);
    LinPreservesDot(f, Row0(p), Row0(p));
    LinPreservesDot(f, Row1(p), Row1(p));
    LinPreservesDot(f, Row2(p), Row2(p));
    LinPreservesDot(f, Row0(p), Row1(p));
    LinPreservesDot(f, Row0(p), Row2(p));
    LinPreservesDot(f, Row1(p), Row2(p));
  }

  // ---- rotation ----

  /** c*p + s*(a x p) + (1-c)*(a.p)*a: p turned about the axis a. */
  function Turned(a: V3, s: real, c: real, p: V3): V3 {
    Comb(p, Cross(a, p), a, c, s, (1.0 - c) * Dot(a, p))
  }

  lemma CrossFacts(a: V3, p: V3, q: V3)
    ensures Dot(a, Cross(a, p)) == 0.0
    ensures Dot(p, Cross(a, q)) == -Dot(Cross(a, p), q)
  {
  }

  /** a x (a x q) == (a.q) a - (a.a) q */
  lemma CrossTwice(a: V3, q: V3)
    ensures Cross(a, Cross(a, q)) == Add(Scale(Dot(a, q), a), Scale(-Dot(a, a), q))
  {
    var k, m := Dot(a, q), Dot(a, a);
    CrossTwiceCoordinate(a.x, a.y, a.z, q.x, q.y, q.z, k, m);
    CrossTwiceCoordinate(a.y, a.z, a.x, q.y, q.z, q.x, k, m);
    CrossTwiceCoordinate(a.z, a.x, a.y, q.z, q.x, q.y, k, m);
  }

  lemma CrossTwiceCoordinate(x: real, y: real, z: real, u: real, v: real, w: real, k: real, m: real)
    requires k == x * u + y * v + z * w && m == x * x + y * y + z * z
    ensures y * (x * v - y * u) - z * (z * u - x * w) == k * x + -m * u
  {
    assert k * x == x * u * x + y * v * x + z * w * x;
    assert m * u == x * x * u + y * y * u + z * z * u;
  }

  lemma Lagrange(a: V3, p: V3, q: V3)
    ensures Dot(Cross(a, p), Cross(a, q)) == Dot(a, a) * Dot(p, q) - Dot(a, p) * Dot(a, q)
  {
    var m, n := Scale(Dot(a, q), a), Scale(-Dot(a, a), q);
    CrossFacts(a, p, Cross(a, q));
    CrossTwice(a, q);
    DotSymmetric(p, Add(m, n));
    DotAdd(m, n, p);
    DotScale(Dot(a, q), a, p);
    DotScale(-Dot(a, a), q, p);
    DotSymmetric(q, p);
  }

  /** Turning about a unit axis preserves dot products. */
  lemma TurnedPreservesDot(a: V3, s: real, c: real, p: V3, q: V3)
    requires Dot(a, a) == 1.0 && s * s + c * c == 1.0
    ensures Dot(Turned(a, s, c, p), Turned(a, s, c, q)) == Dot(p, q)
  {
    var d, e, g, h := Dot(a, p), Dot(a, q), Dot(p, q), Dot(Cross(a, p), q);
    var tq := Turned(a, s, c, q);
    var u, v, w := Dot(p, tq), Dot(Cross(a, p), tq), Dot(a, tq);
    DotTurnedLeft(a, s, c, p, tq, d, u, v, w);
    TurnedDots(a, s, c, p, q, d, e, g, h);
    TurnedExpansion(s, c, d, e, g, h, u, v, w);
  }

  lemma DotTurnedLeft(a: V3, s: real, c: real, p: V3, b: V3, d: real, u: real, v: real, w: real)
    requires u == Dot(p, b) && v == Dot(Cross(a, p), b) && w == Dot(a, b) && d == Dot(a, p)
    ensures Dot(Turned(a, s, c, p), b) == c * u + s * v + (1.0 - c) * d * w
  {
    DotComb(p, Cross(a, p), a, c, s, (1.0 - c) * Dot(a, p), b);
  }

  lemma TurnedDots(a: V3, s: real, c: real, p: V3, q: V3, d: real, e: real, g: real, h: real)
    requires Dot(a, a) == 1.0
    requires d == Dot(a, p) && e == Dot(a, q) && g == Dot(p, q) && h == Dot(Cross(a, p), q)
    ensures Dot(p, Turned(a, s, c, q)) == c * g - s * h + (1.0 - c) * e * d
    ensures Dot(Cross(a, p), Turned(a, s, c, q)) == c * h + s * (g - d * e)
    ensures Dot(a, Turned(a, s, c, q)) == c * e + (1.0 - c) * e
  {
    TurnedDotFirst(a, s, c, p, q, d, e, g, h);
    TurnedDotCross(a, s, c, p, q, d, e, g, h);
    TurnedDotAxis(a, s, c, q, e);
  }

  lemma TurnedDotFirst(a: V3, s: real, c: real, p: V3, q: V3, d: real, e: real, g: real, h: real)
    requires d == Dot(a, p) && e == Dot(a, q) && g == Dot(p, q) && h == Dot(Cross(a, p), q)
    ensures Dot(p, Turned(a, s, c, q)) == c * g - s * h + (1.0 - c) * e * d
  {
    CrossFacts(a, p, q);
    DotSymmetric(p, a);
    DotTurned(a, s, c, q, p, g, -h, d, e);
    assert s * -h == -(s * h);
  }

  lemma TurnedDotCross(a: V3, s: real, c: real, p: V3, q: V3, d: real, e: real, g: real, h: real)
    requires Dot(a, a) == 1.0
    requires d == Dot(a, p) && e == Dot(a, q) && g == Dot(p, q) && h == Dot(Cross(a, p), q)
    ensures Dot(Cross(a, p), Turned(a, s, c, q)) == c * h + s * (g - d * e)
  {
    var x := Cross(a, p);
    CrossFacts(a, p, q);
    DotSymmetric(x, a);
    UnitLagrange(a, p, q, d, e, g);
    DotTurned(a, s, c, q, x, h, g - d * e, 0.0, e);
  }

  lemma UnitLagrange(a: V3, p: V3, q: V3, d: real, e: real, g: real)
    requires Dot(a, a) == 1.0 && d == Dot(a, p) && e == Dot(a, q) && g == Dot(p, q)
    ensures Dot(Cross(a, p), Cross(a, q)) == g - d * e
  {
    Lagrange(a, p, q);
    UnitTimes(Dot(a, a), g);
  }

  lemma TurnedDotAxis(a: V3, s: real, c: real, q: V3, e: real)
    requires Dot(a, a) == 1.0 && e == Dot(a, q)
    ensures Dot(a, Turned(a, s, c, q)) == c * e + (1.0 - c) * e
  {
    CrossFacts(a, q, q);
    DotTurned(a, s, c, q, a, e, 0.0, 1.0, e);
  }

  lemma UnitTimes(m: real, g: real)
    requires m == 1.0
    ensures m * g == g
  {
  }

  lemma DotTurned(a: V3, s: real, c: real, q: V3, b: V3, g: real, h: real, d: real, e: real)
    requires Dot(b, q) == g && Dot(b, Cross(a, q)) == h && Dot(b, a) == d && Dot(a, q) == e
    ensures Dot(b, Turned(a, s, c, q)) == c * g + s * h + (1.0 - c) * e * d
  {
    DotComb(q, Cross(a, q), a, c, s, (1.0 - c) * e, b);
    DotSymmetric(b, Turned(a, s, c, q));
    DotSymmetric(b, q);
    DotSymmetric(b, Cross(a, q));
    DotSymmetric(b, a);
  }

  lemma TurnedExpansion(s: real, c: real, d: real, e: real, g: real, h: real, u: real, v: real, w: real)
    requires s * s + c * c == 1.0
    requires u == c * g - s * h + (1.0 - c) * e * d
    requires v == c * h + s * (g - d * e)
    requires w == c * e + (1.0 - c) * e
    ensures c * u + s * v + (1.0 - c) * d * w == g
  {
    var f := d * e;
    assert w == e;
    assert c * u == c * c * g - c * (s * h) + c * (1.0 - c) * f;
    assert s * v == c * (s * h) + s * s * g - s * s * f;
    assert (1.0 - c) * d * w == (1.0 - c) * f;
    assert c * c * g + s * s * g == (s * s + c * c) * g;
    assert c * (1.0 - c) * f + (1.0 - c) * f - s * s * f == (1.0 - c * c - s * s) * f;
  }

  /** The matrix rotate() builds. */
  function Rotation(x: real, y: real, z: real, s: real, c: real): Pose {
    Pose(
      V3(x * x * (1.0 - c) + c, y * x * (1.0 - c) + z * s, x * z * (1.0 - c) - y * s),
      V3(x * y * (1.0 - c) - z * s, y * y * (1.0 - c) + c, y * z * (1.0 - c) + x * s),
      V3(x * z * (1.0 - c) + y * s, y * z * (1.0 - c) - x * s, z * z * (1.0 - c) + c),
      ZERO)
  }

  /** About each axis the turn takes the next axis towards the one after it. */
  lemma RotationOnAxes(s: real, c: real)
    ensures Rotation(1.0, 0.0, 0.0, s, c) == Pose(E0, V3(0.0, c, s), V3(0.0, -s, c), ZERO)
    ensures Rotation(0.0, 1.0, 0.0, s, c) == Pose(V3(c, 0.0, -s), E1, V3(s, 0.0, c), ZERO)
    ensures Rotation(0.0, 0.0, 1.0, s, c) == Pose(V3(c, s, 0.0), V3(-s, c, 0.0), E2, ZERO)
  {
  }

  lemma RotationColumn0(a: V3, s: real, c: real)
    ensures Rotation(a.x, a.y, a.z, s, c).c0 == Turned(a, s, c, E0)
  {
    Entries(s, c, a.z, a.x, a.y);
    Entries(s, c, a.y, a.x, a.z);
    TurnedAxis(a, s, c, E0, V3(0.0, a.z, -a.y), a.x, Rotation(a.x, a.y, a.z, s, c).c0);
  }

  lemma RotationColumn1(a: V3, s: real, c: real)
    ensures Rotation(a.x, a.y, a.z, s, c).c1 == Turned(a, s, c, E1)
  {
    Entries(s, c, a.z, a.y, a.x);
    Entries(s, c, a.x, a.y, a.z);
    TurnedAxis(a, s, c, E1, V3(-a.z, 0.0, a.x), a.y, Rotation(a.x, a.y, a.z, s, c).c1);
  }

  lemma RotationColumn2(a: V3, s: real, c: real)
    ensures Rotation(a.x, a.y, a.z, s, c).c2 == Turned(a, s, c, E2)
  {
    Entries(s, c, a.y, a.z, a.x);
    Entries(s, c, a.x, a.z, a.y);
    TurnedAxis(a, s, c, E2, V3(a.y, -a.x, 0.0), a.z, Rotation(a.x, a.y, a.z, s, c).c2);
  }

  lemma Entries(s: real, c: real, w: real, k: real, b: real)
    ensures c * 1.0 + s * 0.0 + k * k * (1.0 - c) == k * k * (1.0 - c) + c
    ensures c * 0.0 + s * w + k * b * (1.0 - c) == k * b * (1.0 - c) + w * s == b * k * (1.0 - c) + w * s
    ensures c * 0.0 + s * -w + k * b * (1.0 - c) == k * b * (1.0 - c) - w * s == b * k * (1.0 - c) - w * s
  {
  }

  lemma TurnedAxis(a: V3, s: real, c: real, e: V3, x: V3, k: real, r: V3)
    requires Cross(a, e) == x && Dot(a, e) == k
    requires r.x == c * e.x + s * x.x + k * a.x * (1.0 - c)
    requires r.y == c * e.y + s * x.y + k * a.y * (1.0 - c)
    requires r.z == c * e.z + s * x.z + k * a.z * (1.0 - c)
    ensures r == Turned(a, s, c, e)
  {
    Reorder(k, a.x, 1.0 - c);
    Reorder(k, a.y, 1.0 - c);
    Reorder(k, a.z, 1.0 - c);
  }

  lemma Reorder(u: real, v: real, w: real)
    ensures w * u * v == u * v * w
  {
  }

  /** Its rows are the columns of the opposite rotation. */
  lemma RotationRows(a: V3, s: real, c: real)
    ensures Flip(Rotation(a.x, a.y, a.z, s, c)) == Rotation(a.x, a.y, a.z, -s, c)
  {
  }

  lemma RotationColumnsOrthonormal(a: V3, s: real, c: real)
    requires Dot(a, a) == 1.0 && s * s + c * c == 1.0
    ensures ColumnsOrthonormal(Rotation(a.x, a.y, a.z, s, c))
  {
    RotationColumn0(a, s, c);
    RotationColumn1(a, s, c);
    RotationColumn2(a, s, c);
    TurnedPreservesDot(a, s, c, E0, E0);
    TurnedPreservesDot(a, s, c, E1, E1);
    TurnedPreservesDot(a, s, c, E2, E2);
    TurnedPreservesDot(a, s, c, E0, E1);
    TurnedPreservesDot(a, s, c, E0, E2);
    TurnedPreservesDot(a, s, c, E1, E2);
  }

  lemma RotationRigid(a: V3, s: real, c: real)
    requires Dot(a, a) == 1.0 && s * s + c * c == 1.0
    ensures Rigid(Rotation(a.x, a.y, a.z, s, c))
  {
    RotationColumnsOrthonormal(a, s, c);
    RotationRows(a, s, c);
    assert (-s) * (-s) == s * s;
    RotationColumnsOrthonormal(a, -s, c);
  }

  // ---- inverse ----

  lemma RowsUndoFlip(p: Pose, n: V3)
    requires RowsOrthonormal(p)
    ensures Lin(p, Lin(Flip(p), n)) == n
  {
    var a, b, c := Row0(p), Row1(p), Row2(p);
    var m := Lin(Flip(p), n);
    LinByRows(p, m);
    OrthonormalCoordinates(a, b, c, n);
    DotSymmetric(a, m);
    DotSymmetric(b, m);
    DotSymmetric(c, m);
  }

  lemma LinOpposite(p: Pose, a: V3)
    ensures Add(Lin(p, a), Lin(p, Scale(-1.0, a))) == ZERO
  {
  }

  lemma LinOfFlip(p: Pose, a: V3)
    ensures Lin(Flip(p), a) == V3(Dot(p.c0, a), Dot(p.c1, a), Dot(p.c2, a))
  {
    LinByRows(Flip(p), a);
  }

  // ---- every reachable matrix ----

  datatype Op = Translate(d: V3) | Rotate(axis: V3, s: real, c: real)

  predicate Legal(op: Op) {
    op.Rotate? ==> Dot(op.axis, op.axis) == 1.0 && op.s * op.s + op.c * op.c == 1.0
  }

  function OpMatrix(op: Op): Pose {
    match op
    case Translate(d) => Pose(E0, E1, E2, d)
    case Rotate(axis, s, c) => Rotation(axis.x, axis.y, axis.z, s, c)
  }

  /** The matrix after identity() and a sequence of translate() and rotate() calls. */
  function Reached(ops: seq<Op>): Pose {
    if ops == [] then IDENTITY else Compose(Reached(ops[..|ops| - 1]), OpMatrix(ops[|ops| - 1]))
  }

  lemma OpRigid(op: Op) returns (m: Pose)
    requires Legal(op)
    ensures m == OpMatrix(op) && Rigid(m)
  {
    match op
    case Translate(d) =>
      m := Pose(E0, E1, E2, d);
      TranslationRigid(d);
    case Rotate(axis, s, c) =>
      m := Rotation(axis.x, axis.y, axis.z, s, c);
      RotationRigid(axis, s, c);
  }

  lemma TranslationRigid(d: V3)
    ensures Rigid(Pose(E0, E1, E2, d))
  {
    UnitFrame();
    TranslationRows(d);
    FrameRigid(Pose(E0, E1, E2, d), E0, E1, E2);
  }

  lemma UnitFrame()
    ensures Orthonormal(E0, E1, E2)
  {
    assert E0.x * E0.x == 1.0 && E1.y * E1.y == 1.0 && E2.z * E2.z == 1.0;
  }

  lemma TranslationRows(d: V3)
    ensures Row0(Pose(E0, E1, E2, d)) == E0 && Row1(Pose(E0, E1, E2, d)) == E1 && Row2(Pose(E0, E1, E2, d)) == E2
  {
  }

  lemma FrameRigid(p: Pose, u: V3, v: V3, w: V3)
    requires p.c0 == u && p.c1 == v && p.c2 == w && Orthonormal(u, v, w)
    requires Row0(p) == u && Row1(p) == v && Row2(p) == w
    ensures Rigid(p)
  {
  }

  lemma {:induction false} ReachedRigid(ops: seq<Op>)
    requires forall op :: op in ops ==> Legal(op)
    ensures Rigid(Reached(ops))
    decreases |ops|
  {
    if ops == [] {
      TranslationRigid(ZERO);
    } else {
      var op := ops[|ops| - 1];
      ReachedRigid(ops[..|ops| - 1]);
      var m := OpRigid(op);
      ComposeRigid(Reached(ops[..|ops| - 1]), m);
    }
  }

  // ---- sixteen numbers, column by column ----

  /** The first k terms of entry i of m * n. */
  function PartialEntry(m: seq<real>, n: seq<real>, i: nat, k: nat): real
    requires |m| == 16 && |n| == 16 && i < 16 && k <= 4
  {
    if k == 0 then 0.0 else PartialEntry(m, n, i, k - 1) + n[i / 4 * 4 + (k - 1)] * m[i % 4 + (k - 1) * 4]
  }

  function Product(m: seq<real>, n: seq<real>): (r: seq<real>)
    requires |m| == 16 && |n| == 16
    ensures |r| == 16
  {
    seq(16, i requires 0 <= i < 16 => PartialEntry(m, n, i, 4))
  }

  function Flat(p: Pose): (r: seq<real>)
    ensures |r| == 16
  {
    [p.c0.x, p.c0.y, p.c0.z, 0.0, p.c1.x, p.c1.y, p.c1.z, 0.0, p.c2.x, p.c2.y, p.c2.z, 0.0, p.t.x, p.t.y, p.t.z, 1.0]
  }

  /** The last row is 0 0 0 1. */
  predicate Affine(m: seq<real>) {
    |m| == 16 && m[3] == 0.0 && m[7] == 0.0 && m[11] == 0.0 && m[15] == 1.0
  }

  function PoseOf(m: seq<real>): Pose
    requires |m| == 16
  {
    Pose(V3(m[0], m[1], m[2]), V3(m[4], m[5], m[6]), V3(m[8], m[9], m[10]), V3(m[12], m[13], m[14]))
  }

  /** Affine arrays are exactly the flattened poses. */
  lemma AffineIsFlat(m: seq<real>)
    requires |m| == 16
    ensures Affine(m) <==> m == Flat(PoseOf(m))
  {
  }

  lemma FourTerms(m: seq<real>, n: seq<real>, j: nat, r: nat, a: V3, w: real, b: V3, v: real)
    requires |m| == 16 && |n| == 16 && j < 4 && r < 4
    requires n[4 * j] == a.x && n[4 * j + 1] == a.y && n[4 * j + 2] == a.z && n[4 * j + 3] == w
    requires m[r] == b.x && m[r + 4] == b.y && m[r + 8] == b.z && m[r + 12] == v
    ensures Product(m, n)[4 * j + r] == Dot(a, b) + w * v
  {
    var i := 4 * j + r;
    assert i / 4 == j && i % 4 == r;
    assert PartialEntry(m, n, i, 1) == a.x * b.x;
    assert PartialEntry(m, n, i, 2) == a.x * b.x + a.y * b.y;
    assert PartialEntry(m, n, i, 3) == a.x * b.x + a.y * b.y + a.z * b.z;
  }

  /** multiply(), entry by entry: row r of m times column j of n. */
  lemma ProductEntry(m: seq<real>, n: seq<real>, j: nat, r: nat)
    requires |m| == 16 && |n| == 16 && j < 4 && r < 4
    ensures Product(m, n)[4 * j + r]
         == m[r] * n[4 * j] + m[r + 4] * n[4 * j + 1] + m[r + 8] * n[4 * j + 2] + m[r + 12] * n[4 * j + 3]
  {
    var a, b := V3(n[4 * j], n[4 * j + 1], n[4 * j + 2]), V3(m[r], m[r + 4], m[r + 8]);
    FourTerms(m, n, j, r, a, n[4 * j + 3], b, m[r + 12]);
  }

  /** Column j of a product with an affine first factor, when the column's four numbers are a and w. */
  lemma ProductColumn(m: seq<real>, n: seq<real>, j: nat, a: V3, w: real, b: V3, c: V3, d: V3, t: V3)
    requires |m| == 16 && |n| == 16 && j < 4
    requires n[4 * j] == a.x && n[4 * j + 1] == a.y && n[4 * j + 2] == a.z && n[4 * j + 3] == w
    requires m[0] == b.x && m[4] == b.y && m[8] == b.z && m[12] == t.x
    requires m[1] == c.x && m[5] == c.y && m[9] == c.z && m[13] == t.y
    requires m[2] == d.x && m[6] == d.y && m[10] == d.z && m[14] == t.z
    requires m[3] == 0.0 && m[7] == 0.0 && m[11] == 0.0 && m[15] == 1.0
    ensures Product(m, n)[4 * j] == Dot(a, b) + w * t.x
    ensures Product(m, n)[4 * j + 1] == Dot(a, c) + w * t.y
    ensures Product(m, n)[4 * j + 2] == Dot(a, d) + w * t.z
    ensures Product(m, n)[4 * j + 3] == w
  {
    FourTerms(m, n, j, 0, a, w, b, t.x);
    FourTerms(m, n, j, 1, a, w, c, t.y);
    FourTerms(m, n, j, 2, a, w, d, t.z);
    FourTerms(m, n, j, 3, a, w, ZERO, 1.0);
    assert Dot(a, ZERO) == 0.0;
  }

  lemma ProductOfFlat(p: Pose, q: Pose)
    ensures Product(Flat(p), Flat(q)) == Flat(Compose(p, q))
  {
    var m, n := Flat(p), Flat(q);
    ProductColumn(m, n, 0, q.c0, 0.0, Row0(p), Row1(p), Row2(p), p.t);
    ProductColumn(m, n, 1, q.c1, 0.0, Row0(p), Row1(p), Row2(p), p.t);
    ProductColumn(m, n, 2, q.c2, 0.0, Row0(p), Row1(p), Row2(p), p.t);
    ProductColumn(m, n, 3, q.t, 1.0, Row0(p), Row1(p), Row2(p), p.t);
    LinByDots(p, q.c0);
    LinByDots(p, q.c1);
    LinByDots(p, q.c2);
    LinByDots(p, q.t);
    FlatOfColumns(Product(m, n), Lin(p, q.c0), Lin(p, q.c1), Lin(p, q.c2), Add(Lin(p, q.t), p.t));
  }

  lemma FlatOfColumns(r: seq<real>, a: V3, b: V3, c: V3, t: V3)
    requires |r| == 16
    requires r[0] == a.x && r[1] == a.y && r[2] == a.z && r[3] == 0.0
    requires r[4] == b.x && r[5] == b.y && r[6] == b.z && r[7] == 0.0
    requires r[8] == c.x && r[9] == c.y && r[10] == c.z && r[11] == 0.0
    requires r[12] == t.x && r[13] == t.y && r[14] == t.z && r[15] == 1.0
    ensures r == Flat(Pose(a, b, c, t))
  {
  }

  function Transposed(m: seq<real>): (r: seq<real>)
    requires |m| == 16
    ensures |r| == 16
  {
    [m[0], m[4], m[8], m[12],
     m[1], m[5], m[9], m[13],
     m[2], m[6], m[10], m[14],
     m[3], m[7], m[11], m[15]]
  }

  lemma TransposedTwice(m: seq<real>)
    requires |m| == 16
    ensures Transposed(Transposed(m)) == m
    ensures forall col, row :: 0 <= col < 4 && 0 <= row < 4 ==> Transposed(m)[4 * col + row] == m[4 * row + col]
  {
    assert forall i :: 0 <= i < 16 ==> Transposed(Transposed(m))[i] == m[i];
  }

  function Untranslated(m: seq<real>): (r: seq<real>)
    requires |m| == 16
    ensures |r| == 16
  {
    m[12 := 0.0][13 := 0.0][14 := 0.0]
  }

  function Translation(x: real, y: real, z: real): Pose {
    Pose(E0, E1, E2, V3(x, y, z))
  }

  /** What invert() leaves behind, for any sixteen numbers. */
  function Inverted(m: seq<real>): (r: seq<real>)
    requires |m| == 16
    ensures |r| == 16
  {
    Product(Transposed(Untranslated(m)), Flat(Translation(-m[12], -m[13], -m[14])))
  }

  lemma InvertedIs(was: seq<real>, a: seq<real>, b: seq<real>, r: seq<real>)
    requires |was| == 16 && a == Transposed(Untranslated(was)) && b == Flat(Translation(-was[12], -was[13], -was[14]))
    requires r == Product(a, b)
    ensures r == Inverted(was)
  {
  }

  // ---- invert() on any sixteen numbers ----

  /** The last row, but for its last number. */
  function Bottom(m: seq<real>): V3
    requires |m| == 16
  {
    V3(m[3], m[7], m[11])
  }

  /** The matrix with this upper part and last row. */
  predicate IsMatrix(m: seq<real>, p: Pose, b: V3, w: real) {
    |m| == 16 && PoseOf(m) == p && Bottom(m) == b && m[15] == w
  }

  /** p's linear part applied to a, and v times its translation. */
  function Applied(p: Pose, a: V3, v: real): V3 {
    Add(Lin(p, a), Scale(v, p.t))
  }

  function Column(m: seq<real>, j: nat): V3
    requires |m| == 16 && j < 4
  {
    V3(m[4 * j], m[4 * j + 1], m[4 * j + 2])
  }

  /** Entry r of column j of a product, when coordinate r of what the factor applied to the column gives is x. */
  lemma UpperEntry(m: seq<real>, n: seq<real>, j: nat, r: nat, a: V3, v: real, row: V3, t: real, l: real, x: real)
    requires |m| == 16 && |n| == 16 && j < 4 && r < 3 && Column(n, j) == a && n[4 * j + 3] == v
    requires m[r] == row.x && m[r + 4] == row.y && m[r + 8] == row.z && m[r + 12] == t
    requires l == Dot(row, a) && x == l + v * t
    ensures Product(m, n)[4 * j + r] == x
  {
    FourTerms(m, n, j, r, a, v, row, t);
    DotSymmetric(row, a);
  }

  lemma AppliedIs(p: Pose, a: V3, v: real)
    ensures Applied(p, a, v).x == Lin(p, a).x + v * p.t.x
    ensures Applied(p, a, v).y == Lin(p, a).y + v * p.t.y
    ensures Applied(p, a, v).z == Lin(p, a).z + v * p.t.z
  {
  }

  lemma UpperColumn(m: seq<real>, n: seq<real>, j: nat, p: Pose, l: V3, c: V3, a: V3, v: real)
    requires |m| == 16 && PoseOf(m) == p && |n| == 16 && j < 4 && Column(n, j) == a && n[4 * j + 3] == v
    requires l == V3(Dot(Row0(p), a), Dot(Row1(p), a), Dot(Row2(p), a))
    requires c.x == l.x + v * p.t.x && c.y == l.y + v * p.t.y && c.z == l.z + v * p.t.z
    ensures Column(Product(m, n), j) == c
  {
    UpperEntry(m, n, j, 0, a, v, Row0(p), p.t.x, l.x, c.x);
    UpperEntry(m, n, j, 1, a, v, Row1(p), p.t.y, l.y, c.y);
    UpperEntry(m, n, j, 2, a, v, Row2(p), p.t.z, l.z, c.z);
    ColumnIs(Product(m, n), j, c);
  }

  lemma MatrixColumn(m: seq<real>, n: seq<real>, j: nat, p: Pose, a: V3, v: real)
    requires |m| == 16 && PoseOf(m) == p && |n| == 16 && j < 4 && Column(n, j) == a && n[4 * j + 3] == v
    ensures Column(Product(m, n), j) == Applied(p, a, v)
  {
    LinByRows(p, a);
    AppliedIs(p, a, v);
    UpperColumn(m, n, j, p, Lin(p, a), Applied(p, a, v), a, v);
  }

  lemma LastEntry(m: seq<real>, n: seq<real>, j: nat, b: V3, w: real, a: V3, v: real)
    requires |m| == 16 && Bottom(m) == b && m[15] == w && |n| == 16 && j < 4 && Column(n, j) == a && n[4 * j + 3] == v
    ensures Product(m, n)[4 * j + 3] == Dot(a, b) + v * w
  {
    FourTerms(m, n, j, 3, a, v, b, w);
  }

  lemma ColumnIs(r: seq<real>, j: nat, c: V3)
    requires |r| == 16 && j < 4 && r[4 * j] == c.x && r[4 * j + 1] == c.y && r[4 * j + 2] == c.z
    ensures Column(r, j) == c
  {
  }

  lemma ByColumns(m: seq<real>)
    requires |m| == 16
    ensures PoseOf(m) == Pose(Column(m, 0), Column(m, 1), Column(m, 2), Column(m, 3))
  {
  }

  lemma UpperProduct(m: seq<real>, n: seq<real>, p: Pose, q: Pose, e: V3, v: real)
    requires |m| == 16 && PoseOf(m) == p && IsMatrix(n, q, e, v)
    ensures PoseOf(Product(m, n)) ==
      Pose(Applied(p, q.c0, e.x), Applied(p, q.c1, e.y), Applied(p, q.c2, e.z), Applied(p, q.t, v))
  {
    MatrixColumn(m, n, 0, p, q.c0, e.x);
    MatrixColumn(m, n, 1, p, q.c1, e.y);
    MatrixColumn(m, n, 2, p, q.c2, e.z);
    MatrixColumn(m, n, 3, p, q.t, v);
    ByColumns(Product(m, n));
  }

  lemma LastRow(m: seq<real>, n: seq<real>, b: V3, w: real, q: Pose, e: V3, v: real)
    requires |m| == 16 && Bottom(m) == b && m[15] == w && IsMatrix(n, q, e, v)
    ensures Bottom(Product(m, n)) == V3(Dot(q.c0, b) + e.x * w, Dot(q.c1, b) + e.y * w, Dot(q.c2, b) + e.z * w)
    ensures Product(m, n)[15] == Dot(q.t, b) + v * w
  {
    LastEntry(m, n, 0, b, w, q.c0, e.x);
    LastEntry(m, n, 1, b, w, q.c1, e.y);
    LastEntry(m, n, 2, b, w, q.c2, e.z);
    LastEntry(m, n, 3, b, w, q.t, v);
  }

  lemma MatrixProduct(m: seq<real>, n: seq<real>, p: Pose, b: V3, w: real, q: Pose, e: V3, v: real)
    requires IsMatrix(m, p, b, w) && IsMatrix(n, q, e, v)
    ensures IsMatrix(Product(m, n),
      Pose(Applied(p, q.c0, e.x), Applied(p, q.c1, e.y), Applied(p, q.c2, e.z), Applied(p, q.t, v)),
      V3(Dot(q.c0, b) + e.x * w, Dot(q.c1, b) + e.y * w, Dot(q.c2, b) + e.z * w),
      Dot(q.t, b) + v * w)
  {
    UpperProduct(m, n, p, q, e, v);
    LastRow(m, n, b, w, q, e, v);
  }

  /** What invert() makes of any sixteen numbers, part by part. */
  lemma InvertedMatrix(m: seq<real>, p: Pose, b: V3, w: real)
    requires IsMatrix(m, p, b, w)
    ensures IsMatrix(Inverted(m), Pose(Row0(p), Row1(p), Row2(p), Add(Lin(Flip(p), Scale(-1.0, p.t)), b)), ZERO, w)
  {
    var f, n := Flip(p).(t := b), Translation(-p.t.x, -p.t.y, -p.t.z);
    TransposedParts(m, p, b, w);
    assert n.t == Scale(-1.0, p.t);
    MatrixProduct(Transposed(Untranslated(m)), Flat(n), f, ZERO, w, n, ZERO, 1.0);
    AppliedToUnit(f);
    AppliedOnce(f, n.t);
    assert Lin(f, n.t) == Lin(Flip(p), n.t);
    DotZero(E0);
    DotZero(E1);
    DotZero(E2);
    DotZero(n.t);
  }

  lemma TransposedParts(m: seq<real>, p: Pose, b: V3, w: real)
    requires IsMatrix(m, p, b, w)
    ensures IsMatrix(Transposed(Untranslated(m)), Flip(p).(t := b), ZERO, w)
  {
  }

  lemma DotZero(a: V3)
    ensures Dot(a, ZERO) == 0.0
  {
  }

  lemma AppliedToUnit(p: Pose)
    ensures Applied(p, E0, 0.0) == p.c0 && Applied(p, E1, 0.0) == p.c1 && Applied(p, E2, 0.0) == p.c2
  {
    Multiples(p.c0);
    Multiples(p.c1);
    Multiples(p.c2);
    Multiples(p.t);
    Multiples(ZERO);
    AppliedExpanded(p, E0, 0.0);
    AppliedExpanded(p, E1, 0.0);
    AppliedExpanded(p, E2, 0.0);
  }

  lemma AppliedExpanded(p: Pose, a: V3, v: real)
    ensures Applied(p, a, v) == Add(Add(Scale(a.x, p.c0), Add(Scale(a.y, p.c1), Scale(a.z, p.c2))), Scale(v, p.t))
  {
  }

  lemma Multiples(a: V3)
    ensures Scale(1.0, a) == a && Scale(0.0, a) == ZERO && Add(a, ZERO) == a && Add(ZERO, a) == a
  {
  }

  lemma AppliedOnce(p: Pose, a: V3)
    ensures Applied(p, a, 1.0) == Add(Lin(p, a), p.t)
    ensures Applied(p, a, 0.0) == Lin(p, a)
  {
  }

  /** (u x v) x b == (u.b) v - (v.b) u */
  lemma CrossOfCross(u: V3, v: V3, b: V3)
    ensures Cross(Cross(u, v), b) == Add(Scale(Dot(u, b), v), Scale(-Dot(v, b), u))
  {
    CrossOfCrossX(u, v, b);
    CrossOfCrossY(u, v, b);
    CrossOfCrossZ(u, v, b);
  }

  lemma CrossOfCrossX(u: V3, v: V3, b: V3)
    ensures Cross(Cross(u, v), b).x == Add(Scale(Dot(u, b), v), Scale(-Dot(v, b), u)).x
  {
    CrossOfCrossCoordinate(u.x, u.y, u.z, v.x, v.y, v.z, b.x, b.y, b.z, Dot(u, b), Dot(v, b));
  }

  lemma CrossOfCrossY(u: V3, v: V3, b: V3)
    ensures Cross(Cross(u, v), b).y == Add(Scale(Dot(u, b), v), Scale(-Dot(v, b), u)).y
  {
    CrossOfCrossCoordinate(u.y, u.z, u.x, v.y, v.z, v.x, b.y, b.z, b.x, Dot(u, b), Dot(v, b));
  }

  lemma CrossOfCrossZ(u: V3, v: V3, b: V3)
    ensures Cross(Cross(u, v), b).z == Add(Scale(Dot(u, b), v), Scale(-Dot(v, b), u)).z
  {
    CrossOfCrossCoordinate(u.z, u.x, u.y, v.z, v.x, v.y, b.z, b.x, b.y, Dot(u, b), Dot(v, b));
  }

  lemma CrossOfCrossCoordinate(ux: real, uy: real, uz: real, vx: real, vy: real, vz: real, qx: real, qy: real, qz: real,
                               k: real, h: real)
    requires k == ux * qx + uy * qy + uz * qz && h == vx * qx + vy * qy + vz * qz
    ensures (uz * vx - ux * vz) * qz - (ux * vy - uy * vx) * qy == k * vx + -h * ux
  {
    assert k * vx == ux * qx * vx + uy * qy * vx + uz * qz * vx;
    assert h * ux == vx * qx * ux + vy * qy * ux + vz * qz * ux;
  }

  /** A vector orthogonal to two of three orthonormal ones is a multiple of their cross product. */
  lemma AlongNormal(u: V3, v: V3, b: V3, n: V3)
    requires Dot(u, u) == 1.0 && Dot(v, v) == 1.0 && Dot(u, v) == 0.0 && Dot(u, b) == 0.0 && Dot(v, b) == 0.0
    requires n == Cross(u, v)
    ensures b == Scale(Dot(n, b), n)
  {
    CrossOfCross(u, v, b);
    NoMultiple(u, v);
    CrossTwice(n, b);
    Lagrange(u, v, v);
    UnitSquares(Dot(u, u), Dot(v, v), Dot(u, v));
    Balance(Scale(Dot(n, b), n), b);
  }

  lemma NoMultiple(u: V3, v: V3)
    ensures Add(Scale(0.0, v), Scale(-0.0, u)) == ZERO && Cross(u, ZERO) == ZERO
  {
  }

  lemma UnitSquares(m: real, n: real, k: real)
    requires m == 1.0 && n == 1.0 && k == 0.0
    ensures m * n - k * k == 1.0
  {
  }

  lemma Balance(a: V3, b: V3)
    requires Add(a, Scale(-1.0, b)) == ZERO
    ensures b == a
  {
  }

  /** Only the zero vector is orthogonal to three orthonormal ones. */
  lemma OrthonormalSpans(u: V3, v: V3, w: V3, b: V3)
    requires Orthonormal(u, v, w)
    requires Dot(u, b) == 0.0 && Dot(v, b) == 0.0 && Dot(w, b) == 0.0
    ensures b == ZERO
  {
    var n := Cross(u, v);
    AlongNormal(u, v, b, n);
    AlongNormal(u, v, w, n);
    var k, h := Dot(n, w), Dot(n, b);
    DotScale(k, n, b);
    DotScale(k, n, w);
    ProductZero(k, h);
    ScaleZero(h, n);
  }

  lemma ProductZero(k: real, h: real)
    requires k * k == 1.0 && k * h == 0.0
    ensures h == 0.0
  {
  }

  lemma ScaleZero(h: real, n: V3)
    requires h == 0.0
    ensures Scale(h, n) == ZERO
  {
  }

  /** The last row and the translation that the shortcut can cope with. */
  predicate Invertible(m: seq<real>)
    requires |m| == 16
  {
    && Bottom(m) == ZERO
    && (m[15] == 1.0 || (m[15] == -1.0 && PoseOf(m).t == ZERO))
  }

  lemma FlatIdentity(r: seq<real>, p: Pose, b: V3, w: real)
    requires IsMatrix(r, p, b, w)
    ensures r == Flat(IDENTITY) <==> p == IDENTITY && b == ZERO && w == 1.0
  {
  }

  /** m * invert(m), part by part. */
  lemma RightMatrix(m: seq<real>, p: Pose, b: V3, w: real, u: V3)
    requires IsMatrix(m, p, b, w) && u == Add(Lin(Flip(p), Scale(-1.0, p.t)), b)
    ensures IsMatrix(Product(m, Inverted(m)),
      Pose(Lin(p, Row0(p)), Lin(p, Row1(p)), Lin(p, Row2(p)), Applied(p, u, w)),
      V3(Dot(Row0(p), b), Dot(Row1(p), b), Dot(Row2(p), b)),
      Dot(u, b) + w * w)
  {
    InvertedMatrix(m, p, b, w);
    MatrixProduct(m, Inverted(m), p, b, w, Pose(Row0(p), Row1(p), Row2(p), u), ZERO, w);
    AppliedOnce(p, Row0(p));
    AppliedOnce(p, Row1(p));
    AppliedOnce(p, Row2(p));
  }

  /** invert(m) * m, part by part. */
  lemma LeftMatrix(m: seq<real>, p: Pose, b: V3, w: real, u: V3)
    requires IsMatrix(m, p, b, w) && u == Add(Lin(Flip(p), Scale(-1.0, p.t)), b)
    ensures var f := Flip(p).(t := u);
      IsMatrix(Product(Inverted(m), m),
        Pose(Applied(f, p.c0, b.x), Applied(f, p.c1, b.y), Applied(f, p.c2, b.z), Applied(f, p.t, w)),
        V3(b.x * w, b.y * w, b.z * w), w * w)
  {
    InvertedMatrix(m, p, b, w);
    MatrixProduct(Inverted(m), m, Flip(p).(t := u), ZERO, w, p, b, w);
    DotZero(p.c0);
    DotZero(p.c1);
    DotZero(p.c2);
    DotZero(p.t);
  }

  lemma SquareOne(w: real)
    ensures w * w == 1.0 <==> w == 1.0 || w == -1.0
  {
    assert (w - 1.0) * (w + 1.0) == w * w - 1.0;
  }

  /** -t + w t vanishes, w being 1 or -1, when w is 1 or t vanishes. */
  lemma Cancels(t: V3, w: real)
    requires w == 1.0 || w == -1.0
    ensures Add(Scale(-1.0, t), Scale(w, t)) == ZERO <==> w == 1.0 || t == ZERO
  {
    assert Scale(1.0, t) == t;
  }

  lemma RowsByLin(p: Pose)
    ensures Lin(p, Row0(p)) == E0 && Lin(p, Row1(p)) == E1 && Lin(p, Row2(p)) == E2 <==> RowsOrthonormal(p)
  {
    LinByRows(p, Row0(p));
    LinByRows(p, Row1(p));
    LinByRows(p, Row2(p));
    DotSymmetric(Row0(p), Row1(p));
    DotSymmetric(Row0(p), Row2(p));
    DotSymmetric(Row1(p), Row2(p));
  }

  lemma ColumnsByLin(p: Pose)
    ensures Lin(Flip(p), p.c0) == E0 && Lin(Flip(p), p.c1) == E1 && Lin(Flip(p), p.c2) == E2 <==> ColumnsOrthonormal(p)
  {
    LinOfFlip(p, p.c0);
    LinOfFlip(p, p.c1);
    LinOfFlip(p, p.c2);
    DotSymmetric(p.c0, p.c1);
    DotSymmetric(p.c0, p.c2);
    DotSymmetric(p.c1, p.c2);
  }

  /** With a last row 0 0 0 w and orthonormal rows, what the translation and w must be. */
  lemma RightRest(p: Pose, w: real, u: V3)
    requires RowsOrthonormal(p) && u == Lin(Flip(p), Scale(-1.0, p.t))
    ensures Applied(p, u, w) == ZERO && w * w == 1.0 <==> w == 1.0 || (w == -1.0 && p.t == ZERO)
  {
    RowsUndoFlip(p, Scale(-1.0, p.t));
    SquareOne(w);
    if w == 1.0 || w == -1.0 {
      Cancels(p.t, w);
    }
  }

  lemma LeftRest(p: Pose, w: real, u: V3)
    requires ColumnsOrthonormal(p) && u == Lin(Flip(p), Scale(-1.0, p.t))
    ensures Applied(Flip(p).(t := u), p.t, w) == ZERO && w * w == 1.0 <==> w == 1.0 || (w == -1.0 && p.t == ZERO)
  {
    var s := Lin(Flip(p), p.t);
    SquareOne(w);
    LinOpposite(Flip(p), p.t);
    OppositeIs(s, u);
    assert Lin(Flip(p).(t := u), p.t) == s;
    if w == 1.0 || w == -1.0 {
      Cancels(u, w);
      OppositeCancels(s, u, w);
      VanishesOnlyAtZero(p);
    }
  }

  lemma OppositeIs(s: V3, u: V3)
    requires Add(s, u) == ZERO
    ensures s == Scale(-1.0, u) && (u == ZERO <==> s == ZERO)
  {
  }

  lemma OppositeCancels(s: V3, u: V3, w: real)
    requires s == Scale(-1.0, u)
    ensures Add(s, Scale(w, u)) == Add(Scale(-1.0, u), Scale(w, u))
  {
  }

  lemma VanishesOnlyAtZero(p: Pose)
    requires ColumnsOrthonormal(p)
    ensures Lin(Flip(p), p.t) == ZERO <==> p.t == ZERO
  {
    LinOfFlip(p, p.t);
    DotZero(p.c0);
    DotZero(p.c1);
    DotZero(p.c2);
    if Lin(Flip(p), p.t) == ZERO {
      OrthonormalSpans(p.c0, p.c1, p.c2, p.t);
    }
  }

  lemma NoBottom(p: Pose, b: V3, w: real)
    ensures b == ZERO ==> Add(Lin(Flip(p), Scale(-1.0, p.t)), b) == Lin(Flip(p), Scale(-1.0, p.t))
    ensures w * w == 1.0 && V3(b.x * w, b.y * w, b.z * w) == ZERO ==> b == ZERO
  {
    SquareOne(w);
  }

  /**
   invert() on any sixteen numbers gives a right inverse exactly when the rows of the linear part are
   orthonormal, the last row is 0 0 0 w, and w is 1, or -1 with no translation.
   */
  lemma RightInverseExact(m: seq<real>)
    requires |m| == 16
    ensures Product(m, Inverted(m)) == Flat(IDENTITY) <==> RowsOrthonormal(PoseOf(m)) && Invertible(m)
  {
    var p, b, w := PoseOf(m), Bottom(m), m[15];
    var u := Add(Lin(Flip(p), Scale(-1.0, p.t)), b);
    RightMatrix(m, p, b, w, u);
    var q := Pose(Lin(p, Row0(p)), Lin(p, Row1(p)), Lin(p, Row2(p)), Applied(p, u, w));
    var e := V3(Dot(Row0(p), b), Dot(Row1(p), b), Dot(Row2(p), b));
    FlatIdentity(Product(m, Inverted(m)), q, e, Dot(u, b) + w * w);
    RowsByLin(p);
    if RowsOrthonormal(p) {
      RightWhole(p, b, w, u, e);
    }
  }

  lemma RightWhole(p: Pose, b: V3, w: real, u: V3, e: V3)
    requires RowsOrthonormal(p) && u == Add(Lin(Flip(p), Scale(-1.0, p.t)), b)
    requires e == V3(Dot(Row0(p), b), Dot(Row1(p), b), Dot(Row2(p), b))
    ensures Applied(p, u, w) == ZERO && e == ZERO && Dot(u, b) + w * w == 1.0
      <==> b == ZERO && (w == 1.0 || (w == -1.0 && p.t == ZERO))
  {
    if e == ZERO {
      OrthonormalSpans(Row0(p), Row1(p), Row2(p), b);
    }
    if b == ZERO {
      DotZero(Row0(p));
      DotZero(Row1(p));
      DotZero(Row2(p));
      DotZero(u);
      NoBottom(p, b, w);
      RightRest(p, w, u);
    }
  }

  /** It gives a left inverse exactly when the columns are orthonormal and the rest is the same. */
  lemma LeftInverseExact(m: seq<real>)
    requires |m| == 16
    ensures Product(Inverted(m), m) == Flat(IDENTITY) <==> ColumnsOrthonormal(PoseOf(m)) && Invertible(m)
  {
    var p, b, w := PoseOf(m), Bottom(m), m[15];
    var u := Add(Lin(Flip(p), Scale(-1.0, p.t)), b);
    LeftMatrix(m, p, b, w, u);
    var f := Flip(p).(t := u);
    var q := Pose(Applied(f, p.c0, b.x), Applied(f, p.c1, b.y), Applied(f, p.c2, b.z), Applied(f, p.t, w));
    FlatIdentity(Product(Inverted(m), m), q, V3(b.x * w, b.y * w, b.z * w), w * w);
    NoBottom(p, b, w);
    SquareOne(w);
    if b == ZERO {
      LeftWhole(p, f, w, u);
    }
  }

  lemma LeftWhole(p: Pose, f: Pose, w: real, u: V3)
    requires u == Lin(Flip(p), Scale(-1.0, p.t)) && f == Flip(p).(t := u)
    ensures V3(0.0 * w, 0.0 * w, 0.0 * w) == ZERO
    ensures Pose(Applied(f, p.c0, 0.0), Applied(f, p.c1, 0.0), Applied(f, p.c2, 0.0), Applied(f, p.t, w))
      == IDENTITY && w * w == 1.0
      <==> ColumnsOrthonormal(p) && (w == 1.0 || (w == -1.0 && p.t == ZERO))
  {
    AppliedOnce(f, p.c0);
    AppliedOnce(f, p.c1);
    AppliedOnce(f, p.c2);
    assert Lin(f, p.c0) == Lin(Flip(p), p.c0) && Lin(f, p.c1) == Lin(Flip(p), p.c1)
      && Lin(f, p.c2) == Lin(Flip(p), p.c2);
    ColumnsByLin(p);
    if ColumnsOrthonormal(p) {
      LeftRest(p, w, u);
    }
  }

  /** The identity with a stray number in the last row is not inverted, though its linear part is orthonormal. */
  lemma StrayBottomNotInverted(m: seq<real>)
    requires m == Flat(IDENTITY)[3 := 1.0]
    ensures PoseOf(m) == IDENTITY && Product(m, Inverted(m)) != Flat(IDENTITY)
  {
    RightInverseExact(m);
    assert Bottom(m).x == 1.0;
  }

  /** The identity with -1 in the corner is inverted, though it is not affine. */
  lemma NegativeCornerInverted(m: seq<real>)
    requires m == Flat(IDENTITY)[15 := -1.0]
    ensures !Affine(m) && Product(m, Inverted(m)) == Flat(IDENTITY)
  {
    var p := PoseOf(m);
    assert p == IDENTITY && Bottom(m) == ZERO && m[15] == -1.0;
    UnitFrame();
    TranslationRows(ZERO);
    FrameRigid(p, E0, E1, E2);
    CornerExact(m, p);
  }

  lemma CornerExact(m: seq<real>, p: Pose)
    requires |m| == 16 && PoseOf(m) == p && Rigid(p) && Invertible(m)
    ensures Product(m, Inverted(m)) == Flat(IDENTITY)
  {
    RightInverseExact(m);
  }

  /** On affine arrays, which are the flattened poses, both conditions are about the linear part alone. */
  lemma AffineInverseExact(m: seq<real>)
    requires |m| == 16 && Affine(m)
    ensures m == Flat(PoseOf(m))
    ensures Product(m, Inverted(m)) == Flat(IDENTITY) <==> RowsOrthonormal(PoseOf(m))
    ensures Product(Inverted(m), m) == Flat(IDENTITY) <==> ColumnsOrthonormal(PoseOf(m))
  {
    AffineIsFlat(m);
    RightInverseExact(m);
    LeftInverseExact(m);
  }

  /** The sixteen numbers after identity() and the given calls. */
  function Run(ops: seq<Op>): (r: seq<real>)
    ensures |r| == 16
  {
    if ops == [] then Flat(IDENTITY) else Product(Run(ops[..|ops| - 1]), Flat(OpMatrix(ops[|ops| - 1])))
  }

  lemma {:induction false} RunIsReached(ops: seq<Op>)
    ensures Run(ops) == Flat(Reached(ops))
    decreases |ops|
  {
    if ops != [] {
      RunIsReached(ops[..|ops| - 1]);
      ProductOfFlat(Reached(ops[..|ops| - 1]), OpMatrix(ops[|ops| - 1]));
    }
  }

  /** After any calls with unit axes, invert() gives the inverse on both sides under multiply(). */
  lemma InvertUndoesRun(ops: seq<Op>)
    requires forall op :: op in ops ==> Legal(op)
    ensures Affine(Run(ops))
    ensures Product(Run(ops), Inverted(Run(ops))) == Flat(IDENTITY)
    ensures Product(Inverted(Run(ops)), Run(ops)) == Flat(IDENTITY)
  {
    RunIsReached(ops);
    ReachedRigid(ops);
    FlatIsAffine(Reached(ops), Run(ops));
    AffineInverseExact(Run(ops));
  }

  lemma FlatIsAffine(p: Pose, m: seq<real>)
    requires m == Flat(p)
    ensures Affine(m) && PoseOf(m) == p
  {
  }

  /** An axis that is not a unit vector makes a matrix the shortcut does not invert. */
  lemma NonUnitAxisNotInverted(m: seq<real>)
    requires m == Flat(Rotation(2.0, 0.0, 0.0, 0.0, -1.0))
    ensures Product(m, Inverted(m)) != Flat(IDENTITY)
  {
    var p := Rotation(2.0, 0.0, 0.0, 0.0, -1.0);
    assert Row0(p) == V3(7.0, 0.0, 0.0);
    assert Dot(Row0(p), Row0(p)) == 49.0;
    FlatIsAffine(p, m);
    AffineInverseExact(m);
  }

  // ---- the in-place methods ----

  method Multiply(m: array<real>, n: array<real>)
    requires m.Length == 16 && n.Length == 16
    modifies m
    ensures m[..] == Product(old(m[..]), old(n[..]))
  {
    var tmp := new real[16];
    var i := 0;
    while i < 16
      invariant 0 <= i <= 16
      invariant m[..] == old(m[..]) && n[..] == old(n[..])
      invariant forall k :: 0 <= k < i ==> tmp[k] == PartialEntry(m[..], n[..], k, 4)
    {
      FillEntry(m, n, tmp, i);
      i := i + 1;
    }
    Copy(m, tmp);
  }

  /** The inner loop of multiply(). */
  method FillEntry(m: array<real>, n: array<real>, tmp: array<real>, i: nat)
    requires m.Length == 16 && n.Length == 16 && tmp.Length == 16 && i < 16
    requires tmp != m && tmp != n
    modifies tmp
    ensures tmp[i] == PartialEntry(m[..], n[..], i, 4)
    ensures forall k :: 0 <= k < 16 && k != i ==> tmp[k] == old(tmp[k])
  {
    tmp[i] := 0.0;
    var row, column := i / 4 * 4, i % 4;
    var j := 0;
    while j < 4
      invariant 0 <= j <= 4
      invariant tmp[i] == PartialEntry(m[..], n[..], i, j)
      invariant forall k :: 0 <= k < 16 && k != i ==> tmp[k] == old(tmp[k])
    {
      tmp[i] := tmp[i] + n[row + j] * m[column + j * 4];
      j := j + 1;
    }
  }

  /** memcpy of sixteen numbers. */
  method Copy(m: array<real>, t: array<real>)
    requires m.Length == 16 && t.Length == 16
    modifies m
    ensures m[..] == old(t[..])
  {
    var i := 0;
    while i < 16
      invariant 0 <= i <= 16
      invariant forall k :: 0 <= k < i ==> m[k] == old(t[k])
      invariant forall k :: i <= k < 16 ==> t[k] == old(t[k])
      invariant m != t ==> t[..] == old(t[..])
    {
      m[i] := t[i];
      i := i + 1;
    }
  }

  method Identity(m: array<real>)
    requires m.Length == 16
    modifies m
    ensures m[..] == Flat(IDENTITY)
  {
    var t := new real[16] [
      1.0, 0.0, 0.0, 0.0,
      0.0, 1.0, 0.0, 0.0,
      0.0, 0.0, 1.0, 0.0,
      0.0, 0.0, 0.0, 1.0];
    Copy(m, t);
  }

  /** The identity array with a translation written into entries 12 to 14. */
  method TranslationArray(x: real, y: real, z: real) returns (t: array<real>)
    ensures fresh(t) && t.Length == 16 && t[..] == Flat(Translation(x, y, z))
  {
    t := new real[16];
    Identity(t);
    t[12] := x;
    t[13] := y;
    t[14] := z;
  }

  method TranslateBy(m: array<real>, x: real, y: real, z: real)
    requires m.Length == 16
    modifies m
    ensures m[..] == Product(old(m[..]), Flat(Translation(x, y, z)))
  {
    var t := TranslationArray(x, y, z);
    Multiply(m, t);
  }

  method RotationArray(s: real, c: real, x: real, y: real, z: real) returns (r: array<real>)
    ensures fresh(r) && r.Length == 16 && r[..] == Flat(Rotation(x, y, z, s, c))
  {
    r := new real[16] [
      x * x * (1.0 - c) + c, y * x * (1.0 - c) + z * s, x * z * (1.0 - c) - y * s, 0.0,
      x * y * (1.0 - c) - z * s, y * y * (1.0 - c) + c, y * z * (1.0 - c) + x * s, 0.0,
      x * z * (1.0 - c) + y * s, y * z * (1.0 - c) - x * s, z * z * (1.0 - c) + c, 0.0,
      0.0, 0.0, 0.0, 1.0];
    ghost var p := Rotation(x, y, z, s, c);
    FlatOfColumns(r[..], p.c0, p.c1, p.c2, p.t);
  }

  method RotateBy(m: array<real>, s: real, c: real, x: real, y: real, z: real)
    requires m.Length == 16
    modifies m
    ensures m[..] == Product(old(m[..]), Flat(Rotation(x, y, z, s, c)))
  {
    var r := RotationArray(s, c, x, y, z);
    Multiply(m, r);
  }

  method Transpose(m: array<real>)
    requires m.Length == 16
    modifies m
    ensures m[..] == Transposed(old(m[..]))
  {
    var t := new real[16] [
      m[0], m[4], m[8], m[12],
      m[1], m[5], m[9], m[13],
      m[2], m[6], m[10], m[14],
      m[3], m[7], m[11], m[15]];
    Copy(m, t);
  }

  /** Drop the translation, then transpose. */
  method TransposeLinear(m: array<real>)
    requires m.Length == 16
    modifies m
    ensures m[..] == Transposed(Untranslated(old(m[..])))
  {
    m[14] := 0.0;
    m[13] := 0.0;
    m[12] := 0.0;
    assert m[..] == Untranslated(old(m[..]));
    Transpose(m);
  }

  method Invert(m: array<real>)
    requires m.Length == 16
    modifies m
    ensures m[..] == Inverted(old(m[..]))
  {
    var t := TranslationArray(-m[12], -m[13], -m[14]);
    ghost var n := t[..];
    TransposeLinear(m);
    assert t[..] == n;
    ghost var transposed := m[..];
    Multiply(m, t);
    InvertedIs(old(m[..]), transposed, n, m[..]);
  }
}
