/** Points in space and the axis-aligned box tests that the octree and the
    collision code are built from. Coordinates are exact reals: the source only
    adds, subtracts, multiplies and compares them. */
module Geometry {

  /** A `vec3`: x, y and z components. */
  datatype Vec3 = Vec3(x: real, y: real, z: real)

  function Sq(a: real): real { a * a }

  lemma SqNonNegative(a: real)
    ensures Sq(a) >= 0.0
  {
    if a < 0.0 { assert (-a) * (-a) > 0.0; }
  }

  /** `vec3.squaredDistance`. */
  function SquaredDistance(a: Vec3, b: Vec3): real {
    Sq(a.x - b.x) + Sq(a.y - b.y) + Sq(a.z - b.z)
  }

  /** Every corner of the cube centred at `c` with half-width `r`, as min/max corners. */
  function Lower(c: Vec3, r: real): Vec3 { Vec3(c.x - r, c.y - r, c.z - r) }
  function Upper(c: Vec3, r: real): Vec3 { Vec3(c.x + r, c.y + r, c.z + r) }

  /** A point lies in the closed box [lo, hi]. */
  predicate InBox(q: Vec3, lo: Vec3, hi: Vec3) {
    lo.x <= q.x <= hi.x && lo.y <= q.y <= hi.y && lo.z <= q.z <= hi.z
  }

  /** The six inclusive face comparisons: the box `p ± rad` lies within [lo, hi]. */
  predicate BoxWithin(p: Vec3, rad: real, lo: Vec3, hi: Vec3) {
    p.x + rad <= hi.x && p.y + rad <= hi.y && p.z + rad <= hi.z &&
    p.x - rad >= lo.x && p.y - rad >= lo.y && p.z - rad >= lo.z
  }

  /** Standard AABB overlap: on every axis, objMin <= boxMax and objMax >= boxMin. */
  predicate BoxOverlaps(p: Vec3, rad: real, lo: Vec3, hi: Vec3) {
    (p.x - rad <= hi.x && p.x + rad >= lo.x) &&
    (p.y - rad <= hi.y && p.y + rad >= lo.y) &&
    (p.z - rad <= hi.z && p.z + rad >= lo.z)
  }

  /** The face comparisons mean what they should: the object's box is a subset
      of [lo, hi], point by point. */
  lemma BoxWithinIsSubset(p: Vec3, rad: real, lo: Vec3, hi: Vec3)
    requires rad >= 0.0
    ensures BoxWithin(p, rad, lo, hi) <==>
            (forall q :: InBox(q, Lower(p, rad), Upper(p, rad)) ==> InBox(q, lo, hi))
  {
    if forall q :: InBox(q, Lower(p, rad), Upper(p, rad)) ==> InBox(q, lo, hi) {
      assert InBox(Lower(p, rad), Lower(p, rad), Upper(p, rad));
      assert InBox(Upper(p, rad), Lower(p, rad), Upper(p, rad));
    }
  }

  function Max(a: real, b: real): real { if a < b then b else a }
  function Min(a: real, b: real): real { if a < b then a else b }

  /** The overlap test means what it should: the two boxes share a point. */
  lemma BoxOverlapsIsSharedPoint(p: Vec3, rad: real, lo: Vec3, hi: Vec3)
    requires rad >= 0.0
    requires lo.x <= hi.x && lo.y <= hi.y && lo.z <= hi.z
    ensures BoxOverlaps(p, rad, lo, hi) <==>
            (exists q :: InBox(q, Lower(p, rad), Upper(p, rad)) && InBox(q, lo, hi))
  {
    if BoxOverlaps(p, rad, lo, hi) {
      var q := Vec3(Max(p.x - rad, lo.x), Max(p.y - rad, lo.y), Max(p.z - rad, lo.z));
      assert InBox(q, Lower(p, rad), Upper(p, rad)) && InBox(q, lo, hi);
    }
  }

  /** A box inside another overlaps it. */
  lemma WithinImpliesOverlaps(p: Vec3, rad: real, lo: Vec3, hi: Vec3)
    requires rad >= 0.0
    requires BoxWithin(p, rad, lo, hi)
    ensures BoxOverlaps(p, rad, lo, hi)
  {
  }

  /** Touching a face counts as inside: the comparisons are inclusive. */
  lemma TouchingFaceIsWithin(c: Vec3, r: real, rad: real)
    requires 0.0 <= rad <= r
    ensures BoxWithin(Vec3(c.x + r - rad, c.y, c.z), rad, Lower(c, r), Upper(c, r))
    ensures BoxOverlaps(Vec3(c.x + r + rad, c.y, c.z), rad, Lower(c, r), Upper(c, r))
  {
  }

  /** If the object's box fits in [lo, hi] and the probe's box misses [lo, hi],
      the two centres are more than `radA + radB` apart on some axis. */
  lemma SeparatedAxis(a: Vec3, radA: real, b: Vec3, radB: real, lo: Vec3, hi: Vec3)
    requires radA >= 0.0 && radB >= 0.0
    requires BoxWithin(b, radB, lo, hi)
    requires !BoxOverlaps(a, radA, lo, hi)
    ensures Sq(a.x - b.x) > Sq(radA + radB) || Sq(a.y - b.y) > Sq(radA + radB) ||
            Sq(a.z - b.z) > Sq(radA + radB)
  {
    if !(a.x - radA <= hi.x && a.x + radA >= lo.x) {
      GapSquares(a.x - b.x, radA + radB);
    } else if !(a.y - radA <= hi.y && a.y + radA >= lo.y) {
      GapSquares(a.y - b.y, radA + radB);
    } else {
      GapSquares(a.z - b.z, radA + radB);
    }
  }

  lemma GapSquares(d: real, s: real)
    requires s >= 0.0 && (d > s || d < -s)
    ensures Sq(d) > Sq(s)
  {
    var e := if d > s then d - s else -d - s;
    var a := if d > s then d else -d;
    assert a == s + e && e > 0.0 && a * a == d * d;
    assert a * a == s * s + 2.0 * s * e + e * e;
    assert s * e >= 0.0 && e * e > 0.0;
  }
}
