/** Three places where octree.js does not do what its own comments say. Each is
    modelled here as written, with an input that shows the difference; the
    rest of the model (octree.dfy) follows the documented intent. */
module OctreeFindings {
  import opened Geometry
  import opened OctreeSpec
  import opened JsArrays

  // ---------------------------------------------------------------- intersects

  /** `intersects` as written: `contains` starts out true and each of the six
      face comparisons is OR-ed into it. */
  function IntersectsAsWritten(enabled: bool, evenIfDisabled: bool, p: Vec3, rad: real,
                               lo: Vec3, hi: Vec3): (r: bool)
    ensures r <==> enabled || evenIfDisabled
  {
    if !enabled && !evenIfDisabled then false
    else
      var contains := true;
      var contains := contains || p.x + rad <= hi.x;
      var contains := contains || p.y + rad <= hi.y;
      var contains := contains || p.z + rad <= hi.z;
      var contains := contains || p.x - rad >= lo.x;
      var contains := contains || p.y - rad >= lo.y;
      contains || p.z - rad >= lo.z
  }

  /** An enabled object ten units away from a unit cube "intersects" it as
      written, though the two boxes share no point. */
  lemma IntersectsAsWrittenIgnoresBox()
    ensures var c, p := Vec3(0.0, 0.0, 0.0), Vec3(10.0, 0.0, 0.0);
            IntersectsAsWritten(true, false, p, 1.0, Lower(c, 1.0), Upper(c, 1.0)) &&
            !BoxOverlaps(p, 1.0, Lower(c, 1.0), Upper(c, 1.0)) &&
            !(exists q :: InBox(q, Lower(p, 1.0), Upper(p, 1.0)) && InBox(q, Lower(c, 1.0), Upper(c, 1.0)))
  {
    var c, p := Vec3(0.0, 0.0, 0.0), Vec3(10.0, 0.0, 0.0);
    BoxOverlapsIsSharedPoint(p, 1.0, Lower(c, 1.0), Upper(c, 1.0));
  }

  // ---------------------------------------------------------------- buildTree placement

  /** The octants below `k` whose cube contains `o`, in order. */
  function FittingOctants<T>(o: T, fits: (T, nat) -> bool, k: nat): (octs: seq<nat>)
    ensures |octs| <= k
    ensures forall j :: 0 <= j < |octs| ==> octs[j] < k && fits(o, octs[j])
  {
    if k == 0 then []
    else FittingOctants(o, fits, k - 1) + (if fits(o, k - 1) then [k - 1] else [])
  }

  /** Octant k's list as written: the inner loop has no `break`, so every object
      whose box fits octant k is pushed there, whatever other octant it fits. */
  function BucketAsWritten<T>(objs: seq<T>, fits: (T, nat) -> bool, k: nat): (b: seq<T>)
    ensures |b| <= |objs|
    ensures forall i :: 0 <= i < |b| ==> b[i] in objs && fits(b[i], k)
  {
    if objs == [] then []
    else
      var last := objs[|objs| - 1];
      BucketAsWritten(objs[..|objs| - 1], fits, k) + (if fits(last, k) then [last] else [])
  }

  /** `removedObjIndices` as written: an object's index, once per octant it fits. */
  function RemovedAsWritten<T>(objs: seq<T>, fits: (T, nat) -> bool): (rm: seq<nat>)
    ensures forall i :: 0 <= i < |rm| ==> rm[i] < |objs|
  {
    if objs == [] then []
    else
      var n := |objs| - 1;
      RemovedAsWritten(objs[..n], fits) + seq(|FittingOctants(objs[n], fits, 8)|, _ => n)
  }

  function Min(a: int, b: int): int { if a < b then a else b }

  /** The removal loop as written, from step `i` on: step j splices entry j of the
      list as it is by then, which is not entry j of the list the indices were
      taken from. Entries stop being removed once j reaches the shrunken length. */
  function SpliceFrom<T>(s: seq<T>, i: nat, count: nat): (r: seq<T>)
    ensures |r| == |s| - (if Min(count, (|s| + i + 1) / 2) > i then Min(count, (|s| + i + 1) / 2) - i else 0)
    decreases count - i
  {
    if i >= count then s else SpliceFrom(RemoveAt(s, i), i + 1, count)
  }

  /** The objects the parent keeps as written. */
  function KeptAsWritten<T>(objs: seq<T>, fits: (T, nat) -> bool): seq<T> {
    SpliceFrom(objs, 0, |RemovedAsWritten(objs, fits)|)
  }

  /** Octant containment of a zero-size object at `p` for the node at the origin
      with radius 2: the test `octantContains` applies for octant k. */
  predicate FitsAtOrigin(p: Vec3, k: nat) {
    BoxWithin(p, 0.0, Lower(OctantCenter(Vec3(0.0, 0.0, 0.0), 1.0, k), 1.0),
              Upper(OctantCenter(Vec3(0.0, 0.0, 0.0), 1.0, k), 1.0))
  }

  /** The point on the plane x = 0 fits octants 0 and 4 and no other. */
  lemma FaceFitsTwoOctants(k: nat)
    requires k < 8
    ensures FitsAtOrigin(Vec3(0.0, -1.0, -1.0), k) <==> k == 0 || k == 4
  {
  }

  /** The point outside the node fits no octant. */
  lemma FarFitsNone(k: nat)
    requires k < 8
    ensures !FitsAtOrigin(Vec3(5.0, 5.0, 5.0), k)
  {
  }

  /** The octants the face point fits, in order: 0 and 4. */
  lemma FaceOctants()
    ensures FittingOctants(Vec3(0.0, -1.0, -1.0), FitsAtOrigin, 8) == [0, 4]
  {
    var face := Vec3(0.0, -1.0, -1.0);
    forall k | 0 <= k < 8
      ensures FitsAtOrigin(face, k) <==> k == 0 || k == 4
    {
      FaceFitsTwoOctants(k);
    }
    assert FittingOctants(face, FitsAtOrigin, 1) == [0];
    assert FittingOctants(face, FitsAtOrigin, 2) == [0];
    assert FittingOctants(face, FitsAtOrigin, 3) == [0];
    assert FittingOctants(face, FitsAtOrigin, 4) == [0];
    assert FittingOctants(face, FitsAtOrigin, 5) == [0, 4];
    assert FittingOctants(face, FitsAtOrigin, 6) == [0, 4];
    assert FittingOctants(face, FitsAtOrigin, 7) == [0, 4];
  }

  /** The far point fits no octant. */
  lemma FarOctants()
    ensures FittingOctants(Vec3(5.0, 5.0, 5.0), FitsAtOrigin, 8) == []
  {
    var far := Vec3(5.0, 5.0, 5.0);
    forall k | 0 <= k < 8
      ensures !FitsAtOrigin(far, k)
    {
      FarFitsNone(k);
    }
    assert FittingOctants(far, FitsAtOrigin, 4) == [];
  }

  /** As written, the octant lists of the split: the face point in octants 0 and
      4, the far point in none. */
  lemma BucketsAsWritten()
    ensures var far, face := Vec3(5.0, 5.0, 5.0), Vec3(0.0, -1.0, -1.0);
            var objs := [far, face];
            BucketAsWritten(objs, FitsAtOrigin, 0) == [face] && BucketAsWritten(objs, FitsAtOrigin, 4) == [face] &&
            forall k :: 0 <= k < 8 ==> far !in BucketAsWritten(objs, FitsAtOrigin, k)
  {
    var far, face := Vec3(5.0, 5.0, 5.0), Vec3(0.0, -1.0, -1.0);
    var objs := [far, face];
    assert objs[..1] == [far] && [far][..0] == [];
    forall k | 0 <= k < 8
      ensures BucketAsWritten(objs, FitsAtOrigin, k) == if k == 0 || k == 4 then [face] else []
    {
      FaceFitsTwoOctants(k);
      FarFitsNone(k);
    }
  }

  /** As written, the far point alone yields no removal. */
  lemma RemovedAsWrittenFar(far: Vec3)
    requires far == Vec3(5.0, 5.0, 5.0)
    ensures RemovedAsWritten([far], FitsAtOrigin) == []
  {
    FarOctants();
    assert [far][..0] == [];
  }

  /** As written, the removal list names the face point once per octant it fits
      and the far point never. */
  lemma RemovedAsWrittenFace(far: Vec3, face: Vec3)
    requires far == Vec3(5.0, 5.0, 5.0) && face == Vec3(0.0, -1.0, -1.0)
    ensures RemovedAsWritten([far, face], FitsAtOrigin) == [1, 1]
  {
    var objs := [far, face];
    RemovedAsWrittenFar(far);
    FaceOctants();
    assert objs[..1] == [far];
    assert seq(2, _ => 1) == [1, 1];
  }

  /** As written, the parent keeps only the face point after the split. */
  lemma KeptAsWrittenFace(far: Vec3, face: Vec3)
    requires far == Vec3(5.0, 5.0, 5.0) && face == Vec3(0.0, -1.0, -1.0)
    ensures KeptAsWritten([far, face], FitsAtOrigin) == [face]
  {
    RemovedAsWrittenFace(far, face);
    assert RemoveAt([far, face], 0) == [face];
    assert RemoveAt([face], 1) == [face];
    assert SpliceFrom([far, face], 0, 2) == SpliceFrom([face], 1, 2) == SpliceFrom([face], 2, 2);
  }

  /** Split the node at the origin, radius 2, holding a point `far` outside it and
      a point `face` on the plane x = 0. As written, `face` goes to octants 0 and
      4 and also stays in the parent, while `far`, which fits no octant, is
      spliced out of the parent and so is lost from the tree. */
  lemma PlacementAsWrittenLosesAndDuplicates()
    ensures var far, face := Vec3(5.0, 5.0, 5.0), Vec3(0.0, -1.0, -1.0);
            var objs := [far, face];
            BucketAsWritten(objs, FitsAtOrigin, 0) == [face] && BucketAsWritten(objs, FitsAtOrigin, 4) == [face] &&
            KeptAsWritten(objs, FitsAtOrigin) == [face] &&
            far !in KeptAsWritten(objs, FitsAtOrigin) &&
            (forall k :: 0 <= k < 8 ==> far !in BucketAsWritten(objs, FitsAtOrigin, k))
  {
    BucketsAsWritten();
    KeptAsWrittenFace(Vec3(5.0, 5.0, 5.0), Vec3(0.0, -1.0, -1.0));
  }

  // ---------------------------------------------------------------- checkCollisions purge

  /** The scan of `checkCollisions` as written, from index i: at the first
      disabled entry `splice(i)` with no count cuts the list there, and the loop
      ends because the list is no longer than the index. */
  function ScanAsWritten<T>(objs: seq<T>, i: nat, enabled: T -> bool, collides: T -> bool): (r: (seq<T>, seq<T>))
    requires i <= |objs|
    ensures |r.0| <= |objs| && r.0 == objs[..|r.0|] && i <= |r.0|
    ensures forall j :: i <= j < |r.0| ==> enabled(objs[j])
    ensures |r.0| < |objs| ==> !enabled(objs[|r.0|])
    decreases |objs| - i
  {
    if i == |objs| then (objs, [])
    else if !enabled(objs[i]) then (objs[..i], [])
    else
      var rest := ScanAsWritten(objs, i + 1, enabled, collides);
      (rest.0, (if collides(objs[i]) then [objs[i]] else []) + rest.1)
  }

  /** The objects a scan keeps and reports as intended: the enabled entries, and
      those of them that collide. */
  function Filter<T>(objs: seq<T>, keep: T -> bool): (r: seq<T>)
    ensures forall i :: 0 <= i < |r| ==> r[i] in objs && keep(r[i])
    ensures forall i :: 0 <= i < |objs| && keep(objs[i]) ==> objs[i] in r
  {
    if objs == [] then [] else (if keep(objs[0]) then [objs[0]] else []) + Filter(objs[1..], keep)
  }

  /** A disabled entry followed by an enabled one that collides: as written the
      scan drops both and reports nothing; as intended it keeps and reports the
      enabled one. */
  lemma PurgeAsWrittenDropsLaterEntries()
    ensures var objs, enabled, collides := [0, 1], (x: int) => x == 1, (x: int) => true;
            ScanAsWritten(objs, 0, enabled, collides) == ([], []) &&
            Filter(objs, enabled) == [1] &&
            Filter(Filter(objs, enabled), collides) == [1]
  {
    var objs, enabled, collides := [0, 1], (x: int) => x == 1, (x: int) => true;
    assert objs[..0] == [];
    assert objs[1..] == [1];
  }
}
