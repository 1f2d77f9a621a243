/** What a build produces (octree.js:109-209, 248-252): no object is lost or
    duplicated, every object under a child fits that child's cube, children are
    the non-empty octants in octant order, and depth stays below ten. */
module OctreeBuildProps {
  import opened Geometry
  import opened Entities
  import opened OctreeSpec

  // ---------------------------------------------------------------- buckets

  lemma BucketSnoc(objs: seq<GameObject>, o: GameObject, octantOf: GameObject -> nat, k: nat)
    ensures Bucket(objs + [o], octantOf, k) == Bucket(objs, octantOf, k) + (if octantOf(o) == k then [o] else [])
  {
    assert (objs + [o])[..|objs|] == objs;
  }

  /** One step of the split loop: appending the next object to the bucket of its
      octant (or to the kept list) keeps every bucket equal to `Bucket` of the
      prefix scanned so far. */
  lemma BucketsStep(objs: seq<GameObject>, i: nat, bs: seq<seq<GameObject>>, kept: seq<GameObject>,
                    octantOf: GameObject -> nat)
    requires i < |objs| && |bs| == 8 && octantOf(objs[i]) <= 8
    requires forall j :: 0 <= j < 8 ==> bs[j] == Bucket(objs[..i], octantOf, j)
    requires kept == Bucket(objs[..i], octantOf, 8)
    ensures octantOf(objs[i]) < 8 ==>
              bs[octantOf(objs[i])] + [objs[i]] == Bucket(objs[..i + 1], octantOf, octantOf(objs[i])) &&
              (forall j :: 0 <= j < 8 && j != octantOf(objs[i]) ==> bs[j] == Bucket(objs[..i + 1], octantOf, j)) &&
              kept == Bucket(objs[..i + 1], octantOf, 8)
    ensures octantOf(objs[i]) == 8 ==>
              (forall j :: 0 <= j < 8 ==> bs[j] == Bucket(objs[..i + 1], octantOf, j)) &&
              kept + [objs[i]] == Bucket(objs[..i + 1], octantOf, 8)
  {
    assert objs[..i + 1] == objs[..i] + [objs[i]];
    forall j | 0 <= j <= 8
      ensures Bucket(objs[..i + 1], octantOf, j) ==
              Bucket(objs[..i], octantOf, j) + (if octantOf(objs[i]) == j then [objs[i]] else [])
    {
      BucketSnoc(objs[..i], objs[i], octantOf, j);
    }
  }

  /** Every object in bucket k comes from the input and is sent to octant k. */
  lemma {:induction false} BucketMembers(objs: seq<GameObject>, octantOf: GameObject -> nat, k: nat)
    ensures forall o :: o in Bucket(objs, octantOf, k) ==> o in objs && octantOf(o) == k
  {
    if objs != [] {
      BucketMembers(objs[..|objs| - 1], octantOf, k);
      assert objs == objs[..|objs| - 1] + [objs[|objs| - 1]];
    }
  }

  /** Every copy of an object lands in the bucket of its octant. */
  lemma {:induction false} BucketCount(objs: seq<GameObject>, octantOf: GameObject -> nat, k: nat, x: GameObject)
    ensures multiset(Bucket(objs, octantOf, k))[x] == if octantOf(x) == k then multiset(objs)[x] else 0
  {
    if objs != [] {
      var init, last := objs[..|objs| - 1], objs[|objs| - 1];
      BucketCount(init, octantOf, k, x);
      assert objs == init + [last];
    }
  }

  /** The sum of the buckets named in `octs`. */
  function BucketsOf(objs: seq<GameObject>, octantOf: GameObject -> nat, octs: seq<nat>): multiset<GameObject> {
    if octs == [] then multiset{}
    else multiset(Bucket(objs, octantOf, octs[0])) + BucketsOf(objs, octantOf, octs[1..])
  }

  predicate Increasing(octs: seq<nat>) {
    forall i, j :: 0 <= i < j < |octs| ==> octs[i] < octs[j]
  }

  /** Summing distinct buckets counts each object once if its bucket is among them. */
  lemma {:induction false} BucketsOfCount(objs: seq<GameObject>, octantOf: GameObject -> nat, octs: seq<nat>,
                                          x: GameObject)
    requires Increasing(octs)
    ensures BucketsOf(objs, octantOf, octs)[x] == if octantOf(x) in octs then multiset(objs)[x] else 0
  {
    if octs != [] {
      BucketCount(objs, octantOf, octs[0], x);
      BucketsOfCount(objs, octantOf, octs[1..], x);
      assert octantOf(x) in octs <==> octantOf(x) == octs[0] || octantOf(x) in octs[1..];
    }
  }

  lemma SameCounts(a: multiset<GameObject>, b: multiset<GameObject>)
    requires forall x :: a[x] == b[x]
    ensures a == b
  {
  }

  // ---------------------------------------------------------------- the octants that get a child

  /** They are increasing and below k, so there are at most k of them. */
  lemma {:induction false} NonEmptyOctantsBounds(objs: seq<GameObject>, octantOf: GameObject -> nat, k: nat)
    ensures |NonEmptyOctants(objs, octantOf, k)| <= k && Increasing(NonEmptyOctants(objs, octantOf, k))
    ensures forall j :: 0 <= j < |NonEmptyOctants(objs, octantOf, k)| ==> NonEmptyOctants(objs, octantOf, k)[j] < k
  {
    if k > 0 {
      NonEmptyOctantsBounds(objs, octantOf, k - 1);
    }
  }

  /** Each of them has an object. */
  lemma {:induction false} NonEmptyOctantsOccupied(objs: seq<GameObject>, octantOf: GameObject -> nat, k: nat)
    ensures forall j :: 0 <= j < |NonEmptyOctants(objs, octantOf, k)| ==>
              Bucket(objs, octantOf, NonEmptyOctants(objs, octantOf, k)[j]) != []
  {
    if k > 0 {
      NonEmptyOctantsOccupied(objs, octantOf, k - 1);
      var prev, ne := NonEmptyOctants(objs, octantOf, k - 1), NonEmptyOctants(objs, octantOf, k);
      if Bucket(objs, octantOf, k - 1) != [] {
        assert ne == prev + [k - 1];
        forall j | 0 <= j < |ne|
          ensures Bucket(objs, octantOf, ne[j]) != []
        {
          if j < |prev| {
            assert ne[j] == prev[j];
          }
        }
      } else {
        assert ne == prev;
      }
    }
  }

  /** Every octant below k with an object is among them. */
  lemma {:induction false} NonEmptyOctantsComplete(objs: seq<GameObject>, octantOf: GameObject -> nat, k: nat)
    ensures forall q: nat :: q < k && Bucket(objs, octantOf, q) != [] ==> q in NonEmptyOctants(objs, octantOf, k)
  {
    if k > 0 {
      NonEmptyOctantsComplete(objs, octantOf, k - 1);
      var prev := NonEmptyOctants(objs, octantOf, k - 1);
      assert forall q :: q in prev ==> q in NonEmptyOctants(objs, octantOf, k);
    }
  }

  /** Each object goes to exactly one place: the buckets of the octants that get
      a child and the "fits no octant" bucket together are the input. */
  lemma SplitPartition(objs: seq<GameObject>, octantOf: GameObject -> nat)
    requires forall o :: o in objs ==> octantOf(o) <= 8
    ensures multiset(objs) ==
            multiset(Bucket(objs, octantOf, 8)) + BucketsOf(objs, octantOf, NonEmptyOctants(objs, octantOf, 8))
  {
    var ne := NonEmptyOctants(objs, octantOf, 8);
    NonEmptyOctantsBounds(objs, octantOf, 8);
    NonEmptyOctantsComplete(objs, octantOf, 8);
    forall x
      ensures multiset(objs)[x] == multiset(Bucket(objs, octantOf, 8))[x] + BucketsOf(objs, octantOf, ne)[x]
    {
      BucketCount(objs, octantOf, 8, x);
      BucketsOfCount(objs, octantOf, ne, x);
      var k := octantOf(x);
      if k < 8 && multiset(objs)[x] > 0 {
        BucketCount(objs, octantOf, k, x);
        assert x in Bucket(objs, octantOf, k);
      }
    }
    SameCounts(multiset(objs), multiset(Bucket(objs, octantOf, 8)) + BucketsOf(objs, octantOf, ne));
  }

  /** The rule of `buildTree` classifies every list. */
  lemma OctantsClassify(live: set<GameObject>, objs: seq<GameObject>)
    ensures Classifies(Octants(live), live, objs)
  {
  }

  /** A rule that classifies a list classifies every part of it. */
  lemma ClassifiesSub(cls: Classifier, live: set<GameObject>, objs: seq<GameObject>, sub: seq<GameObject>)
    requires Classifies(cls, live, objs)
    requires forall i :: 0 <= i < |sub| ==> sub[i] in objs
    ensures Classifies(cls, live, sub)
  {
  }

  /** Such a rule sends every object to an octant or to "none". */
  lemma ClassifiesBounded(cls: Classifier, live: set<GameObject>, objs: seq<GameObject>, c: Vec3, hr: real)
    requires Classifies(cls, live, objs)
    ensures forall o :: o in objs ==> cls(c, hr)(o) <= 8
  {
    forall o | o in objs
      ensures cls(c, hr)(o) <= 8
    {
      assert cls(c, hr)(o) == FirstOctant(o, c, hr, live);
    }
  }

  /** The first fitting octant is pinned down by "fits k and none before k". */
  lemma FirstOctantIs(o: GameObject, c: Vec3, hr: real, k: nat, live: set<GameObject>)
    requires k <= 8
    requires k < 8 ==> OctantFits(o, c, hr, k, live)
    requires forall j :: 0 <= j < k ==> !OctantFits(o, c, hr, j, live)
    ensures FirstOctant(o, c, hr, live) == k
  {
  }

  // ---------------------------------------------------------------- children of a split node

  lemma {:induction false} ChildrenSpecAt(objs: seq<GameObject>, c: Vec3, r: real, d: nat, octs: seq<nat>,
                                          cls: Classifier)
    requires r > MIN_RADIUS
    ensures |ChildrenSpec(objs, c, r, d, octs, cls)| == |octs|
    ensures forall j :: 0 <= j < |octs| ==>
              ChildrenSpec(objs, c, r, d, octs, cls)[j] == ChildSpec(objs, c, r, d, octs[j], cls)
  {
    if octs != [] {
      ChildrenSpecAt(objs, c, r, d, octs[1..], cls);
    }
  }

  /** A node with at most MIN_OBJ objects or radius at most MIN_RADIUS is not
      split: it is a leaf holding exactly its input. */
  lemma BuildStops(c: Vec3, r: real, d: nat, objs: seq<GameObject>, cls: Classifier)
    requires |objs| <= MIN_OBJ || r <= MIN_RADIUS
    ensures BuildSpec(c, r, d, objs, cls) == Shape(c, r, d, objs, [])
  {
  }

  /** A split node keeps exactly the objects that fit no octant. */
  lemma SplitKeepsUnfitting(c: Vec3, r: real, d: nat, objs: seq<GameObject>, cls: Classifier)
    requires !(|objs| <= MIN_OBJ || r <= MIN_RADIUS)
    ensures BuildSpec(c, r, d, objs, cls).objects == Bucket(objs, cls(c, r / 2.0), 8)
    ensures BuildSpec(c, r, d, objs, cls).center == c && BuildSpec(c, r, d, objs, cls).radius == r
    ensures BuildSpec(c, r, d, objs, cls).depth == d
  {
  }

  /** A split node has one child per non-empty octant, in increasing octant order,
      each built at the octant's centre with half the radius, the next depth and
      the objects whose first fitting octant it is; so at most eight. */
  lemma SplitChildren(c: Vec3, r: real, d: nat, objs: seq<GameObject>, cls: Classifier)
    requires !(|objs| <= MIN_OBJ || r <= MIN_RADIUS)
    ensures |BuildSpec(c, r, d, objs, cls).children| == |NonEmptyOctants(objs, cls(c, r / 2.0), 8)| <= 8
    ensures forall j :: 0 <= j < |NonEmptyOctants(objs, cls(c, r / 2.0), 8)| ==>
              BuildSpec(c, r, d, objs, cls).children[j] ==
              ChildSpec(objs, c, r, d, NonEmptyOctants(objs, cls(c, r / 2.0), 8)[j], cls)
  {
    var octs := NonEmptyOctants(objs, cls(c, r / 2.0), 8);
    NonEmptyOctantsBounds(objs, cls(c, r / 2.0), 8);
    ChildrenSpecAt(objs, c, r, d, octs, cls);
  }

  /** The child for octant k has the octant's cube and the next depth. */
  lemma ChildSpecShape(objs: seq<GameObject>, c: Vec3, r: real, d: nat, k: nat, cls: Classifier)
    requires r > MIN_RADIUS
    ensures ChildSpec(objs, c, r, d, k, cls).center == OctantCenter(c, r / 2.0, k)
    ensures ChildSpec(objs, c, r, d, k, cls).radius == r / 2.0
    ensures ChildSpec(objs, c, r, d, k, cls).depth == d + 1
  {
  }

  // ---------------------------------------------------------------- no object lost or duplicated

  lemma SizeAllAppend(a: seq<Shape>, b: seq<Shape>)
    ensures SizeAll(a + b) == SizeAll(a) + SizeAll(b)
  {
    if a == [] {
      assert a + b == b;
    } else {
      assert (a + b)[1..] == a[1..] + b;
      SizeAllAppend(a[1..], b);
    }
  }

  lemma FlattenAllAppend(a: seq<Shape>, b: seq<Shape>)
    ensures FlattenAll(a + b) == FlattenAll(a) + FlattenAll(b)
  {
    if a == [] {
      assert a + b == b;
    } else {
      assert (a + b)[1..] == a[1..] + b;
      FlattenAllAppend(a[1..], b);
    }
  }

  /** Partition invariant: the objects stored anywhere in a built tree are the
      input objects, each exactly as often as in the input. */
  lemma {:induction false} BuildPartition(c: Vec3, r: real, d: nat, objs: seq<GameObject>, cls: Classifier,
                                          live: set<GameObject>)
    requires Classifies(cls, live, objs)
    ensures multiset(Flatten(BuildSpec(c, r, d, objs, cls))) == multiset(objs)
    decreases Rank(r), 1
  {
    if !(|objs| <= MIN_OBJ || r <= MIN_RADIUS) {
      var octantOf := cls(c, r / 2.0);
      var octs := NonEmptyOctants(objs, octantOf, 8);
      var s := BuildSpec(c, r, d, objs, cls);
      assert s.objects == Bucket(objs, octantOf, 8);
      assert s.children == ChildrenSpec(objs, c, r, d, octs, cls);
      ChildrenPartition(objs, c, r, d, octs, cls, live);
      ClassifiesBounded(cls, live, objs, c, r / 2.0);
      SplitPartition(objs, octantOf);
      assert multiset(Flatten(s)) == multiset(s.objects) + multiset(FlattenAll(s.children));
    } else {
      assert FlattenAll([]) == [];
    }
  }

  lemma {:induction false} ChildrenPartition(objs: seq<GameObject>, c: Vec3, r: real, d: nat, octs: seq<nat>,
                                             cls: Classifier, live: set<GameObject>)
    requires r > MIN_RADIUS && Classifies(cls, live, objs)
    ensures multiset(FlattenAll(ChildrenSpec(objs, c, r, d, octs, cls))) ==
            BucketsOf(objs, cls(c, r / 2.0), octs)
    decreases Rank(r), 0, |octs|
  {
    if octs != [] {
      HalvingLowersRank(r);
      var hr := r / 2.0;
      var cs := ChildrenSpec(objs, c, r, d, octs, cls);
      var b := Bucket(objs, cls(c, hr), octs[0]);
      BucketMembers(objs, cls(c, hr), octs[0]);
      ClassifiesSub(cls, live, objs, b);
      BuildPartition(OctantCenter(c, hr, octs[0]), hr, d + 1, b, cls, live);
      ChildrenPartition(objs, c, r, d, octs[1..], cls, live);
      assert cs[0] == ChildSpec(objs, c, r, d, octs[0], cls);
      assert cs[1..] == ChildrenSpec(objs, c, r, d, octs[1..], cls);
      assert multiset(FlattenAll(cs)) == multiset(Flatten(cs[0])) + multiset(FlattenAll(cs[1..]));
      assert multiset(Flatten(cs[0])) == multiset(b);
      assert BucketsOf(objs, cls(c, hr), octs) ==
             multiset(b) + BucketsOf(objs, cls(c, hr), octs[1..]);
    }
  }

  // ---------------------------------------------------------------- geometric placement

  /** Every object stored under a child node of a built tree lies within that
      child's cube, at every level. */
  lemma {:induction false} BuildPlaced(c: Vec3, r: real, d: nat, objs: seq<GameObject>, cls: Classifier,
                                       live: set<GameObject>)
    requires Classifies(cls, live, objs)
    ensures Placed(BuildSpec(c, r, d, objs, cls))
    decreases Rank(r), 1
  {
    if !(|objs| <= MIN_OBJ || r <= MIN_RADIUS) {
      var octs := NonEmptyOctants(objs, cls(c, r / 2.0), 8);
      NonEmptyOctantsBounds(objs, cls(c, r / 2.0), 8);
      ChildrenPlaced(objs, c, r, d, octs, cls, live);
      assert BuildSpec(c, r, d, objs, cls).children == ChildrenSpec(objs, c, r, d, octs, cls);
    }
  }

  lemma {:induction false} ChildrenPlaced(objs: seq<GameObject>, c: Vec3, r: real, d: nat, octs: seq<nat>,
                                          cls: Classifier, live: set<GameObject>)
    requires r > MIN_RADIUS && Classifies(cls, live, objs)
    requires forall j :: 0 <= j < |octs| ==> octs[j] < 8
    ensures PlacedAll(ChildrenSpec(objs, c, r, d, octs, cls))
    decreases Rank(r), 0, |octs|
  {
    if octs != [] {
      HalvingLowersRank(r);
      var hr := r / 2.0;
      var k := octs[0];
      var child := ChildSpec(objs, c, r, d, k, cls);
      ChildSpecShape(objs, c, r, d, k, cls);
      ChildWithinOctant(objs, c, r, d, k, cls, live);
      BucketMembers(objs, cls(c, hr), k);
      ClassifiesSub(cls, live, objs, Bucket(objs, cls(c, hr), k));
      BuildPlaced(OctantCenter(c, hr, k), hr, d + 1, Bucket(objs, cls(c, hr), k), cls, live);
      assert Placed(child);
      ChildrenPlaced(objs, c, r, d, octs[1..], cls, live);
      assert ChildrenSpec(objs, c, r, d, octs, cls) == [child] + ChildrenSpec(objs, c, r, d, octs[1..], cls);
    }
  }

  /** The objects under the child for octant k all fit octant k. */
  lemma ChildWithinOctant(objs: seq<GameObject>, c: Vec3, r: real, d: nat, k: nat, cls: Classifier,
                          live: set<GameObject>)
    requires r > MIN_RADIUS && k < 8 && Classifies(cls, live, objs)
    ensures AllWithin(Flatten(ChildSpec(objs, c, r, d, k, cls)), OctantCenter(c, r / 2.0, k), r / 2.0)
  {
    var hr := r / 2.0;
    var b := Bucket(objs, cls(c, hr), k);
    var ck := OctantCenter(c, hr, k);
    var fl := Flatten(ChildSpec(objs, c, r, d, k, cls));
    BucketMembers(objs, cls(c, hr), k);
    ClassifiesSub(cls, live, objs, b);
    BuildPartition(ck, hr, d + 1, b, cls, live);
    assert multiset(fl) == multiset(b);
    BucketMembers(objs, cls(c, hr), k);
    forall i | 0 <= i < |fl|
      ensures BoxWithin(fl[i].position, fl[i].collisionRadius, Lower(ck, hr), Upper(ck, hr))
    {
      assert fl[i] in multiset(fl);
      assert fl[i] in b;
      assert FirstOctant(fl[i], c, hr, live) == k;
      assert OctantFits(fl[i], c, hr, k, live);
    }
  }

  // ---------------------------------------------------------------- octant geometry

  /** Cube (c1, r1) lies within cube (c2, r2). */
  predicate CubeInside(c1: Vec3, r1: real, c2: Vec3, r2: real) {
    Lower(c2, r2).x <= Lower(c1, r1).x && Lower(c2, r2).y <= Lower(c1, r1).y && Lower(c2, r2).z <= Lower(c1, r1).z &&
    Upper(c1, r1).x <= Upper(c2, r2).x && Upper(c1, r1).y <= Upper(c2, r2).y && Upper(c1, r1).z <= Upper(c2, r2).z
  }

  /** The eight octants in the order octree.js:143-165 lists them: x is the high
      bit, and a set bit is the positive side. */
  lemma OctantOrder(c: Vec3, hr: real)
    ensures OctantCenter(c, hr, 0) == Vec3(c.x - hr, c.y - hr, c.z - hr)
    ensures OctantCenter(c, hr, 1) == Vec3(c.x - hr, c.y - hr, c.z + hr)
    ensures OctantCenter(c, hr, 2) == Vec3(c.x - hr, c.y + hr, c.z - hr)
    ensures OctantCenter(c, hr, 3) == Vec3(c.x - hr, c.y + hr, c.z + hr)
    ensures OctantCenter(c, hr, 4) == Vec3(c.x + hr, c.y - hr, c.z - hr)
    ensures OctantCenter(c, hr, 5) == Vec3(c.x + hr, c.y - hr, c.z + hr)
    ensures OctantCenter(c, hr, 6) == Vec3(c.x + hr, c.y + hr, c.z - hr)
    ensures OctantCenter(c, hr, 7) == Vec3(c.x + hr, c.y + hr, c.z + hr)
  {
  }

  /** Each octant's cube lies within the parent's cube. */
  lemma OctantInsideParent(c: Vec3, hr: real, k: nat)
    requires hr >= 0.0
    ensures CubeInside(OctantCenter(c, hr, k), hr, c, 2.0 * hr)
  {
  }

  /** The eight octants cover the parent's cube. */
  lemma OctantsCoverParent(c: Vec3, hr: real, q: Vec3)
    requires hr >= 0.0
    requires InBox(q, Lower(c, 2.0 * hr), Upper(c, 2.0 * hr))
    ensures exists k :: 0 <= k < 8 && InBox(q, Lower(OctantCenter(c, hr, k), hr), Upper(OctantCenter(c, hr, k), hr))
  {
    var k := (if q.x >= c.x then 4 else 0) + (if q.y >= c.y then 2 else 0) + (if q.z >= c.z then 1 else 0);
    assert InBox(q, Lower(OctantCenter(c, hr, k), hr), Upper(OctantCenter(c, hr, k), hr));
  }

  /** A child's cube lies within its parent's, so a tree's cubes nest. */
  lemma ChildInsideParent(c: Vec3, r: real, d: nat, objs: seq<GameObject>, cls: Classifier, j: nat)
    requires r >= 0.0
    requires j < |BuildSpec(c, r, d, objs, cls).children|
    ensures var ch := BuildSpec(c, r, d, objs, cls).children[j];
            ch.radius == r / 2.0 && ch.depth == d + 1 && CubeInside(ch.center, ch.radius, c, r)
  {
    SplitChildren(c, r, d, objs, cls);
    var octs := NonEmptyOctants(objs, cls(c, r / 2.0), 8);
    ChildSpecShape(objs, c, r, d, octs[j], cls);
    OctantInsideParent(c, r / 2.0, octs[j]);
  }

  // ---------------------------------------------------------------- depth

  lemma MaxDepthAllAppend(a: seq<Shape>, b: seq<Shape>)
    ensures MaxDepthAll(a + b) == NatMax(MaxDepthAll(a), MaxDepthAll(b))
  {
    if a == [] {
      assert a + b == b;
    } else {
      assert (a + b)[1..] == a[1..] + b;
      MaxDepthAllAppend(a[1..], b);
    }
  }

  /** A tree built at depth d from a node of radius r reaches depth at most
      d + Halvings(r), and at least d. */
  lemma {:induction false} BuildDepth(c: Vec3, r: real, d: nat, objs: seq<GameObject>, cls: Classifier)
    ensures d <= MaxDepth(BuildSpec(c, r, d, objs, cls)) <= d + Halvings(r)
    decreases Rank(r), 1
  {
    if !(|objs| <= MIN_OBJ || r <= MIN_RADIUS) {
      var octs := NonEmptyOctants(objs, cls(c, r / 2.0), 8);
      ChildrenDepth(objs, c, r, d, octs, cls);
      assert BuildSpec(c, r, d, objs, cls).children == ChildrenSpec(objs, c, r, d, octs, cls);
    }
  }

  lemma {:induction false} ChildrenDepth(objs: seq<GameObject>, c: Vec3, r: real, d: nat, octs: seq<nat>,
                                         cls: Classifier)
    requires r > MIN_RADIUS
    ensures MaxDepthAll(ChildrenSpec(objs, c, r, d, octs, cls)) <= d + Halvings(r)
    decreases Rank(r), 0, |octs|
  {
    if octs != [] {
      HalvingLowersRank(r);
      var hr := r / 2.0;
      BuildDepth(OctantCenter(c, hr, octs[0]), hr, d + 1, Bucket(objs, cls(c, hr), octs[0]), cls);
      ChildrenDepth(objs, c, r, d, octs[1..], cls);
    }
  }

  /** A split node that gets children reaches at least one level deeper. */
  lemma BuildSplitDepth(c: Vec3, r: real, d: nat, objs: seq<GameObject>, cls: Classifier)
    requires !(|objs| <= MIN_OBJ || r <= MIN_RADIUS)
    ensures BuildSpec(c, r, d, objs, cls).children != [] ==>
              d + 1 <= MaxDepthAll(BuildSpec(c, r, d, objs, cls).children)
  {
    var octs := NonEmptyOctants(objs, cls(c, r / 2.0), 8);
    assert BuildSpec(c, r, d, objs, cls).children == ChildrenSpec(objs, c, r, d, octs, cls);
    if octs != [] {
      FirstChildDepth(objs, c, r, d, octs, cls);
    }
  }

  lemma FirstChildDepth(objs: seq<GameObject>, c: Vec3, r: real, d: nat, octs: seq<nat>, cls: Classifier)
    requires r > MIN_RADIUS && octs != []
    ensures d + 1 <= MaxDepthAll(ChildrenSpec(objs, c, r, d, octs, cls))
  {
    HalvingLowersRank(r);
    var hr := r / 2.0;
    BuildDepth(OctantCenter(c, hr, octs[0]), hr, d + 1, Bucket(objs, cls(c, hr), octs[0]), cls);
  }

  lemma RootHalvings()
    ensures Halvings(ENCLOSE_SIZE) == 9
  {
    assert Halvings(0.0625) == 0;
    assert Halvings(0.125) == 1;
    assert Halvings(0.25) == 2;
    assert Halvings(0.5) == 3;
    assert Halvings(1.0) == 4;
    assert Halvings(2.0) == 5;
    assert Halvings(4.0) == 6;
    assert Halvings(8.0) == 7;
    assert Halvings(16.0) == 8;
  }

  /** A tree built from a root (radius 32, depth 0) is at most nine levels deep. */
  lemma RootDepthBound(c: Vec3, objs: seq<GameObject>, cls: Classifier)
    ensures MaxDepth(BuildSpec(c, ENCLOSE_SIZE, 0, objs, cls)) <= 9
  {
    BuildDepth(c, ENCLOSE_SIZE, 0, objs, cls);
    RootHalvings();
  }

  // ---------------------------------------------------------------- a leaf need not be small

  /** A node can end up a leaf holding several objects at full radius: objects
      whose boxes straddle the centre planes fit no octant, so they all stay and
      no child is made. */
  lemma StraddlingObjectsStayInLeaf(c: Vec3, a: GameObject, b: GameObject, cls: Classifier,
                                    live: set<GameObject>)
    requires Classifies(cls, live, [a, b])
    requires a.position == c && b.position == c
    requires a.collisionRadius == 1.0 && b.collisionRadius == 1.0
    ensures var s := BuildSpec(c, ENCLOSE_SIZE, 0, [a, b], cls);
            s.children == [] && s.objects == [a, b] && s.radius > MIN_RADIUS
  {
    var hr := ENCLOSE_SIZE / 2.0;
    var octantOf := cls(c, hr);
    forall o, k | o in [a, b] && 0 <= k < 8
      ensures !OctantFits(o, c, hr, k, live)
    {
      var ck := OctantCenter(c, hr, k);
      assert ck.x == c.x - hr || ck.x == c.x + hr;
    }
    assert FirstOctant(a, c, hr, live) == 8 && FirstOctant(b, c, hr, live) == 8;
    assert octantOf(a) == 8 && octantOf(b) == 8;
    var objs := [a, b];
    assert objs[..1] == [a];
    assert [a][..0] == [];
    forall k | 0 <= k < 8
      ensures Bucket(objs, octantOf, k) == []
    {
      assert Bucket([a], octantOf, k) == [];
    }
    assert Bucket([a], octantOf, 8) == [a];
    assert Bucket(objs, octantOf, 8) == [a, b];
    NonEmptyOctantsBounds(objs, octantOf, 8);
    NonEmptyOctantsOccupied(objs, octantOf, 8);
  }
}
