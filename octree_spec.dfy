/** The octree of octree.js as values: the octants of a node, the tree that a
    build is meant to produce (`BuildSpec`), and what a collision query is meant
    to report (`Hits`) and to purge (`Purged`). The class in octree.dfy is proved
    to agree with these definitions; their properties are in
    octree_build_props.dfy and octree_query_props.dfy. */
module OctreeSpec {
  import opened Geometry
  import opened Entities

  /** `OCTREE_NODE_ENCLOSE_SIZE`: the radius of every root. */
  const ENCLOSE_SIZE: real := 32.0
  /** `OCTREE_NODE_MIN_OBJ`: a node with this many objects or fewer is not split. */
  const MIN_OBJ: nat := 1
  /** `OCTREE_NODE_MIN_RADIUS`: a node this small or smaller is not split. */
  const MIN_RADIUS: real := 0.1

  /** A measure that halving the radius lowers while the radius is above MIN_RADIUS. */
  function Rank(r: real): nat {
    if r <= MIN_RADIUS then 0 else (10.0 * r).Floor
  }

  lemma HalvingLowersRank(r: real)
    requires r > MIN_RADIUS
    ensures Rank(r / 2.0) < Rank(r)
  {
  }

  /** How many times a radius can be halved before the split rule stops. */
  function Halvings(r: real): nat
    decreases Rank(r)
  {
    if r <= MIN_RADIUS then 0 else (HalvingLowersRank(r); 1 + Halvings(r / 2.0))
  }

  // ---------------------------------------------------------------- octants

  function Shift(v: real, hr: real, up: bool): real { if up then v + hr else v - hr }

  /** Centre of octant `k` of a node centred at `c` whose children have radius `hr`.
      Octant k is the 3-bit number xyz, a set bit meaning the positive side. */
  function OctantCenter(c: Vec3, hr: real, k: nat): Vec3 {
    Vec3(Shift(c.x, hr, XBit(k)), Shift(c.y, hr, YBit(k)), Shift(c.z, hr, ZBit(k)))
  }

  /** The three bits of an octant number k < 8, x the high bit. */
  predicate XBit(k: nat) { 4 <= k }
  predicate YBit(k: nat) { k == 2 || k == 3 || k == 6 || k == 7 }
  predicate ZBit(k: nat) { k == 1 || k == 3 || k == 5 || k == 7 }

  /** `octantContains`: the object is enabled and its box fits the cube centred
      at `oc` with half-width `hr`, by the six inclusive face comparisons. */
  predicate OctantContains(o: GameObject, oc: Vec3, hr: real)
    reads o
  {
    o.enabled && BoxWithin(o.position, o.collisionRadius, Lower(oc, hr), Upper(oc, hr))
  }

  /** The object fits octant `k`: `octantContains` on the octant's centre, the
      objects whose `enabled` flag is set being `live`. */
  predicate OctantFits(o: GameObject, c: Vec3, hr: real, k: nat, live: set<GameObject>) {
    o in live &&
    BoxWithin(o.position, o.collisionRadius, Lower(OctantCenter(c, hr, k), hr), Upper(OctantCenter(c, hr, k), hr))
  }

  /** The first octant at or after `k` that the object fits, or 8 when there is none
      (octant index 8 stands for "no octant" throughout). */
  function FirstOctantFrom(o: GameObject, c: Vec3, hr: real, k: nat, live: set<GameObject>): (r: nat)
    requires k <= 8
    ensures k <= r <= 8
    ensures r < 8 ==> OctantFits(o, c, hr, r, live)
    ensures forall j :: k <= j < r ==> !OctantFits(o, c, hr, j, live)
    decreases 8 - k
  {
    if k == 8 then 8
    else if OctantFits(o, c, hr, k, live) then k
    else FirstOctantFrom(o, c, hr, k + 1, live)
  }

  function FirstOctant(o: GameObject, c: Vec3, hr: real, live: set<GameObject>): nat {
    FirstOctantFrom(o, c, hr, 0, live)
  }

  /** A rule sending each object to an octant when the node centred at `c` splits
      into children of radius `hr` (8 for none). The build is defined for any
      such rule; `Octants` is the one of `buildTree`. */
  type Classifier = (Vec3, real) -> GameObject -> nat

  /** The rule of `buildTree`: the first octant that contains the object, or 8. */
  function Octants(live: set<GameObject>): Classifier {
    (c, hr) => o => FirstOctant(o, c, hr, live)
  }

  /** `cls` sends each of `objs` to its first fitting octant, the enabled objects
      being `live`. */
  ghost predicate Classifies(cls: Classifier, live: set<GameObject>, objs: seq<GameObject>) {
    forall o, c, hr {:trigger FirstOctant(o, c, hr, live)} ::
      o in objs ==> cls(c, hr)(o) == FirstOctant(o, c, hr, live)
  }

  /** The objects, in order, that `octantOf` sends to octant `k`; for k = 8, the
      objects that fit no octant. */
  function Bucket(objs: seq<GameObject>, octantOf: GameObject -> nat, k: nat): (b: seq<GameObject>)
    ensures |b| <= |objs|
  {
    if objs == [] then []
    else
      var last := objs[|objs| - 1];
      Bucket(objs[..|objs| - 1], octantOf, k) + (if octantOf(last) == k then [last] else [])
  }

  /** The octants below `k` that receive at least one object, in increasing order. */
  function NonEmptyOctants(objs: seq<GameObject>, octantOf: GameObject -> nat, k: nat): seq<nat> {
    if k == 0 then []
    else NonEmptyOctants(objs, octantOf, k - 1) + (if Bucket(objs, octantOf, k - 1) != [] then [k - 1] else [])
  }

  function NatMax(a: nat, b: nat): nat { if a < b then b else a }

  // ---------------------------------------------------------------- tree shapes

  /** The value of an octree node: its cube, depth, own objects and children. */
  datatype Shape = Shape(center: Vec3, radius: real, depth: nat,
                         objects: seq<GameObject>, children: seq<Shape>)

  /** Every object stored in the tree, node by node in preorder. */
  function Flatten(s: Shape): seq<GameObject>
    decreases s
  {
    s.objects + FlattenAll(s.children)
  }

  function FlattenAll(cs: seq<Shape>): seq<GameObject>
    decreases cs
  {
    if cs == [] then [] else Flatten(cs[0]) + FlattenAll(cs[1..])
  }

  /** Number of nodes. */
  function Size(s: Shape): nat
    decreases s
  {
    1 + SizeAll(s.children)
  }

  function SizeAll(cs: seq<Shape>): nat
    decreases cs
  {
    if cs == [] then 0 else Size(cs[0]) + SizeAll(cs[1..])
  }

  /** Largest node depth. */
  function MaxDepth(s: Shape): nat
    decreases s
  {
    NatMax(s.depth, MaxDepthAll(s.children))
  }

  function MaxDepthAll(cs: seq<Shape>): nat
    decreases cs
  {
    if cs == [] then 0 else NatMax(MaxDepth(cs[0]), MaxDepthAll(cs[1..]))
  }

  // ---------------------------------------------------------------- the build

  /** The tree that `buildTree` is meant to produce from a node with these
      parameters: stop when there are at most MIN_OBJ objects or the radius is at
      most MIN_RADIUS; otherwise keep the objects that fit no octant and give each
      non-empty octant, in octant order, a child built from its objects. */
  function BuildSpec(c: Vec3, r: real, d: nat, objs: seq<GameObject>, cls: Classifier): Shape
    decreases Rank(r), 1, 0
  {
    if |objs| <= MIN_OBJ || r <= MIN_RADIUS then Shape(c, r, d, objs, [])
    else
      Shape(c, r, d, Bucket(objs, cls(c, r / 2.0), 8),
            ChildrenSpec(objs, c, r, d, NonEmptyOctants(objs, cls(c, r / 2.0), 8), cls))
  }

  function ChildrenSpec(objs: seq<GameObject>, c: Vec3, r: real, d: nat, octs: seq<nat>,
                        cls: Classifier): (cs: seq<Shape>)
    requires r > MIN_RADIUS
    ensures |cs| == |octs|
    decreases Rank(r), 0, |octs|
  {
    if octs == [] then []
    else
      HalvingLowersRank(r);
      [ChildSpec(objs, c, r, d, octs[0], cls)] + ChildrenSpec(objs, c, r, d, octs[1..], cls)
  }

  /** The child for octant `k` before it is built: radius r/2, the octant's centre,
      depth d + 1 and the octant's objects. */
  function ChildSpec(objs: seq<GameObject>, c: Vec3, r: real, d: nat, k: nat, cls: Classifier): Shape
    requires r > MIN_RADIUS
    decreases Rank(r), 0, 0
  {
    HalvingLowersRank(r);
    var hr := r / 2.0;
    BuildSpec(OctantCenter(c, hr, k), hr, d + 1, Bucket(objs, cls(c, hr), k), cls)
  }

  // ---------------------------------------------------------------- geometric placement

  /** Each object's box lies within the cube (c, r). */
  predicate AllWithin(objs: seq<GameObject>, c: Vec3, r: real) {
    forall i :: 0 <= i < |objs| ==> BoxWithin(objs[i].position, objs[i].collisionRadius, Lower(c, r), Upper(c, r))
  }

  /** Every object stored under a child lies within that child's cube, at every level. */
  predicate Placed(s: Shape)
    decreases s
  {
    PlacedAll(s.children)
  }

  predicate PlacedAll(cs: seq<Shape>)
    decreases cs
  {
    cs == [] ||
    (AllWithin(Flatten(cs[0]), cs[0].center, cs[0].radius) && Placed(cs[0]) && PlacedAll(cs[1..]))
  }

  // ---------------------------------------------------------------- the query

  /** `intersects` on a node's cube: false for a disabled probe, otherwise an
      AABB overlap test between the probe's box and the cube. */
  predicate IntersectsCube(c: Vec3, r: real, probe: GameObject, live: set<GameObject>) {
    probe in live && BoxOverlaps(probe.position, probe.collisionRadius, Lower(c, r), Upper(c, r))
  }

  /** The brute-force scan: the enabled objects, in order, that collide with the probe. */
  function HitsIn(objs: seq<GameObject>, probe: GameObject, live: set<GameObject>): (h: seq<GameObject>)
    ensures |h| <= |objs|
  {
    if objs == [] then []
    else
      var last := objs[|objs| - 1];
      HitsIn(objs[..|objs| - 1], probe, live) + (if last in live && Collides(probe, last) then [last] else [])
  }

  /** The enabled objects, in order: a node's list once disabled entries are purged. */
  function EnabledIn(objs: seq<GameObject>, live: set<GameObject>): (e: seq<GameObject>)
    ensures |e| <= |objs|
    ensures forall i :: 0 <= i < |e| ==> e[i] in objs && e[i] in live
  {
    if objs == [] then []
    else
      var last := objs[|objs| - 1];
      EnabledIn(objs[..|objs| - 1], live) + (if last in live then [last] else [])
  }

  /** What `checkCollisions` appends: the hits among a node's own objects, then, in
      child order, the hits of every child whose cube the probe intersects. */
  function Hits(s: Shape, probe: GameObject, live: set<GameObject>): seq<GameObject>
    decreases s
  {
    HitsIn(s.objects, probe, live) + HitsAll(s.children, probe, live)
  }

  function HitsAll(cs: seq<Shape>, probe: GameObject, live: set<GameObject>): seq<GameObject>
    decreases cs
  {
    if cs == [] then []
    else
      (if IntersectsCube(cs[0].center, cs[0].radius, probe, live) then Hits(cs[0], probe, live) else []) +
      HitsAll(cs[1..], probe, live)
  }

  /** The tree after a query: every visited node keeps only its enabled objects;
      nodes the query does not reach are untouched. */
  function Purged(s: Shape, probe: GameObject, live: set<GameObject>): Shape
    decreases s
  {
    s.(objects := EnabledIn(s.objects, live), children := PurgedAll(s.children, probe, live))
  }

  function PurgedAll(cs: seq<Shape>, probe: GameObject, live: set<GameObject>): seq<Shape>
    decreases cs
  {
    if cs == [] then []
    else
      [if IntersectsCube(cs[0].center, cs[0].radius, probe, live) then Purged(cs[0], probe, live) else cs[0]] +
      PurgedAll(cs[1..], probe, live)
  }
}
