/** The `OctreeNode` class of octree.js and its module globals, proved against
    the value-level definitions of octree_spec.dfy: a build produces `BuildSpec`,
    a query reports `Hits` and leaves the tree `Purged`. */
module Octree {
  import opened Geometry
  import opened Entities
  import opened OctreeSpec
  import opened OctreeBuildProps
  import opened OctreeQueryProps

  /** `OCTREE_ROOT_NODE`, `OCTREE_DEPTH` and `OCTREE_NODE_COUNT`. */
  class OctreeGlobals {
    var root: OctreeNode?
    var depth: nat
    var nodeCount: nat

    constructor ()
      ensures root == null && depth == 0 && nodeCount == 0
    {
      root := null;
      depth := 0;
      nodeCount := 0;
    }
  }

  /** `live` is exactly the set of the listed objects whose `enabled` flag is set. */
  ghost predicate EnabledAre(objs: seq<GameObject>, live: set<GameObject>)
    reads objs
  {
    forall i :: 0 <= i < |objs| ==> (objs[i].enabled <==> objs[i] in live)
  }

  lemma EnabledAreSplit(a: seq<GameObject>, b: seq<GameObject>, live: set<GameObject>)
    requires EnabledAre(a + b, live)
    ensures EnabledAre(a, live) && EnabledAre(b, live)
  {
    forall i | 0 <= i < |a|
      ensures a[i].enabled <==> a[i] in live
    {
      assert a[i] == (a + b)[i];
    }
    forall i | 0 <= i < |b|
      ensures b[i].enabled <==> b[i] in live
    {
      assert b[i] == (a + b)[|a| + i];
    }
  }

  /** Every listed object has a drawable (every test reads the drawable's position). */
  predicate Drawn(objs: seq<GameObject>) {
    forall i :: 0 <= i < |objs| ==> objs[i].drawable != null
  }

  /** Every element of `part` occurs in `whole`. */
  predicate Within(part: seq<GameObject>, whole: seq<GameObject>) {
    forall i :: 0 <= i < |part| ==> part[i] in whole
  }

  /** The `octantCenters` table of `buildTree`: octant k is the 3-bit number xyz,
      x the high bit, a set bit meaning the positive side. */
  function OctantCenters(c: Vec3, r: real): (cs: seq<Vec3>)
    ensures |cs| == 8
  {
    var x, y, z := c.x, c.y, c.z;
    [ Vec3(x - r, y - r, z - r),
      Vec3(x - r, y - r, z + r),
      Vec3(x - r, y + r, z - r),
      Vec3(x - r, y + r, z + r),
      Vec3(x + r, y - r, z - r),
      Vec3(x + r, y - r, z + r),
      Vec3(x + r, y + r, z - r),
      Vec3(x + r, y + r, z + r) ]
  }

  /** The table agrees with the bit rule of `OctantCenter`. */
  lemma OctantCenterAt(c: Vec3, r: real, k: nat)
    requires k < 8
    ensures OctantCenters(c, r)[k] == OctantCenter(c, r, k)
  {
  }

  /** The intended subtree of octant k is the intended build of a leaf placed
      there, its centre read from the table. */
  lemma ChildSpecByTable(objs: seq<GameObject>, c: Vec3, r: real, d: nat, k: nat, cls: Classifier,
                         cc: Vec3, cr: real, cd: nat, cobjs: seq<GameObject>)
    requires r > MIN_RADIUS && k < 8
    requires cc == OctantCenters(c, r / 2.0)[k] && cr == r / 2.0 && cd == d + 1
    requires cobjs == Bucket(objs, cls(c, r / 2.0), k)
    ensures ChildSpec(objs, c, r, d, k, cls) == BuildSpec(cc, cr, cd, cobjs, cls)
  {
    OctantCenterAt(c, r / 2.0, k);
  }

  /** The octant loop of `buildTree`, stopping at the first octant in canonical
      order whose cube contains the object; 8 when there is none. */
  method FindOctant(obj: GameObject, c: Vec3, octantCenters: seq<Vec3>, r: real, ghost live: set<GameObject>)
    returns (octIdx: nat)
    requires octantCenters == OctantCenters(c, r)
    requires obj.enabled <==> obj in live
    ensures octIdx == FirstOctant(obj, c, r, live)
  {
    forall k | 0 <= k < 8
      ensures octantCenters[k] == OctantCenter(c, r, k)
    {
      OctantCenterAt(c, r, k);
    }
    octIdx := 0;
    while octIdx < 8 && !OctantContains(obj, octantCenters[octIdx], r)
      invariant 0 <= octIdx <= 8
      invariant forall j :: 0 <= j < octIdx ==> !OctantFits(obj, c, r, j, live)
    {
      octIdx := octIdx + 1;
    }
    FirstOctantIs(obj, c, r, octIdx, live);
  }

  /** The lists a split produces from `objs`: bucket k for octant k, and the
      objects that fit no octant. */
  ghost predicate SplitInto(objs: seq<GameObject>, octantOf: GameObject -> nat,
                            octantObjects: seq<seq<GameObject>>, kept: seq<GameObject>)
  {
    |octantObjects| == 8 &&
    (forall k :: 0 <= k < 8 ==> octantObjects[k] == Bucket(objs, octantOf, k)) &&
    kept == Bucket(objs, octantOf, 8)
  }

  /** The first region of `buildTree`: each object of the node at `c`, in order,
      goes to the first octant (children of half-width `r`), in canonical order,
      that contains it; the objects no octant contains stay. */
  method SplitObjects(objects: seq<GameObject>, c: Vec3, r: real, ghost live: set<GameObject>, ghost cls: Classifier)
    returns (octantObjects: seq<seq<GameObject>>, kept: seq<GameObject>)
    requires EnabledAre(objects, live) && Classifies(cls, live, objects)
    ensures |octantObjects| == 8
    ensures SplitInto(objects, cls(c, r), octantObjects, kept)
  {
    ghost var octantOf := cls(c, r);
    var octantCenters := OctantCenters(c, r);
    octantObjects := [[], [], [], [], [], [], [], []];
    kept := [];
    var objIdx := 0;
    while objIdx < |objects|
      invariant 0 <= objIdx <= |objects|
      invariant |octantObjects| == 8
      invariant forall k :: 0 <= k < 8 ==> octantObjects[k] == Bucket(objects[..objIdx], octantOf, k)
      invariant kept == Bucket(objects[..objIdx], octantOf, 8)
    {
      var obj := objects[objIdx];
      assert obj in objects;
      var octIdx := FindOctant(obj, c, octantCenters, r, live);
      assert octantOf(obj) == octIdx;
      BucketsStep(objects, objIdx, octantObjects, kept, octantOf);
      if octIdx < 8 {
        octantObjects := octantObjects[octIdx := octantObjects[octIdx] + [obj]];
      } else {
        kept := kept + [obj];
      }
      objIdx := objIdx + 1;
    }
    assert objects[..objIdx] == objects;
  }

  /** The scan's list after `p` entries: the purged prefix, then the rest as it was. */
  ghost predicate ScanState(objects: seq<GameObject>, p: nat, remaining: seq<GameObject>, i: nat,
                            live: set<GameObject>)
  {
    p <= |objects| && remaining == EnabledIn(objects[..p], live) + objects[p..] &&
    i == |EnabledIn(objects[..p], live)|
  }

  /** The entry the scan examines next is the next entry of the original list. */
  lemma ScanNext(objects: seq<GameObject>, p: nat, remaining: seq<GameObject>, i: nat, live: set<GameObject>)
    requires ScanState(objects, p, remaining, i, live) && p < |objects|
    ensures i < |remaining| && remaining[i] == objects[p]
  {
    assert remaining[i..] == objects[p..];
  }

  /** Splicing out a disabled entry advances the scan by one. */
  lemma ScanSkip(objects: seq<GameObject>, p: nat, remaining: seq<GameObject>, i: nat, live: set<GameObject>)
    requires ScanState(objects, p, remaining, i, live) && p < |objects| && objects[p] !in live
    ensures i < |remaining| && remaining[i] == objects[p]
    ensures ScanState(objects, p + 1, remaining[..i] + remaining[i + 1..], i, live)
  {
    EnabledInStep(objects, p, live);
    assert objects[p..] == [objects[p]] + objects[p + 1..];
    assert remaining[..i] == EnabledIn(objects[..p], live);
    assert remaining[i + 1..] == objects[p + 1..];
  }

  /** Stepping over an enabled entry advances the scan by one. */
  lemma ScanKeep(objects: seq<GameObject>, p: nat, remaining: seq<GameObject>, i: nat, live: set<GameObject>)
    requires ScanState(objects, p, remaining, i, live) && p < |objects| && objects[p] in live
    ensures i < |remaining| && remaining[i] == objects[p]
    ensures ScanState(objects, p + 1, remaining, i + 1, live)
  {
    EnabledInStep(objects, p, live);
    assert objects[p..] == [objects[p]] + objects[p + 1..];
    assert remaining == (EnabledIn(objects[..p], live) + [objects[p]]) + objects[p + 1..];
  }

  /** The scan's report grows by the hit of the entry just examined. */
  lemma ScanReport(objects: seq<GameObject>, p: nat, probe: GameObject, inColliders: seq<GameObject>, hit: bool,
                   live: set<GameObject>)
    requires p < |objects|
    requires hit <==> objects[p] in live && Collides(probe, objects[p])
    ensures inColliders + HitsIn(objects[..p + 1], probe, live) ==
            inColliders + HitsIn(objects[..p], probe, live) + (if hit then [objects[p]] else [])
  {
    var h := HitsIn(objects[..p], probe, live);
    HitsInStep(objects, p, probe, live);
    if hit {
      assert (inColliders + h) + [objects[p]] == inColliders + (h + [objects[p]]);
    } else {
      assert h + [] == h;
    }
  }

  /** The first region of `checkCollisions`, on a node's object list: each
      disabled entry is spliced out and the next entry examined at the same index;
      each enabled one that the probe's `checkCollision` accepts is appended. */
  method ScanObjects(objects: seq<GameObject>, probe: GameObject, inColliders: seq<GameObject>,
                     ghost live: set<GameObject>)
    returns (remaining: seq<GameObject>, outColliders: seq<GameObject>)
    requires Drawn(objects) && probe.drawable != null
    requires EnabledAre(objects, live)
    ensures remaining == EnabledIn(objects, live)
    ensures outColliders == inColliders + HitsIn(objects, probe, live)
  {
    remaining := objects;
    outColliders := inColliders;
    var containedIdx := 0;
    ghost var p := 0;
    assert objects[..0] == [];
    while containedIdx < |remaining|
      invariant ScanState(objects, p, remaining, containedIdx, live)
      invariant outColliders == inColliders + HitsIn(objects[..p], probe, live)
      decreases |remaining| - containedIdx
    {
      assert p < |objects|;
      ScanNext(objects, p, remaining, containedIdx, live);
      var nodeObject := remaining[containedIdx];
      if !nodeObject.enabled {
        ScanSkip(objects, p, remaining, containedIdx, live);
        ScanReport(objects, p, probe, inColliders, false, live);
        remaining := remaining[..containedIdx] + remaining[containedIdx + 1..];
      } else {
        ScanKeep(objects, p, remaining, containedIdx, live);
        CheckCollisionDrawn(probe, nodeObject);
        var hit := probe.CheckCollision(nodeObject) == Returned(true);
        ScanReport(objects, p, probe, inColliders, hit, live);
        if hit {
          outColliders := outColliders + [nodeObject];
        }
        containedIdx := containedIdx + 1;
      }
      p := p + 1;
    }
    assert objects[..p] == objects;
  }

  /** The octants below `k`, in increasing order, whose list is non-empty: the
      children that `buildTree` makes once it has examined octants 0 .. k-1. */
  function Occupied(octantObjects: seq<seq<GameObject>>, k: nat): (ks: seq<nat>)
    requires k <= |octantObjects|
    ensures |ks| <= k
    ensures forall i :: 0 <= i < |ks| ==> ks[i] < k && octantObjects[ks[i]] != []
  {
    if k == 0 then []
    else Occupied(octantObjects, k - 1) + (if octantObjects[k - 1] != [] then [k - 1] else [])
  }

  /** On the lists of the split, the occupied octants are the non-empty buckets. */
  lemma {:induction false} OccupiedBuckets(octantObjects: seq<seq<GameObject>>, objs: seq<GameObject>,
                                           octantOf: GameObject -> nat, k: nat)
    requires |octantObjects| == 8 && k <= 8
    requires forall j :: 0 <= j < 8 ==> octantObjects[j] == Bucket(objs, octantOf, j)
    ensures Occupied(octantObjects, k) == NonEmptyOctants(objs, octantOf, k)
  {
    if k > 0 {
      OccupiedBuckets(octantObjects, objs, octantOf, k - 1);
    }
  }

  /** What `buildTree` relies on when it splits a node: the intended tree keeps
      the objects no octant fits and has one child per occupied octant, in
      octant order, each the intended build of that octant's list; a split that
      makes children reaches one level deeper; every list of the split is drawn
      from the node's objects. */
  lemma SplitFacts(c: Vec3, r: real, d: nat, objs: seq<GameObject>,
                   octantObjects: seq<seq<GameObject>>, kept: seq<GameObject>, cls: Classifier)
    requires !(|objs| <= MIN_OBJ || r <= MIN_RADIUS)
    requires SplitInto(objs, cls(c, r / 2.0), octantObjects, kept)
    ensures BuildSpec(c, r, d, objs, cls) ==
            Shape(c, r, d, kept, ChildrenSpec(objs, c, r, d, Occupied(octantObjects, 8), cls))
    ensures ChildrenSpec(objs, c, r, d, Occupied(octantObjects, 8), cls) != [] ==>
              d + 1 <= MaxDepthAll(ChildrenSpec(objs, c, r, d, Occupied(octantObjects, 8), cls))
    ensures forall k :: 0 <= k < 8 ==> Within(octantObjects[k], objs)
    ensures Within(kept, objs)
  {
    var octantOf := cls(c, r / 2.0);
    forall k | 0 <= k <= 8
      ensures Within(Bucket(objs, octantOf, k), objs)
    {
      BucketMembers(objs, octantOf, k);
    }
    OccupiedBuckets(octantObjects, objs, octantOf, 8);
    BuildSplitDepth(c, r, d, objs, cls);
  }

  class OctreeNode {
    const center: Vec3
    /** How far the cube extends from the centre along each axis. */
    const radius: real
    const extentMin: Vec3 := Lower(center, radius)
    const extentMax: Vec3 := Upper(center, radius)
    const parent: OctreeNode?
    const depth: nat
    /** Subdivided nodes. */
    var children: seq<OctreeNode>
    /** Objects held by this node and not by any child. */
    var objects: seq<GameObject>
    /** This node and every node below it. */
    ghost var Repr: set<OctreeNode>
    /** The subtree as a value. */
    ghost var Model: Shape

    /** The node owns disjoint subtrees, each valid, and every object it holds
        has a drawable (every test reads the drawable's position). */
    ghost predicate ChildrenValid()
      reads this, Repr
      ensures ChildrenValid() ==> this in Repr
      decreases Repr, 0
    {
      this in Repr &&
      (Drawn(objects)) &&
      (forall i :: 0 <= i < |children| ==>
         children[i] in Repr && children[i].Repr <= Repr && this !in children[i].Repr &&
         children[i].Valid()) &&
      (forall i, j {:trigger children[i].Repr, children[j].Repr} :: 0 <= i < j < |children| ==>
         children[i].Repr !! children[j].Repr)
    }

    /** `ChildrenValid`, and `Model` is this node's fields over its children's models. */
    ghost predicate Valid()
      reads this, Repr
      ensures Valid() ==> this in Repr
      decreases Repr, 1
    {
      ChildrenValid() &&
      Model.center == center && Model.radius == radius && Model.depth == depth &&
      Model.objects == objects && |Model.children| == |children| &&
      (forall i :: 0 <= i < |children| ==> Model.children[i] == children[i].Model)
    }

    /** After this node's own fields other than `children` and `Repr` change, it
        still owns its subtrees, which are untouched. */
    twostate lemma OwnChanged()
      requires old(ChildrenValid())
      requires children == old(children) && Repr == old(Repr)
      requires unchanged(old(Repr) - {this})
      requires Drawn(objects)
      ensures ChildrenValid()
      ensures forall j :: 0 <= j < |children| ==> unchanged(children[j])
    {
      forall j | 0 <= j < |children|
        ensures children[j].Valid() && unchanged(children[j])
      {
        assert old(children[j].Repr) <= old(Repr) - {this};
        assert unchanged(old(children[j].Repr));
      }
    }

    /** After a call that changed only the subtree of child k, keeping it valid
        and adding only fresh nodes to it, the node owns the grown subtree and
        the other children are untouched. */
    twostate lemma ChildChanged(k: nat)
      requires old(ChildrenValid()) && k < |old(children)|
      requires children == old(children) && objects == old(objects)
      requires children[k].Valid() && old(children[k].Repr) <= children[k].Repr
      requires fresh(children[k].Repr - old(children[k].Repr))
      requires Repr == old(Repr) + children[k].Repr
      requires unchanged(old(Repr) - old(children[k].Repr) - {this})
      ensures ChildrenValid()
      ensures forall j :: 0 <= j < |children| && j != k ==> unchanged(children[j])
    {
      forall j | 0 <= j < |children| && j != k
        ensures children[j].Valid() && unchanged(children[j])
        ensures children[j].Repr !! children[k].Repr
      {
        assert old(children[j].Repr) !! old(children[k].Repr);
        assert old(children[j].Repr) <= old(Repr) - old(children[k].Repr) - {this};
        assert unchanged(old(children[j].Repr));
        assert unchanged(children[j]);
      }
    }

    /** The constructor: the extents follow from centre and radius, the depth is
        one below the parent's (0 for a root), and `OCTREE_DEPTH` is raised to it. */
    constructor (center: Vec3, radius: real, parent: OctreeNode?, objects: seq<GameObject>,
                 g: OctreeGlobals)
      modifies g
      ensures this.center == center && this.radius == radius && this.parent == parent
      ensures this.depth == if parent != null then parent.depth + 1 else 0
      ensures this.children == [] && this.objects == objects && Repr == {this}
      ensures Model == Shape(center, radius, this.depth, objects, [])
      ensures (Drawn(objects)) ==> Valid()
      ensures g.depth == NatMax(old(g.depth), this.depth)
      ensures g.root == old(g.root) && g.nodeCount == old(g.nodeCount)
    {
      this.center := center;
      this.radius := radius;
      this.parent := parent;
      this.depth := if parent != null then parent.depth + 1 else 0;
      this.children := [];
      this.objects := objects;
      Repr := {this};
      Model := Shape(center, radius, if parent != null then parent.depth + 1 else 0, objects, []);
      new;
      if this.depth > g.depth {
        g.depth := this.depth;
      }
    }

    /** `contains`: false for a disabled object unless asked otherwise; else the
        six inclusive face comparisons against the extents. */
    function Contains(o: GameObject, evenIfDisabled: bool): (r: bool)
      reads o
      requires o.enabled || evenIfDisabled ==> o.drawable != null
      ensures r ==> o.enabled || evenIfDisabled
      ensures r && o.collisionRadius >= 0.0 ==> Intersects(o, evenIfDisabled)
    {
      if !o.enabled && !evenIfDisabled then false
      else BoxWithin(o.position, o.collisionRadius, extentMin, extentMax)
    }

    /** `intersects`, as documented: false for a disabled object unless asked
        otherwise; else the per-axis overlap test, the three axes combined with AND. */
    function Intersects(o: GameObject, evenIfDisabled: bool): (r: bool)
      reads o
      requires o.enabled || evenIfDisabled ==> o.drawable != null
      ensures r ==> o.enabled || evenIfDisabled
    {
      if !o.enabled && !evenIfDisabled then false
      else BoxOverlaps(o.position, o.collisionRadius, extentMin, extentMax)
    }

    /** The query's test of a child: `intersects` without `evenIfDisabled` is the
        overlap of the probe's box with the node's cube, for an enabled probe. */
    lemma IntersectsIsCube(o: GameObject, live: set<GameObject>)
      requires o.enabled <==> o in live
      requires o.enabled ==> o.drawable != null
      ensures Intersects(o, false) <==> IntersectsCube(center, radius, o, live)
    {
    }

    // ------------------------------------------------------------ buildTree

    /** A node as its constructor leaves it: no children, nothing but itself in
        its representation, every object drawn, and its value the leaf over its
        objects. */
    ghost predicate Leaf()
      reads this
    {
      children == [] && Repr == {this} && Drawn(objects) &&
      Model == Shape(center, radius, depth, objects, [])
    }

    /** The child this node is about to build for octant k: a leaf at the
        octant's cube, one level down, holding `objs`. */
    ghost predicate PendingChild(ch: OctreeNode, objs: seq<GameObject>, k: nat)
      reads ch
    {
      ch.Repr == {ch} && ch.children == [] &&
      k < 8 && ch.center == OctantCenters(center, radius / 2.0)[k] && ch.radius == radius / 2.0 &&
      ch.depth == depth + 1 && ch.objects == objs && ch.Model == Shape(ch.center, ch.radius, ch.depth, objs, [])
    }

    /** The children made so far by the second region of `buildTree`: child j
        is a distinct new leaf for octant `ks[j]`, holding that octant's objects. */
    ghost predicate MadeChildren(octantObjects: seq<seq<GameObject>>, ks: seq<nat>)
      reads this, Repr
    {
      this in Repr && |children| == |ks| && |octantObjects| == 8 &&
      (forall j :: 0 <= j < |children| ==>
         ks[j] < 8 && children[j] != this && children[j] in Repr &&
         PendingChild(children[j], octantObjects[ks[j]], ks[j])) &&
      (forall i, j :: 0 <= i < j < |children| ==> children[i] != children[j])
    }

    /** A new child for octant k holding its objects, counted in `OCTREE_NODE_COUNT`. */
    method AddChild(octantCenter: Vec3, octantObjects: seq<seq<GameObject>>, k: nat, g: OctreeGlobals,
                    ghost ks: seq<nat>)
      requires MadeChildren(octantObjects, ks)
      requires k < 8 && octantCenter == OctantCenters(center, radius / 2.0)[k]
      modifies this, g
      ensures objects == old(objects) && Model == old(Model)
      ensures exists childNode :: fresh(childNode) && Repr == old(Repr) + {childNode}
      ensures MadeChildren(octantObjects, ks + [k])
      ensures g.root == old(g.root) && g.nodeCount == old(g.nodeCount) + 1
      ensures g.depth == NatMax(old(g.depth), depth + 1)
    {
      var childNode := new OctreeNode(octantCenter, radius / 2.0, this, octantObjects[k], g);
      children := children + [childNode];
      Repr := Repr + {childNode};
      g.nodeCount := g.nodeCount + 1;
    }

    /** The second region of `buildTree`: one child per non-empty octant, in
        octant order, each counted in `OCTREE_NODE_COUNT`; then the node keeps
        only the objects no octant took. */
    method MakeChildren(octantObjects: seq<seq<GameObject>>, kept: seq<GameObject>, g: OctreeGlobals)
      returns (ghost ks: seq<nat>)
      requires children == [] && Repr == {this}
      requires |octantObjects| == 8
      requires forall k :: 0 <= k < 8 ==> Drawn(octantObjects[k])
      requires Drawn(kept)
      modifies this, g
      ensures objects == kept && Model == old(Model)
      ensures ChildrenValid() && fresh(Repr - {this})
      ensures ks == Occupied(octantObjects, 8) && MadeChildren(octantObjects, ks)
      ensures g.root == old(g.root) && g.nodeCount == old(g.nodeCount) + |ks|
      ensures g.depth == if ks == [] then old(g.depth) else NatMax(old(g.depth), depth + 1)
    {
      var octantCenters := OctantCenters(center, radius / 2.0);
      var octIdx := 0;
      ks := [];
      while octIdx < 8
        invariant 0 <= octIdx <= 8 && ks == Occupied(octantObjects, octIdx)
        invariant objects == old(objects) && Model == old(Model)
        invariant fresh(Repr - {this}) && MadeChildren(octantObjects, ks)
        invariant g.root == old(g.root) && g.nodeCount == old(g.nodeCount) + |children|
        invariant g.depth == if children == [] then old(g.depth) else NatMax(old(g.depth), depth + 1)
      {
        if |octantObjects[octIdx]| != 0 {
          AddChild(octantCenters[octIdx], octantObjects, octIdx, g, ks);
          ks := ks + [octIdx];
        }
        octIdx := octIdx + 1;
      }
      objects := kept;
      LeavesOwned(octantObjects, ks);
    }

    /** The leaves just made, each alone in its own representation, are owned
        by this node. */
    lemma LeavesOwned(octantObjects: seq<seq<GameObject>>, ks: seq<nat>)
      requires MadeChildren(octantObjects, ks) && Drawn(objects)
      requires forall k :: 0 <= k < 8 ==> Drawn(octantObjects[k])
      ensures ChildrenValid()
    {
      forall j | 0 <= j < |children|
        ensures children[j].Valid()
      {
        var ch := children[j];
        assert ch.objects == octantObjects[ks[j]];
        assert ch.ChildrenValid();
      }
    }

    /** A child made by the split and not yet built: a valid leaf one level down
        at the cube of octant k, holding that octant's list of `objs`. */
    ghost predicate Unbuilt(ch: OctreeNode, objs: seq<GameObject>, k: nat, cls: Classifier)
      reads ch, ch.Repr
    {
      ch.Leaf() && k < 8 && ch.center == OctantCenters(center, radius / 2.0)[k] && ch.radius == radius / 2.0 && ch.depth == depth + 1 &&
      ch.objects == Bucket(objs, cls(center, radius / 2.0), k) &&
      Within(ch.objects, objs)
    }

    /** The first two regions of `buildTree` on a node it splits: sort the
        objects into the octants, make a leaf child for every occupied octant
        `ks[j]` and keep the objects no octant took. The intended tree is then
        the kept objects over the intended builds of the children. */
    method SplitNode(g: OctreeGlobals, ghost live: set<GameObject>, ghost cls: Classifier)
      returns (ghost ks: seq<nat>)
      requires Leaf()
      requires !(|objects| <= MIN_OBJ || radius <= MIN_RADIUS)
      requires EnabledAre(objects, live) && Classifies(cls, live, objects)
      modifies this, g
      ensures ChildrenValid() && fresh(Repr - {this}) && Model == old(Model)
      ensures BuildSpec(center, radius, depth, old(objects), cls) ==
              Shape(center, radius, depth, objects, ChildrenSpec(old(objects), center, radius, depth, ks, cls))
      ensures |children| == |ks|
      ensures forall j :: 0 <= j < |children| ==> Unbuilt(children[j], old(objects), ks[j], cls)
      ensures g.root == old(g.root) && g.nodeCount == old(g.nodeCount) + |ks|
      ensures g.depth == if ks == [] then old(g.depth) else NatMax(old(g.depth), depth + 1)
      ensures ks != [] ==> depth + 1 <= MaxDepthAll(ChildrenSpec(old(objects), center, radius, depth, ks, cls))
    {
      var octantObjects, kept := SplitObjects(objects, center, radius / 2.0, live, cls);
      ks := MakeUnbuiltChildren(octantObjects, kept, g, objects, cls);
    }

    /** The second region of `buildTree` on a node it splits: a leaf child for
        every occupied octant `ks[j]` of `objs`, unbuilt, and the kept objects. */
    method MakeUnbuiltChildren(octantObjects: seq<seq<GameObject>>, kept: seq<GameObject>, g: OctreeGlobals,
                               ghost objs: seq<GameObject>, ghost cls: Classifier)
      returns (ghost ks: seq<nat>)
      requires children == [] && Repr == {this} && Drawn(objs)
      requires !(|objs| <= MIN_OBJ || radius <= MIN_RADIUS)
      requires SplitInto(objs, cls(center, radius / 2.0), octantObjects, kept)
      modifies this, g
      ensures objects == kept && Model == old(Model)
      ensures ChildrenValid() && fresh(Repr - {this})
      ensures BuildSpec(center, radius, depth, objs, cls) ==
              Shape(center, radius, depth, objects, ChildrenSpec(objs, center, radius, depth, ks, cls))
      ensures |children| == |ks|
      ensures forall j :: 0 <= j < |children| ==> Unbuilt(children[j], objs, ks[j], cls)
      ensures g.root == old(g.root) && g.nodeCount == old(g.nodeCount) + |ks|
      ensures g.depth == if ks == [] then old(g.depth) else NatMax(old(g.depth), depth + 1)
      ensures ks != [] ==> depth + 1 <= MaxDepthAll(ChildrenSpec(objs, center, radius, depth, ks, cls))
    {
      SplitFacts(center, radius, depth, objs, octantObjects, kept, cls);
      forall k | 0 <= k < 8
        ensures Drawn(octantObjects[k])
      {
        assert Within(octantObjects[k], objs);
      }
      ks := MakeChildren(octantObjects, kept, g);
      PendingAreUnbuilt(octantObjects, ks, objs, cls);
    }

    /** The children just made for the occupied octants `ks` are unbuilt. */
    lemma PendingAreUnbuilt(octantObjects: seq<seq<GameObject>>, ks: seq<nat>, objs: seq<GameObject>, cls: Classifier)
      requires MadeChildren(octantObjects, ks)
      requires forall k :: 0 <= k < 8 ==> Drawn(octantObjects[k])
      requires forall k :: 0 <= k < 8 ==> octantObjects[k] == Bucket(objs, cls(center, radius / 2.0), k)
      requires forall k :: 0 <= k < 8 ==> Within(octantObjects[k], objs)
      ensures forall j :: 0 <= j < |children| ==> Unbuilt(children[j], objs, ks[j], cls)
    {
      forall j | 0 <= j < |children|
        ensures Unbuilt(children[j], objs, ks[j], cls)
      {
        var ch := children[j];
        assert ch.objects == octantObjects[ks[j]];
      }
    }

    /** `buildTree`: a node with at most `OCTREE_NODE_MIN_OBJ` objects or a radius
        at most `OCTREE_NODE_MIN_RADIUS` stays as it is; otherwise its objects are
        split among the octants, the children made, and each child built in turn.
        The result is `BuildSpec` under the classification `cls` (for the source's
        own rule, `Octants(live)`); every node made is counted, and `OCTREE_DEPTH`
        ends at the deepest node. */
    method BuildTree(g: OctreeGlobals, ghost live: set<GameObject>, ghost cls: Classifier)
      requires Leaf()
      requires depth <= g.depth
      requires EnabledAre(objects, live) && Classifies(cls, live, objects)
      modifies this, g
      ensures Valid() && fresh(Repr - {this})
      ensures Model == BuildSpec(center, radius, depth, old(objects), cls)
      ensures g.root == old(g.root)
      ensures g.nodeCount == old(g.nodeCount) + Size(Model) - 1
      ensures g.depth == NatMax(old(g.depth), MaxDepth(Model))
      decreases Rank(radius), 3, 0
    {
      if |objects| <= MIN_OBJ || radius <= MIN_RADIUS {
        return;
      }
      SplitAndBuild(g, live, cls);
    }

    /** `buildTree` on a node it splits. */
    method SplitAndBuild(g: OctreeGlobals, ghost live: set<GameObject>, ghost cls: Classifier)
      requires Leaf()
      requires !(|objects| <= MIN_OBJ || radius <= MIN_RADIUS)
      requires depth <= g.depth
      requires EnabledAre(objects, live) && Classifies(cls, live, objects)
      modifies this, g
      ensures Valid() && fresh(Repr - {this})
      ensures Model == BuildSpec(center, radius, depth, old(objects), cls)
      ensures g.root == old(g.root)
      ensures g.nodeCount == old(g.nodeCount) + Size(Model) - 1
      ensures g.depth == NatMax(old(g.depth), MaxDepth(Model))
      decreases Rank(radius), 2, 0
    {
      ghost var ks := SplitNode(g, live, cls);
      BuildAllChildren(g, old(objects), ks, live, cls);
    }

    /** The third region of `buildTree` on a split node, after which the node's
        value is its kept objects over the intended builds of its children. */
    method BuildAllChildren(g: OctreeGlobals, ghost objs: seq<GameObject>, ghost ks: seq<nat>,
                            ghost live: set<GameObject>, ghost cls: Classifier)
      requires ChildrenValid() && radius > MIN_RADIUS && |children| == |ks|
      requires forall j :: 0 <= j < |children| ==> Unbuilt(children[j], objs, ks[j], cls)
      requires ks != [] ==> depth + 1 <= g.depth
      requires EnabledAre(objs, live) && Classifies(cls, live, objs)
      modifies Repr, g
      ensures Valid() && fresh(Repr - old(Repr)) && old(Repr) <= Repr
      ensures objects == old(objects)
      ensures Model == Shape(center, radius, depth, objects, ChildrenSpec(objs, center, radius, depth, ks, cls))
      ensures g.root == old(g.root)
      ensures g.nodeCount + |ks| == old(g.nodeCount) + SizeAll(ChildrenSpec(objs, center, radius, depth, ks, cls))
      ensures g.depth == NatMax(old(g.depth), MaxDepthAll(ChildrenSpec(objs, center, radius, depth, ks, cls)))
      decreases Rank(radius), 1, |ks| + 1
    {
      BuildChildren(0, g, objs, ks, live, cls);
      ghost var cs := ChildrenSpec(objs, center, radius, depth, ks, cls);
      assert cs[0..] == cs;
      SetModel(cs);
    }

    /** The last step of `buildTree` on a split node: once every child is built,
        the node's value is its kept objects over its children's values. */
    ghost method SetModel(cs: seq<Shape>)
      requires ChildrenValid() && |cs| == |children|
      requires forall j :: 0 <= j < |children| ==> children[j].Model == cs[j]
      modifies this
      ensures Valid() && Repr == old(Repr) && children == old(children) && objects == old(objects)
      ensures Model == Shape(center, radius, depth, objects, cs)
    {
      label BeforeModel:
      Model := Shape(center, radius, depth, objects, cs);
      OwnChanged@BeforeModel();
    }

    /** The third region of `buildTree`, from child `from` on: build each child in
        turn; child j becomes the intended build of octant `ks[j]`. */
    method BuildChildren(from: nat, g: OctreeGlobals, ghost objs: seq<GameObject>, ghost ks: seq<nat>,
                         ghost live: set<GameObject>, ghost cls: Classifier)
      requires ChildrenValid() && radius > MIN_RADIUS && |children| == |ks| && from <= |ks|
      requires forall j :: from <= j < |children| ==> Unbuilt(children[j], objs, ks[j], cls)
      requires from < |children| ==> depth + 1 <= g.depth
      requires EnabledAre(objs, live) && Classifies(cls, live, objs)
      modifies Repr, g
      ensures ChildrenValid() && fresh(Repr - old(Repr)) && old(Repr) <= Repr
      ensures children == old(children) && objects == old(objects) && Model == old(Model)
      ensures forall j :: 0 <= j < from ==> unchanged(children[j])
      ensures forall j :: from <= j < |children| ==>
                children[j].Model == ChildrenSpec(objs, center, radius, depth, ks, cls)[j]
      ensures g.root == old(g.root)
      ensures g.nodeCount + |ks| - from == old(g.nodeCount) + SizeAll(ChildrenSpec(objs, center, radius, depth, ks, cls)[from..])
      ensures g.depth == NatMax(old(g.depth), MaxDepthAll(ChildrenSpec(objs, center, radius, depth, ks, cls)[from..]))
      decreases Rank(radius), 1, |ks| - from
    {
      ghost var cs := ChildrenSpec(objs, center, radius, depth, ks, cls);
      if from == |children| {
        assert cs[from..] == [];
        return;
      }
      ChildrenSpecAt(objs, center, radius, depth, ks, cls);
      BuildChild(from, g, objs, ks[from], live, cls);
      BuildChildren(from + 1, g, objs, ks, live, cls);
      assert cs[from..][0] == cs[from] && cs[from..][1..] == cs[from + 1..];
    }

    /** One step of the third region of `buildTree`: build child `childIdx`,
        still unbuilt for octant `k`, and leave its siblings as they are. */
    method BuildChild(childIdx: nat, g: OctreeGlobals, ghost objs: seq<GameObject>, ghost k: nat,
                      ghost live: set<GameObject>, ghost cls: Classifier)
      requires ChildrenValid() && radius > MIN_RADIUS && childIdx < |children|
      requires Unbuilt(children[childIdx], objs, k, cls)
      requires depth + 1 <= g.depth
      requires EnabledAre(objs, live) && Classifies(cls, live, objs)
      modifies Repr, g
      ensures ChildrenValid() && fresh(Repr - old(Repr)) && old(Repr) <= Repr
      ensures children == old(children) && objects == old(objects) && Model == old(Model)
      ensures forall j :: 0 <= j < |children| && j != childIdx ==> unchanged(children[j])
      ensures children[childIdx].Model == ChildSpec(objs, center, radius, depth, k, cls)
      ensures g.root == old(g.root)
      ensures g.nodeCount + 1 == old(g.nodeCount) + Size(children[childIdx].Model)
      ensures g.depth == NatMax(old(g.depth), MaxDepth(children[childIdx].Model))
      decreases Rank(radius), 0, 0
    {
      HalvingLowersRank(radius);
      var child := children[childIdx];
      ClassifiesSub(cls, live, objs, child.objects);
      ChildSpecByTable(objs, center, radius, depth, k, cls, child.center, child.radius, child.depth, child.objects);
      label BeforeCall:
      child.BuildTree(g, live, cls);
      Repr := Repr + child.Repr;
      ChildChanged@BeforeCall(childIdx);
    }

    // ------------------------------------------------------------ checkCollisions

    /** `checkCollisions`: purge and scan this node's objects, then recurse into
        every child whose cube the probe intersects, all appending to the same
        list. It appends `Hits` and leaves the tree `Purged`. */
    method CheckCollisions(probe: GameObject, inColliders: seq<GameObject>, ghost live: set<GameObject>)
      returns (outColliders: seq<GameObject>)
      requires Valid() && probe.drawable != null
      requires probe.enabled <==> probe in live
      requires EnabledAre(Flatten(Model), live)
      modifies Repr
      ensures Valid() && Repr == old(Repr) && children == old(children)
      ensures outColliders == inColliders + Hits(old(Model), probe, live)
      ensures Model == Purged(old(Model), probe, live)
      decreases Repr, 2, 0
    {
      ghost var cs0 := Model.children;
      assert cs0[0..] == cs0;
      EnabledAreSplit(objects, FlattenAll(cs0), live);
      assert EnabledAre(FlattenAll(cs0[0..]), live);
      outColliders := ScanOwn(probe, inColliders, live);
      assert EnabledAre(FlattenAll(cs0[0..]), live);
      outColliders := CheckChildren(0, probe, outColliders, cs0, live);
      PurgedAllAt(cs0, probe, live);
      SetModel(PurgedAll(cs0, probe, live));
    }

    /** The first part of `checkCollisions`: scan this node's own objects,
        reporting the enabled ones that collide and dropping the disabled ones. */
    method ScanOwn(probe: GameObject, inColliders: seq<GameObject>, ghost live: set<GameObject>)
      returns (outColliders: seq<GameObject>)
      requires ChildrenValid() && EnabledAre(objects, live) && probe.drawable != null
      modifies this
      ensures ChildrenValid() && Repr == old(Repr) && children == old(children) && Model == old(Model)
      ensures forall j :: 0 <= j < |children| ==> unchanged(children[j])
      ensures objects == EnabledIn(old(objects), live)
      ensures outColliders == inColliders + HitsIn(old(objects), probe, live)
    {
      var remaining;
      remaining, outColliders := ScanObjects(objects, probe, inColliders, live);
      label BeforePurge:
      objects := remaining;
      OwnChanged@BeforePurge();
    }

    /** The loop of `checkCollisions` over the children, from child `from` on:
        each child the probe's box reaches is queried in turn, appending its hits;
        the others are left as they are. */
    method CheckChildren(from: nat, probe: GameObject, inColliders: seq<GameObject>,
                         ghost cs: seq<Shape>, ghost live: set<GameObject>)
      returns (outColliders: seq<GameObject>)
      requires ChildrenValid() && from <= |children| == |cs| && probe.drawable != null
      requires probe.enabled <==> probe in live
      requires forall j :: from <= j < |children| ==> children[j].Model == cs[j]
      requires EnabledAre(FlattenAll(cs[from..]), live)
      modifies Repr
      ensures ChildrenValid() && Repr == old(Repr) && children == old(children)
      ensures objects == old(objects) && Model == old(Model)
      ensures forall j :: 0 <= j < from ==> unchanged(children[j])
      ensures forall j :: from <= j < |children| ==>
                children[j].Model == if IntersectsCube(cs[j].center, cs[j].radius, probe, live)
                                     then Purged(cs[j], probe, live) else cs[j]
      ensures outColliders == inColliders + HitsAll(cs[from..], probe, live)
      decreases Repr, 1, |cs| - from
    {
      if from == |children| {
        assert cs[from..] == [];
        return inColliders;
      }
      QueryFrom(cs, from, probe, live);
      EnabledAreSplit(Flatten(cs[from]), FlattenAll(cs[from + 1..]), live);
      assert EnabledAre(FlattenAll(cs[from + 1..]), live);
      outColliders := CheckChild(from, probe, inColliders, cs[from], live);
      assert EnabledAre(FlattenAll(cs[from + 1..]), live);
      outColliders := CheckChildren(from + 1, probe, outColliders, cs, live);
    }

    /** One step of the loop of `checkCollisions`: query child `k`, whose value
        is `c`, if the probe's box reaches its cube; the siblings are untouched. */
    method CheckChild(k: nat, probe: GameObject, inColliders: seq<GameObject>,
                      ghost c: Shape, ghost live: set<GameObject>)
      returns (outColliders: seq<GameObject>)
      requires ChildrenValid() && k < |children| && probe.drawable != null
      requires probe.enabled <==> probe in live
      requires children[k].Model == c && EnabledAre(Flatten(c), live)
      modifies Repr
      ensures ChildrenValid() && Repr == old(Repr) && children == old(children)
      ensures objects == old(objects) && Model == old(Model)
      ensures forall j :: 0 <= j < |children| && j != k ==> unchanged(children[j])
      ensures children[k].Model == if IntersectsCube(c.center, c.radius, probe, live) then Purged(c, probe, live) else c
      ensures outColliders == inColliders + if IntersectsCube(c.center, c.radius, probe, live) then Hits(c, probe, live) else []
      decreases Repr, 0, 0
    {
      var node := children[k];
      node.IntersectsIsCube(probe, live);
      outColliders := inColliders;
      if node.Intersects(probe, false) {
        label BeforeCall:
        outColliders := node.CheckCollisions(probe, inColliders, live);
        ChildChanged@BeforeCall(k);
      }
    }

    // ------------------------------------------------------------ initializeTree

    /** `initializeTree`: reset the counters, make a root of radius
        `OCTREE_NODE_ENCLOSE_SIZE` at the focal point holding the given objects,
        and build it. Afterwards the count is the number of nodes and the depth the
        deepest node's. */
    static method InitializeTree(rootCenter: Vec3, objs: seq<GameObject>, g: OctreeGlobals,
                                 ghost live: set<GameObject>)
      requires Drawn(objs)
      requires EnabledAre(objs, live)
      modifies g
      ensures g.root != null && fresh(g.root.Repr) && g.root.Valid()
      ensures g.root.center == rootCenter && g.root.radius == ENCLOSE_SIZE && g.root.parent == null
      ensures g.root.Model == BuildSpec(rootCenter, ENCLOSE_SIZE, 0, objs, Octants(live))
      ensures g.nodeCount == Size(g.root.Model)
      ensures g.depth == MaxDepth(g.root.Model)
    {
      g.depth := 0;
      g.nodeCount := 1;
      var root := new OctreeNode(rootCenter, ENCLOSE_SIZE, null, objs, g);
      g.root := root;
      OctantsClassify(live, objs);
      root.BuildTree(g, live, Octants(live));
    }
  }
}
