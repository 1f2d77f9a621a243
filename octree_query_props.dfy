/** What a collision query reports and what it leaves behind (octree.js:211-246):
    it finds exactly what a brute-force scan of the tree finds, and its purge
    drops disabled entries and nothing else. */
module OctreeQueryProps {
  import opened Geometry
  import opened Entities
  import opened OctreeSpec

  // ---------------------------------------------------------------- list algebra

  lemma HitsInAppend(a: seq<GameObject>, b: seq<GameObject>, probe: GameObject, live: set<GameObject>)
    ensures HitsIn(a + b, probe, live) == HitsIn(a, probe, live) + HitsIn(b, probe, live)
    decreases |b|
  {
    if b == [] {
      assert a + b == a;
    } else {
      var bi := b[..|b| - 1];
      assert (a + b)[..|a + b| - 1] == a + bi;
      assert b[..|b| - 1] == bi;
      HitsInAppend(a, bi, probe, live);
    }
  }

  lemma EnabledInAppend(a: seq<GameObject>, b: seq<GameObject>, live: set<GameObject>)
    ensures EnabledIn(a + b, live) == EnabledIn(a, live) + EnabledIn(b, live)
    decreases |b|
  {
    if b == [] {
      assert a + b == a;
    } else {
      var bi := b[..|b| - 1];
      assert (a + b)[..|a + b| - 1] == a + bi;
      EnabledInAppend(a, bi, live);
    }
  }

  /** One more object purged: it stays iff it is enabled. */
  lemma EnabledInStep(objs: seq<GameObject>, p: nat, live: set<GameObject>)
    requires p < |objs|
    ensures EnabledIn(objs[..p + 1], live) == EnabledIn(objs[..p], live) + (if objs[p] in live then [objs[p]] else [])
  {
    assert objs[..p + 1][..p] == objs[..p];
  }

  /** One more object scanned: it is reported iff it is enabled and collides. */
  lemma HitsInStep(objs: seq<GameObject>, p: nat, probe: GameObject, live: set<GameObject>)
    requires p < |objs|
    ensures HitsIn(objs[..p + 1], probe, live) ==
            HitsIn(objs[..p], probe, live) + (if objs[p] in live && Collides(probe, objs[p]) then [objs[p]] else [])
  {
    assert objs[..p + 1][..p] == objs[..p];
  }

  /** Scanning only the enabled objects finds the same hits. */
  lemma {:induction false} HitsInEnabled(objs: seq<GameObject>, probe: GameObject, live: set<GameObject>)
    ensures HitsIn(EnabledIn(objs, live), probe, live) == HitsIn(objs, probe, live)
  {
    if objs != [] {
      var init, last := objs[..|objs| - 1], objs[|objs| - 1];
      HitsInEnabled(init, probe, live);
      var e := EnabledIn(init, live);
      if last in live {
        assert EnabledIn(objs, live) == e + [last];
        assert (e + [last])[..|e|] == e;
      } else {
        assert EnabledIn(objs, live) == e;
      }
    }
  }

  /** Purging twice is purging once. */
  lemma {:induction false} EnabledInIdempotent(objs: seq<GameObject>, live: set<GameObject>)
    ensures EnabledIn(EnabledIn(objs, live), live) == EnabledIn(objs, live)
  {
    if objs != [] {
      var init, last := objs[..|objs| - 1], objs[|objs| - 1];
      EnabledInIdempotent(init, live);
      var e := EnabledIn(init, live);
      if last in live {
        assert EnabledIn(objs, live) == e + [last];
        assert (e + [last])[..|e|] == e;
      } else {
        assert EnabledIn(objs, live) == e;
      }
    }
  }

  lemma HitsAllAppend(a: seq<Shape>, b: seq<Shape>, probe: GameObject, live: set<GameObject>)
    ensures HitsAll(a + b, probe, live) == HitsAll(a, probe, live) + HitsAll(b, probe, live)
  {
    if a == [] {
      assert a + b == b;
    } else {
      assert (a + b)[1..] == a[1..] + b;
      HitsAllAppend(a[1..], b, probe, live);
    }
  }

  /** Over the children from `from` on, a query meets child `from` first and
      then the rest. */
  lemma QueryFrom(cs: seq<Shape>, from: nat, probe: GameObject, live: set<GameObject>)
    requires from < |cs|
    ensures FlattenAll(cs[from..]) == Flatten(cs[from]) + FlattenAll(cs[from + 1..])
    ensures HitsAll(cs[from..], probe, live) ==
            (if IntersectsCube(cs[from].center, cs[from].radius, probe, live) then Hits(cs[from], probe, live) else []) +
            HitsAll(cs[from + 1..], probe, live)
  {
    assert cs[from..][0] == cs[from] && cs[from..][1..] == cs[from + 1..];
  }

  /** A query purges exactly the children it visits. */
  lemma {:induction false} PurgedAllAt(cs: seq<Shape>, probe: GameObject, live: set<GameObject>)
    ensures |PurgedAll(cs, probe, live)| == |cs|
    ensures forall j :: 0 <= j < |cs| ==>
              PurgedAll(cs, probe, live)[j] ==
              (if IntersectsCube(cs[j].center, cs[j].radius, probe, live) then Purged(cs[j], probe, live) else cs[j])
  {
    if cs != [] {
      PurgedAllAt(cs[1..], probe, live);
    }
  }

  // ---------------------------------------------------------------- soundness

  /** Everything a query reports is an enabled object stored in the tree that
      collides with the probe. */
  lemma {:induction false} HitsSound(s: Shape, probe: GameObject, live: set<GameObject>)
    ensures forall o :: o in Hits(s, probe, live) ==> o in Flatten(s) && o in live && Collides(probe, o)
    decreases s, 1
  {
    HitsInSound(s.objects, probe, live);
    HitsAllSound(s.children, probe, live);
  }

  lemma {:induction false} HitsAllSound(cs: seq<Shape>, probe: GameObject, live: set<GameObject>)
    ensures forall o :: o in HitsAll(cs, probe, live) ==> o in FlattenAll(cs) && o in live && Collides(probe, o)
    decreases cs
  {
    if cs != [] {
      HitsSound(cs[0], probe, live);
      HitsAllSound(cs[1..], probe, live);
    }
  }

  lemma {:induction false} HitsInSound(objs: seq<GameObject>, probe: GameObject, live: set<GameObject>)
    ensures forall o :: o in HitsIn(objs, probe, live) ==> o in objs && o in live && Collides(probe, o)
  {
    if objs != [] {
      HitsInSound(objs[..|objs| - 1], probe, live);
    }
  }

  // ---------------------------------------------------------------- completeness

  /** No object inside a cube that the probe does not reach can collide with it. */
  lemma {:induction false} HitsInOutside(objs: seq<GameObject>, probe: GameObject, c: Vec3, r: real, live: set<GameObject>)
    requires probe in live && probe.collisionRadius >= 0.0
    requires forall i :: 0 <= i < |objs| ==> objs[i].collisionRadius >= 0.0
    requires AllWithin(objs, c, r)
    requires !IntersectsCube(c, r, probe, live)
    ensures HitsIn(objs, probe, live) == []
  {
    if objs != [] {
      var last := objs[|objs| - 1];
      CollisionNeedsOverlap(probe, last, Lower(c, r), Upper(c, r));
      HitsInOutside(objs[..|objs| - 1], probe, c, r, live);
    }
  }

  /** The query agrees with a brute-force scan: for an enabled probe, in a tree
      whose objects lie inside their nodes' cubes, `Hits` is the list of enabled
      stored objects that collide with the probe, in preorder. */
  lemma {:induction false} HitsComplete(s: Shape, probe: GameObject, live: set<GameObject>)
    requires probe in live && probe.collisionRadius >= 0.0
    requires forall i :: 0 <= i < |Flatten(s)| ==> Flatten(s)[i].collisionRadius >= 0.0
    requires Placed(s)
    ensures Hits(s, probe, live) == HitsIn(Flatten(s), probe, live)
    decreases s, 1
  {
    var fr := FlattenAll(s.children);
    assert forall i :: 0 <= i < |fr| ==> fr[i] == Flatten(s)[|s.objects| + i];
    HitsAllComplete(s.children, probe, live);
    HitsInAppend(s.objects, fr, probe, live);
  }

  lemma {:induction false} HitsAllComplete(cs: seq<Shape>, probe: GameObject, live: set<GameObject>)
    requires probe in live && probe.collisionRadius >= 0.0
    requires forall i :: 0 <= i < |FlattenAll(cs)| ==> FlattenAll(cs)[i].collisionRadius >= 0.0
    requires PlacedAll(cs)
    ensures HitsAll(cs, probe, live) == HitsIn(FlattenAll(cs), probe, live)
    decreases cs
  {
    if cs != [] {
      var f0, fr := Flatten(cs[0]), FlattenAll(cs[1..]);
      assert FlattenAll(cs) == f0 + fr;
      assert forall i :: 0 <= i < |f0| ==> f0[i] == FlattenAll(cs)[i];
      assert forall i :: 0 <= i < |fr| ==> fr[i] == FlattenAll(cs)[|f0| + i];
      if IntersectsCube(cs[0].center, cs[0].radius, probe, live) {
        HitsComplete(cs[0], probe, live);
      } else {
        HitsInOutside(f0, probe, cs[0].center, cs[0].radius, live);
      }
      HitsAllComplete(cs[1..], probe, live);
      HitsInAppend(f0, fr, probe, live);
    }
  }

  // ---------------------------------------------------------------- the purge

  /** The purge drops only disabled entries: the enabled objects of the tree, in
      order, are the same before and after. */
  lemma {:induction false} PurgeKeepsEnabled(s: Shape, probe: GameObject, live: set<GameObject>)
    ensures EnabledIn(Flatten(Purged(s, probe, live)), live) == EnabledIn(Flatten(s), live)
    decreases s, 1
  {
    PurgeAllKeepsEnabled(s.children, probe, live);
    EnabledInAppend(EnabledIn(s.objects, live), FlattenAll(PurgedAll(s.children, probe, live)), live);
    EnabledInAppend(s.objects, FlattenAll(s.children), live);
    EnabledInIdempotent(s.objects, live);
  }

  lemma {:induction false} PurgeAllKeepsEnabled(cs: seq<Shape>, probe: GameObject, live: set<GameObject>)
    ensures EnabledIn(FlattenAll(PurgedAll(cs, probe, live)), live) == EnabledIn(FlattenAll(cs), live)
    decreases cs
  {
    if cs != [] {
      var p := PurgedAll(cs, probe, live);
      assert p[1..] == PurgedAll(cs[1..], probe, live);
      if IntersectsCube(cs[0].center, cs[0].radius, probe, live) {
        PurgeKeepsEnabled(cs[0], probe, live);
      }
      PurgeAllKeepsEnabled(cs[1..], probe, live);
      EnabledInAppend(Flatten(p[0]), FlattenAll(p[1..]), live);
      EnabledInAppend(Flatten(cs[0]), FlattenAll(cs[1..]), live);
    }
  }

  /** The purge removes entries and adds none. */
  lemma {:induction false} PurgeOnlyRemoves(s: Shape, probe: GameObject, live: set<GameObject>)
    ensures forall o :: o in Flatten(Purged(s, probe, live)) ==> o in Flatten(s)
    ensures forall o :: o in Flatten(s) && o !in Flatten(Purged(s, probe, live)) ==> o !in live
    decreases s, 1
  {
    PurgeAllOnlyRemoves(s.children, probe, live);
    PurgeKeepsEnabled(s, probe, live);
    forall o | o in Flatten(s) && o in live
      ensures o in Flatten(Purged(s, probe, live))
    {
      EnabledInHas(Flatten(s), o, live);
      EnabledInHas(Flatten(Purged(s, probe, live)), o, live);
    }
  }

  lemma {:induction false} PurgeAllOnlyRemoves(cs: seq<Shape>, probe: GameObject, live: set<GameObject>)
    ensures forall o :: o in FlattenAll(PurgedAll(cs, probe, live)) ==> o in FlattenAll(cs)
    decreases cs
  {
    if cs != [] {
      var p := PurgedAll(cs, probe, live);
      assert p[1..] == PurgedAll(cs[1..], probe, live);
      if IntersectsCube(cs[0].center, cs[0].radius, probe, live) {
        PurgeOnlyRemoves(cs[0], probe, live);
      }
      PurgeAllOnlyRemoves(cs[1..], probe, live);
    }
  }

  /** An enabled object is kept by the enabled-only filter. */
  lemma {:induction false} EnabledInHas(objs: seq<GameObject>, o: GameObject, live: set<GameObject>)
    ensures o in EnabledIn(objs, live) <==> o in objs && o in live
  {
    if objs != [] {
      EnabledInHas(objs[..|objs| - 1], o, live);
      assert objs == objs[..|objs| - 1] + [objs[|objs| - 1]];
    }
  }

  /** A later query on the purged tree finds the same objects. */
  lemma {:induction false} PurgeKeepsHits(s: Shape, probe: GameObject, live: set<GameObject>)
    ensures Hits(Purged(s, probe, live), probe, live) == Hits(s, probe, live)
    decreases s, 1
  {
    HitsInEnabled(s.objects, probe, live);
    PurgeAllKeepsHits(s.children, probe, live);
  }

  lemma {:induction false} PurgeAllKeepsHits(cs: seq<Shape>, probe: GameObject, live: set<GameObject>)
    ensures HitsAll(PurgedAll(cs, probe, live), probe, live) == HitsAll(cs, probe, live)
    decreases cs
  {
    if cs != [] {
      var p := PurgedAll(cs, probe, live);
      assert p[1..] == PurgedAll(cs[1..], probe, live);
      if IntersectsCube(cs[0].center, cs[0].radius, probe, live) {
        PurgeKeepsHits(cs[0], probe, live);
      }
      PurgeAllKeepsHits(cs[1..], probe, live);
    }
  }

  /** Repeating a query's purge changes nothing more. */
  lemma {:induction false} PurgeIdempotent(s: Shape, probe: GameObject, live: set<GameObject>)
    ensures Purged(Purged(s, probe, live), probe, live) == Purged(s, probe, live)
    decreases s, 1
  {
    EnabledInIdempotent(s.objects, live);
    PurgeAllIdempotent(s.children, probe, live);
  }

  lemma {:induction false} PurgeAllIdempotent(cs: seq<Shape>, probe: GameObject, live: set<GameObject>)
    ensures PurgedAll(PurgedAll(cs, probe, live), probe, live) == PurgedAll(cs, probe, live)
    decreases cs
  {
    if cs != [] {
      var p := PurgedAll(cs, probe, live);
      assert p[1..] == PurgedAll(cs[1..], probe, live);
      if IntersectsCube(cs[0].center, cs[0].radius, probe, live) {
        PurgeIdempotent(cs[0], probe, live);
      }
      PurgeAllIdempotent(cs[1..], probe, live);
    }
  }

  /** The purge keeps every stored object inside its node's cube. */
  lemma {:induction false} PurgeKeepsPlaced(s: Shape, probe: GameObject, live: set<GameObject>)
    requires Placed(s)
    ensures Placed(Purged(s, probe, live))
    decreases s, 1
  {
    PurgeAllKeepsPlaced(s.children, probe, live);
  }

  lemma {:induction false} PurgeAllKeepsPlaced(cs: seq<Shape>, probe: GameObject, live: set<GameObject>)
    requires PlacedAll(cs)
    ensures PlacedAll(PurgedAll(cs, probe, live))
    decreases cs
  {
    if cs != [] {
      var p := PurgedAll(cs, probe, live);
      assert p[1..] == PurgedAll(cs[1..], probe, live);
      if IntersectsCube(cs[0].center, cs[0].radius, probe, live) {
        PurgeKeepsPlaced(cs[0], probe, live);
        PurgeOnlyRemoves(cs[0], probe, live);
        AllWithinSubset(Flatten(cs[0]), Flatten(p[0]), cs[0].center, cs[0].radius);
      }
      PurgeAllKeepsPlaced(cs[1..], probe, live);
    }
  }

  lemma AllWithinSubset(objs: seq<GameObject>, sub: seq<GameObject>, c: Vec3, r: real)
    requires AllWithin(objs, c, r)
    requires forall o :: o in sub ==> o in objs
    ensures AllWithin(sub, c, r)
  {
    forall i | 0 <= i < |sub|
      ensures BoxWithin(sub[i].position, sub[i].collisionRadius, Lower(c, r), Upper(c, r))
    {
      assert sub[i] in objs;
      var j :| 0 <= j < |objs| && objs[j] == sub[i];
    }
  }
}
