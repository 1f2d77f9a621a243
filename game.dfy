/** The bookkeeping of main.js around the octree: score, lives and difficulty
    when a shot hits an asteroid, the removal of expired shots, the pending
    spawns and deletes applied each frame, and the schedule of octree rebuilds. */
module Game {
  import opened Geometry
  import opened Entities
  import opened JsValues
  import opened JsArrays
  import opened PendingDelete
  import opened OctreeSpec
  import opened Octree

  const NUM_ASTEROIDS_BASE: int := 128
  /** Added to the difficulty for every 100 points. */
  const DIFFICULTY_SCALING: real := 0.25
  const PLAYER_LIVES_BASE: int := 3
  /** The octree is rebuilt at most this often (ms) unless the player leaves it. */
  const OCTREE_UPDATE_TIME_MS: real := 250.0

  /** `clamp`: the value, or the bound it is past. */
  function Clamp(v: real, lo: real, hi: real): (r: real)
    ensures r == v || r == lo || r == hi
    ensures lo <= hi ==> lo <= r <= hi
    ensures lo <= v <= hi ==> r == v
  {
    if v > hi then hi else if v < lo then lo else v
  }

  /** Clamping twice is clamping once, for bounds in order. */
  lemma ClampIdempotent(v: real, lo: real, hi: real)
    requires lo <= hi
    ensures Clamp(Clamp(v, lo, hi), lo, hi) == Clamp(v, lo, hi)
  {
  }

  // ---------------------------------------------------------------- scoring

  /** Points for destroying an asteroid: 100 for size 1, 50 for size 2, and 20
      for size 3 or any other size. */
  function ScoreGain(size: int): nat {
    if size == 1 then 100 else if size == 2 then 50 else 20
  }

  /** `Math.trunc((SCORE % 10000) / 1000)`: the thousands digit of the score. */
  function Thousands(score: nat): (d: nat)
    ensures d < 10
  {
    (score % 10000) / 1000
  }

  /** `Math.floor(randRange(1, 3))` for a `Math.random()` value `rand`. */
  function RandomSize(rand: real): int {
    (rand * 2.0 + 1.0).Floor
  }

  /** The sizes of the asteroids a destroyed asteroid breaks into. */
  function SpawnSizes(size: int, randA: real, randB: real): seq<int> {
    if size == 1 then [] else if size == 2 then [1, 1] else [RandomSize(randA), RandomSize(randB)]
  }

  /** A destroyed asteroid breaks into nothing (size 1) or two asteroids of size
      1 or 2, each smaller than it when it had size 2 or 3. */
  lemma SpawnSizesSmaller(size: int, randA: real, randB: real)
    requires 0.0 <= randA < 1.0 && 0.0 <= randB < 1.0
    ensures var sizes := SpawnSizes(size, randA, randB);
            |sizes| == (if size == 1 then 0 else 2) &&
            forall i :: 0 <= i < |sizes| ==> 1 <= sizes[i] <= 2 && (2 <= size <= 3 ==> sizes[i] < size)
  {
    assert 1 <= RandomSize(randA) <= 2 by { assert 1.0 <= randA * 2.0 + 1.0 < 3.0; }
    assert 1 <= RandomSize(randB) <= 2 by { assert 1.0 <= randB * 2.0 + 1.0 < 3.0; }
  }

  /** For any gain under 1000, a life is earned exactly when the score passes a
      multiple of 1000 that is not a multiple of 10000. */
  lemma LifeEarnedIff(score: nat, gain: nat)
    requires gain < 1000
    ensures Thousands(score + gain) > Thousands(score) <==>
              (score + gain) / 1000 > score / 1000 && (score + gain) / 10000 == score / 10000
  {
    var q, r := score / 10000, score % 10000;
    assert score == 10000 * q + r;
    assert score / 1000 == 10 * q + r / 1000;
    if r + gain < 10000 {
      assert score + gain == 10000 * q + (r + gain);
      assert (score + gain) / 10000 == q && (score + gain) % 10000 == r + gain;
      assert (score + gain) / 1000 == 10 * q + (r + gain) / 1000;
    } else {
      assert score + gain == 10000 * (q + 1) + (r + gain - 10000);
      assert (score + gain) / 10000 == q + 1 && (score + gain) % 10000 == r + gain - 10000;
    }
  }

  /** Passing 10000 (9950 to 10050) earns no life, though a multiple of 1000 was passed. */
  lemma NoLifeAtTenThousand()
    ensures Thousands(9950 + ScoreGain(1)) <= Thousands(9950)
    ensures (9950 + ScoreGain(1)) / 1000 > 9950 / 1000
  {
  }

  /** `1 + floor(SCORE / 100) * DIFFICULTY_SCALING`. */
  function DifficultyFor(score: nat): real {
    1.0 + (score / 100) as real * DIFFICULTY_SCALING
  }

  /** `Math.floor(NUM_ASTEROIDS_BASE * DIFFICULTY)`. */
  function TargetFor(difficulty: real): int {
    (NUM_ASTEROIDS_BASE as real * difficulty).Floor
  }

  /** Without an override the target is 128 plus 32 for every 100 points, so it
      never goes down as the score goes up. */
  lemma TargetFromScore(score: nat, later: nat)
    requires score <= later
    ensures TargetFor(DifficultyFor(score)) == 128 + 32 * (score / 100)
    ensures TargetFor(DifficultyFor(score)) <= TargetFor(DifficultyFor(later))
  {
    var k, k' := score / 100, later / 100;
    assert 128.0 * DifficultyFor(score) == (128 + 32 * k) as real;
    assert 128.0 * DifficultyFor(later) == (128 + 32 * k') as real;
    assert k <= k';
  }

  /** The point the octree is rebuilt around: the player's position, else the
      old root's centre, else the origin. */
  function FocalPoint(player: GameObject?, root: OctreeNode?): (c: Vec3)
    ensures player != null ==> c == player.position
  {
    if player != null then player.position
    else if root != null then root.center
    else Vec3(0.0, 0.0, 0.0)
  }

  /** The longest run of shots, from the oldest, that have expired by `now`. */
  function ExpiredPrefix(shots: seq<GameObject>, now: real): (n: nat)
    ensures n <= |shots|
    ensures forall i :: 0 <= i < n ==> shots[i].expireTime <= now
    ensures n < |shots| ==> shots[n].expireTime > now
  {
    if shots == [] || shots[0].expireTime > now then 0
    else 1 + ExpiredPrefix(shots[1..], now)
  }

  /** The drawables of some objects, in order. */
  function DrawablesOf(objs: seq<GameObject>): (ds: seq<Drawable?>)
    ensures |ds| == |objs| && forall i :: 0 <= i < |objs| ==> ds[i] == objs[i].drawable
  {
    if objs == [] then [] else DrawablesOf(objs[..|objs| - 1]) + [objs[|objs| - 1].drawable]
  }

  // ---------------------------------------------------------------- state

  /** The globals of main.js that these rules read and write. */
  class GameState {
    var score: nat
    var lives: int
    var difficulty: real
    /** `DIFFICULTY_OVERRIDE`: NaN until set from the debug controls. */
    var difficultyOverride: JsValue
    var numAsteroidsTarget: int
    /** All shots, from oldest to newest. */
    var shots: seq<GameObject>
    /** All asteroids, from oldest to newest. */
    var asteroids: seq<GameObject>
    var gameObjects: seq<GameObject>
    var drawables: seq<Drawable?>
    var pendingSpawn: seq<GameObject>
    var player: GameObject?
    var octreeUpdateNext: real
    /** `gameObjectsPendingDelete` and the functions of modules/game-object.mjs. */
    const queue: PendingDeleteQueue
    /** `OCTREE_ROOT_NODE`, `OCTREE_DEPTH` and `OCTREE_NODE_COUNT`. */
    const g: OctreeGlobals

    ghost predicate Valid()
      reads this, queue
    {
      queue.Valid()
    }

    /** The lists, the player and the rebuild time are as they were. */
    twostate predicate ListsUnchanged()
      reads this
    {
      shots == old(shots) && asteroids == old(asteroids) && gameObjects == old(gameObjects) &&
      drawables == old(drawables) && pendingSpawn == old(pendingSpawn) && player == old(player) &&
      octreeUpdateNext == old(octreeUpdateNext)
    }

    /** Score, lives and difficulty are as they were. */
    twostate predicate CountersUnchanged()
      reads this
    {
      score == old(score) && lives == old(lives) && difficulty == old(difficulty) &&
      difficultyOverride == old(difficultyOverride) && numAsteroidsTarget == old(numAsteroidsTarget)
    }

    /** The state when the game starts. */
    constructor (queue: PendingDeleteQueue, g: OctreeGlobals)
      requires queue.Valid()
      ensures Valid() && this.queue == queue && this.g == g
      ensures score == 0 && lives == PLAYER_LIVES_BASE && difficulty == 1.0 && difficultyOverride == NaN
      ensures numAsteroidsTarget == NUM_ASTEROIDS_BASE && octreeUpdateNext == 0.0 && player == null
      ensures shots == [] && asteroids == [] && gameObjects == [] && drawables == [] && pendingSpawn == []
    {
      score := 0;
      lives := PLAYER_LIVES_BASE;
      difficulty := 1.0;
      difficultyOverride := NaN;
      numAsteroidsTarget := NUM_ASTEROIDS_BASE;
      shots, asteroids, gameObjects, drawables, pendingSpawn := [], [], [], [], [];
      player := null;
      octreeUpdateNext := 0.0;
      this.queue := queue;
      this.g := g;
    }

    /** `updateDifficulty`: the override when it is a number, else one step of
        0.25 per 100 points; the asteroid target follows the difficulty. */
    method UpdateDifficulty()
      modifies this
      ensures difficulty == if difficultyOverride.Num? then difficultyOverride.value else DifficultyFor(score)
      ensures numAsteroidsTarget == TargetFor(difficulty)
      ensures !difficultyOverride.Num? ==> numAsteroidsTarget == 128 + 32 * (score / 100)
      ensures score == old(score) && lives == old(lives) && difficultyOverride == old(difficultyOverride)
      ensures ListsUnchanged()
    {
      if difficultyOverride.Num? {
        difficulty := difficultyOverride.value;
      } else {
        difficulty := 1.0 + (score / 100) as real * DIFFICULTY_SCALING;
      }
      numAsteroidsTarget := (NUM_ASTEROIDS_BASE as real * difficulty).Floor;
      TargetFromScore(score, score);
    }

    /** `newAsteroid(size, location)`: nothing without a player; else a new,
        still disabled asteroid queued to spawn and added to `asteroids`. Its
        collision radius comes from the generated shape, so it is a parameter. */
    method NewAsteroid(size: int, location: Vec3, radius: real) returns (roid: GameObject?)
      modifies this
      ensures player == null ==> roid == null && ListsUnchanged()
      ensures player != null ==>
                (roid != null && fresh(roid) && fresh(roid.drawable) &&
                 roid.kind == Asteroid && roid.size == size && roid.position == location &&
                 roid.collisionRadius == radius && !roid.enabled &&
                 pendingSpawn == old(pendingSpawn) + [roid] && asteroids == old(asteroids) + [roid] &&
                 shots == old(shots) && gameObjects == old(gameObjects) && drawables == old(drawables) &&
                 player == old(player) && octreeUpdateNext == old(octreeUpdateNext))
      ensures CountersUnchanged()
    {
      if player == null {
        return null;
      }
      var roidDrawable := new Drawable();
      roid := new GameObject(Asteroid, roidDrawable, radius, location, size, 0.0);
      pendingSpawn := pendingSpawn + [roid];
      asteroids := asteroids + [roid];
    }

    /** The scoring half of `onShotAsteroidCollision`: points by the asteroid's
        size, a life when the thousands digit went up, the difficulty updated,
        and the sizes of the pieces to spawn. */
    method ScoreAsteroid(size: int, randA: real, randB: real) returns (newAsteroidSizes: seq<int>)
      modifies this
      ensures score == old(score) + ScoreGain(size)
      ensures lives == old(lives) + (if Thousands(score) > Thousands(old(score)) then 1 else 0)
      ensures difficultyOverride == old(difficultyOverride)
      ensures difficulty == if difficultyOverride.Num? then difficultyOverride.value else DifficultyFor(score)
      ensures numAsteroidsTarget == TargetFor(difficulty)
      ensures newAsteroidSizes == SpawnSizes(size, randA, randB)
      ensures ListsUnchanged()
    {
      var scoreThousands := Thousands(score);
      newAsteroidSizes := [];
      if size == 1 {
        score := score + 100;
      } else if size == 2 {
        score := score + 50;
        newAsteroidSizes := [1, 1];
      } else {
        score := score + 20;
        newAsteroidSizes := [RandomSize(randA), RandomSize(randB)];
      }
      var newScoreThousands := Thousands(score);
      if newScoreThousands > scoreThousands {
        lives := lives + 1;
      }
      UpdateDifficulty();
    }

    /** The spawning loop of `onShotAsteroidCollision`: `newAsteroid` for each size,
        at the destroyed asteroid's position. */
    method SpawnPieces(sizes: seq<int>, location: Vec3, radii: seq<real>) returns (spawned: seq<GameObject>)
      requires |radii| >= |sizes|
      modifies this
      ensures |spawned| == if player == null then 0 else |sizes|
      ensures forall i :: 0 <= i < |spawned| ==>
                fresh(spawned[i]) && spawned[i].kind == Asteroid && !spawned[i].enabled &&
                spawned[i].size == sizes[i] && spawned[i].position == location
      ensures asteroids == old(asteroids) + spawned && pendingSpawn == old(pendingSpawn) + spawned
      ensures shots == old(shots) && gameObjects == old(gameObjects) && drawables == old(drawables)
      ensures player == old(player) && octreeUpdateNext == old(octreeUpdateNext)
      ensures CountersUnchanged()
    {
      spawned := [];
      for sizeIdx := 0 to |sizes|
        invariant |spawned| == if player == null then 0 else sizeIdx
        invariant forall i :: 0 <= i < |spawned| ==>
                    fresh(spawned[i]) && spawned[i].kind == Asteroid && !spawned[i].enabled &&
                    spawned[i].size == sizes[i] && spawned[i].position == location
        invariant asteroids == old(asteroids) + spawned && pendingSpawn == old(pendingSpawn) + spawned
        invariant shots == old(shots) && gameObjects == old(gameObjects) && drawables == old(drawables)
        invariant player == old(player) && octreeUpdateNext == old(octreeUpdateNext)
        invariant CountersUnchanged()
      {
        var roid := NewAsteroid(sizes[sizeIdx], location, radii[sizeIdx]);
        if roid != null {
          spawned := spawned + [roid];
        }
      }
    }

    /** `onShotAsteroidCollision`: score the asteroid, spawn its pieces, then
        delete the shot and the asteroid and splice them out at the given
        positions. `randA`, `randB` stand for `Math.random()` and `radiusA`,
        `radiusB` for the pieces' generated radii. */
    method OnShotAsteroidCollision(shot: GameObject, shotIdx: int, asteroid: GameObject, asteroidIdx: int,
                                   randA: real, randB: real, radiusA: real, radiusB: real)
      returns (spawned: seq<GameObject>)
      requires Valid()
      modifies this, queue, shot, asteroid
      ensures Valid()
      ensures score == old(score) + ScoreGain(asteroid.size)
      ensures lives == old(lives) + (if Thousands(score) > Thousands(old(score)) then 1 else 0)
      ensures difficultyOverride == old(difficultyOverride)
      ensures difficulty == if difficultyOverride.Num? then difficultyOverride.value else DifficultyFor(score)
      ensures numAsteroidsTarget == TargetFor(difficulty)
      ensures |spawned| == if old(player) == null then 0 else |SpawnSizes(asteroid.size, randA, randB)|
      ensures forall i :: 0 <= i < |spawned| ==>
                fresh(spawned[i]) && spawned[i].kind == Asteroid && !spawned[i].enabled &&
                spawned[i].size == SpawnSizes(asteroid.size, randA, randB)[i] &&
                spawned[i].position == asteroid.position
      ensures pendingSpawn == old(pendingSpawn) + spawned
      ensures asteroids == RemoveAt(old(asteroids) + spawned, asteroidIdx)
      ensures shots == RemoveAt(old(shots), shotIdx)
      ensures queue.pending == PushIfAbsent(PushIfAbsent(old(queue.pending), shot), asteroid)
      ensures !shot.enabled && !asteroid.enabled
      ensures gameObjects == old(gameObjects) && drawables == old(drawables) && player == old(player)
      ensures octreeUpdateNext == old(octreeUpdateNext)
    {
      var newAsteroidSizes := ScoreAsteroid(asteroid.size, randA, randB);
      spawned := SpawnPieces(newAsteroidSizes, asteroid.position, [radiusA, radiusB]);
      queue.DeleteObject(shot);
      shots := RemoveAt(shots, shotIdx);
      queue.DeleteObject(asteroid);
      asteroids := RemoveAt(asteroids, asteroidIdx);
    }

    /** Deletes the `count` oldest shots, oldest first. */
    method DeleteOldShots(count: nat)
      requires Valid() && count <= |shots|
      modifies queue, set i | 0 <= i < count :: shots[i]
      ensures Valid()
      ensures forall i :: 0 <= i < count ==> !shots[i].enabled
      ensures forall i :: count <= i < |shots| && shots[i] !in shots[..count] ==>
                shots[i].enabled == old(shots[i].enabled)
      ensures queue.pending == PushAllIfAbsent(old(queue.pending), shots[..count])
    {
      for objIdx := 0 to count
        invariant queue.Valid()
        invariant queue.pending == PushAllIfAbsent(old(queue.pending), shots[..objIdx])
        invariant forall i :: 0 <= i < objIdx ==> !shots[i].enabled
      {
        label Step:
        assert shots[..objIdx + 1][..objIdx] == shots[..objIdx];
        queue.DeleteObject(shots[objIdx]);
        forall i | 0 <= i < objIdx + 1
          ensures !shots[i].enabled
        {
          if shots[i] != shots[objIdx] {
            assert !old@Step(shots[i].enabled);
          }
        }
      }
    }

    /** The counting loop of the shot cleanup: shots from the oldest on while
        their expiry time has come. */
    static method CountOldShots(shots: seq<GameObject>, lastFrameTimeMs: real) returns (numOldShots: nat)
      ensures numOldShots == ExpiredPrefix(shots, lastFrameTimeMs)
    {
      numOldShots := 0;
      var shotIdx := 0;
      while shotIdx < |shots| && shots[shotIdx].expireTime <= lastFrameTimeMs
        invariant 0 <= shotIdx <= |shots| && numOldShots == shotIdx
        invariant ExpiredPrefix(shots, lastFrameTimeMs) == shotIdx + ExpiredPrefix(shots[shotIdx..], lastFrameTimeMs)
      {
        assert shots[shotIdx..][1..] == shots[shotIdx + 1..];
        numOldShots := numOldShots + 1;
        shotIdx := shotIdx + 1;
      }
    }

    /** The shot cleanup of `updateGame`: count the expired shots from the oldest
        on, delete each of them, and splice them off the front of `shots`. */
    method CleanUpShots(lastFrameTimeMs: real)
      requires Valid()
      modifies this, queue, set i | 0 <= i < ExpiredPrefix(shots, lastFrameTimeMs) :: shots[i]
      ensures Valid()
      ensures var n := ExpiredPrefix(old(shots), lastFrameTimeMs);
              shots == old(shots)[n..] &&
              (forall i :: 0 <= i < n ==> !old(shots)[i].enabled) &&
              queue.pending == PushAllIfAbsent(old(queue.pending), old(shots)[..n])
      ensures var n := ExpiredPrefix(old(shots), lastFrameTimeMs);
              forall o :: o in shots && o !in old(shots)[..n] ==> o.enabled == old(o.enabled)
      ensures asteroids == old(asteroids) && gameObjects == old(gameObjects) && drawables == old(drawables)
      ensures pendingSpawn == old(pendingSpawn) && player == old(player) && octreeUpdateNext == old(octreeUpdateNext)
      ensures CountersUnchanged()
    {
      if |shots| > 0 {
        var numOldShots := CountOldShots(shots, lastFrameTimeMs);
        if numOldShots > 0 {
          DeleteOldShots(numOldShots);
          shots := shots[numOldShots..];
        }
      }
    }

    /** One pending spawn: the object is enabled, and its drawable and itself are
        pushed onto the lists unless already there. */
    static method SpawnOne(drawables: seq<Drawable?>, gameObjects: seq<GameObject>, obj: GameObject)
      returns (newDrawables: seq<Drawable?>, newObjects: seq<GameObject>)
      modifies obj
      ensures obj.enabled
      ensures newDrawables == PushIfAbsent(drawables, obj.drawable)
      ensures newObjects == PushIfAbsent(gameObjects, obj)
    {
      obj.enabled := true;
      newDrawables, newObjects := drawables, gameObjects;
      var drawableIdx := IndexOf(newDrawables, obj.drawable);
      if drawableIdx < 0 {
        newDrawables := newDrawables + [obj.drawable];
      }
      var objIdx := IndexOf(newObjects, obj);
      if objIdx < 0 {
        newObjects := newObjects + [obj];
      }
    }

    /** The loop over the pending spawns, one object at a time. */
    static method SpawnAll(spawns: seq<GameObject>, drawables: seq<Drawable?>, gameObjects: seq<GameObject>)
      returns (newDrawables: seq<Drawable?>, newObjects: seq<GameObject>)
      modifies spawns
      ensures forall i :: 0 <= i < |spawns| ==> spawns[i].enabled
      ensures newDrawables == PushAllIfAbsent(drawables, DrawablesOf(spawns))
      ensures newObjects == PushAllIfAbsent(gameObjects, spawns)
    {
      newDrawables, newObjects := drawables, gameObjects;
      for pendingIdx := 0 to |spawns|
        invariant forall i :: 0 <= i < pendingIdx ==> spawns[i].enabled
        invariant newDrawables == PushAllIfAbsent(drawables, DrawablesOf(spawns)[..pendingIdx])
        invariant newObjects == PushAllIfAbsent(gameObjects, spawns[..pendingIdx])
      {
        PushAllIfAbsentStep(drawables, DrawablesOf(spawns), pendingIdx);
        PushAllIfAbsentStep(gameObjects, spawns, pendingIdx);
        newDrawables, newObjects := SpawnOne(newDrawables, newObjects, spawns[pendingIdx]);
      }
      assert spawns[..|spawns|] == spawns && DrawablesOf(spawns)[..|spawns|] == DrawablesOf(spawns);
    }

    /** The pending spawns of `updateGame`: every pending object enabled and
        listed, then the list emptied. */
    method ApplyPendingSpawns()
      modifies this, pendingSpawn
      ensures forall i :: 0 <= i < |old(pendingSpawn)| ==> old(pendingSpawn)[i].enabled
      ensures drawables == PushAllIfAbsent(old(drawables), DrawablesOf(old(pendingSpawn)))
      ensures gameObjects == PushAllIfAbsent(old(gameObjects), old(pendingSpawn))
      ensures pendingSpawn == []
      ensures shots == old(shots) && asteroids == old(asteroids) && player == old(player)
      ensures octreeUpdateNext == old(octreeUpdateNext) && CountersUnchanged()
    {
      drawables, gameObjects := SpawnAll(pendingSpawn, drawables, gameObjects);
      pendingSpawn := [];
    }

    /** The list updates of one pending delete: the first copy of the object's
        drawable and of the object itself is spliced out. */
    static method DeleteFromLists(drawables: seq<Drawable?>, gameObjects: seq<GameObject>, obj: GameObject)
      returns (newDrawables: seq<Drawable?>, newObjects: seq<GameObject>)
      ensures newDrawables == RemoveFirst(drawables, obj.drawable)
      ensures newObjects == RemoveFirst(gameObjects, obj)
    {
      newDrawables, newObjects := drawables, gameObjects;
      var drawableIdx := IndexOf(newDrawables, obj.drawable);
      if drawableIdx >= 0 {
        newDrawables := RemoveAt(newDrawables, drawableIdx);
      }
      var objIdx := IndexOf(newObjects, obj);
      if objIdx >= 0 {
        newObjects := RemoveAt(newObjects, objIdx);
      }
    }

    /** The loop over the pending deletes: for each object in turn the first copy
        of its drawable and of itself is spliced out of the lists. */
    static method DeleteAll(deletes: seq<GameObject>, drawables: seq<Drawable?>, gameObjects: seq<GameObject>)
      returns (newDrawables: seq<Drawable?>, newObjects: seq<GameObject>)
      ensures newDrawables == RemoveAllFirst(drawables, DrawablesOf(deletes))
      ensures newObjects == RemoveAllFirst(gameObjects, deletes)
    {
      newDrawables, newObjects := drawables, gameObjects;
      for pendingIdx := 0 to |deletes|
        invariant newDrawables == RemoveAllFirst(drawables, DrawablesOf(deletes)[..pendingIdx])
        invariant newObjects == RemoveAllFirst(gameObjects, deletes[..pendingIdx])
      {
        RemoveAllFirstStep(drawables, DrawablesOf(deletes), pendingIdx);
        RemoveAllFirstStep(gameObjects, deletes, pendingIdx);
        newDrawables, newObjects := DeleteFromLists(newDrawables, newObjects, deletes[pendingIdx]);
      }
      assert deletes[..|deletes|] == deletes && DrawablesOf(deletes)[..|deletes|] == DrawablesOf(deletes);
    }

    /** The pending deletes of `updateGame`: every queued object unlisted, then
        the queue emptied. */
    method ApplyPendingDeletes()
      modifies this, queue
      ensures Valid() && queue.pending == []
      ensures drawables == RemoveAllFirst(old(drawables), DrawablesOf(old(queue.pending)))
      ensures gameObjects == RemoveAllFirst(old(gameObjects), old(queue.pending))
      ensures shots == old(shots) && asteroids == old(asteroids) && pendingSpawn == old(pendingSpawn)
      ensures player == old(player) && octreeUpdateNext == old(octreeUpdateNext) && CountersUnchanged()
    {
      drawables, gameObjects := DeleteAll(queue.pending, drawables, gameObjects);
      queue.ResetPendingDelete();
    }

    /** The octree step of `updateGame`: rebuild when the scheduled time has
        passed or the player has left the root's cube, then schedule the next
        rebuild 250 ms on. The tree is built around the focal point from a copy
        of `asteroids`; `live` is the set of asteroids enabled at that moment. */
    method UpdateOctree(lastFrameTimeMs: real) returns (rebuilt: bool)
      requires Drawn(asteroids)
      requires player != null ==> player.drawable != null
      modifies this, g
      ensures rebuilt <==> old(octreeUpdateNext) < lastFrameTimeMs ||
                           old(player != null && g.root != null && !g.root.Intersects(player, false))
      ensures rebuilt ==> octreeUpdateNext == lastFrameTimeMs + OCTREE_UPDATE_TIME_MS
      ensures rebuilt ==>
                (g.root != null && fresh(g.root.Repr) && g.root.Valid() &&
                 g.root.center == FocalPoint(old(player), old(g.root)) && g.root.radius == ENCLOSE_SIZE &&
                 g.root.Model == BuildSpec(g.root.center, ENCLOSE_SIZE, 0, asteroids,
                                           Octants(set a | a in asteroids && a.enabled)) &&
                 g.nodeCount == Size(g.root.Model) && g.depth == MaxDepth(g.root.Model))
      ensures !rebuilt ==> octreeUpdateNext == old(octreeUpdateNext) && unchanged(g)
      ensures shots == old(shots) && asteroids == old(asteroids) && gameObjects == old(gameObjects)
      ensures drawables == old(drawables) && pendingSpawn == old(pendingSpawn) && player == old(player)
      ensures CountersUnchanged()
    {
      var playerEscapedOctree := player != null && g.root != null && !g.root.Intersects(player, false);
      rebuilt := false;
      if octreeUpdateNext < lastFrameTimeMs || playerEscapedOctree {
        rebuilt := true;
        octreeUpdateNext := lastFrameTimeMs + OCTREE_UPDATE_TIME_MS;
        var octreePos := Vec3(0.0, 0.0, 0.0);
        if player != null {
          octreePos := player.position;
        } else if g.root != null {
          octreePos := g.root.center;
        }
        ghost var live := set a | a in asteroids && a.enabled;
        OctreeNode.InitializeTree(octreePos, asteroids, g, live);
        assert live == set a | a in asteroids && a.enabled;
      }
    }
  }
}
