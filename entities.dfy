/** The game objects that the octree indexes and that collide with each other
    (`GameObject` in main.js, `EObjectTypes` in modules/game-object.mjs). */
module Entities {
  import opened Geometry

  /** `EObjectTypes`: Asteroid = 1, Player = 2, Shot = 3. */
  datatype ObjectType = Asteroid | Player | Shot

  function TypeCode(t: ObjectType): (code: int)
    ensures 1 <= code <= 3
    ensures t == Asteroid <==> code == 1
    ensures t == Player <==> code == 2
  {
    match t
    case Asteroid => 1
    case Player => 2
    case Shot => 3
  }

  /** A drawable, kept only for its identity: the game keeps a list of them and
      `checkCollision` refuses an object without one. */
  class Drawable {
    constructor () {}
  }

  /** What a JavaScript call that may `throw` gives back. */
  datatype Outcome<T> = Returned(value: T) | Thrown

  class GameObject {
    const kind: ObjectType
    const drawable: Drawable?
    const collisionRadius: real
    /** Cached at construction, as `_collisionRadiusSquared` is. */
    const collisionRadiusSquared: real := collisionRadius * collisionRadius
    /** `Asteroid.size`; other kinds carry 0, which like `undefined` matches no size case. */
    const size: int
    /** `PlayerShot.expireTime` in ms; meaningful for shots only. */
    const expireTime: real
    /** `drawable.transform.transVec3` at the moment the tree is built and queried;
        the simulation step that moves it between frames is outside this model. */
    const position: Vec3
    var enabled: bool

    constructor (kind: ObjectType, drawable: Drawable?, collisionRadius: real, position: Vec3,
                 size: int, expireTime: real)
      ensures this.kind == kind && this.drawable == drawable
      ensures this.collisionRadius == collisionRadius && this.position == position
      ensures this.size == size && this.expireTime == expireTime
      ensures !enabled
    {
      this.kind := kind;
      this.drawable := drawable;
      this.collisionRadius := collisionRadius;
      this.position := position;
      this.size := size;
      this.expireTime := expireTime;
      enabled := false;
    }

    /** `GameObject.checkCollision`: throws for a missing object or drawable; a
        missing drawable of the caller's own raises a TypeError when its position
        is read; otherwise compares the squared distance with the sum of the
        squared radii. */
    function CheckCollision(other: GameObject?): (r: Outcome<bool>)
      ensures r.Thrown? <==> (other == null || other.drawable == null || drawable == null)
      ensures r.Returned? ==> (r.value <==> Collides(this, other))
    {
      if other == null || other.drawable == null then Thrown
      else if drawable == null then Thrown
      else Returned(Collides(this, other))
    }
  }

  /** Between two objects with drawables the call answers the collision test. */
  lemma CheckCollisionDrawn(a: GameObject, b: GameObject)
    requires a.drawable != null && b.drawable != null
    ensures a.CheckCollision(b) == Returned(Collides(a, b))
  {
  }

  /** The leaf test of every collision query: squared distance below rA² + rB². */
  predicate Collides(a: GameObject, b: GameObject) {
    SquaredDistance(a.position, b.position) < a.collisionRadiusSquared + b.collisionRadiusSquared
  }

  /** The test compares the squared distance of the centres with rA² + rB²,
      whatever the cached squares. */
  lemma CollidesMeans(a: GameObject, b: GameObject)
    ensures Collides(a, b) <==>
              SquaredDistance(a.position, b.position) < Sq(a.collisionRadius) + Sq(b.collisionRadius)
  {
  }

  /** The collision test does not depend on which object asks. */
  lemma CollisionSymmetric(a: GameObject, b: GameObject)
    ensures Collides(a, b) <==> Collides(b, a)
    ensures a.CheckCollision(b).Returned? && b.CheckCollision(a).Returned? ==>
              a.CheckCollision(b) == b.CheckCollision(a)
  {
    assert SquaredDistance(a.position, b.position) == SquaredDistance(b.position, a.position) by {
      var p, q := a.position, b.position;
      assert Sq(p.x - q.x) == Sq(q.x - p.x);
      assert Sq(p.y - q.y) == Sq(q.y - p.y);
      assert Sq(p.z - q.z) == Sq(q.z - p.z);
    }
  }

  /** Two objects that collide have overlapping boxes: if `b`'s box fits in a box
      that `a`'s box misses, `a` and `b` do not collide. This is what makes it safe
      for a query to skip a node its probe does not intersect. */
  lemma CollisionNeedsOverlap(a: GameObject, b: GameObject, lo: Vec3, hi: Vec3)
    requires a.collisionRadius >= 0.0 && b.collisionRadius >= 0.0
    requires BoxWithin(b.position, b.collisionRadius, lo, hi)
    requires !BoxOverlaps(a.position, a.collisionRadius, lo, hi)
    ensures !Collides(a, b)
  {
    var ra, rb := a.collisionRadius, b.collisionRadius;
    var p, q := a.position, b.position;
    SeparatedAxis(p, ra, q, rb, lo, hi);
    assert Sq(ra + rb) >= Sq(ra) + Sq(rb) by {
      assert Sq(ra + rb) == Sq(ra) + 2.0 * ra * rb + Sq(rb);
      assert ra * rb >= 0.0;
    }
    SqNonNegative(p.x - q.x);
    SqNonNegative(p.y - q.y);
    SqNonNegative(p.z - q.z);
  }
}
