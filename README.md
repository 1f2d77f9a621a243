# Roids3D: the octree, the game bookkeeping and the OBJ loader, in Dafny

Roids3D is a WebGL asteroids game. Every few frames it rebuilds an octree over the
asteroids around the player's ship (`OctreeNode.initializeTree` / `buildTree` in
octree.js) and asks it which asteroids the ship or a shot touches
(`checkCollisions`). Around that sit the game rules of main.js: points, extra
lives and difficulty when a shot destroys an asteroid, the cleanup of expired
shots, the frame-time rolling average, the queues of objects waiting to be spawned
or deleted (modules/game-object.mjs), and the Wavefront OBJ reader that loads the
models.

The project has these modules:

- `Geometry` (geometry.dfy): points and the axis-aligned box tests the octree uses.
- `Entities` (entities.dfy): game objects, their collision test and the object kinds.
- `JsValues` (js_values.dfy): JavaScript numbers, NaN and `undefined`, as far as the code relies on them.
- `JsArrays` (js_arrays.dfy): `indexOf`, the guarded `push` and `splice(i, 1)`.
- `OctreeSpec` (octree_spec.dfy): the octree as a value (`Shape`), with reference definitions.
  - `BuildSpec` is the tree a build is meant to produce.
  - `Hits` is what a query reports.
  - `Purged` is the tree a query leaves behind.
- `OctreeBuildProps` and `OctreeQueryProps` (octree_build_props.dfy, octree_query_props.dfy): what those definitions guarantee.
  - No object is lost or duplicated.
  - Children nest in their parents.
  - Depth is bounded.
  - A query finds exactly the colliding enabled objects.
  - The purge is idempotent and keeps every answer.
- `Octree` (octree.dfy): the `OctreeNode` class with its mutable `children` and `objects`, and the three globals. It is proved against the definitions above.
- `OctreeFindings` (octree_findings.dfy): three places where octree.js does not do what its comments promise, modelled as written, with concrete inputs.
- `PendingDelete` (pending_delete.dfy): the pending-delete queue.
- `RollingAverages` (rolling_average.dfy): the ring buffer behind the frame-time display.
- `Game` (game.dfy): a `GameState` class holding the globals of main.js that the rules above read and write.
- `ObjParser` (obj_parser.dfy): `parseObj`, line by line, then the expansion into per-corner arrays.

Game objects are a class because `enabled` is updated in place. The collision
test reads a position that the model stores on the object. The octree's
`Model`/`Repr` ghost fields tie each node to its value and to the nodes it owns.

The stop rule of `buildTree` (octree.js:3-6, 110-118) splits every node with
more than one object and a radius above 0.1, but a split does not move every
object down. Objects that straddle a node's centre planes fit no octant and stay
in that node, whatever their number, so a node can end as a leaf of full radius
holding several objects (`OctreeBuildProps.StraddlingObjectsStayInLeaf`).

## Model

| member | source | states |
|---|---|---|
| Entities.TypeCode | modules/game-object.mjs:1 | The object kinds get the codes Asteroid 1, Player 2 and Shot 3, one code per kind. |
| Entities.GameObject.constructor | main.js:695-703 | A new object starts disabled and holds the given kind, drawable, collision radius and position. |
| Entities.GameObject.CheckCollision | main.js:705-711 | The call throws exactly when the other object or its drawable is missing, or when the caller's own drawable is missing (the TypeError of reading its position). Otherwise it answers whether the squared centre distance is below rA² + rB². |
| Entities.CheckCollisionDrawn | main.js:705-711 | Between two objects that both have drawables the call never throws and answers the collision test. |
| Entities.CollisionSymmetric | main.js:705-711 | Whether two objects collide does not depend on which one asks. |
| Entities.CollisionNeedsOverlap | main.js:705-711 | Suppose an object's box lies within a cube and the probe's box misses that cube. Then the two do not collide. This is what lets a query skip a child. |
| Geometry.BoxWithinIsSubset | octree.js:62-80 | The six inclusive face comparisons of `contains` hold exactly when every point of the object's box lies in the node's cube. |
| Geometry.BoxOverlapsIsSharedPoint | octree.js:86-104 | The per-axis test that `intersects` documents holds exactly when the object's box and the cube share a point. |
| Geometry.WithinImpliesOverlaps | octree.js:62-104 | A box contained in the cube also intersects it. |
| Geometry.TouchingFaceIsWithin | octree.js:62-104 | A box touching a face from inside is contained, and one touching it from outside intersects, because the comparisons are inclusive. |
| Geometry.SeparatedAxis | octree.js:86-104 | Suppose an object's box is within [lo, hi] and the probe's box misses [lo, hi]. Then on some axis the centres are further apart than the sum of the radii. |
| JsArrays.IndexOf | modules/game-object.mjs:12 | `indexOf` gives -1 exactly when the value is absent. Otherwise it gives a position holding the value with no copy before it. |
| JsArrays.PushIfAbsentFacts | modules/game-object.mjs:12-17 | The guarded push keeps the list as a prefix and contains the value afterwards. It grows by one exactly when the value was missing and never makes a duplicate. |
| JsArrays.PushIfAbsentIdempotent | modules/game-object.mjs:12-17 | Pushing the same value twice is pushing it once. |
| JsArrays.PushAllIfAbsentFacts | main.js:2030-2047 | Pushing a list of values keeps the old entries first. The result holds exactly the old and the pushed values, without duplicates if there were none. |
| JsArrays.RemoveAtFacts | main.js:2056-2057 | `splice(i, 1)` keeps the entries before and after i in order and removes exactly one copy of entry i. |
| JsArrays.RemoveAtUnique | main.js:1904-1907 | On a list without duplicates, `splice(i, 1)` removes exactly the value at i. |
| JsArrays.RemoveAtLast | main.js:1904-1907 | `splice(-1, 1)` removes the last entry: a negative start counts back from the end. |
| JsArrays.RemoveFirst | main.js:2055-2067 | The indexOf-then-splice step leaves the list alone when the value is absent. Otherwise it removes exactly one copy, as a multiset. |
| JsArrays.RemoveAllFirstFacts | main.js:2052-2068 | From a list without duplicates, the delete loop removes exactly the queued values and keeps the list free of duplicates. |
| JsValues.Add | main.js:66-71 | `a + b` is a number exactly when both operands are, and then it is their sum. `undefined` and NaN give NaN. |
| JsValues.AbsOneMinus | main.js:1069 | `flipUV` gives a number exactly for a number, and then gives abs(1 - v). |
| PendingDelete.PendingDeleteQueue.constructor | modules/game-object.mjs:3 | The queue starts empty. |
| PendingDelete.PendingDeleteQueue.DeleteObject | modules/game-object.mjs:9-18 | The object ends disabled and queued. The queue grows only at the end. It is unchanged exactly when the object was already queued, and never holds an object twice. |
| PendingDelete.PendingDeleteQueue.ResetPendingDelete | modules/game-object.mjs:25-27 | The queue is empty again. |
| RollingAverages.RollingAverage.constructor | main.js:50-59 | The buffer has `length` slots holding 0, and the next write goes to slot 0. |
| RollingAverages.RollingAverage.Push | main.js:61-64 | Only the slot at `nextIdx` is overwritten, and `nextIdx` advances modulo `length`. |
| RollingAverages.RollingAverage.GetAverage | main.js:66-71 | The result is the sum of the slots over `length`. It equals the sum of the last `length` values pushed (missing ones counting 0) over `length`. |
| RollingAverages.SlotsSum | main.js:48-72 | After any sequence of pushes, the buffer adds up to exactly the last `length` values pushed. |
| RollingAverages.SlotHolds | main.js:61-64 | For each of the last `length` pushes j, slot j mod `length` holds push j. |
| RollingAverages.WindowSlides | main.js:61-64 | Once the buffer is full, a push drops the oldest value of the window and appends the new one. |
| Game.Clamp | main.js:45 | The result is the value or one of the bounds. For ordered bounds it lies between them, and it is the value itself when the value already lies within. |
| Game.ClampIdempotent | main.js:45 | Clamping twice is clamping once. |
| Game.SpawnSizesSmaller | main.js:1875-1888 | A size-1 asteroid breaks into nothing. Any other breaks into two asteroids of size 1 or 2, each smaller than an asteroid of size 2 or 3. |
| Game.LifeEarnedIff | main.js:1873-1894 | For a gain under 1000, a life is earned exactly when the score crosses a multiple of 1000 that is not a multiple of 10000. |
| Game.NoLifeAtTenThousand | main.js:1890-1894 | Going from 9950 to 10050 crosses a thousand yet earns no life. |
| Game.TargetFromScore | main.js:1928-1935 | Without an override, the asteroid target is 128 + 32 × floor(score / 100). It never falls as the score grows. |
| Game.FocalPoint | main.js:2083-2087 | The octree is rebuilt around the player's position when there is a player. |
| Game.ExpiredPrefix | main.js:1952-1953 | The count is the length of the longest run of shots, from the oldest, whose expiry time has passed. |
| Game.GameState.constructor | main.js:1598-1664 | The game starts with score 0, 3 lives, difficulty 1, NaN override, target 128, no player and empty lists. |
| Game.GameState.UpdateDifficulty | main.js:1928-1935 | The difficulty is the override when it is a number, else 1 + floor(score / 100) × 0.25. The target is floor(128 × difficulty), which is 128 + 32 × floor(score / 100) without an override. |
| Game.GameState.NewAsteroid | main.js:1815-1864 | Without a player nothing is made. Otherwise a new disabled asteroid of that size is appended to the asteroids and to the pending spawns. |
| Game.GameState.ScoreAsteroid | main.js:1873-1898 | The score grows by 100, 50 or 20 by size. A life is added exactly when the thousands digit rises. The difficulty is updated, and the sizes to spawn are returned. |
| Game.GameState.SpawnPieces | main.js:1900-1902 | There is one new asteroid per size at the destroyed asteroid's position, or none without a player. The new asteroids are appended to the asteroids and to the pending spawns. |
| Game.GameState.OnShotAsteroidCollision | main.js:1871-1908 | Scoring, lives and difficulty change as above. The pieces are spawned, and both objects are disabled and queued for delete. The shot is spliced out at its index, and the asteroid at its index of the grown list; a negative index counts back from the end, as `splice` does. |
| Game.GameState.CountOldShots | main.js:1951-1953 | The counting loop finds exactly the expired prefix of the shots. |
| Game.GameState.DeleteOldShots | main.js:1956-1959 | The oldest `count` shots are disabled and queued for delete, in order. No other shot's flag changes. |
| Game.GameState.CleanUpShots | main.js:1948-1963 | The expired prefix of the shots is disabled, queued and spliced off. The remaining shots are the rest of the list, each with its flag as it was. |
| Game.GameState.SpawnOne | main.js:2031-2046 | A pending object is enabled, and it and its drawable are pushed where absent. |
| Game.GameState.SpawnAll | main.js:2030-2047 | Every pending object is enabled, and the lists are the guarded pushes of all of them in order. |
| Game.GameState.ApplyPendingSpawns | main.js:2030-2049 | The same as `SpawnAll`, and then the pending-spawn list is empty. |
| Game.GameState.DeleteFromLists | main.js:2053-2067 | For one queued object, the first copy of its drawable and of itself is removed where present. |
| Game.GameState.DeleteAll | main.js:2052-2068 | The lists lose the first copy of each queued object and drawable, in queue order. |
| Game.GameState.ApplyPendingDeletes | main.js:2052-2070 | The same as `DeleteAll`, and then the queue is empty. |
| Game.GameState.UpdateOctree | main.js:2079-2102 | A rebuild happens exactly when the scheduled time has passed or the player has left the root's cube. It reschedules 250 ms ahead and builds the intended tree over the asteroids around the focal point. Otherwise nothing changes. |
| OctreeSpec.FirstOctantFrom | octree.js:174-185 | The octant the object goes to fits the object, and no octant before it does. 8 means none fits. |
| OctreeSpec.Bucket | octree.js:174-201 | An octant's list is never longer than the node's list. `BucketMembers` and `BucketCount` state what it holds. |
| OctreeSpec.HitsIn | octree.js:220-233 | A scan reports at most as many objects as it scans. |
| OctreeSpec.EnabledIn | octree.js:220-233 | A purged list holds only enabled objects of the original list. |
| Octree.OctreeGlobals.constructor | octree.js:1-19 | There is no root, and depth and node count start at 0. |
| Octree.OctantCenterAt | octree.js:140-165 | The table of eight octant centres follows the x-high-bit order and agrees with the bit rule. |
| Octree.FindOctant | octree.js:174-185 | The octant loop stops at the first octant, in table order, that contains the object, or at 8. |
| Octree.SplitObjects | octree.js:174-201 | Octant k's list is exactly the objects, in order, whose first fitting octant is k. The kept list is exactly those that fit none. |
| Octree.ScanObjects | octree.js:220-233 | The node's list ends as its enabled entries, in order. The report grows by the enabled entries that collide, in order. |
| Octree.OccupiedBuckets | octree.js:189-197 | Children are made for exactly the non-empty octants, in increasing order. |
| Octree.SplitFacts | octree.js:174-201 | On a split, the intended tree keeps the unfitted objects and has one intended subtree per occupied octant. |
| Octree.OctreeNode.constructor | octree.js:33-56 | The extents are centre ± radius, and the depth is the parent's depth + 1 (0 for a root). `OCTREE_DEPTH` is raised to it. |
| Octree.OctreeNode.Contains | octree.js:62-80 | The test is false for a disabled object unless `evenIfDisabled`. A contained box also intersects. |
| Octree.OctreeNode.Intersects | octree.js:86-104 | The intended overlap test is false for a disabled object unless `evenIfDisabled`. The as-written version is under Findings. |
| Octree.OctreeNode.IntersectsIsCube | octree.js:86-104 | For the query's call, `intersects` is the overlap of the probe's box with the node's cube. |
| Octree.OctreeNode.AddChild | octree.js:189-197 | A fresh child for an octant is appended and counted in `OCTREE_NODE_COUNT`. |
| Octree.OctreeNode.MakeChildren | octree.js:189-201 | One fresh leaf child is made per non-empty octant, in octant order, each counted. The node then keeps only the unfitted objects. |
| Octree.OctreeNode.SplitNode | octree.js:122-201 | After the split, the intended tree is the kept objects over the intended builds of the unbuilt children. |
| Octree.OctreeNode.BuildTree | octree.js:109-209 | The node becomes exactly `BuildSpec` of its objects. `OCTREE_NODE_COUNT` grows by the number of new nodes, and `OCTREE_DEPTH` ends at the deepest node. |
| Octree.OctreeNode.BuildChildren | octree.js:206-207 | Every child from `from` on becomes the intended build of its octant. The counters grow accordingly. |
| Octree.OctreeNode.BuildChild | octree.js:206-207 | Building one child gives its intended subtree and leaves its siblings untouched. |
| Octree.OctreeNode.CheckCollisions | octree.js:218-246 | The query appends exactly `Hits` of the tree to the list and leaves the tree `Purged`, without changing its shape. |
| Octree.OctreeNode.ScanOwn | octree.js:220-233 | The node's own list is purged of disabled entries, and its colliding enabled entries are reported. |
| Octree.OctreeNode.CheckChildren | octree.js:237-242 | Each child whose cube the probe reaches is queried and purged, and the others are left alone. The hits are appended in child order. |
| Octree.OctreeNode.CheckChild | octree.js:237-242 | One child is queried exactly when the probe's box reaches its cube. |
| Octree.OctreeNode.InitializeTree | octree.js:248-255 | The globals are reset, and a root of radius 32 at the focal point is built to `BuildSpec`. Afterwards the node count is the tree's size and the depth its deepest node. |
| OctreeBuildProps.BucketCount | octree.js:174-201 | Every copy of an object lands in the list of its octant and nowhere else. |
| OctreeBuildProps.SplitPartition | octree.js:174-201 | The kept list and the occupied octants' lists together are the node's objects, as a multiset. |
| OctreeBuildProps.NonEmptyOctantsComplete | octree.js:189-197 | Every octant that receives an object gets a child. |
| OctreeBuildProps.BuildStops | octree.js:110-118 | A node with at most one object or a radius at most 0.1 is left as a leaf. |
| OctreeBuildProps.SplitKeepsUnfitting | octree.js:199-201 | A split node keeps exactly the objects that fit no octant. |
| OctreeBuildProps.SplitChildren | octree.js:189-197 | A split node has one child per non-empty octant, in increasing order, at most eight. |
| OctreeBuildProps.ChildSpecShape | octree.js:140-197 | The child for octant k has that octant's centre, half the radius and the next depth. |
| OctreeBuildProps.BuildPartition | octree.js:109-209 | The objects stored anywhere in a built tree are exactly the input objects, as a multiset. |
| OctreeBuildProps.BuildPlaced | octree.js:122-137 | Every object stored below a node lies within that node's cube, at every level. |
| OctreeBuildProps.ChildWithinOctant | octree.js:122-137 | The objects under the child for octant k all fit octant k. |
| OctreeBuildProps.OctantOrder | octree.js:140-165 | The eight octant centres are listed with x as the high bit, then y, then z. |
| OctreeBuildProps.OctantInsideParent | octree.js:140-165 | Each octant's cube lies within the parent's cube. |
| OctreeBuildProps.OctantsCoverParent | octree.js:140-165 | Every point of the parent's cube lies in some octant's cube. |
| OctreeBuildProps.ChildInsideParent | octree.js:189-197 | In a built tree, each child's cube lies within its parent's. |
| OctreeBuildProps.BuildDepth | octree.js:109-209 | A tree built at depth d from radius r reaches depth at least d and at most d plus the number of halvings r allows. |
| OctreeBuildProps.RootDepthBound | octree.js:1-19 | A tree built from a root of radius 32 is at most nine levels deep. |
| OctreeBuildProps.StraddlingObjectsStayInLeaf | octree.js:174-201 | Two objects straddling the root's centre stay in the root, which gets no children. |
| OctreeQueryProps.HitsInEnabled | octree.js:220-233 | Scanning only the enabled objects finds the same hits. |
| OctreeQueryProps.EnabledInIdempotent | octree.js:220-233 | Purging a list twice is purging it once. |
| OctreeQueryProps.PurgedAllAt | octree.js:237-242 | A query purges exactly the children it visits. |
| OctreeQueryProps.HitsSound | octree.js:218-246 | Everything reported is an enabled object stored in the tree that collides with the probe. |
| OctreeQueryProps.HitsInOutside | octree.js:237-242 | No object inside a cube that the probe's box misses can collide with the probe. |
| OctreeQueryProps.HitsComplete | octree.js:218-246 | Take an enabled probe and a tree whose objects lie in their nodes' cubes. The query reports exactly what a scan of every stored object reports. |
| OctreeQueryProps.PurgeKeepsEnabled | octree.js:224-228 | The purge drops only disabled entries. The enabled objects of the tree are kept, in order. |
| OctreeQueryProps.PurgeOnlyRemoves | octree.js:224-228 | The purge adds nothing, and whatever it drops is disabled. |
| OctreeQueryProps.PurgeKeepsHits | octree.js:218-246 | The same query on the purged tree reports the same objects. |
| OctreeQueryProps.PurgeIdempotent | octree.js:218-246 | Repeating a query's purge changes nothing more. |
| OctreeQueryProps.PurgeKeepsPlaced | octree.js:224-228 | After the purge, every stored object still lies within its node's cube. |
| OctreeFindings.IntersectsAsWritten | octree.js:86-104 | As written, `intersects` is true exactly when the object is enabled or `evenIfDisabled`, whatever the box. |
| OctreeFindings.IntersectsAsWrittenIgnoresBox | octree.js:93-101 | An enabled object ten units from a unit cube "intersects" it as written, and not under the documented test. |
| OctreeFindings.BucketAsWritten | octree.js:177-184 | As written, octant k's list holds only objects that fit octant k. An object that also fits an earlier octant is listed there as well. |
| OctreeFindings.RemovedAsWritten | octree.js:177-184 | As written, every index in the removal list names an entry of the node's list. |
| OctreeFindings.SpliceFrom | octree.js:199-201 | The removal loop as written removes as many entries as its shrinking bound allows. |
| OctreeFindings.PlacementAsWrittenLosesAndDuplicates | octree.js:177-201 | A split as written puts a point on a centre plane into two octants and leaves it in the parent too, while dropping a point that fits nowhere. |
| OctreeFindings.ScanAsWritten | octree.js:220-233 | As written, the scan stops at the first disabled entry after splicing it, and keeps the list only up to there. |
| OctreeFindings.PurgeAsWrittenDropsLaterEntries | octree.js:224-228 | As written, a disabled entry followed by an enabled colliding one loses that entry and does not report it. |
| RollingAverages.WriteAsWritten | main.js:54-64 | As written, a write past the end of `new Array(5)` leaves `undefined` holes before it. |
| RollingAverages.AverageAsWrittenIsNaN | main.js:54-71 | The game's `RollingAverage(60)` after one 16 ms frame averages to NaN as written. The intended average is 16/60. |
| ObjParser.Split | main.js:1107 | The split gives at least one piece and no piece holds the separator. |
| ObjParser.JoinSplit | main.js:1107 | Joining the pieces with the separator gives back the text. |
| ObjParser.SplitJoin | main.js:1119 | Splitting a join of separator-free pieces gives back the pieces. |
| ObjParser.ParseComponents | main.js:1077-1086 | The parse succeeds exactly when every token after the first is a number, and then gives one value per such token. |
| ObjParser.ParseFloatArrayOrErr | main.js:1077-1086 | The loop parses the tokens after the first in order and throws at the first NaN. |
| ObjParser.ThrowStays | main.js:1077-1086 | Once a prefix of the tokens throws, the whole line throws. |
| ObjParser.FlipSecond | main.js:1128-1130 | Slot 1 becomes abs(1 - v), reading `undefined` as NaN. Every other slot is unchanged. |
| ObjParser.ParseCorner | main.js:1145-1166 | A corner gives its position index minus one. A normal index is present exactly when the token has three pieces. |
| ObjParser.FaceSpec | main.js:1145-1174 | A face's triangle has one position index per corner token. A UV or normal list is omitted rather than left empty. |
| ObjParser.ParseFace | main.js:1132-1175 | The face loop over four tokens builds exactly the intended triangle. |
| ObjParser.MissingUvOmitted | main.js:1147-1160 | A corner written `p//n` has no UV index. |
| ObjParser.LineStep | main.js:1108-1179 | A comment, `o` or `s` line changes nothing. A `v`, `vn` or `vt` line appends its parsed numbers or throws. An unrecognised line is ignored. |
| ObjParser.UvFlipped | main.js:1126-1131 | A `vt u v` line adds (u, abs(1 - v)). |
| ObjParser.ParseLinesAppend | main.js:1108-1179 | Reading a + b is reading a, then b, and a throw ends the read. |
| ObjParser.SkippedLineChangesNothing | main.js:1112-1116 | A skipped line can be removed anywhere without changing the result. |
| ObjParser.BadComponentThrows | main.js:1077-1086 | A `v`, `vn` or `vt` line with a non-numeric component makes the whole parse throw, whatever follows. |
| ObjParser.ParseObjSpec | main.js:1062-1209 | The result is `undefined` exactly for empty text. |
| ObjParser.IndicesCount | main.js:1200-1201 | The index array is 0, 1, …, 3T - 1 for T triangles. |
| ObjParser.ColorsMagenta | main.js:1198 | Every corner is coloured (1, 0, 1): 9T entries for T triangles. |
| ObjParser.GatherInRange | main.js:1183-1196 | For in-range indices, corner i's three components are exactly the entry its index names. |
| ObjParser.ParseLine | main.js:1109-1178 | One iteration of the line loop does what `LineStep` says. |
| ObjParser.ConcatLookups | main.js:1183-1196 | Each `forEach` appends the named entries, in index order. |
| ObjParser.ExpandTris | main.js:1183-1202 | The expansion loop gives every triangle's corners their own positions, UVs, colours and indices. |
| ObjParser.ParseObj | main.js:1062-1209 | `parseObj` returns `undefined` for empty text. It throws at the first bad number. Otherwise it returns the expanded `ModelData`. |

## Left out

- The loops over a node's children in `buildTree` and `checkCollisions` are modelled as recursion over the child index, one child per step.
  - The `objects` list is a `seq` field that the methods reassign.
  - The in-place `splice` calls on it are modelled by their effect on that list.
- Positions are stored on the game object and are constant while a tree is built or queried. Movement, velocity (main.js:1966-1976), rotation and asteroid shape noise are not part of this model.
- Which objects are enabled is mirrored by a ghost set `live`. Methods require that `enabled` agrees with it.
- Every game object the octree stores or is queried with must have a drawable; so must the player when the octree step runs. The source would raise a TypeError reading the position of an object without one.
  - `Entities.GameObject.CheckCollision` models that throw.
  - `Octree.OctreeNode.CheckCollisions`, `CheckChildren`, `CheckChild` and `InitializeTree`, and `Game.GameState.UpdateOctree`, require a drawable instead and do not model the TypeError.
- Console output, warnings, errors, audio, debug drawing and timing are not modelled.
  - The frame time is a parameter.
  - `Math.random()` values and generated radii are parameters too.
- Object names, the player ship and its respawn are not modelled. The collision loops for the player (main.js:1911-1926, 1979-2007) and for shots (main.js:2010-2025) are not modelled either. Of those, only the per-collision handler `onShotAsteroidCollision` is modelled.
- The top-up loop for new asteroids (main.js:2073-2075) is not modelled, nor the random placement inside `newAsteroid`.
- The pending-spawn and pending-delete loops are modelled over a copy of the lists that is assigned back at the end. No other code runs in between.
- `PLAYER_LIFE_SCORE` (main.js:1627) is declared but unused. The extra-life rule modelled is the `% 10000` thousands digit as written.
- `DIFFICULTY != undefined` in `updateDifficulty` always holds and is left out.
- ObjParser.ParseFloat: `Number.parseFloat` is a parameter `string -> Option<real>`, where `None` stands for NaN. Its own digit grammar is not modelled.
- Normals are parsed and kept in the raw data, but the returned `ModelData` carries none, as in the source.
- Infinities and floating-point rounding are not modelled: numbers are exact reals, and NaN and `undefined` are separate values only where the code tests or produces them.
- RollingAverages.RollingAverage.constructor: requires a length of at least 1. A length of 0 would make `getAverage` divide by zero, and the game only uses 60.
- ObjParser.ParseFace: requires exactly four tokens. `LineStep` models the guard at main.js:1139-1142 that skips other face lines.
- model-type.mjs is not part of this model.

## Findings

| source | as written | input that shows it | evidently intended | confidence | as-written member | corrected member |
|---|---|---|---|---|---|---|
| octree.js:93-101 | `intersects` ORs the six axis comparisons into a variable that starts true, so it answers true for any enabled object | an enabled object at (10, 0, 0) of radius 1 against the unit cube at the origin | the per-axis overlap test, the three axes combined with AND | not executed | OctreeFindings.IntersectsAsWrittenIgnoresBox | Octree.OctreeNode.Intersects |
| octree.js:177-201 | the octant loop has no `break`, and the indices it collects are spliced out one by one from a list that shifts | a node at the origin of radius 2 holding a point at (5, 5, 5) and a point at (0, -1, -1): the second lands in octants 0 and 4 and stays in the parent, and the first is lost | each object goes to its first fitting octant, and the objects that fit none stay with the parent | not executed | OctreeFindings.PlacementAsWrittenLosesAndDuplicates | Octree.SplitObjects |
| octree.js:224-228 | `splice(containedIdx)` without a count removes every entry from the disabled one on, and the loop then ends | a list holding a disabled entry followed by an enabled one that collides: the second entry is dropped and not reported | `splice(containedIdx, 1)`: remove only the disabled entry and go on scanning | not executed | OctreeFindings.PurgeAsWrittenDropsLaterEntries | Octree.ScanObjects |
| main.js:54 | the buffer is `new Array(5)` whatever the length, so slots past 5 start `undefined` and the average is NaN until every slot has been written | `RollingAverage(60)` after one push of 16 | an array of `length` zeros, averaging to 16/60 | not executed | RollingAverages.AverageAsWrittenIsNaN | RollingAverages.RollingAverage.GetAverage |
