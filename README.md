# GhostHunter17 World, modelled in Dafny

`World` is the object in the GhostHunter17 Android game that holds every live game object. It drives three passes:

- **Update.** The per-frame update, with two deferred queues for objects added or removed from outside the update loop.
- **Collision.** A pass over every pair of objects. When two bounding rectangles overlap, it picks the side on which each object is hit.
- **Lighting.** This pass builds the point list of the player's light cone. It also builds one shadow polygon behind every wall edge.

Touch events pause and resume the game and steer the player.

This project models those four parts of `World.java`. Each part is proved against a specification.

| file | module | what it holds |
|---|---|---|
| `lists.dfy` | `Lists` | `ArrayList.add(index, x)`, `contains` and `removeAll` as functions on sequences, with their meaning proved (multiset counts, membership, order). |
| `geometry.dfy` | `Geometry` | Integer points, segments and rectangles; the cross product; `RectF.intersect` as an overlap test plus the intersection it leaves in its receiver. |
| `collision.dfy` | `Collision` | The depth-based side choice as the source's running-minimum method and as an independent reference definition. The whole pair loop as a fold over the pairs, with its properties proved for any side choice. |
| `lighting.dfy` | `Lighting` | The cone and shadow loops as methods. Each is proved equal to a left fold over the boundary edges. The fold's length, fixed entries, contents and order are proved as lemmas. |
| `world.dfy` | `GameWorld` | Class `World`: three list fields, the pause flag and the player's target, with the methods that update them. Also the flush function and its lemmas. |

How the code's state is modelled:

- The lists `gameObjects`, `addQueue` and `removeQueue` are `seq` fields of the class.
- `addAll` is `+` and `removeAll` is `Lists.RemoveAll`. `clear` assigns `[]`.
- A game object is a handle (`GameObject(id)`). Equality of handles stands for Java reference equality, which `removeAll` uses.
- The game objects' own `update`, `getColBounds` and `collide` methods are not part of this model. Their effect on the world is passed in as parameters:
  - what an object queues during its update: `queuedAdds` and `queuedRemoves`;
  - its bounds after the update: `boundsOf`;
  - the bounds a `collide(other, dir)` call leaves it with: `push`, given the object, its bounds, the other object, its bounds and the side.
- `addObject`/`removeObject` calls made inside `collide` during the collision pass are folded into `queuedAdds` and `queuedRemoves`, because the model's collision pass itself cannot queue anything. Both kinds of call only append to the queues, and the queues are read only by the second flush after the pass.
- Collision bounds are kept per object (a map from handle to rectangle), not per list position. An object listed twice therefore has one set of bounds, and a `collide` call on one of its entries moves both.
- The collision pass returns the `Contact`s it made, in order. One contact stands for one pair of `collide` calls.
- The lighting pass returns the cone's point list and one shadow list per wall edge. The code hands these lists to the canvas.

## Model

| member | source | states |
|---|---|---|
| `GameWorld.World.constructor` | GhostHunter17/src/edu/virginia/cs2110/ghosthunter17/World.java:34-63 | The list is the player, a circle, a wall and the five boxes, in that order. Both queues are empty and the world is not paused. The player starts without a target; this is an assumption, see "Left out". |
| `GameWorld.World.AddObject` | GhostHunter17/src/edu/virginia/cs2110/ghosthunter17/World.java:249-251 | g is appended to the add queue. The frame keeps the object list and the remove queue unchanged. |
| `GameWorld.World.RemoveObject` | GhostHunter17/src/edu/virginia/cs2110/ghosthunter17/World.java:253-255 | g is appended to the remove queue. The frame keeps the object list and the add queue unchanged. |
| `GameWorld.World.Update` | GhostHunter17/src/edu/virginia/cs2110/ghosthunter17/World.java:65-85 | See the notes after this table. |
| `GameWorld.Flush` | GhostHunter17/src/edu/virginia/cs2110/ghosthunter17/World.java:68-70 | `addAll` then `removeAll`: an object is in the result if and only if it was listed or queued for addition and is not queued for removal. The result is never longer than the list plus the add queue. |
| `GameWorld.FlushCounts` | GhostHunter17/src/edu/virginia/cs2110/ghosthunter17/World.java:67-71 | After `addAll` then `removeAll`, every queued-for-removal object has count 0. Every other object occurs as often as in the list plus the add queue. |
| `GameWorld.FlushOrder` | GhostHunter17/src/edu/virginia/cs2110/ghosthunter17/World.java:67-71 | The flushed list is the surviving old objects in their order, followed by the surviving queued objects in theirs. |
| `GameWorld.FlushNothing` | GhostHunter17/src/edu/virginia/cs2110/ghosthunter17/World.java:80-82 | Flushing empty queues leaves the list as it was. |
| `GameWorld.FlushTwice` | GhostHunter17/src/edu/virginia/cs2110/ghosthunter17/World.java:80-82 | The second flush does not clear the queues, so the next update flushes them again. An object queued for addition during an update is then counted twice, unless it is also queued for removal. |
| `GameWorld.CollisionBounds` | GhostHunter17/src/edu/virginia/cs2110/ghosthunter17/World.java:92-93 | Every listed object has exactly one entry, its `getColBounds`, however often it is listed. Nothing unlisted has an entry. |
| `GameWorld.World.CheckCollision` | GhostHunter17/src/edu/virginia/cs2110/ghosthunter17/World.java:87-123 | The contacts are those of the pair fold over the list, with bounds kept per object. Each contact is a pair of positions i < j < size whose bounds overlapped, with d1 the resolved side and d2 its opposite. The contacts come in visiting order (i, then j). |
| `Collision.CollideAll` | GhostHunter17/src/edu/virginia/cs2110/ghosthunter17/World.java:88-122 | The outer loop produces exactly the bounds and contacts of `Sweep`, the fold over the pairs (0,1), (0,2), ..., (n-2, n-1). |
| `Collision.CollideRow` | GhostHunter17/src/edu/virginia/cs2110/ghosthunter17/World.java:90-121 | The inner loop for row i produces exactly the bounds and contacts of `SweepRow` for the pairs (i, i+1), ..., (i, n-1). |
| `Collision.CollidePair` | GhostHunter17/src/edu/virginia/cs2110/ghosthunter17/World.java:92-120 | One pair visit: overlap test, depths on r1 narrowed to the overlap, side choice, then the two collide calls (i first, then j). Each call moves the object itself, so an object listed at both positions sees its own move. The result equals `VisitPair` with the reference side choice. |
| `Collision.ResolveDirection` | GhostHunter17/src/edu/virginia/cs2110/ghosthunter17/World.java:100-116 | The running minimum returns the side of least depth, where a strictly shallower later side wins and ties go to the earlier of N, S, W, E. d1 equals the reference `Resolve`, and d2 is the opposite of d1. |
| `Collision.Resolve` | GhostHunter17/src/edu/virginia/cs2110/ghosthunter17/World.java:100-116 | The reference choice satisfies `IsResolved`: its depth is the minimum of the four, and every side tried earlier is strictly deeper. |
| `Collision.ResolvedUnique` | GhostHunter17/src/edu/virginia/cs2110/ghosthunter17/World.java:100-116 | At most one side satisfies `IsResolved`, so the choice depends on the depths alone. |
| `Collision.Opposite` | GhostHunter17/src/edu/virginia/cs2110/ghosthunter17/World.java:100-116 | The side given to g2 differs from the side given to g1. |
| `Collision.OppositeInvolution` | GhostHunter17/src/edu/virginia/cs2110/ghosthunter17/World.java:100-116 | Taking the opposite twice gives the original side back: each of the two objects is hit on the side facing the other. |
| `Collision.VisitPairContacts` | GhostHunter17/src/edu/virginia/cs2110/ghosthunter17/World.java:94-120 | A pair visit makes at most one contact. Any contact it makes is for exactly that pair, whose bounds overlap, with the chosen side and its opposite. |
| `Collision.SweepRowContacts` | GhostHunter17/src/edu/virginia/cs2110/ghosthunter17/World.java:90-121 | The inner loop for row i makes only well-formed contacts (i, j) with i < j below its bound, in increasing j. |
| `Collision.SweepContacts` | GhostHunter17/src/edu/virginia/cs2110/ghosthunter17/World.java:88-122 | The first n rows make only well-formed contacts with i < n, ordered by i and then by j. |
| `Collision.VisitPairStill` | GhostHunter17/src/edu/virginia/cs2110/ghosthunter17/World.java:94-120 | When collide moves nothing, a pair visit keeps the bounds. It makes a contact for (a, b) if and only if (a, b) is the visited pair and the bounds of the two objects overlap. |
| `Collision.SweepRowStill` | GhostHunter17/src/edu/virginia/cs2110/ghosthunter17/World.java:90-121 | When collide moves nothing, the inner loop keeps every bound. |
| `Collision.SweepRowMet` | GhostHunter17/src/edu/virginia/cs2110/ghosthunter17/World.java:90-121 | When collide moves nothing, row i meets (a, b) if and only if a = i, i < b < j, and the bounds of the objects at a and b overlap. |
| `Collision.SweepStill` | GhostHunter17/src/edu/virginia/cs2110/ghosthunter17/World.java:88-122 | When collide moves nothing, the whole pass keeps every bound. |
| `Collision.SweepMet` | GhostHunter17/src/edu/virginia/cs2110/ghosthunter17/World.java:88-122 | When collide moves nothing, the pass makes a contact for (a, b) if and only if a < b, a lies in the first n rows, and the bounds of the objects at a and b overlap. So collide is called exactly for the overlapping pairs i < j. |
| `Collision.SweepMetAliased` | GhostHunter17/src/edu/virginia/cs2110/ghosthunter17/World.java:88-120 | An object listed at two positions a < b is tested against its own bounds. When collide moves nothing, that pair is met if and only if the bounds have a non-empty interior. |
| `Geometry.Intersection` | GhostHunter17/src/edu/virginia/cs2110/ghosthunter17/World.java:94 | When the rectangles overlap, `r1.intersect(r2)` leaves in r1 a rectangle inside both. Otherwise it leaves r1 unchanged. |
| `Geometry.IntersectionLargest` | GhostHunter17/src/edu/virginia/cs2110/ghosthunter17/World.java:94 | Every rectangle inside both lies inside the intersection, so the intersection is the largest common rectangle. |
| `GameWorld.World.Pause` | GhostHunter17/src/edu/virginia/cs2110/ghosthunter17/World.java:257-259 | The world is paused. The frame keeps everything else. |
| `GameWorld.World.OnTouchEvent` | GhostHunter17/src/edu/virginia/cs2110/ghosthunter17/World.java:261-278 | DOWN or MOVE: handled, not paused afterwards; the target is kept if the world was paused and set to the pointer otherwise. UP: handled, pause flag kept, target cleared. Any other action: not handled, nothing changes. |
| `GameWorld.World.DoLighting` | GhostHunter17/src/edu/virginia/cs2110/ghosthunter17/World.java:143-245 | The wall list is the edges of the listed walls followed by the screen boundary. The cone and the shadows are those of the lighting pass on that list. |
| `GameWorld.WallEdgesFrom` | GhostHunter17/src/edu/virginia/cs2110/ghosthunter17/World.java:144-149 | An edge is collected if and only if it belongs to some listed object. |
| `Lighting.DoLighting` | GhostHunter17/src/edu/virginia/cs2110/ghosthunter17/World.java:150-245 | The cone is the cone fold over the boundary edges. There is one shadow list per wall edge and boundary edge, in wall order. Entry i is the shadow of wall i, computed with index i. |
| `Lighting.LightCone` | GhostHunter17/src/edu/virginia/cs2110/ghosthunter17/World.java:156-174 | The list equals the cone fold. Its length is 2 plus the number of boundary edges whose p1 lies in the cone. It starts with the first hit point and ends with the second. It holds exactly those two and the in-cone points. |
| `Lighting.ConeLength` | GhostHunter17/src/edu/virginia/cs2110/ghosthunter17/World.java:168-174 | The cone list grows by exactly one entry per boundary edge whose p1 has both cross products negative. |
| `Lighting.ConeEnds` | GhostHunter17/src/edu/virginia/cs2110/ghosthunter17/World.java:168-174 | P0 stays first and P1 stays last, because insertions land between them. |
| `Lighting.ConeContents` | GhostHunter17/src/edu/virginia/cs2110/ghosthunter17/World.java:168-174 | As a multiset the cone list is {P0, P1} plus the in-cone points. Every inserted point is such an edge's p1. |
| `Lighting.ConeOrder` | GhostHunter17/src/edu/virginia/cs2110/ghosthunter17/World.java:168-174 | See the notes after this table. |
| `Lighting.ConeFires` | GhostHunter17/src/edu/virginia/cs2110/ghosthunter17/World.java:172 | See the notes after this table. |
| `Lighting.ConeOrderFired` | GhostHunter17/src/edu/virginia/cs2110/ghosthunter17/World.java:168-174 | See the notes after this table. |
| `Lighting.WallShadow` | GhostHunter17/src/edu/virginia/cs2110/ghosthunter17/World.java:197-224 | The list equals the shadow fold, with length 4 plus the number of qualifying points. Its first three entries are p1, p2 and raycast(p2), and its last entry is raycast(p1). Its multiset is the base plus the qualifying points. |
| `Lighting.GatherClockwise` | GhostHunter17/src/edu/virginia/cs2110/ghosthunter17/World.java:208-214 | The loop taken when the winding test holds produces exactly the shadow fold `ShadowAfter` over all boundary edges. |
| `Lighting.GatherCounter` | GhostHunter17/src/edu/virginia/cs2110/ghosthunter17/World.java:217-223 | The loop taken when the winding test fails produces exactly the shadow fold `ShadowAfter` over all boundary edges. |
| `Lighting.ShadowLength` | GhostHunter17/src/edu/virginia/cs2110/ghosthunter17/World.java:207-224 | A shadow list grows by exactly one entry per qualifying boundary-edge p1. The winding test decides whether both cross products must be positive or both negative. |
| `Lighting.ShadowEnds` | GhostHunter17/src/edu/virginia/cs2110/ghosthunter17/World.java:207-224 | The first three entries and the last entry of a shadow list never move. |
| `Lighting.ShadowContents` | GhostHunter17/src/edu/virginia/cs2110/ghosthunter17/World.java:207-224 | A shadow list holds its four base points plus exactly the qualifying points, with multiplicity. |
| `Lighting.ShadowKeeps` | GhostHunter17/src/edu/virginia/cs2110/ghosthunter17/World.java:207-224 | No point ever leaves a shadow list: one listed after m edges is still listed after any later step. |
| `Lighting.ShadowFirstListed` | GhostHunter17/src/edu/virginia/cs2110/ghosthunter17/World.java:212 | A point listed after n edges was first listed at some step m <= n. So the rule at line 212 is either never active (ShadowOrderClockwise) or active from a first step on (ShadowOrderFired). |
| `Lighting.ShadowOrderCounter` | GhostHunter17/src/edu/virginia/cs2110/ghosthunter17/World.java:216-224 | With the winding test false, qualifying points are inserted before the last entry in edge order: base[..3] + hits + [base[3]]. |
| `Lighting.ShadowOrderClockwise` | GhostHunter17/src/edu/virginia/cs2110/ghosthunter17/World.java:207-215 | See the notes after this table. |
| `Lighting.ShadowOrderFired` | GhostHunter17/src/edu/virginia/cs2110/ghosthunter17/World.java:207-215 | See the notes after this table. |
| `Lighting.ShadowListsAt` | GhostHunter17/src/edu/virginia/cs2110/ghosthunter17/World.java:196-203 | Entry k of the shadow lists is the shadow of wall k, built with the wall index k. |
| `Lists.Insert` | GhostHunter17/src/edu/virginia/cs2110/ghosthunter17/World.java:172 | `add(index, x)`: the result is one longer, x sits at the index, the elements before it stay and the rest move one place right. |
| `Lists.InsertContents` | GhostHunter17/src/edu/virginia/cs2110/ghosthunter17/World.java:172 | `add(index, x)` keeps every element and adds exactly x. |
| `Lists.Contains` | GhostHunter17/src/edu/virginia/cs2110/ghosthunter17/World.java:172 | The linear search `contains` succeeds if and only if the point is an element. |
| `Lists.RemoveAll` | GhostHunter17/src/edu/virginia/cs2110/ghosthunter17/World.java:70 | `removeAll`: an element is in the result if and only if it is in the list and not in the argument. The result is never longer. |
| `Lists.RemoveAllCounts` | GhostHunter17/src/edu/virginia/cs2110/ghosthunter17/World.java:70 | `removeAll` drops every occurrence of each element of its argument. Other elements keep their counts. |
| `Lists.RemoveAllAppend` | GhostHunter17/src/edu/virginia/cs2110/ghosthunter17/World.java:81-82 | `removeAll` on a concatenation acts on each part separately. |
| `Lists.RemoveAllIdempotent` | GhostHunter17/src/edu/virginia/cs2110/ghosthunter17/World.java:82 | A second `removeAll` with the same queue removes nothing more. |

Notes on the rows whose contracts have several cases:

- **`GameWorld.World.Update`**
  - While paused, it makes no contacts and changes none of the three lists.
  - Otherwise, let `live` be the old list with the old add queue appended and every removed object dropped. The contacts are those of the collision pass over `live`.
  - The list becomes `live` flushed again with the queues filled during the pass.
  - The queues end equal to those queued objects, since the second flush does not clear them.
  - Together with `FlushNothing` and `Flush`: when the pass queues nothing, the list is exactly `live`, no removed object remains, and both queues are empty.
- **The cone order (line 172).** The rule fires at edge 3 when p1 of edge 3 is in the cone and p1 of edge 0 is already listed. Let `hits(lo, n)` be the in-cone p1 points of edges lo..n-1, in edge order.
  - `Lighting.ConeOrder`: unless the rule fires, every point goes to index 1, so the list is [P0] + reversed hits(0, n) + [P1].
  - `Lighting.ConeFires`: when it fires, after edge 3 the list is [P0] + reversed hits(0, 3) + [p1 of edge 3, P1].
  - `Lighting.ConeOrderFired`: after that, the points of edges 4 onwards go to index 1 again. The list is [P0] + reversed hits(4, n) + reversed hits(0, 3) + [p1 of edge 3, P1].
- **The shadow order with the winding test true (lines 207-215).** The rule at line 212 tests the wall index i, not the edge index j. On wall 3, once p1 of boundary edge 0 is listed, it moves the insertion point to just before the last entry.
  - `Lighting.ShadowOrderClockwise`: as long as the rule has not fired (a wall other than 3, or p1 of edge 0 not yet listed), every point goes to index 3. The list is base[..3] + reversed hits + [base[3]].
  - `Lighting.ShadowOrderFired`: on wall 3, let m be the step after which p1 of edge 0 is first listed. The list is base[..3] + reversed hits(0, m) + hits(m, n) in edge order + [base[3]].

## Left out

- Trigonometry: the far ends of the two cone rays (World.java:158-161) are computed with `Math.cos`/`Math.sin` in floating point. They are inputs (`far0`, `far1`).
- Floating point: coordinates, depths and cross products are integers. `Geometry.Cross` has its integer definition, and rounding is not modelled.
- `Segment.raycast` and `Wall.getEdges`: Segment.java and Wall.java are not part of this model. `raycast` is a function parameter. The edges of an object and the four screen-boundary edges are inputs (`edgesOf`, `boundary`). An object that is not a wall has no edges.
- Rendering: the `Path` built from the lists, clipping, `drawColor` and the pause overlay (World.java:125-141, 176-193, 226-244) are canvas output. The model returns the point lists instead.
- `GameObject.update`, `getColBounds` and `collide`: GameObject.java and its subclasses are not part of this model. Their effect is taken as parameters: what an update queues, the bounds after it, and a `push` function for the bounds a collide call leaves behind. A `collide` call is assumed to move only the object it is called on, not the other one.
- `RectF.intersect` modifies `r1`. The model narrows a copy of the bounds, so it assumes `getColBounds` returns a fresh rectangle. If it returns the object's own rectangle, the real call also shrinks that object's bounds, and the model does not capture that.
- Constructor:
  - The five boxes are placed with `Math.random`, so they are parameters.
  - Player, Circle and Wall construction is not modelled; the new objects are parameters.
  - `World()` delegates with an empty collection.
  - The collection parameter is added to itself (line 37) and never reaches the list. The model keeps the parameter (`given`) and does not use it.
- `Player.setTarget`: Player.java is not part of this model. The player's target is modelled as the `World` field `target`. The assumption that a new player has no target (`target == None` after the constructor) cannot be read from World.java.
- `MotionEvent` pointer coordinates: the event carries its pointer point directly, and `getActionIndex` is not modelled.
- GameWorld.World.CheckCollision: does not return the objects' moved bounds. The model keeps them only inside the pass. The objects' own state after `collide` is not part of this model.
- GameWorld.World.Update: takes the per-object pass as given results. It does not model the order of the individual `g.update` calls, or an object queueing itself while the list is being iterated.
