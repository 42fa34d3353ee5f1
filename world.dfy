/** The World object of the game: the list of live game objects with the two
    queues that defer additions and removals to the next update, the pause
    flag, the collision pass and the touch handling.

    The game objects themselves (Player, Circle, Wall, Box) are not part of
    this model. An object is a handle whose equality stands for Java's
    reference equality. What an object does in its own update and collide
    methods is given to the world operations as parameters: the objects it
    queues, its bounds after the update, and how a collide call moves it. */
module GameWorld {
  import opened Geometry
  import opened Lists
  import opened Collision
  import opened Lighting

  datatype Option<T> = None | Some(value: T)

  /** The MotionEvent action codes the world tells apart. */
  const ACTION_DOWN: int := 0
  const ACTION_UP: int := 1
  const ACTION_MOVE: int := 2

  /** A touch: its action code and the coordinates of the pointer it is for. */
  datatype TouchEvent = TouchEvent(action: int, pointer: Point)

  /** `objects.addAll(adds)` followed by `objects.removeAll(removes)`. */
  function Flush(objects: seq<GameObject>, adds: seq<GameObject>, removes: seq<GameObject>): (r: seq<GameObject>)
    ensures |r| <= |objects| + |adds|
    ensures forall g :: g in r <==> (g in objects || g in adds) && g !in removes
  {
    RemoveAll(objects + adds, removes)
  }

  /** After a flush every occurrence of a removed object is gone, and every
      other object is listed as often as it was listed or queued. */
  lemma FlushCounts(objects: seq<GameObject>, adds: seq<GameObject>, removes: seq<GameObject>, g: GameObject)
    ensures multiset(Flush(objects, adds, removes))[g] ==
      if g in removes then 0 else multiset(objects)[g] + multiset(adds)[g]
  {
    RemoveAllCounts(objects + adds, removes, g);
  }

  /** A flush keeps the listed objects first and the queued ones after them,
      each group in its own order. */
  lemma FlushOrder(objects: seq<GameObject>, adds: seq<GameObject>, removes: seq<GameObject>)
    ensures Flush(objects, adds, removes) == RemoveAll(objects, removes) + RemoveAll(adds, removes)
  {
    RemoveAllAppend(objects, adds, removes);
  }

  /** Flushing empty queues changes nothing. */
  lemma FlushNothing(objects: seq<GameObject>)
    ensures Flush(objects, [], []) == objects
  {
    assert objects + [] == objects;
    RemoveAllNothing(objects);
  }

  /** The second flush of an update leaves both queues as they were, so the
      opening flush of the next update applies them again: an object queued
      for addition during an update ends up listed twice, unless it was also
      queued for removal. */
  lemma FlushTwice(objects: seq<GameObject>, adds: seq<GameObject>, removes: seq<GameObject>, g: GameObject)
    ensures multiset(Flush(Flush(objects, adds, removes), adds, removes))[g] ==
      if g in removes then 0 else multiset(objects)[g] + 2 * multiset(adds)[g]
  {
    FlushCounts(objects, adds, removes, g);
    FlushCounts(Flush(objects, adds, removes), adds, removes, g);
  }

  /** The collision bounds (getColBounds) of the listed objects, one entry
      per object however often it is listed. */
  function CollisionBounds(objects: seq<GameObject>, boundsOf: GameObject -> Rect): (bs: Bounds)
    ensures Covers(bs, objects)
    ensures forall g :: g in bs ==> g in objects && bs[g] == boundsOf(g)
  {
    map g | g in objects :: boundsOf(g)
  }

  /** The edges of the listed walls, in list order; objects that are not walls
      have no edges. */
  function WallEdges(objects: seq<GameObject>, edgesOf: GameObject -> seq<Segment>): (es: seq<Segment>)
  {
    if objects == [] then [] else WallEdges(objects[..|objects| - 1], edgesOf) + edgesOf(objects[|objects| - 1])
  }

  /** Every collected edge belongs to a listed object, and every edge of a
      listed object is collected. */
  lemma {:induction false} WallEdgesFrom(objects: seq<GameObject>, edgesOf: GameObject -> seq<Segment>, s: Segment)
    ensures s in WallEdges(objects, edgesOf) <==> exists g :: g in objects && s in edgesOf(g)
  {
    if objects != [] {
      var init := objects[..|objects| - 1];
      var last := objects[|objects| - 1];
      WallEdgesFrom(init, edgesOf, s);
      assert objects == init + [last];
      if exists g :: g in objects && s in edgesOf(g) {
        var g :| g in objects && s in edgesOf(g);
        if g != last {
          assert g in init;
        }
      }
    }
  }

  class World {
    var gameObjects: seq<GameObject>
    var addQueue: seq<GameObject>
    var removeQueue: seq<GameObject>
    /** The player object p. */
    const player: GameObject
    /** The target the player was last given by a touch (Player.setTarget). */
    var target: Option<Point>
    var paused: bool

    /** World(Collection): the list starts empty and receives the player, a
        circle, a wall and five boxes; the queues start empty and the world is
        running. A new player is taken to have no target. The collection
        argument is added to itself and never reaches the list. */
    constructor (given: seq<GameObject>, p: GameObject, circle: GameObject, wall: GameObject, boxes: seq<GameObject>)
      requires |boxes| == 5
      ensures gameObjects == [p, circle, wall] + boxes
      ensures addQueue == [] && removeQueue == []
      ensures player == p && target == None && !paused
    {
      gameObjects := [];
      addQueue := [];
      removeQueue := [];
      paused := false;
      player := p;
      target := None;
      new;
      gameObjects := gameObjects + [p];
      gameObjects := gameObjects + [circle];
      gameObjects := gameObjects + [wall];
      var i := 0;
      while i < 5
        invariant 0 <= i <= 5
        invariant gameObjects == [p, circle, wall] + boxes[..i]
        invariant addQueue == [] && removeQueue == [] && target == None && !paused
      {
        gameObjects := gameObjects + [boxes[i]];
        i := i + 1;
      }
      assert boxes[..5] == boxes;
    }

    /** addObject: g is queued for addition and nothing else changes. */
    method AddObject(g: GameObject)
      modifies this`addQueue
      ensures addQueue == old(addQueue) + [g]
    {
      addQueue := addQueue + [g];
    }

    /** removeObject: g is queued for removal and nothing else changes. */
    method RemoveObject(g: GameObject)
      modifies this`removeQueue
      ensures removeQueue == old(removeQueue) + [g]
    {
      removeQueue := removeQueue + [g];
    }

    /** pause: the world stops updating until the next touch. */
    method Pause()
      modifies this`paused
      ensures paused
    {
      paused := true;
    }

    /** The collision pass over the current list: every pair i < j whose
        current bounds overlap is told from which side it is hit, and
        `push` gives the bounds each collide call leaves behind. Returns the
        contacts made, in the order they were made. */
    method CheckCollision(boundsOf: GameObject -> Rect, push: Push) returns (contacts: seq<Contact>)
      ensures contacts == Sweep(gameObjects, CollisionBounds(gameObjects, boundsOf), |gameObjects|, Side, push).contacts
      ensures forall c :: c in contacts ==> WellFormed(c, |gameObjects|, Side)
      ensures Ordered(contacts)
    {
      var bs := CollisionBounds(gameObjects, boundsOf);
      var moved;
      moved, contacts := CollideAll(gameObjects, bs, push);
      SweepContacts(gameObjects, bs, |gameObjects|, Side, push);
    }

    /** update: unless paused, the queues are flushed into the list and
        emptied, every object updates (ending with the bounds boundsOf), the
        collision pass runs, and the queues are flushed again without being
        emptied. queuedAdds and queuedRemoves are everything the objects queue
        during their update and collide calls. While paused nothing changes. */
    method Update(queuedAdds: seq<GameObject>, queuedRemoves: seq<GameObject>,
                  boundsOf: GameObject -> Rect, push: Push) returns (contacts: seq<Contact>)
      modifies this`gameObjects, this`addQueue, this`removeQueue
      ensures old(paused) ==>
        && contacts == [] && gameObjects == old(gameObjects)
        && addQueue == old(addQueue) && removeQueue == old(removeQueue)
      ensures !old(paused) ==>
        var live := Flush(old(gameObjects), old(addQueue), old(removeQueue));
        && contacts == Sweep(live, CollisionBounds(live, boundsOf), |live|, Side, push).contacts
        && gameObjects == Flush(live, queuedAdds, queuedRemoves)
        && addQueue == queuedAdds && removeQueue == queuedRemoves
    {
      contacts := [];
      if !paused {
        gameObjects := gameObjects + addQueue;
        addQueue := [];
        gameObjects := RemoveAll(gameObjects, removeQueue);
        removeQueue := [];
        // The objects' own update calls: they reach the world only through
        // addObject and removeObject.
        var k := 0;
        while k < |queuedAdds|
          invariant 0 <= k <= |queuedAdds| && addQueue == queuedAdds[..k]
          invariant removeQueue == [] && gameObjects == old(RemoveAll(gameObjects + addQueue, removeQueue))
        {
          AddObject(queuedAdds[k]);
          k := k + 1;
        }
        k := 0;
        while k < |queuedRemoves|
          invariant 0 <= k <= |queuedRemoves| && removeQueue == queuedRemoves[..k]
          invariant addQueue == queuedAdds && gameObjects == old(RemoveAll(gameObjects + addQueue, removeQueue))
        {
          RemoveObject(queuedRemoves[k]);
          k := k + 1;
        }
        assert queuedAdds[..|queuedAdds|] == queuedAdds;
        assert queuedRemoves[..|queuedRemoves|] == queuedRemoves;
        contacts := CheckCollision(boundsOf, push);
        gameObjects := gameObjects + addQueue;
        gameObjects := RemoveAll(gameObjects, removeQueue);
      }
    }

    /** onTouchEvent: a press or a drag resumes a paused world and is used up
        by that; on a running world it sends the player towards the pointer.
        A release clears the player's target. Any other action is not
        handled and changes nothing. */
    method OnTouchEvent(e: TouchEvent) returns (handled: bool)
      modifies this`paused, this`target
      ensures (e.action == ACTION_MOVE || e.action == ACTION_DOWN) ==>
        && handled && !paused
        && target == (if old(paused) then old(target) else Some(e.pointer))
      ensures e.action == ACTION_UP ==> handled && paused == old(paused) && target == None
      ensures e.action !in {ACTION_MOVE, ACTION_DOWN, ACTION_UP} ==>
        !handled && paused == old(paused) && target == old(target)
    {
      if e.action == ACTION_MOVE || e.action == ACTION_DOWN {
        if paused {
          paused := false;
          return true;
        }
        target := Some(e.pointer);
        return true;
      } else if e.action == ACTION_UP {
        target := None;
        return true;
      } else {
        return false;
      }
    }

    /** doLighting for the current list: the edges of every wall, then the
        screen boundary, make the wall list; the cone and the shadow lists are
        as the lighting pass defines them. */
    method DoLighting(pos: Point, far0: Point, far1: Point, boundary: seq<Segment>,
                      edgesOf: GameObject -> seq<Segment>, raycast: Raycast)
      returns (cone: seq<Point>, shadows: seq<seq<Point>>)
      ensures cone == ConeAfter(pos, raycast(Segment(pos, far0), boundary),
                                raycast(Segment(pos, far1), boundary), boundary, |boundary|)
      ensures shadows == ShadowLists(pos, WallEdges(gameObjects, edgesOf) + boundary, boundary, raycast,
                                     |WallEdges(gameObjects, edgesOf)| + |boundary|)
    {
      var walls: seq<Segment> := [];
      var k := 0;
      while k < |gameObjects|
        invariant 0 <= k <= |gameObjects|
        invariant walls == WallEdges(gameObjects[..k], edgesOf)
      {
        assert gameObjects[..k + 1][..k] == gameObjects[..k];
        walls := walls + edgesOf(gameObjects[k]);
        k := k + 1;
      }
      assert gameObjects[..|gameObjects|] == gameObjects;
      cone, shadows := Lighting.DoLighting(pos, far0, far1, walls, boundary, raycast);
    }
  }
}
