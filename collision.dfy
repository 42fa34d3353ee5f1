/** The collision pass of the world: which pairs of objects meet, and from which
    side each of them is hit. */
module Collision {
  import opened Geometry

  /** GameObject.Direction: the side on which an object is met by the other. */
  datatype Direction = North | South | East | West

  function Opposite(d: Direction): (o: Direction)
    ensures o != d
  {
    match d
    case North => South
    case South => North
    case East => West
    case West => East
  }

  /** The two objects of a contact are hit on facing sides: opposite is an
      involution. */
  lemma OppositeInvolution(d: Direction)
    ensures Opposite(Opposite(d)) == d
  {
  }

  /** The four candidate penetration depths of a contact, one per side. */
  datatype Depths = Depths(top: int, bot: int, left: int, right: int)

  function Abs(x: int): int
  {
    if x < 0 then -x else x
  }

  function Min(a: int, b: int): int
  {
    if a < b then a else b
  }

  /** The depths as the collision pass computes them: r1 is first narrowed to
      its intersection with r2 (the side effect of RectF.intersect), then each
      side of it is measured against the facing side of r2. */
  function Penetration(r1: Rect, r2: Rect): Depths
  {
    var r := Intersection(r1, r2);
    Depths(Abs(r2.bottom - r.top), Abs(r2.top - r.bottom),
           Abs(r2.right - r.left), Abs(r2.left - r.right))
  }

  function DepthOf(dp: Depths, d: Direction): int
  {
    match d
    case North => dp.top
    case South => dp.bot
    case West => dp.left
    case East => dp.right
  }

  /** The order in which the collision pass tries the sides; on a tie the side
      tried first is kept. */
  function Rank(d: Direction): nat
  {
    match d
    case North => 0
    case South => 1
    case West => 2
    case East => 3
  }

  /** d has the smallest depth of the four, and every side tried before d is
      strictly deeper. */
  ghost predicate IsResolved(dp: Depths, d: Direction)
  {
    && (forall e :: DepthOf(dp, d) <= DepthOf(dp, e))
    && (forall e :: Rank(e) < Rank(d) ==> DepthOf(dp, d) < DepthOf(dp, e))
  }

  /** Reference definition of the side a contact resolves to: the first of
      North, South, West, East whose depth equals the minimum of the four. */
  function Resolve(dp: Depths): (d: Direction)
    ensures IsResolved(dp, d)
  {
    var m := Min(Min(dp.top, dp.bot), Min(dp.left, dp.right));
    if dp.top == m then North
    else if dp.bot == m then South
    else if dp.left == m then West
    else East
  }

  /** At most one side satisfies IsResolved, so the choice is determined by
      the depths alone. */
  lemma ResolvedUnique(dp: Depths, d: Direction, e: Direction)
    requires IsResolved(dp, d) && IsResolved(dp, e)
    ensures d == e
  {
    assert DepthOf(dp, d) == DepthOf(dp, e);
    assert Rank(d) == Rank(e);
  }

  /** The running-minimum choice of the collision pass: start with North and
      take each later side only when it is strictly shallower. */
  method ResolveDirection(top: int, bot: int, left: int, right: int) returns (d1: Direction, d2: Direction)
    ensures IsResolved(Depths(top, bot, left, right), d1)
    ensures d1 == Resolve(Depths(top, bot, left, right))
    ensures d2 == Opposite(d1)
  {
    d1, d2 := North, South;
    var min := top;
    if bot < min {
      min := bot;
      d1, d2 := South, North;
    }
    if left < min {
      min := left;
      d1, d2 := West, East;
    }
    if right < min {
      d1, d2 := East, West;
    }
    ResolvedUnique(Depths(top, bot, left, right), d1, Resolve(Depths(top, bot, left, right)));
  }

  /** The side a contact between bounds r1 and r2 resolves to, for the
      object with bounds r1. */
  function Side(r1: Rect, r2: Rect): Direction
  {
    Resolve(Penetration(r1, r2))
  }

  /** How the pass picks the side of a contact. The pass itself uses Side; the
      lemmas below hold for any choice. */
  type Chooser = (Rect, Rect) -> Direction

  /** A game object, by identity: equal handles are one and the same Java
      object, which may be listed more than once. */
  datatype GameObject = GameObject(id: nat)

  /** The collision bounds of every object, keyed by the object itself, so
      that an object listed twice has a single set of bounds. */
  type Bounds = map<GameObject, Rect>

  /** Every listed object has bounds. */
  predicate Covers(bs: Bounds, objs: seq<GameObject>)
  {
    forall g :: g in objs ==> g in bs
  }

  /** What a collide callback does to the object it is called on: its new
      bounds, given the object and its bounds, the other object and its
      bounds, and the side it was hit on. */
  type Push = (GameObject, Rect, GameObject, Rect, Direction) -> Rect

  /** The pair of calls g1.collide(g2, d1) and g2.collide(g1, d2) for the
      objects at positions i < j, with the bounds r1 and r2 they had when
      their overlap was tested. */
  datatype Contact = Contact(i: nat, j: nat, r1: Rect, r2: Rect, d1: Direction, d2: Direction)

  /** The state of the collision pass: every object's current bounds and the
      contacts made so far. */
  datatype Pass = Pass(bounds: Bounds, contacts: seq<Contact>)

  /** Visiting the pair (i, j): if the current bounds of the two objects
      overlap, both are told from which side they are hit, first the object
      at i then the one at j, and each may move. When both positions hold the
      same object, the second call sees the bounds the first one left. */
  function VisitPair(objs: seq<GameObject>, bs: Bounds, i: nat, j: nat, side: Chooser, push: Push): (p: Pass)
    requires i < j < |objs| && Covers(bs, objs)
    ensures p.bounds.Keys == bs.Keys
  {
    var g1, g2 := objs[i], objs[j];
    assert g1 in objs && g2 in objs;
    if Intersects(bs[g1], bs[g2]) then
      var d1 := side(bs[g1], bs[g2]);
      var b1 := bs[g1 := push(g1, bs[g1], g2, bs[g2], d1)];
      var b2 := b1[g2 := push(g2, b1[g2], g1, b1[g1], Opposite(d1))];
      Pass(b2, [Contact(i, j, bs[g1], bs[g2], d1, Opposite(d1))])
    else
      Pass(bs, [])
  }

  /** The body of the collision pass for the pair (i, j): the overlap test,
      the four depths measured on r1 narrowed to the overlap, the side
      choice, and the two collide calls. */
  method CollidePair(objs: seq<GameObject>, bs: Bounds, i: nat, j: nat, push: Push)
    returns (bs': Bounds, made: seq<Contact>)
    requires i < j < |objs| && Covers(bs, objs)
    ensures Pass(bs', made) == VisitPair(objs, bs, i, j, Side, push)
  {
    bs' := bs;
    made := [];
    var g1 := objs[i];
    var g2 := objs[j];
    assert g1 in objs && g2 in objs;
    var r1 := bs[g1];
    var r2 := bs[g2];
    if Intersects(r1, r2) {
      var r := Intersection(r1, r2);
      var top := Abs(r2.bottom - r.top);
      var bot := Abs(r2.top - r.bottom);
      var left := Abs(r2.right - r.left);
      var right := Abs(r2.left - r.right);
      var d1, d2 := ResolveDirection(top, bot, left, right);
      bs' := bs'[g1 := push(g1, bs'[g1], g2, bs'[g2], d1)];
      bs' := bs'[g2 := push(g2, bs'[g2], g1, bs'[g1], d2)];
      made := [Contact(i, j, r1, r2, d1, d2)];
    }
  }

  /** The inner loop of the collision pass for row i: the pairs (i, i + 1),
      ..., (i, n - 1) in turn, each seeing the bounds the earlier pairs left. */
  method CollideRow(objs: seq<GameObject>, bs0: Bounds, i: nat, push: Push) returns (bs: Bounds, made: seq<Contact>)
    requires i < |objs| && Covers(bs0, objs)
    ensures Pass(bs, made) == SweepRow(objs, bs0, i, |objs|, Side, push)
  {
    bs := bs0;
    made := [];
    var j := i + 1;
    while j < |objs|
      invariant i + 1 <= j <= |objs| && Covers(bs, objs)
      invariant Pass(bs, made) == SweepRow(objs, bs0, i, j, Side, push)
    {
      var moved, pair := CollidePair(objs, bs, i, j, push);
      bs := moved;
      made := made + pair;
      j := j + 1;
    }
  }

  /** The nested pair loop of the collision pass over the objects objs with
      bounds bs0: every pair i < j in turn, each seeing the bounds the earlier
      pairs left. */
  method CollideAll(objs: seq<GameObject>, bs0: Bounds, push: Push) returns (bs: Bounds, contacts: seq<Contact>)
    requires Covers(bs0, objs)
    ensures Pass(bs, contacts) == Sweep(objs, bs0, |objs|, Side, push)
  {
    bs := bs0;
    contacts := [];
    var i := 0;
    while i < |objs|
      invariant i <= |objs| && Covers(bs, objs)
      invariant Pass(bs, contacts) == Sweep(objs, bs0, i, Side, push)
    {
      var moved, made := CollideRow(objs, bs, i, push);
      bs := moved;
      contacts := contacts + made;
      i := i + 1;
    }
  }

  /** The pairs (i, i + 1), ..., (i, j - 1), visited in that order. */
  function SweepRow(objs: seq<GameObject>, bs: Bounds, i: nat, j: nat, side: Chooser, push: Push): (p: Pass)
    requires i < j <= |objs| && Covers(bs, objs)
    ensures p.bounds.Keys == bs.Keys
    decreases j
  {
    if j == i + 1 then Pass(bs, [])
    else
      var p := SweepRow(objs, bs, i, j - 1, side, push);
      var q := VisitPair(objs, p.bounds, i, j - 1, side, push);
      Pass(q.bounds, p.contacts + q.contacts)
  }

  /** The rows 0, ..., n - 1 of the collision pass, one after the other. */
  function Sweep(objs: seq<GameObject>, bs: Bounds, n: nat, side: Chooser, push: Push): (p: Pass)
    requires n <= |objs| && Covers(bs, objs)
    ensures p.bounds.Keys == bs.Keys
  {
    if n == 0 then Pass(bs, [])
    else
      var p := Sweep(objs, bs, n - 1, side, push);
      var q := SweepRow(objs, p.bounds, n - 1, |objs|, side, push);
      Pass(q.bounds, p.contacts + q.contacts)
  }

  /** A contact the pass may make among n objects: a pair i < j whose bounds
      overlapped, resolved to the chosen side and its opposite. */
  ghost predicate WellFormed(c: Contact, n: nat, side: Chooser)
  {
    && c.i < c.j < n
    && Intersects(c.r1, c.r2)
    && c.d1 == side(c.r1, c.r2)
    && c.d2 == Opposite(c.d1)
  }

  /** The order of the nested loops: row first, then column. */
  predicate Precedes(a: Contact, b: Contact)
  {
    a.i < b.i || (a.i == b.i && a.j < b.j)
  }

  /** Contacts in strictly increasing pair order, so no pair occurs twice. */
  predicate Ordered(cs: seq<Contact>)
  {
    forall k, l :: 0 <= k < l < |cs| ==> Precedes(cs[k], cs[l])
  }

  /** Two ordered runs of contacts, the first entirely before the second,
      make an ordered run. */
  lemma OrderedAppend(a: seq<Contact>, b: seq<Contact>)
    requires Ordered(a) && Ordered(b)
    requires forall x, y :: x in a && y in b ==> Precedes(x, y)
    ensures Ordered(a + b)
  {
    forall k, l | 0 <= k < l < |a + b| ensures Precedes((a + b)[k], (a + b)[l]) {
      if l < |a| {
        assert (a + b)[k] == a[k] && (a + b)[l] == a[l];
      } else if k >= |a| {
        assert (a + b)[k] == b[k - |a|] && (a + b)[l] == b[l - |a|];
      } else {
        assert (a + b)[k] in a && (a + b)[l] in b;
      }
    }
  }

  /** Visiting one pair makes at most one contact, for that pair, and it is
      well formed. */
  lemma VisitPairContacts(objs: seq<GameObject>, bs: Bounds, i: nat, j: nat, side: Chooser, push: Push)
    requires i < j < |objs| && Covers(bs, objs)
    ensures |VisitPair(objs, bs, i, j, side, push).contacts| <= 1
    ensures forall c :: c in VisitPair(objs, bs, i, j, side, push).contacts ==>
      WellFormed(c, |objs|, side) && c.i == i && c.j == j
  {
  }

  lemma {:induction false} SweepRowContacts(objs: seq<GameObject>, bs: Bounds, i: nat, j: nat, side: Chooser, push: Push)
    requires i < j <= |objs| && Covers(bs, objs)
    ensures forall c :: c in SweepRow(objs, bs, i, j, side, push).contacts ==>
      WellFormed(c, |objs|, side) && c.i == i && i < c.j < j
    ensures Ordered(SweepRow(objs, bs, i, j, side, push).contacts)
  {
    if j > i + 1 {
      SweepRowContacts(objs, bs, i, j - 1, side, push);
      var p := SweepRow(objs, bs, i, j - 1, side, push);
      VisitPairContacts(objs, p.bounds, i, j - 1, side, push);
      var q := VisitPair(objs, p.bounds, i, j - 1, side, push);
      assert SweepRow(objs, bs, i, j, side, push).contacts == p.contacts + q.contacts;
      OrderedAppend(p.contacts, q.contacts);
    }
  }

  /** Every contact of the pass is well formed, and the contacts come in
      strictly increasing pair order, so no pair is met twice. */
  lemma {:induction false} SweepContacts(objs: seq<GameObject>, bs: Bounds, n: nat, side: Chooser, push: Push)
    requires n <= |objs| && Covers(bs, objs)
    ensures forall c :: c in Sweep(objs, bs, n, side, push).contacts ==> WellFormed(c, |objs|, side) && c.i < n
    ensures Ordered(Sweep(objs, bs, n, side, push).contacts)
  {
    if n > 0 {
      SweepContacts(objs, bs, n - 1, side, push);
      var p := Sweep(objs, bs, n - 1, side, push);
      SweepRowContacts(objs, p.bounds, n - 1, |objs|, side, push);
      var q := SweepRow(objs, p.bounds, n - 1, |objs|, side, push);
      assert Sweep(objs, bs, n, side, push).contacts == p.contacts + q.contacts;
      OrderedAppend(p.contacts, q.contacts);
    }
  }

  /** Callbacks that never move anything. */
  ghost predicate Still(push: Push)
  {
    forall g, r, o, ro, d :: push(g, r, o, ro, d) == r
  }

  /** Whether the contacts include the pair (a, b). */
  ghost predicate Met(cs: seq<Contact>, a: nat, b: nat)
  {
    exists c :: c in cs && c.i == a && c.j == b
  }

  /** A pair is met in a concatenation when it is met in either part. */
  lemma MetAppend(x: seq<Contact>, y: seq<Contact>, a: nat, b: nat)
    ensures Met(x + y, a, b) <==> Met(x, a, b) || Met(y, a, b)
  {
    if Met(x + y, a, b) {
      var c :| c in x + y && c.i == a && c.j == b;
      if c in x {
        assert Met(x, a, b);
      } else {
        assert Met(y, a, b);
      }
    }
    if Met(x, a, b) {
      var c :| c in x && c.i == a && c.j == b;
      assert c in x + y;
    }
    if Met(y, a, b) {
      var c :| c in y && c.i == a && c.j == b;
      assert c in x + y;
    }
  }

  /** The pair at positions a < b overlaps under the bounds bs. */
  predicate Overlap(objs: seq<GameObject>, bs: Bounds, a: nat, b: nat)
  {
    a < b < |objs| && objs[a] in bs && objs[b] in bs && Intersects(bs[objs[a]], bs[objs[b]])
  }

  /** With callbacks that move nothing, visiting a pair meets it exactly when
      the bounds overlap, and leaves the bounds as they were. */
  lemma VisitPairStill(objs: seq<GameObject>, bs: Bounds, i: nat, j: nat, side: Chooser, push: Push)
    requires i < j < |objs| && Covers(bs, objs) && Still(push)
    ensures VisitPair(objs, bs, i, j, side, push).bounds == bs
    ensures forall a: nat, b: nat :: Met(VisitPair(objs, bs, i, j, side, push).contacts, a, b) <==>
      a == i && b == j && Overlap(objs, bs, i, j)
  {
    var q := VisitPair(objs, bs, i, j, side, push);
    var g1, g2 := objs[i], objs[j];
    assert g1 in objs && g2 in objs;
    if Intersects(bs[g1], bs[g2]) {
      var d1 := side(bs[g1], bs[g2]);
      assert push(g1, bs[g1], g2, bs[g2], d1) == bs[g1];
      assert bs[g1 := bs[g1]] == bs;
      assert push(g2, bs[g2], g1, bs[g1], Opposite(d1)) == bs[g2];
      assert q.contacts[0] in q.contacts;
    }
  }

  /** Callbacks that move nothing leave every bound of a row as it was. */
  lemma {:induction false} SweepRowStill(objs: seq<GameObject>, bs: Bounds, i: nat, j: nat, side: Chooser, push: Push)
    requires i < j <= |objs| && Covers(bs, objs) && Still(push)
    ensures SweepRow(objs, bs, i, j, side, push).bounds == bs
  {
    if j > i + 1 {
      SweepRowStill(objs, bs, i, j - 1, side, push);
      VisitPairStill(objs, bs, i, j - 1, side, push);
    }
  }

  /** With callbacks that move nothing, row i meets exactly the pairs (i, b)
      with b < j whose bounds overlap. */
  lemma {:induction false} SweepRowMet(objs: seq<GameObject>, bs: Bounds, i: nat, j: nat, side: Chooser, push: Push)
    requires i < j <= |objs| && Covers(bs, objs) && Still(push)
    ensures forall a: nat, b: nat :: Met(SweepRow(objs, bs, i, j, side, push).contacts, a, b) <==>
      a == i && b < j && Overlap(objs, bs, a, b)
  {
    if j > i + 1 {
      SweepRowMet(objs, bs, i, j - 1, side, push);
      SweepRowStill(objs, bs, i, j - 1, side, push);
      var p := SweepRow(objs, bs, i, j - 1, side, push);
      VisitPairStill(objs, bs, i, j - 1, side, push);
      var q := VisitPair(objs, bs, i, j - 1, side, push);
      assert SweepRow(objs, bs, i, j, side, push).contacts == p.contacts + q.contacts;
      forall a: nat, b: nat {
        MetAppend(p.contacts, q.contacts, a, b);
      }
    }
  }

  /** Callbacks that move nothing leave every bound as it was. */
  lemma {:induction false} SweepStill(objs: seq<GameObject>, bs: Bounds, n: nat, side: Chooser, push: Push)
    requires n <= |objs| && Covers(bs, objs) && Still(push)
    ensures Sweep(objs, bs, n, side, push).bounds == bs
  {
    if n > 0 {
      SweepStill(objs, bs, n - 1, side, push);
      SweepRowStill(objs, bs, n - 1, |objs|, side, push);
    }
  }

  /** When the callbacks move nothing, the pass meets exactly the pairs a < b
      whose bounds overlap. */
  lemma {:induction false} SweepMet(objs: seq<GameObject>, bs: Bounds, n: nat, side: Chooser, push: Push)
    requires n <= |objs| && Covers(bs, objs) && Still(push)
    ensures forall a: nat, b: nat :: Met(Sweep(objs, bs, n, side, push).contacts, a, b) <==>
      a < n && Overlap(objs, bs, a, b)
  {
    if n > 0 {
      SweepMet(objs, bs, n - 1, side, push);
      SweepStill(objs, bs, n - 1, side, push);
      var p := Sweep(objs, bs, n - 1, side, push);
      SweepRowMet(objs, bs, n - 1, |objs|, side, push);
      var q := SweepRow(objs, bs, n - 1, |objs|, side, push);
      assert Sweep(objs, bs, n, side, push).contacts == p.contacts + q.contacts;
      forall a: nat, b: nat {
        MetAppend(p.contacts, q.contacts, a, b);
      }
    }
  }

  /** An object listed at two positions a < b is tested against its own
      bounds: when the callbacks move nothing, the pass meets that pair
      exactly when the object's bounds have a non-empty interior. */
  lemma SweepMetAliased(objs: seq<GameObject>, bs: Bounds, side: Chooser, push: Push, a: nat, b: nat)
    requires Covers(bs, objs) && Still(push) && a < b < |objs| && objs[a] == objs[b]
    ensures objs[a] in bs
    ensures Met(Sweep(objs, bs, |objs|, side, push).contacts, a, b) <==>
      bs[objs[a]].left < bs[objs[a]].right && bs[objs[a]].top < bs[objs[a]].bottom
  {
    assert objs[a] in objs;
    SweepMet(objs, bs, |objs|, side, push);
  }
}
