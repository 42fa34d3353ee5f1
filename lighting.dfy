/** The point lists of the lighting pass: the light cone in front of the
    player, and one shadow polygon behind every wall edge. The polygons are
    handed to the canvas for filling; only the lists themselves are modelled.

    `Raycast` stands for Segment.raycast: the point where the ray from a
    segment's first point through its second point meets the nearest of the
    given edges. Its geometry is not part of this model, so it is a parameter. */
module Lighting {
  import opened Geometry
  import opened Lists

  type Raycast = (Segment, seq<Segment>) -> Point

  // ---------------------------------------------------------------------
  // The light cone
  // ---------------------------------------------------------------------

  /** q lies inside the cone from pos bounded by the hit points p0 and p1:
      both cross products, against v1 = p0 - pos and v2 = pos - p1, are
      negative. */
  predicate InCone(pos: Point, p0: Point, p1: Point, q: Point)
  {
    Cross(Vector(pos, p0), Vector(pos, q)) < 0 && Cross(Vector(p1, pos), Vector(pos, q)) < 0
  }

  /** The first points of the edges lo, ..., n - 1 that lie inside the cone,
      in edge order. */
  function ConeHits(pos: Point, p0: Point, p1: Point, edges: seq<Segment>, lo: nat, n: nat): (hits: seq<Point>)
    requires lo <= n <= |edges|
    ensures |hits| <= n - lo
    decreases n
  {
    if n == lo then []
    else
      var q := edges[n - 1].p1;
      ConeHits(pos, p0, p1, edges, lo, n - 1) + if InCone(pos, p0, p1, q) then [q] else []
  }

  /** Where the cone loop inserts the first point of edge i: just before the
      last entry when i is 3 and the first point of edge 0 is already listed,
      at position 1 otherwise. */
  function ConeIndex(pts: seq<Point>, edges: seq<Segment>, i: nat): nat
    requires |pts| >= 2 && i < |edges|
  {
    if i == 3 && Contains(pts, edges[0].p1) then |pts| - 1 else 1
  }

  /** The cone list after the loop has looked at the first n edges, starting
      from the two hit points [p0, p1]. */
  function ConeAfter(pos: Point, p0: Point, p1: Point, edges: seq<Segment>, n: nat): (pts: seq<Point>)
    requires n <= |edges|
    ensures |pts| >= 2
  {
    if n == 0 then [p0, p1]
    else
      var pts := ConeAfter(pos, p0, p1, edges, n - 1);
      var q := edges[n - 1].p1;
      if InCone(pos, p0, p1, q) then Insert(pts, ConeIndex(pts, edges, n - 1), q) else pts
  }

  /** The cone list grows by one point per edge whose first point lies in
      the cone. */
  lemma {:induction false} ConeLength(pos: Point, p0: Point, p1: Point, edges: seq<Segment>, n: nat)
    requires n <= |edges|
    ensures |ConeAfter(pos, p0, p1, edges, n)| == 2 + |ConeHits(pos, p0, p1, edges, 0, n)|
  {
    if n > 0 {
      ConeLength(pos, p0, p1, edges, n - 1);
    }
  }

  /** Insertions never go before position 1 nor after the last entry, so p0
      stays first and p1 stays last. */
  lemma {:induction false} ConeEnds(pos: Point, p0: Point, p1: Point, edges: seq<Segment>, n: nat)
    requires n <= |edges|
    ensures ConeAfter(pos, p0, p1, edges, n)[0] == p0
    ensures var pts := ConeAfter(pos, p0, p1, edges, n); pts[|pts| - 1] == p1
  {
    if n > 0 {
      ConeEnds(pos, p0, p1, edges, n - 1);
      var pts := ConeAfter(pos, p0, p1, edges, n - 1);
      var q := edges[n - 1].p1;
      if InCone(pos, p0, p1, q) {
        InsertInterior(pts, ConeIndex(pts, edges, n - 1), q, 1);
      }
    }
  }

  /** Besides p0 and p1 the cone list holds exactly the first points of the
      edges inside the cone, each as often as it occurs among them. */
  lemma {:induction false} ConeContents(pos: Point, p0: Point, p1: Point, edges: seq<Segment>, n: nat)
    requires n <= |edges|
    ensures multiset(ConeAfter(pos, p0, p1, edges, n)) == multiset{p0, p1} + multiset(ConeHits(pos, p0, p1, edges, 0, n))
  {
    if n > 0 {
      ConeContents(pos, p0, p1, edges, n - 1);
      var pts := ConeAfter(pos, p0, p1, edges, n - 1);
      var q := edges[n - 1].p1;
      InsertCounted(pts, ConeAfter(pos, p0, p1, edges, n), ConeHits(pos, p0, p1, edges, 0, n - 1),
                    ConeHits(pos, p0, p1, edges, 0, n), multiset{p0, p1},
                    ConeIndex(pts, edges, n - 1), q, InCone(pos, p0, p1, q));
    }
  }

  /** Unless the rule for edge 3 fires (the first point of edge 3 lies in the
      cone while the first point of edge 0 is already listed), every new point
      goes to position 1, so the interior is the list of hits in reverse edge
      order. */
  lemma {:induction false} ConeOrder(pos: Point, p0: Point, p1: Point, edges: seq<Segment>, n: nat)
    requires n <= |edges|
    requires n > 3 ==> !(InCone(pos, p0, p1, edges[3].p1) && edges[0].p1 in ConeAfter(pos, p0, p1, edges, 3))
    ensures ConeAfter(pos, p0, p1, edges, n) == [p0] + Reversed(ConeHits(pos, p0, p1, edges, 0, n)) + [p1]
  {
    if n > 0 {
      ConeOrder(pos, p0, p1, edges, n - 1);
      var pts := ConeAfter(pos, p0, p1, edges, n - 1);
      var q := edges[n - 1].p1;
      var hits := ConeHits(pos, p0, p1, edges, 0, n - 1);
      if InCone(pos, p0, p1, q) {
        assert ConeIndex(pts, edges, n - 1) == 1;
        assert ConeAfter(pos, p0, p1, edges, n) == Insert(pts, 1, q);
        assert ConeHits(pos, p0, p1, edges, 0, n) == hits + [q];
        InsertReversed([p0], hits, [p1], q);
      } else {
        assert ConeAfter(pos, p0, p1, edges, n) == pts;
        assert ConeHits(pos, p0, p1, edges, 0, n) == hits;
      }
    }
  }

  /** When the rule for edge 3 fires, the first point of edge 3 goes just
      before p1, behind the hits of edges 0 to 2 in reverse order. */
  lemma ConeFires(pos: Point, p0: Point, p1: Point, edges: seq<Segment>)
    requires 4 <= |edges|
    requires InCone(pos, p0, p1, edges[3].p1) && edges[0].p1 in ConeAfter(pos, p0, p1, edges, 3)
    ensures ConeAfter(pos, p0, p1, edges, 4) ==
      [p0] + Reversed(ConeHits(pos, p0, p1, edges, 0, 3)) + [edges[3].p1, p1]
  {
    var r3 := Reversed(ConeHits(pos, p0, p1, edges, 0, 3));
    ConeOrder(pos, p0, p1, edges, 3);
    var pts := ConeAfter(pos, p0, p1, edges, 3);
    assert ConeIndex(pts, edges, 3) == |[p0] + r3|;
    InsertBeforeLast([p0], r3, p1, edges[3].p1);
  }

  /** After the rule for edge 3 has fired, the hits of edges 4 onwards go to
      position 1, so they come first, in reverse edge order, followed by the
      list as edge 3 left it. */
  lemma {:induction false} ConeOrderFired(pos: Point, p0: Point, p1: Point, edges: seq<Segment>, n: nat)
    requires 4 <= n <= |edges|
    requires InCone(pos, p0, p1, edges[3].p1) && edges[0].p1 in ConeAfter(pos, p0, p1, edges, 3)
    ensures ConeAfter(pos, p0, p1, edges, n) ==
      [p0] + Reversed(ConeHits(pos, p0, p1, edges, 4, n)) + (Reversed(ConeHits(pos, p0, p1, edges, 0, 3)) + [edges[3].p1, p1])
  {
    var tail := Reversed(ConeHits(pos, p0, p1, edges, 0, 3)) + [edges[3].p1, p1];
    if n == 4 {
      ConeFires(pos, p0, p1, edges);
      assert ConeHits(pos, p0, p1, edges, 4, 4) == [];
      assert Reversed<Point>([]) == [];
    } else {
      ConeOrderFired(pos, p0, p1, edges, n - 1);
      var pts := ConeAfter(pos, p0, p1, edges, n - 1);
      var q := edges[n - 1].p1;
      var hits := ConeHits(pos, p0, p1, edges, 4, n - 1);
      if InCone(pos, p0, p1, q) {
        assert ConeIndex(pts, edges, n - 1) == 1;
        InsertReversed([p0], hits, tail, q);
        assert ConeHits(pos, p0, p1, edges, 4, n) == hits + [q];
      } else {
        assert ConeHits(pos, p0, p1, edges, 4, n) == hits;
      }
    }
  }

  /** The cone part of doLighting (World.java:156-174): the two cone edges
      are cast against the screen boundary, then the first point of every
      boundary edge inside the cone is inserted into the list. far0 and far1 are the points 1000 units
      out at facing + 60 and facing - 60 degrees. */
  method LightCone(pos: Point, far0: Point, far1: Point, edges: seq<Segment>, raycast: Raycast)
    returns (pts: seq<Point>)
    ensures pts == ConeAfter(pos, raycast(Segment(pos, far0), edges), raycast(Segment(pos, far1), edges), edges, |edges|)
    ensures |pts| == 2 + |ConeHits(pos, raycast(Segment(pos, far0), edges), raycast(Segment(pos, far1), edges), edges, 0, |edges|)|
    ensures pts[0] == raycast(Segment(pos, far0), edges)
    ensures pts[|pts| - 1] == raycast(Segment(pos, far1), edges)
    ensures multiset(pts) == multiset{raycast(Segment(pos, far0), edges), raycast(Segment(pos, far1), edges)} +
      multiset(ConeHits(pos, raycast(Segment(pos, far0), edges), raycast(Segment(pos, far1), edges), edges, 0, |edges|))
  {
    pts := [far0, far1];
    pts := pts[0 := raycast(Segment(pos, pts[0]), edges)];
    pts := pts[1 := raycast(Segment(pos, pts[1]), edges)];
    ghost var p0, p1 := pts[0], pts[1];
    var v1 := Vector(pos, pts[0]);
    var v2 := Vector(pts[1], pos);
    var i := 0;
    while i < |edges|
      invariant 0 <= i <= |edges|
      invariant pts == ConeAfter(pos, p0, p1, edges, i)
    {
      var q := edges[i].p1;
      var cross1 := Cross(v1, Vector(pos, q));
      var cross2 := Cross(v2, Vector(pos, q));
      if cross1 < 0 && cross2 < 0 {
        var k := if i == 3 && Contains(pts, edges[0].p1) then |pts| - 1 else 1;
        pts := Insert(pts, k, q);
      }
      i := i + 1;
    }
    ConeLength(pos, p0, p1, edges, |edges|);
    ConeEnds(pos, p0, p1, edges, |edges|);
    ConeContents(pos, p0, p1, edges, |edges|);
  }

  // ---------------------------------------------------------------------
  // The shadow behind one wall edge
  // ---------------------------------------------------------------------

  /** The starting shadow list of a wall edge w: its two points, then the
      hit point of the ray through p2, then the hit point of the ray
      through p1. */
  function ShadowBase(pos: Point, w: Segment, edges: seq<Segment>, raycast: Raycast): (base: seq<Point>)
    ensures |base| == 4 && base[0] == w.p1 && base[1] == w.p2
  {
    [w.p1, w.p2, raycast(Segment(pos, w.p2), edges), raycast(Segment(pos, w.p1), edges)]
  }

  /** The winding test of the shadow loop: cross(v1, v2) > 0 with
      v1 = pos - base[2] and v2 = base[3] - pos. */
  predicate Clockwise(pos: Point, base: seq<Point>)
    requires |base| == 4
  {
    Cross(Vector(base[2], pos), Vector(pos, base[3])) > 0
  }

  /** q is taken into the shadow: both cross products positive when the
      winding test holds, both negative when it does not. */
  predicate Occluded(pos: Point, base: seq<Point>, q: Point)
    requires |base| == 4
  {
    var c1 := Cross(Vector(base[2], pos), Vector(pos, q));
    var c2 := Cross(Vector(pos, base[3]), Vector(pos, q));
    if Clockwise(pos, base) then c1 > 0 && c2 > 0 else c1 < 0 && c2 < 0
  }

  /** The first points of the edges lo, ..., n - 1 taken into the shadow, in
      edge order. */
  function ShadowHits(pos: Point, base: seq<Point>, edges: seq<Segment>, lo: nat, n: nat): (hits: seq<Point>)
    requires |base| == 4 && lo <= n <= |edges|
    ensures |hits| <= n - lo
    decreases n
  {
    if n == lo then []
    else
      var q := edges[n - 1].p1;
      ShadowHits(pos, base, edges, lo, n - 1) + if Occluded(pos, base, q) then [q] else []
  }

  /** Where the shadow loop inserts a point. With the winding test true: just
      before the last entry when the WALL index is 3 and the first point of
      boundary edge 0 is already listed, at position 3 otherwise. With the
      winding test false: always just before the last entry. */
  function ShadowIndex(pts: seq<Point>, edges: seq<Segment>, wall: nat, clockwise: bool): nat
    requires |pts| >= 4 && |edges| > 0
  {
    if clockwise then
      if wall == 3 && Contains(pts, edges[0].p1) then |pts| - 1 else 3
    else
      |pts| - 1
  }

  /** The shadow list of the wall at index `wall` after the loop has looked at
      the first n boundary edges. */
  function ShadowAfter(pos: Point, base: seq<Point>, wall: nat, edges: seq<Segment>, n: nat): (pts: seq<Point>)
    requires |base| == 4 && n <= |edges|
    ensures |pts| >= 4
  {
    if n == 0 then base
    else
      var pts := ShadowAfter(pos, base, wall, edges, n - 1);
      var q := edges[n - 1].p1;
      if Occluded(pos, base, q) then Insert(pts, ShadowIndex(pts, edges, wall, Clockwise(pos, base)), q) else pts
  }

  /** A shadow list grows by exactly the points taken into it. */
  lemma {:induction false} ShadowLength(pos: Point, base: seq<Point>, wall: nat, edges: seq<Segment>, n: nat)
    requires |base| == 4 && n <= |edges|
    ensures |ShadowAfter(pos, base, wall, edges, n)| == 4 + |ShadowHits(pos, base, edges, 0, n)|
  {
    if n > 0 {
      ShadowLength(pos, base, wall, edges, n - 1);
    }
  }

  /** Insertions never go before position 3 nor after the last entry, so the
      first three entries and the last entry of a shadow list never move. */
  lemma {:induction false} ShadowEnds(pos: Point, base: seq<Point>, wall: nat, edges: seq<Segment>, n: nat)
    requires |base| == 4 && n <= |edges|
    ensures ShadowAfter(pos, base, wall, edges, n)[..3] == base[..3]
    ensures var pts := ShadowAfter(pos, base, wall, edges, n); pts[|pts| - 1] == base[3]
  {
    if n > 0 {
      ShadowEnds(pos, base, wall, edges, n - 1);
      var pts := ShadowAfter(pos, base, wall, edges, n - 1);
      var q := edges[n - 1].p1;
      if Occluded(pos, base, q) {
        InsertInterior(pts, ShadowIndex(pts, edges, wall, Clockwise(pos, base)), q, 3);
      }
    }
  }

  /** Besides its four starting entries a shadow list holds exactly the points
      taken into it. */
  lemma {:induction false} ShadowContents(pos: Point, base: seq<Point>, wall: nat, edges: seq<Segment>, n: nat)
    requires |base| == 4 && n <= |edges|
    ensures multiset(ShadowAfter(pos, base, wall, edges, n)) == multiset(base) + multiset(ShadowHits(pos, base, edges, 0, n))
  {
    if n > 0 {
      ShadowContents(pos, base, wall, edges, n - 1);
      var pts := ShadowAfter(pos, base, wall, edges, n - 1);
      var q := edges[n - 1].p1;
      InsertCounted(pts, ShadowAfter(pos, base, wall, edges, n), ShadowHits(pos, base, edges, 0, n - 1),
                    ShadowHits(pos, base, edges, 0, n), multiset(base),
                    ShadowIndex(pts, edges, wall, Clockwise(pos, base)), q, Occluded(pos, base, q));
    }
  }

  /** With the winding test false, the taken points are appended before the
      last entry in edge order. */
  lemma {:induction false} ShadowOrderCounter(pos: Point, base: seq<Point>, wall: nat, edges: seq<Segment>, n: nat)
    requires |base| == 4 && n <= |edges| && !Clockwise(pos, base)
    ensures ShadowAfter(pos, base, wall, edges, n) == base[..3] + ShadowHits(pos, base, edges, 0, n) + [base[3]]
  {
    if n == 0 {
      assert base == base[..3] + [base[3]];
    } else {
      ShadowOrderCounter(pos, base, wall, edges, n - 1);
      var pts := ShadowAfter(pos, base, wall, edges, n - 1);
      var q := edges[n - 1].p1;
      var hits := ShadowHits(pos, base, edges, 0, n - 1);
      if Occluded(pos, base, q) {
        assert ShadowAfter(pos, base, wall, edges, n) == Insert(pts, |base[..3] + hits|, q);
        assert ShadowHits(pos, base, edges, 0, n) == hits + [q];
        InsertBeforeLast(base[..3], hits, base[3], q);
      } else {
        assert ShadowAfter(pos, base, wall, edges, n) == pts;
        assert ShadowHits(pos, base, edges, 0, n) == hits;
      }
    }
  }

  /** Nothing ever leaves a shadow list: a point listed after m edges is
      still listed after n >= m edges. */
  lemma {:induction false} ShadowKeeps(pos: Point, base: seq<Point>, wall: nat, edges: seq<Segment>, m: nat, n: nat, x: Point)
    requires |base| == 4 && m <= n <= |edges|
    ensures x in ShadowAfter(pos, base, wall, edges, m) ==> x in ShadowAfter(pos, base, wall, edges, n)
    decreases n
  {
    if n > m {
      ShadowKeeps(pos, base, wall, edges, m, n - 1, x);
      var pts := ShadowAfter(pos, base, wall, edges, n - 1);
      var q := edges[n - 1].p1;
      if Occluded(pos, base, q) {
        InsertContents(pts, ShadowIndex(pts, edges, wall, Clockwise(pos, base)), q);
        assert x in pts ==> x in multiset(pts);
      }
    }
  }

  /** A point listed after n edges was first listed after some m <= n edges,
      so that one of ShadowOrderClockwise and ShadowOrderFired describes
      every shadow list of wall 3. */
  lemma {:induction false} ShadowFirstListed(pos: Point, base: seq<Point>, wall: nat, edges: seq<Segment>, n: nat, x: Point)
    returns (m: nat)
    requires |base| == 4 && n <= |edges| && x in ShadowAfter(pos, base, wall, edges, n)
    ensures m <= n && x in ShadowAfter(pos, base, wall, edges, m)
    ensures m > 0 ==> x !in ShadowAfter(pos, base, wall, edges, m - 1)
  {
    if n == 0 || x !in ShadowAfter(pos, base, wall, edges, n - 1) {
      m := n;
    } else {
      m := ShadowFirstListed(pos, base, wall, edges, n - 1, x);
    }
  }

  /** With the winding test true, as long as the rule at the wall index 3 has
      not fired (the wall index is not 3, or the first point of boundary edge
      0 is not yet listed), every taken point goes to position 3, so they
      appear in reverse edge order. */
  lemma {:induction false} ShadowOrderClockwise(pos: Point, base: seq<Point>, wall: nat, edges: seq<Segment>, n: nat)
    requires |base| == 4 && n <= |edges| && Clockwise(pos, base)
    requires wall == 3 && n > 0 ==> edges[0].p1 !in ShadowAfter(pos, base, wall, edges, n - 1)
    ensures ShadowAfter(pos, base, wall, edges, n) == base[..3] + Reversed(ShadowHits(pos, base, edges, 0, n)) + [base[3]]
  {
    if n == 0 {
      assert base == base[..3] + [base[3]];
    } else {
      if wall == 3 && n > 1 {
        ShadowKeeps(pos, base, wall, edges, n - 2, n - 1, edges[0].p1);
      }
      ShadowOrderClockwise(pos, base, wall, edges, n - 1);
      var pts := ShadowAfter(pos, base, wall, edges, n - 1);
      var q := edges[n - 1].p1;
      var hits := ShadowHits(pos, base, edges, 0, n - 1);
      if Occluded(pos, base, q) {
        assert ShadowIndex(pts, edges, wall, true) == 3;
        assert ShadowAfter(pos, base, wall, edges, n) == Insert(pts, 3, q);
        assert ShadowHits(pos, base, edges, 0, n) == hits + [q];
        InsertReversed(base[..3], hits, [base[3]], q);
      } else {
        assert ShadowAfter(pos, base, wall, edges, n) == pts;
        assert ShadowHits(pos, base, edges, 0, n) == hits;
      }
    }
  }

  /** The rule at the wall index 3 with the winding test true: up to the
      step m at which the first point of boundary edge 0 becomes listed, the
      taken points go to position 3 in reverse edge order; from then on they
      go just before the last entry, in edge order. */
  lemma {:induction false} ShadowOrderFired(pos: Point, base: seq<Point>, edges: seq<Segment>, m: nat, n: nat)
    requires |base| == 4 && m <= n <= |edges| && 0 < |edges| && Clockwise(pos, base)
    requires edges[0].p1 in ShadowAfter(pos, base, 3, edges, m)
    requires m > 0 ==> edges[0].p1 !in ShadowAfter(pos, base, 3, edges, m - 1)
    ensures ShadowAfter(pos, base, 3, edges, n) ==
      base[..3] + Reversed(ShadowHits(pos, base, edges, 0, m)) + ShadowHits(pos, base, edges, m, n) + [base[3]]
    decreases n
  {
    var front := base[..3] + Reversed(ShadowHits(pos, base, edges, 0, m));
    if n == m {
      ShadowOrderClockwise(pos, base, 3, edges, m);
      assert ShadowHits(pos, base, edges, m, m) == [];
      assert front + [] == front;
    } else {
      ShadowOrderFired(pos, base, edges, m, n - 1);
      ShadowKeeps(pos, base, 3, edges, m, n - 1, edges[0].p1);
      var pts := ShadowAfter(pos, base, 3, edges, n - 1);
      var q := edges[n - 1].p1;
      var hits := ShadowHits(pos, base, edges, m, n - 1);
      if Occluded(pos, base, q) {
        assert ShadowIndex(pts, edges, 3, true) == |front + hits|;
        InsertBeforeLast(front, hits, base[3], q);
        assert ShadowHits(pos, base, edges, m, n) == hits + [q];
      } else {
        assert ShadowHits(pos, base, edges, m, n) == hits;
      }
    }
  }

  /** The finished shadow list of the wall edge w at index `wall`. */
  function Shadow(pos: Point, w: Segment, wall: nat, edges: seq<Segment>, raycast: Raycast): seq<Point>
  {
    ShadowAfter(pos, ShadowBase(pos, w, edges, raycast), wall, edges, |edges|)
  }

  /** The shadow part of doLighting (World.java:197-224) for the wall edge w
      at index `wall` of the wall list: the shadow quadrilateral behind w,
      widened by the first points of the boundary edges that lie behind it. */
  method WallShadow(pos: Point, w: Segment, wall: nat, edges: seq<Segment>, raycast: Raycast)
    returns (pts: seq<Point>)
    ensures pts == Shadow(pos, w, wall, edges, raycast)
    ensures |pts| == 4 + |ShadowHits(pos, ShadowBase(pos, w, edges, raycast), edges, 0, |edges|)|
    ensures pts[..3] == [w.p1, w.p2, raycast(Segment(pos, w.p2), edges)]
    ensures pts[|pts| - 1] == raycast(Segment(pos, w.p1), edges)
    ensures multiset(pts) == multiset(ShadowBase(pos, w, edges, raycast)) +
      multiset(ShadowHits(pos, ShadowBase(pos, w, edges, raycast), edges, 0, |edges|))
  {
    pts := [w.p1, w.p2];
    pts := pts + [raycast(Segment(pos, pts[1]), edges)];
    pts := pts + [raycast(Segment(pos, pts[0]), edges)];
    ghost var base := pts;
    assert base == ShadowBase(pos, w, edges, raycast);
    var v1 := Vector(pts[2], pos);
    var v2 := Vector(pos, pts[3]);
    if Cross(v1, v2) > 0 {
      pts := GatherClockwise(pos, pts, wall, edges);
    } else {
      pts := GatherCounter(pos, pts, wall, edges);
    }
    ShadowLength(pos, base, wall, edges, |edges|);
    ShadowEnds(pos, base, wall, edges, |edges|);
    ShadowContents(pos, base, wall, edges, |edges|);
  }

  method GatherClockwise(pos: Point, base: seq<Point>, wall: nat, edges: seq<Segment>)
    returns (pts: seq<Point>)
    requires |base| == 4 && Clockwise(pos, base)
    ensures pts == ShadowAfter(pos, base, wall, edges, |edges|)
  {
    pts := base;
    var v1 := Vector(base[2], pos);
    var v2 := Vector(pos, base[3]);
    var j := 0;
    while j < |edges|
      invariant 0 <= j <= |edges|
      invariant pts == ShadowAfter(pos, base, wall, edges, j)
    {
      var q := edges[j].p1;
      var cross1 := Cross(v1, Vector(pos, q));
      var cross2 := Cross(v2, Vector(pos, q));
      if cross1 > 0 && cross2 > 0 {
        var k := if wall == 3 && Contains(pts, edges[0].p1) then |pts| - 1 else 3;
        pts := Insert(pts, k, q);
      }
      j := j + 1;
    }
  }

  method GatherCounter(pos: Point, base: seq<Point>, wall: nat, edges: seq<Segment>)
    returns (pts: seq<Point>)
    requires |base| == 4 && !Clockwise(pos, base)
    ensures pts == ShadowAfter(pos, base, wall, edges, |edges|)
  {
    pts := base;
    var v1 := Vector(base[2], pos);
    var v2 := Vector(pos, base[3]);
    var j := 0;
    while j < |edges|
      invariant 0 <= j <= |edges|
      invariant pts == ShadowAfter(pos, base, wall, edges, j)
    {
      var q := edges[j].p1;
      var cross1 := Cross(v1, Vector(pos, q));
      var cross2 := Cross(v2, Vector(pos, q));
      if cross1 < 0 && cross2 < 0 {
        pts := Insert(pts, |pts| - 1, q);
      }
      j := j + 1;
    }
  }

  // ---------------------------------------------------------------------
  // The whole lighting pass
  // ---------------------------------------------------------------------

  /** The shadow lists of the first n walls, in wall order. */
  function ShadowLists(pos: Point, walls: seq<Segment>, edges: seq<Segment>, raycast: Raycast, n: nat): (r: seq<seq<Point>>)
    requires n <= |walls|
    ensures |r| == n
  {
    if n == 0 then [] else ShadowLists(pos, walls, edges, raycast, n - 1) + [Shadow(pos, walls[n - 1], n - 1, edges, raycast)]
  }

  /** Entry k of the shadow lists belongs to wall k. */
  lemma {:induction false} ShadowListsAt(pos: Point, walls: seq<Segment>, edges: seq<Segment>, raycast: Raycast, n: nat)
    requires n <= |walls|
    ensures forall k :: 0 <= k < n ==> ShadowLists(pos, walls, edges, raycast, n)[k] == Shadow(pos, walls[k], k, edges, raycast)
  {
    if n > 0 {
      ShadowListsAt(pos, walls, edges, raycast, n - 1);
    }
  }

  /** doLighting: the wall list is the edges of every Wall object followed by
      the screen boundary, and every ray is cast against the boundary only.
      Yields the cone list and one shadow list per wall edge, in wall order. */
  method DoLighting(pos: Point, far0: Point, far1: Point, wallEdges: seq<Segment>,
                    boundary: seq<Segment>, raycast: Raycast)
    returns (cone: seq<Point>, shadows: seq<seq<Point>>)
    ensures cone == ConeAfter(pos, raycast(Segment(pos, far0), boundary),
                              raycast(Segment(pos, far1), boundary), boundary, |boundary|)
    ensures shadows == ShadowLists(pos, wallEdges + boundary, boundary, raycast, |wallEdges| + |boundary|)
    ensures |shadows| == |wallEdges| + |boundary|
    ensures forall i :: 0 <= i < |shadows| ==>
      shadows[i] == Shadow(pos, (wallEdges + boundary)[i], i, boundary, raycast)
  {
    var walls := wallEdges + boundary;
    var edges := boundary;
    cone := LightCone(pos, far0, far1, edges, raycast);
    shadows := [];
    var i := 0;
    while i < |walls|
      invariant 0 <= i <= |walls|
      invariant shadows == ShadowLists(pos, walls, edges, raycast, i)
    {
      var pts := WallShadow(pos, walls[i], i, edges, raycast);
      shadows := shadows + [pts];
      i := i + 1;
    }
    ShadowListsAt(pos, walls, edges, raycast, |walls|);
  }
}
