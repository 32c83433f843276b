/** Antimeridian clipping of longitude/latitude rings over exact reals.

    A ring that jumps over the antimeridian is unwrapped into one continuous
    ring, cut into 360-degree slabs by two half-plane clips a slab, and every
    piece is shifted back into [-180, 180].  The main results: the unwrapping
    is the only continuous one, every returned vertex is a legal longitude, and
    the signed area of the pieces adds up to that of the unwrapped ring.
 */
module Antimeridian {

  datatype Point = Point(lon: real, lat: real)
  type Ring = seq<Point>

  /* ---------------------------------------------------------------- edges */

  /** A quantity of one directed edge. */
  type EdgeMeasure = (Point, Point) -> real

  /** The sum of `f` over the chain that starts at `previous` and visits `points`. */
  function Sum(f: EdgeMeasure, previous: Point, points: Ring): real
    decreases |points|
  {
    if points == [] then 0.0
    else f(previous, points[0]) + Sum(f, points[0], points[1..])
  }

  /** The sum of `f` over the closed ring. */
  function RingSum(f: EdgeMeasure, ring: Ring): real
  {
    if ring == [] then 0.0 else Sum(f, ring[|ring| - 1], ring)
  }

  /** The shoelace term of one edge, with longitudes measured from `base`. */
  function Cross(base: real, p: Point, q: Point): real
  {
    (p.lon - base) * q.lat - (q.lon - base) * p.lat
  }

  function CrossFrom(base: real): EdgeMeasure
  {
    (p, q) => Cross(base, p, q)
  }

  /** Twice the signed area enclosed by a closed ring (shoelace formula). */
  function Area(ring: Ring): real
  {
    RingSum(CrossFrom(0.0), ring)
  }

  function TotalArea(rings: seq<Ring>): real
  {
    if rings == [] then 0.0 else Area(rings[0]) + TotalArea(rings[1..])
  }

  lemma {:induction false} SumCongruent(f: EdgeMeasure, g: EdgeMeasure, previous: Point, points: Ring)
    requires forall p, q :: f(p, q) == g(p, q)
    ensures Sum(f, previous, points) == Sum(g, previous, points)
    decreases |points|
  {
    if points != [] {
      SumCongruent(f, g, points[0], points[1..]);
    }
  }

  /** How much measuring from `base` instead of 0 takes off an edge. */
  function Drift(base: real, from: real, to: real): real
  {
    base * to - base * from
  }

  lemma CrossRebased(base: real, p: Point, q: Point)
    ensures Cross(base, p, q) == Cross(0.0, p, q) - Drift(base, p.lat, q.lat)
  {
  }

  lemma {:induction false} SumRebased(base: real, previous: Point, points: Ring)
    requires points != []
    ensures Sum(CrossFrom(base), previous, points)
         == Sum(CrossFrom(0.0), previous, points) - Drift(base, previous.lat, points[|points| - 1].lat)
    decreases |points|
  {
    var head := points[0];
    CrossRebased(base, previous, head);
    if |points| > 1 {
      SumRebased(base, head, points[1..]);
      assert points[1..][|points| - 2] == points[|points| - 1];
    } else {
      assert Sum(CrossFrom(base), head, points[1..]) == 0.0 == Sum(CrossFrom(0.0), head, points[1..]);
    }
  }

  /** A closed ring has the same area whatever longitude it is measured from. */
  lemma AreaFromAnyBase(base: real, ring: Ring)
    ensures RingSum(CrossFrom(base), ring) == Area(ring)
  {
    if ring != [] {
      SumRebased(base, ring[|ring| - 1], ring);
    }
  }

  function Shifted(ring: Ring, offset: real): (r: Ring)
    ensures |r| == |ring|
    ensures forall i :: 0 <= i < |ring| ==> r[i] == Point(ring[i].lon - offset, ring[i].lat)
  {
    seq(|ring|, i requires 0 <= i < |ring| => Point(ring[i].lon - offset, ring[i].lat))
  }

  lemma {:induction false} SumShifted(offset: real, previous: Point, points: Ring)
    ensures Sum(CrossFrom(0.0), Point(previous.lon - offset, previous.lat), Shifted(points, offset))
         == Sum(CrossFrom(offset), previous, points)
    decreases |points|
  {
    if points != [] {
      SumShifted(offset, points[0], points[1..]);
      assert Shifted(points, offset)[1..] == Shifted(points[1..], offset);
    }
  }

  /** Moving a ring along the longitude axis keeps its area. */
  lemma ShiftKeepsArea(ring: Ring, offset: real)
    ensures Area(Shifted(ring, offset)) == Area(ring)
  {
    if ring != [] {
      SumShifted(offset, ring[|ring| - 1], ring);
      AreaFromAnyBase(offset, ring);
    }
  }

  /** Fragments that the split drops enclose nothing. */
  lemma DegenerateRingHasNoArea(ring: Ring)
    requires |ring| < 3
    ensures Area(ring) == 0.0
  {
    if |ring| == 1 {
      assert ring[1..] == [];
      assert Sum(CrossFrom(0.0), ring[0], ring)
          == Cross(0.0, ring[0], ring[0]) + Sum(CrossFrom(0.0), ring[0], ring[1..]);
    } else if |ring| == 2 {
      var p, q := ring[0], ring[1];
      assert ring[1..] == [q] && ring[1..][1..] == [];
      assert Sum(CrossFrom(0.0), p, [q]) == Cross(0.0, p, q) + Sum(CrossFrom(0.0), q, [q][1..]);
      assert Sum(CrossFrom(0.0), q, ring) == Cross(0.0, q, p) + Sum(CrossFrom(0.0), p, ring[1..]);
      assert Cross(0.0, q, p) + Cross(0.0, p, q) == 0.0;
    }
  }

  /* ------------------------------------------------------------- clipping */

  predicate Inside(point: Point, boundary: real, keepGreater: bool)
  {
    if keepGreater then point.lon >= boundary else point.lon <= boundary
  }

  /** Where the edge from `start` to `end` meets the boundary longitude. */
  function Intersection(start: Point, end: Point, boundary: real): (crossing: Point)
    ensures crossing.lon == boundary
  {
    var delta := end.lon - start.lon;
    if delta == 0.0 then Point(boundary, start.lat)
    else
      var ratio := (boundary - start.lon) / delta;
      Point(boundary, start.lat + ratio * (end.lat - start.lat))
  }

  function ClipTransition(previous: Point, current: Point, boundary: real, keepGreater: bool): Ring
  {
    var crossing := Intersection(previous, current, boundary);
    if Inside(current, boundary, keepGreater) then
      if Inside(previous, boundary, keepGreater) then [current] else [crossing, current]
    else if Inside(previous, boundary, keepGreater) then [crossing]
    else []
  }

  /** What the clipping loop emits for `points` after `previous`. */
  function ClipFrom(previous: Point, points: Ring, boundary: real, keepGreater: bool): Ring
    decreases |points|
  {
    if points == [] then []
    else
      ClipTransition(previous, points[0], boundary, keepGreater)
      + ClipFrom(points[0], points[1..], boundary, keepGreater)
  }

  function Clip(points: Ring, boundary: real, keepGreater: bool): Ring
  {
    if points == [] then [] else ClipFrom(points[|points| - 1], points, boundary, keepGreater)
  }

  lemma {:induction false} ClipFromAppend(previous: Point, points: Ring, last: Point, boundary: real, keepGreater: bool)
    ensures ClipFrom(previous, points + [last], boundary, keepGreater)
         == ClipFrom(previous, points, boundary, keepGreater)
          + ClipTransition(if points == [] then previous else points[|points| - 1], last, boundary, keepGreater)
    decreases |points|
  {
    if points == [] {
      assert [last][1..] == [];
      assert points + [last] == [last];
      assert ClipFrom(last, [], boundary, keepGreater) == [];
    } else {
      ClipFromAppend(points[0], points[1..], last, boundary, keepGreater);
      assert (points + [last])[1..] == points[1..] + [last];
    }
  }

  /** Clip `points` against one vertical longitude boundary. */
  method ClipLongitude(points: Ring, boundary: real, keepGreater: bool) returns (output: Ring)
    ensures output == Clip(points, boundary, keepGreater)
  {
    if points == [] {
      return [];
    }
    output := [];
    var previous := points[|points| - 1];
    var previousInside := Inside(previous, boundary, keepGreater);
    ghost var first := previous;
    for i := 0 to |points|
      invariant previous == if i == 0 then first else points[i - 1]
      invariant previousInside == Inside(previous, boundary, keepGreater)
      invariant output == ClipFrom(first, points[..i], boundary, keepGreater)
    {
      var current := points[i];
      var currentInside := Inside(current, boundary, keepGreater);
      var crossing := Intersection(previous, current, boundary);
      var emitted :=
        if currentInside then
          if previousInside then [current] else [crossing, current]
        else if previousInside then [crossing]
        else [];
      ClipFromAppend(first, points[..i], current, boundary, keepGreater);
      assert points[..i + 1] == points[..i] + [current];
      output := output + emitted;
      previous := current;
      previousInside := currentInside;
    }
    assert points[..|points|] == points;
  }

  /** The share of edge measure `f` that lies on the kept side of the boundary. */
  function Part(f: EdgeMeasure, boundary: real, keepGreater: bool, p: Point, q: Point): real
  {
    if Inside(q, boundary, keepGreater) then
      if Inside(p, boundary, keepGreater) then f(p, q) else f(Intersection(p, q, boundary), q)
    else if Inside(p, boundary, keepGreater) then f(p, Intersection(p, q, boundary))
    else 0.0
  }

  function InPart(f: EdgeMeasure, boundary: real, keepGreater: bool): EdgeMeasure
  {
    (p, q) => Part(f, boundary, keepGreater, p, q)
  }

  /** `f` gives nothing to edges that run along the boundary. */
  ghost predicate VanishesOn(f: EdgeMeasure, boundary: real)
  {
    forall p: Point, q: Point :: p.lon == boundary && q.lon == boundary ==> f(p, q) == 0.0
  }

  /** `emitted` is where the output stands when the input stands at `actual`. */
  ghost predicate Follows(actual: Point, emitted: Point, boundary: real, keepGreater: bool)
  {
    if Inside(actual, boundary, keepGreater) then emitted == actual else emitted.lon == boundary
  }

  /** The clipped chain sums up exactly the kept parts of the input edges. */
  lemma {:induction false} ClipSumFrom(
    f: EdgeMeasure, actual: Point, emitted: Point, points: Ring, boundary: real, keepGreater: bool)
    requires VanishesOn(f, boundary)
    requires Follows(actual, emitted, boundary, keepGreater)
    ensures Sum(f, emitted, ClipFrom(actual, points, boundary, keepGreater))
         == Sum(InPart(f, boundary, keepGreater), actual, points)
    decreases |points|
  {
    if points != [] {
      var current := points[0];
      var crossing := Intersection(actual, current, boundary);
      var step := ClipTransition(actual, current, boundary, keepGreater);
      var rest := ClipFrom(current, points[1..], boundary, keepGreater);
      var next := if step == [] then emitted else step[|step| - 1];
      SumConcat(f, emitted, step, rest);
      ClipSumFrom(f, current, next, points[1..], boundary, keepGreater);
      SumShort(f, emitted, step);
      assert Sum(InPart(f, boundary, keepGreater), actual, points)
          == InPart(f, boundary, keepGreater)(actual, current)
           + Sum(InPart(f, boundary, keepGreater), current, points[1..]);
    }
  }

  lemma SumShort(f: EdgeMeasure, previous: Point, points: Ring)
    requires |points| <= 2
    ensures Sum(f, previous, points)
         == if points == [] then 0.0
            else if |points| == 1 then f(previous, points[0])
            else f(previous, points[0]) + f(points[0], points[1])
  {
    if |points| == 1 {
      assert Sum(f, points[0], points[1..]) == 0.0;
    } else if |points| == 2 {
      assert points[1..] == [points[1]];
      assert Sum(f, points[1], [points[1]][1..]) == 0.0;
    }
  }

  lemma {:induction false} SumConcat(f: EdgeMeasure, previous: Point, first: Ring, second: Ring)
    ensures Sum(f, previous, first + second)
         == Sum(f, previous, first) + Sum(f, if first == [] then previous else first[|first| - 1], second)
    decreases |first|
  {
    if first == [] {
      assert first + second == second;
    } else {
      SumConcat(f, first[0], first[1..], second);
      assert (first + second)[1..] == first[1..] + second;
    }
  }

  /** Where the emitted chain stands after the whole loop. */
  lemma {:induction false} ClipEndsFollowing(actual: Point, points: Ring, boundary: real, keepGreater: bool)
    requires points != []
    ensures var out := ClipFrom(actual, points, boundary, keepGreater);
            if out == []
            then !Inside(actual, boundary, keepGreater) && forall p :: p in points ==> !Inside(p, boundary, keepGreater)
            else Follows(points[|points| - 1], out[|out| - 1], boundary, keepGreater)
    decreases |points|
  {
    var current := points[0];
    var step := ClipTransition(actual, current, boundary, keepGreater);
    var rest := ClipFrom(current, points[1..], boundary, keepGreater);
    if |points| == 1 {
      assert rest == [];
      assert step + rest == step;
    } else {
      ClipEndsFollowing(current, points[1..], boundary, keepGreater);
      assert points[1..][|points| - 2] == points[|points| - 1];
      assert forall p :: p in points ==> p == current || p in points[1..];
      if rest == [] && step != [] {
        assert (step + rest)[|step + rest| - 1] == step[|step| - 1];
        assert !Inside(points[|points| - 1], boundary, keepGreater);
      } else if rest != [] {
        assert (step + rest)[|step + rest| - 1] == rest[|rest| - 1];
      }
    }
  }

  lemma {:induction false} SumVanishes(f: EdgeMeasure, previous: Point, points: Ring, boundary: real, keepGreater: bool)
    requires !Inside(previous, boundary, keepGreater)
    requires forall p :: p in points ==> !Inside(p, boundary, keepGreater)
    ensures Sum(InPart(f, boundary, keepGreater), previous, points) == 0.0
    decreases |points|
  {
    if points != [] {
      SumVanishes(f, points[0], points[1..], boundary, keepGreater);
    }
  }

  /** A clipped closed ring sums up exactly the kept parts of the ring's edges. */
  lemma ClipSum(f: EdgeMeasure, points: Ring, boundary: real, keepGreater: bool)
    requires VanishesOn(f, boundary)
    ensures RingSum(f, Clip(points, boundary, keepGreater)) == RingSum(InPart(f, boundary, keepGreater), points)
  {
    if points != [] {
      var last := points[|points| - 1];
      var out := Clip(points, boundary, keepGreater);
      ClipEndsFollowing(last, points, boundary, keepGreater);
      if out == [] {
        SumVanishes(f, last, points, boundary, keepGreater);
      } else {
        ClipSumFrom(f, last, out[|out| - 1], points, boundary, keepGreater);
      }
    }
  }

  /* --------------------------------------------- what a clipped ring is made of */

  /** The point at the share `t` of the way from `p` to `q`. */
  function Along(p: Point, q: Point, t: real): Point
  {
    Point(p.lon + t * (q.lon - p.lon), p.lat + t * (q.lat - p.lat))
  }

  /** The point that comes before point `i` of a chain that starts at `previous`. */
  function PointBefore(previous: Point, points: Ring, i: nat): Point
    requires i < |points|
  {
    if i == 0 then previous else points[i - 1]
  }

  /** The start of the edge of a closed ring that ends at vertex `i`. */
  function EdgeStart(ring: Ring, i: nat): Point
    requires i < |ring|
  {
    PointBefore(ring[|ring| - 1], ring, i)
  }

  predicate ChangesSide(p: Point, q: Point, boundary: real, keepGreater: bool)
  {
    Inside(p, boundary, keepGreater) != Inside(q, boundary, keepGreater)
  }

  /** The edge changes sides, and `v` is where it meets the boundary. */
  predicate MeetsAt(p: Point, q: Point, boundary: real, keepGreater: bool, v: Point)
  {
    && ChangesSide(p, q, boundary, keepGreater)
    && v.lon == boundary
    && (q.lon - p.lon) * (v.lat - p.lat) == (boundary - p.lon) * (q.lat - p.lat)
  }

  lemma MeetsAtIntersection(p: Point, q: Point, boundary: real, keepGreater: bool, v: Point)
    requires ChangesSide(p, q, boundary, keepGreater)
    ensures MeetsAt(p, q, boundary, keepGreater, v) <==> v == Intersection(p, q, boundary)
  {
    var delta, rise, crossing := q.lon - p.lon, q.lat - p.lat, Intersection(p, q, boundary);
    var ratio := (boundary - p.lon) / delta;
    assert ratio * delta == boundary - p.lon;
    assert crossing.lat - p.lat == ratio * rise;
    assert delta * (crossing.lat - p.lat) == (ratio * delta) * rise;
    if MeetsAt(p, q, boundary, keepGreater, v) {
      assert delta * (v.lat - crossing.lat) == 0.0;
    }
  }

  /** Some edge of the chain changes sides at `v`. */
  ghost predicate ChainMeetsAt(previous: Point, points: Ring, boundary: real, keepGreater: bool, v: Point)
  {
    exists i: nat :: i < |points| && MeetsAt(PointBefore(previous, points, i), points[i], boundary, keepGreater, v)
  }

  lemma ChainMeetsFirstOrLater(previous: Point, points: Ring, boundary: real, keepGreater: bool, v: Point)
    requires points != []
    ensures ChainMeetsAt(previous, points, boundary, keepGreater, v)
       <==> (MeetsAt(previous, points[0], boundary, keepGreater, v)
             || ChainMeetsAt(points[0], points[1..], boundary, keepGreater, v))
  {
    var rest := points[1..];
    if i: nat :| i < |points| && MeetsAt(PointBefore(previous, points, i), points[i], boundary, keepGreater, v) {
      if i > 0 {
        assert PointBefore(points[0], rest, i - 1) == points[i - 1] && rest[i - 1] == points[i];
      }
    }
    if i: nat :| i < |rest| && MeetsAt(PointBefore(points[0], rest, i), rest[i], boundary, keepGreater, v) {
      assert PointBefore(previous, points, i + 1) == PointBefore(points[0], rest, i) && points[i + 1] == rest[i];
    }
    if MeetsAt(previous, points[0], boundary, keepGreater, v) {
      assert PointBefore(previous, points, 0) == previous;
    }
  }

  lemma TransitionVertices(p: Point, q: Point, boundary: real, keepGreater: bool, v: Point)
    ensures v in ClipTransition(p, q, boundary, keepGreater)
       <==> ((v == q && Inside(q, boundary, keepGreater)) || MeetsAt(p, q, boundary, keepGreater, v))
  {
    if ChangesSide(p, q, boundary, keepGreater) {
      MeetsAtIntersection(p, q, boundary, keepGreater, v);
    }
  }

  lemma {:induction false} ChainVertices(previous: Point, points: Ring, boundary: real, keepGreater: bool, v: Point)
    ensures v in ClipFrom(previous, points, boundary, keepGreater)
       <==> ((v in points && Inside(v, boundary, keepGreater))
             || ChainMeetsAt(previous, points, boundary, keepGreater, v))
    decreases |points|
  {
    if points != [] {
      TransitionVertices(previous, points[0], boundary, keepGreater, v);
      ChainVertices(points[0], points[1..], boundary, keepGreater, v);
      ChainMeetsFirstOrLater(previous, points, boundary, keepGreater, v);
      assert v in points <==> v == points[0] || v in points[1..];
    }
  }

  /** The vertices of a clipped ring are the ring's own on the kept side, and the points where
      edges whose ends lie on different sides meet the boundary. */
  lemma ClipVertices(points: Ring, boundary: real, keepGreater: bool, v: Point)
    ensures v in Clip(points, boundary, keepGreater)
       <==> ((v in points && Inside(v, boundary, keepGreater))
             || exists i: nat :: i < |points| && MeetsAt(EdgeStart(points, i), points[i], boundary, keepGreater, v))
  {
    if points != [] {
      ChainVertices(points[|points| - 1], points, boundary, keepGreater, v);
      assert forall i: nat | i < |points| ::
          EdgeStart(points, i) == PointBefore(points[|points| - 1], points, i);
    }
  }

  /** The vertices on the kept side, by position. */
  function KeptVertices(points: Ring, boundary: real, keepGreater: bool): set<nat>
  {
    set i: nat | i < |points| && Inside(points[i], boundary, keepGreater)
  }

  /** The edges that change sides, by the position of their end. */
  function EdgesChangingSide(previous: Point, points: Ring, boundary: real, keepGreater: bool): set<nat>
  {
    set i: nat | i < |points| && ChangesSide(PointBefore(previous, points, i), points[i], boundary, keepGreater)
  }

  lemma OneMoreKept(before: Ring, last: Point, boundary: real, keepGreater: bool)
    ensures |KeptVertices(before + [last], boundary, keepGreater)|
         == |KeptVertices(before, boundary, keepGreater)| + if Inside(last, boundary, keepGreater) then 1 else 0
  {
    var here := if Inside(last, boundary, keepGreater) then {|before|} else {};
    assert KeptVertices(before + [last], boundary, keepGreater) == KeptVertices(before, boundary, keepGreater) + here;
  }

  lemma EdgesOfLonger(previous: Point, before: Ring, last: Point, boundary: real, keepGreater: bool, i: nat)
    ensures i in EdgesChangingSide(previous, before + [last], boundary, keepGreater)
       <==> if i == |before| then ChangesSide(if i == 0 then previous else before[i - 1], last, boundary, keepGreater)
            else i in EdgesChangingSide(previous, before, boundary, keepGreater)
  {
    if i < |before| {
      assert PointBefore(previous, before + [last], i) == PointBefore(previous, before, i);
    }
  }

  lemma OneMoreEdge(previous: Point, before: Ring, last: Point, boundary: real, keepGreater: bool)
    ensures var start := if before == [] then previous else before[|before| - 1];
            |EdgesChangingSide(previous, before + [last], boundary, keepGreater)|
            == |EdgesChangingSide(previous, before, boundary, keepGreater)|
             + if ChangesSide(start, last, boundary, keepGreater) then 1 else 0
  {
    var n := |before|;
    var fewer := EdgesChangingSide(previous, before, boundary, keepGreater);
    var more := EdgesChangingSide(previous, before + [last], boundary, keepGreater);
    forall i: nat
      ensures i in more <==> if i == n then n in more else i in fewer
    {
      EdgesOfLonger(previous, before, last, boundary, keepGreater, i);
    }
    EdgesOfLonger(previous, before, last, boundary, keepGreater, n);
    assert more == fewer + if n in more then {n} else {};
  }

  lemma {:induction false} ChainCount(previous: Point, points: Ring, boundary: real, keepGreater: bool)
    ensures |ClipFrom(previous, points, boundary, keepGreater)|
         == |KeptVertices(points, boundary, keepGreater)|
          + |EdgesChangingSide(previous, points, boundary, keepGreater)|
    decreases |points|
  {
    if points == [] {
      assert KeptVertices(points, boundary, keepGreater) == {};
      assert EdgesChangingSide(previous, points, boundary, keepGreater) == {};
    } else {
      var n := |points| - 1;
      var before, last := points[..n], points[n];
      ChainCount(previous, before, boundary, keepGreater);
      ClipFromAppend(previous, before, last, boundary, keepGreater);
      OneMoreKept(before, last, boundary, keepGreater);
      OneMoreEdge(previous, before, last, boundary, keepGreater);
      assert points == before + [last];
    }
  }

  /** A clipped ring has one vertex for each kept vertex and one for each edge that changes sides. */
  lemma ClipCount(points: Ring, boundary: real, keepGreater: bool)
    requires points != []
    ensures |Clip(points, boundary, keepGreater)|
         == |KeptVertices(points, boundary, keepGreater)|
          + |EdgesChangingSide(points[|points| - 1], points, boundary, keepGreater)|
  {
    ChainCount(points[|points| - 1], points, boundary, keepGreater);
  }

  /** From `a` to `b` is a stretch of the edge from `p` to `q`, in its direction. */
  ghost predicate Stretch(a: Point, b: Point, p: Point, q: Point)
  {
    exists s: real, t: real :: 0.0 <= s <= t <= 1.0 && a == Along(p, q, s) && b == Along(p, q, t)
  }

  /** From `a` to `b` is a stretch of an edge of the chain. */
  ghost predicate ChainStretch(a: Point, b: Point, previous: Point, points: Ring)
  {
    exists i: nat :: i < |points| && Stretch(a, b, PointBefore(previous, points, i), points[i])
  }

  /** From `a` to `b` is a stretch of an edge of the chain or runs along the boundary. */
  ghost predicate FromChain(a: Point, b: Point, previous: Point, points: Ring, boundary: real)
  {
    (a.lon == boundary && b.lon == boundary) || ChainStretch(a, b, previous, points)
  }

  lemma WholeAndHalves(p: Point, q: Point, boundary: real, keepGreater: bool)
    ensures Stretch(p, q, p, q)
    ensures ChangesSide(p, q, boundary, keepGreater) ==>
              var crossing := Intersection(p, q, boundary);
              Stretch(p, crossing, p, q) && Stretch(crossing, q, p, q)
  {
    assert p == Along(p, q, 0.0) && q == Along(p, q, 1.0);
    if ChangesSide(p, q, boundary, keepGreater) {
      var ratio := (boundary - p.lon) / (q.lon - p.lon);
      assert ratio * (q.lon - p.lon) == boundary - p.lon;
      RatioIsShare(boundary - p.lon, q.lon - p.lon);
      assert Intersection(p, q, boundary) == Along(p, q, ratio);
    }
  }

  lemma RatioIsShare(part: real, whole: real)
    requires 0.0 <= part <= whole || whole <= part <= 0.0
    requires whole != 0.0
    ensures 0.0 <= part / whole <= 1.0
  {
    var ratio := part / whole;
    assert ratio * whole == part && (1.0 - ratio) * whole == whole - part;
    SameSign(ratio, whole);
    SameSign(1.0 - ratio, whole);
  }

  lemma SameSign(x: real, y: real)
    requires y != 0.0 && (if y > 0.0 then x * y >= 0.0 else x * y <= 0.0)
    ensures x >= 0.0
  {
  }

  lemma LaterStretch(a: Point, b: Point, previous: Point, points: Ring, boundary: real)
    requires points != [] && FromChain(a, b, points[0], points[1..], boundary)
    ensures FromChain(a, b, previous, points, boundary)
  {
    var rest := points[1..];
    if i: nat :| i < |rest| && Stretch(a, b, PointBefore(points[0], rest, i), rest[i]) {
      assert PointBefore(previous, points, i + 1) == PointBefore(points[0], rest, i) && points[i + 1] == rest[i];
    }
  }

  lemma FirstStretch(a: Point, b: Point, previous: Point, points: Ring, boundary: real)
    requires points != [] && Stretch(a, b, previous, points[0])
    ensures FromChain(a, b, previous, points, boundary)
  {
    assert PointBefore(previous, points, 0) == previous;
  }

  lemma {:induction false} ChainEdges(
    actual: Point, emitted: Point, points: Ring, boundary: real, keepGreater: bool, j: nat)
    requires Follows(actual, emitted, boundary, keepGreater)
    requires j < |ClipFrom(actual, points, boundary, keepGreater)|
    ensures var out := ClipFrom(actual, points, boundary, keepGreater);
            FromChain(PointBefore(emitted, out, j), out[j], actual, points, boundary)
    decreases |points|
  {
    var current, later := points[0], points[1..];
    var step := ClipTransition(actual, current, boundary, keepGreater);
    var rest := ClipFrom(current, later, boundary, keepGreater);
    if j < |step| {
      var before := PointBefore(emitted, step, j);
      WholeAndHalves(actual, current, boundary, keepGreater);
      if !(before.lon == boundary && step[j].lon == boundary) {
        FirstStretch(before, step[j], actual, points, boundary);
      }
    } else {
      var next := if step == [] then emitted else step[|step| - 1];
      ChainEdges(current, next, later, boundary, keepGreater, j - |step|);
      LaterStretch(PointBefore(next, rest, j - |step|), rest[j - |step|], actual, points, boundary);
    }
  }

  /** Every edge of a clipped ring is a stretch of an edge of the ring, in its direction, or runs along the boundary. */
  lemma ClipEdges(points: Ring, boundary: real, keepGreater: bool, j: nat)
    requires points != [] && j < |Clip(points, boundary, keepGreater)|
    ensures var out := Clip(points, boundary, keepGreater);
            FromChain(EdgeStart(out, j), out[j], points[|points| - 1], points, boundary)
  {
    var last, out := points[|points| - 1], Clip(points, boundary, keepGreater);
    ClipEndsFollowing(last, points, boundary, keepGreater);
    ChainEdges(last, out[|out| - 1], points, boundary, keepGreater, j);
  }

  /** The point lies on an edge of the closed ring. */
  ghost predicate OnRing(ring: Ring, v: Point)
  {
    exists i: nat :: i < |ring| && Stretch(v, v, EdgeStart(ring, i), ring[i])
  }

  lemma AlongAlong(p: Point, q: Point, s: real, t: real, u: real)
    ensures Along(Along(p, q, s), Along(p, q, t), u) == Along(p, q, s + u * (t - s))
  {
    ShareOfStretch(p.lon, q.lon - p.lon, s, t, u);
    ShareOfStretch(p.lat, q.lat - p.lat, s, t, u);
  }

  lemma ShareOfStretch(x: real, d: real, s: real, t: real, u: real)
    ensures (x + s * d) + u * ((x + t * d) - (x + s * d)) == x + (s + u * (t - s)) * d
  {
    calc {
      u * ((x + t * d) - (x + s * d));
      u * ((t - s) * d);
      (u * (t - s)) * d;
    }
  }

  lemma MixedShare(s: real, t: real, u: real) returns (mixed: real)
    requires 0.0 <= s <= t <= 1.0 && 0.0 <= u <= 1.0
    ensures mixed == s + u * (t - s) && 0.0 <= mixed <= 1.0
  {
    var part := ShareIsPart(u, t - s);
    AddShare(s, t - s, part);
    mixed := s + part;
  }

  lemma AddShare(s: real, d: real, part: real)
    requires 0.0 <= s && 0.0 <= part <= d && s + d <= 1.0
    ensures 0.0 <= s + part <= 1.0
  {
  }

  lemma AlongIsOnEdge(p: Point, q: Point, s: real, t: real, u: real)
    requires 0.0 <= s <= t <= 1.0 && 0.0 <= u <= 1.0
    ensures var v := Along(Along(p, q, s), Along(p, q, t), u);
            Stretch(v, v, p, q)
  {
    var mixed := MixedShare(s, t, u);
    AlongAlong(p, q, s, t, u);
    assert Along(Along(p, q, s), Along(p, q, t), u) == Along(p, q, mixed);
  }

  lemma ShareIsPart(u: real, d: real) returns (part: real)
    requires 0.0 <= u <= 1.0 && d >= 0.0
    ensures part == u * d && 0.0 <= part <= d
  {
    part := u * d;
    ProductOfPositives(u, d);
    ProductOfPositives(1.0 - u, d);
    assert (1.0 - u) * d == d - u * d;
  }

  lemma ProductOfPositives(x: real, y: real)
    requires x >= 0.0 && y >= 0.0
    ensures x * y >= 0.0
  {
  }

  lemma MeetingShare(a: Point, b: Point, boundary: real, keepGreater: bool, v: Point) returns (u: real)
    requires MeetsAt(a, b, boundary, keepGreater, v)
    ensures 0.0 <= u <= 1.0 && v == Along(a, b, u)
  {
    MeetsAtIntersection(a, b, boundary, keepGreater, v);
    u := (boundary - a.lon) / (b.lon - a.lon);
    RatioIsShare(boundary - a.lon, b.lon - a.lon);
    assert u * (b.lon - a.lon) == boundary - a.lon;
  }

  /** Where a stretch of an edge crosses a boundary, the edge does. */
  lemma StretchMeetsOnEdge(a: Point, b: Point, p: Point, q: Point, boundary: real, keepGreater: bool, v: Point)
    requires Stretch(a, b, p, q) && MeetsAt(a, b, boundary, keepGreater, v)
    ensures Stretch(v, v, p, q)
  {
    var s: real, t: real :| 0.0 <= s <= t <= 1.0 && a == Along(p, q, s) && b == Along(p, q, t);
    var u := MeetingShare(a, b, boundary, keepGreater, v);
    AlongIsOnEdge(p, q, s, t, u);
  }

  lemma VertexOnRing(points: Ring, v: Point)
    requires v in points
    ensures OnRing(points, v)
  {
    var i: nat :| i < |points| && points[i] == v;
    assert v == Along(EdgeStart(points, i), v, 1.0);
  }

  /** Every vertex of a clipped ring lies on the ring. */
  lemma ClipStaysOnRing(points: Ring, boundary: real, keepGreater: bool, v: Point)
    requires v in Clip(points, boundary, keepGreater)
    ensures OnRing(points, v)
  {
    ClipVertices(points, boundary, keepGreater, v);
    if v in points {
      VertexOnRing(points, v);
    } else {
      var i: nat :| i < |points| && MeetsAt(EdgeStart(points, i), points[i], boundary, keepGreater, v);
      WholeAndHalves(EdgeStart(points, i), points[i], boundary, keepGreater);
      StretchMeetsOnEdge(EdgeStart(points, i), points[i], EdgeStart(points, i), points[i], boundary, keepGreater, v);
    }
  }

  /* ---------------------------------------------- the two sides make a whole */

  lemma IntersectionCross(p: Point, q: Point, boundary: real)
    requires p.lon != q.lon
    ensures var i := Intersection(p, q, boundary);
            Cross(boundary, p, i) + Cross(boundary, i, q) == Cross(boundary, p, q)
  {
    var delta, rise := q.lon - p.lon, q.lat - p.lat;
    var ratio := (boundary - p.lon) / delta;
    var i := Intersection(p, q, boundary);
    assert ratio * delta == boundary - p.lon;
    assert i.lat == p.lat + ratio * rise;
    calc {
      Cross(boundary, p, i) + Cross(boundary, i, q);
      (p.lon - boundary) * i.lat - (q.lon - boundary) * i.lat;
      -delta * i.lat;
      -delta * p.lat - (ratio * delta) * rise;
      -delta * p.lat - (boundary - p.lon) * rise;
      Cross(boundary, p, q);
    }
  }

  lemma RatioOfEquals(x: real)
    requires x != 0.0
    ensures x / x == 1.0
  {
  }

  lemma EdgeSplits(p: Point, q: Point, boundary: real)
    ensures Part(CrossFrom(boundary), boundary, true, p, q) + Part(CrossFrom(boundary), boundary, false, p, q)
         == Cross(boundary, p, q)
  {
    var i := Intersection(p, q, boundary);
    if p.lon == boundary && q.lon == boundary {
    } else if p.lon == boundary {
      assert (boundary - p.lon) / (q.lon - p.lon) == 0.0;
      assert i == p;
      assert Cross(boundary, p, p) == 0.0;
    } else if q.lon == boundary {
      RatioOfEquals(q.lon - p.lon);
      assert i == q;
      assert Cross(boundary, q, q) == 0.0;
    } else if p.lon < boundary < q.lon || q.lon < boundary < p.lon {
      IntersectionCross(p, q, boundary);
    }
  }

  lemma {:induction false} SumSplits(previous: Point, points: Ring, boundary: real)
    ensures Sum(InPart(CrossFrom(boundary), boundary, true), previous, points)
          + Sum(InPart(CrossFrom(boundary), boundary, false), previous, points)
         == Sum(CrossFrom(boundary), previous, points)
    decreases |points|
  {
    if points != [] {
      EdgeSplits(previous, points[0], boundary);
      SumSplits(points[0], points[1..], boundary);
    }
  }

  /** Cutting any closed ring along a longitude conserves its signed area. */
  lemma CutConservesArea(points: Ring, boundary: real)
    ensures Area(Clip(points, boundary, true)) + Area(Clip(points, boundary, false)) == Area(points)
  {
    var f := CrossFrom(boundary);
    ClipSum(f, points, boundary, true);
    ClipSum(f, points, boundary, false);
    AreaFromAnyBase(boundary, Clip(points, boundary, true));
    AreaFromAnyBase(boundary, Clip(points, boundary, false));
    AreaFromAnyBase(boundary, points);
    if points != [] {
      SumSplits(points[|points| - 1], points, boundary);
    }
  }

  /* ------------------------------------------------------- nested half-planes */

  lemma IntersectionMovesAlongEdge(p: Point, q: Point, first: real, second: real)
    requires p.lon != q.lon && first != q.lon
    ensures Intersection(Intersection(p, q, first), q, second) == Intersection(p, q, second)
  {
    var delta, rise := q.lon - p.lon, q.lat - p.lat;
    var a := (first - p.lon) / delta;
    var i := Intersection(p, q, first);
    var b := (second - first) / (q.lon - first);
    var c := (second - p.lon) / delta;
    assert a * delta == first - p.lon && b * (q.lon - first) == second - first && c * delta == second - p.lon;
    assert (1.0 - a) * delta == q.lon - first;
    assert q.lat - i.lat == (1.0 - a) * rise;
    assert (a + b * (1.0 - a)) * delta == a * delta + b * ((1.0 - a) * delta) == second - p.lon;
    assert (a + b * (1.0 - a) - c) * delta == 0.0;
    assert a + b * (1.0 - a) == c;
    calc {
      i.lat + b * (q.lat - i.lat);
      p.lat + a * rise + b * ((1.0 - a) * rise);
      p.lat + (a + b * (1.0 - a)) * rise;
      p.lat + c * rise;
    }
  }

  lemma IntersectionMovesBackAlongEdge(p: Point, q: Point, first: real, second: real)
    requires p.lon != q.lon && first != p.lon
    ensures Intersection(p, Intersection(p, q, first), second) == Intersection(p, q, second)
  {
    var delta, rise := q.lon - p.lon, q.lat - p.lat;
    var a := (first - p.lon) / delta;
    var i := Intersection(p, q, first);
    var b := (second - p.lon) / (first - p.lon);
    var c := (second - p.lon) / delta;
    assert a * delta == first - p.lon && b * (first - p.lon) == second - p.lon && c * delta == second - p.lon;
    assert i.lat - p.lat == a * rise;
    assert (b * a) * delta == b * (a * delta) == second - p.lon;
    assert (b * a - c) * delta == 0.0;
    assert b * a == c;
    var j := Intersection(p, i, second);
    calc {
      j.lat;
      p.lat + b * (a * rise);
      p.lat + (b * a) * rise;
      p.lat + c * rise;
      Intersection(p, q, second).lat;
    }
  }

  /** The part of an edge right of `far` does not see a cut at `near < far`. */
  lemma InPartNested(p: Point, q: Point, f: EdgeMeasure, near: real, far: real)
    requires near < far
    ensures Part(InPart(f, far, true), near, true, p, q) == Part(f, far, true, p, q)
  {
    if p.lon < near && q.lon >= far {
      IntersectionMovesAlongEdge(p, q, near, far);
    } else if q.lon < near && p.lon >= far {
      IntersectionMovesBackAlongEdge(p, q, near, far);
    }
  }

  /** Clipping at `near` first does not change the area right of `far`. */
  lemma NestedClipArea(points: Ring, near: real, far: real)
    requires near < far
    ensures Area(Clip(Clip(points, near, true), far, true)) == Area(Clip(points, far, true))
  {
    var f := CrossFrom(far);
    var inner := Clip(points, near, true);
    ClipSum(f, inner, far, true);
    var right := InPart(f, far, true);
    forall p: Point, q: Point | p.lon == near && q.lon == near
      ensures right(p, q) == 0.0
    {
      assert !Inside(p, far, true) && !Inside(q, far, true);
    }
    ClipSum(right, points, near, true);
    ClipSum(f, points, far, true);
    AreaFromAnyBase(far, Clip(inner, far, true));
    AreaFromAnyBase(far, Clip(points, far, true));
    forall p, q
      ensures InPart(InPart(f, far, true), near, true)(p, q) == InPart(f, far, true)(p, q)
    {
      InPartNested(p, q, f, near, far);
    }
    if points != [] {
      SumCongruent(InPart(InPart(f, far, true), near, true), InPart(f, far, true), points[|points| - 1], points);
    }
  }

  /* ------------------------------------------------------------------ slabs */

  const WORLD := 360.0
  const HALF_WORLD := 180.0

  /** The western edge of a slab; its eastern edge is that of the next one. */
  function SlabEdge(slab: int): real
  {
    -HALF_WORLD + WORLD * (slab as real)
  }

  /** The integer longitude slab containing `longitude`. */
  function SlabIndex(longitude: real): (slab: int)
    ensures SlabEdge(slab) <= longitude < SlabEdge(slab + 1)
  {
    ((longitude + HALF_WORLD) / WORLD).Floor
  }

  function ClippedToSlab(points: Ring, slab: int): Ring
  {
    Clip(Clip(points, SlabEdge(slab), true), SlabEdge(slab + 1), false)
  }

  method ClipSlab(points: Ring, slab: int) returns (clipped: Ring)
    ensures clipped == ClippedToSlab(points, slab)
  {
    var left := -180.0 + 360.0 * (slab as real);
    var right := 180.0 + 360.0 * (slab as real);
    assert right == SlabEdge(slab + 1);
    clipped := ClipLongitude(points, left, true);
    clipped := ClipLongitude(clipped, right, false);
  }

  /** The area inside one slab is what lies right of its western edge but not of its eastern one. */
  lemma SlabArea(points: Ring, slab: int)
    ensures Area(ClippedToSlab(points, slab))
         == Area(Clip(points, SlabEdge(slab), true)) - Area(Clip(points, SlabEdge(slab + 1), true))
  {
    CutConservesArea(Clip(points, SlabEdge(slab), true), SlabEdge(slab + 1));
    NestedClipArea(points, SlabEdge(slab), SlabEdge(slab + 1));
  }

  lemma {:induction false} ClipKeepsInsideChain(previous: Point, points: Ring, boundary: real)
    requires previous.lon >= boundary && forall p :: p in points ==> p.lon >= boundary
    ensures ClipFrom(previous, points, boundary, true) == points
    decreases |points|
  {
    if points != [] {
      ClipKeepsInsideChain(points[0], points[1..], boundary);
    }
  }

  lemma {:induction false} ClipDropsOutsideChain(previous: Point, points: Ring, boundary: real)
    requires previous.lon < boundary && forall p :: p in points ==> p.lon < boundary
    ensures ClipFrom(previous, points, boundary, true) == []
    decreases |points|
  {
    if points != [] {
      ClipDropsOutsideChain(points[0], points[1..], boundary);
    }
  }

  lemma {:induction false} ClipStaysInside(previous: Point, points: Ring, boundary: real, keepGreater: bool)
    ensures forall p :: p in ClipFrom(previous, points, boundary, keepGreater) ==>
              Inside(p, boundary, keepGreater) && (p in points || p.lon == boundary)
    decreases |points|
  {
    if points != [] {
      ClipStaysInside(points[0], points[1..], boundary, keepGreater);
    }
  }

  lemma SlabBounds(points: Ring, slab: int)
    ensures forall p :: p in ClippedToSlab(points, slab) ==> SlabEdge(slab) <= p.lon <= SlabEdge(slab + 1)
  {
    var inner := Clip(points, SlabEdge(slab), true);
    if points != [] {
      ClipStaysInside(points[|points| - 1], points, SlabEdge(slab), true);
    }
    if inner != [] {
      ClipStaysInside(inner[|inner| - 1], inner, SlabEdge(slab + 1), false);
    }
  }

  /** A vertex on the far edge of the slab lies on the ring: no edge that the near cut adds reaches it. */
  lemma FarCutStaysOnRing(points: Ring, near: real, far: real, j: nat, v: Point)
    requires points != [] && near <= far
    requires j < |Clip(points, near, true)|
    requires MeetsAt(EdgeStart(Clip(points, near, true), j), Clip(points, near, true)[j], far, false, v)
    ensures OnRing(points, v)
  {
    var inner := Clip(points, near, true);
    var a, b := EdgeStart(inner, j), inner[j];
    ClipEdges(points, near, true, j);
    var i: nat :| i < |points| && Stretch(a, b, PointBefore(points[|points| - 1], points, i), points[i]);
    StretchMeetsOnEdge(a, b, EdgeStart(points, i), points[i], far, false, v);
  }

  /** Every vertex of a ring clipped to a slab lies on the ring. */
  lemma SlabStaysOnRing(points: Ring, slab: int, v: Point)
    requires v in ClippedToSlab(points, slab)
    ensures OnRing(points, v)
  {
    var near, far := SlabEdge(slab), SlabEdge(slab + 1);
    var inner := Clip(points, near, true);
    ClipVertices(inner, far, false, v);
    if v in inner {
      ClipStaysOnRing(points, near, true, v);
    } else {
      var j: nat :| j < |inner| && MeetsAt(EdgeStart(inner, j), inner[j], far, false, v);
      FarCutStaysOnRing(points, near, far, j, v);
    }
  }

  /** Every vertex of the ring stands in the ring clipped to its slab. */
  lemma SlabKeepsVertices(points: Ring, slab: int, v: Point)
    requires v in points && SlabEdge(slab) <= v.lon <= SlabEdge(slab + 1)
    ensures v in ClippedToSlab(points, slab)
  {
    ClipVertices(points, SlabEdge(slab), true, v);
    ClipVertices(Clip(points, SlabEdge(slab), true), SlabEdge(slab + 1), false, v);
  }

  function MinLongitude(points: Ring): (low: real)
    requires points != []
    ensures (exists p :: p in points && p.lon == low) && forall p :: p in points ==> low <= p.lon
  {
    if |points| == 1 then
      assert points[0] in points;
      points[0].lon
    else
      var rest := MinLongitude(points[1..]);
      assert forall p :: p in points ==> p == points[0] || p in points[1..];
      assert points[0] in points && forall p :: p in points[1..] ==> p in points;
      if points[0].lon <= rest then points[0].lon else rest
  }

  function MaxLongitude(points: Ring): (high: real)
    requires points != []
    ensures (exists p :: p in points && p.lon == high) && forall p :: p in points ==> p.lon <= high
  {
    if |points| == 1 then
      assert points[0] in points;
      points[0].lon
    else
      var rest := MaxLongitude(points[1..]);
      assert forall p :: p in points ==> p == points[0] || p in points[1..];
      assert points[0] in points && forall p :: p in points[1..] ==> p in points;
      if points[0].lon >= rest then points[0].lon else rest
  }

  function SlabRange(points: Ring): (range: (int, int))
    requires points != []
    ensures range.0 <= range.1
    ensures forall p :: p in points ==> SlabEdge(range.0) <= p.lon < SlabEdge(range.1 + 1)
  {
    (SlabIndex(MinLongitude(points)), SlabIndex(MaxLongitude(points)))
  }

  /** The ring of one slab moved back to the home slab, unless it is degenerate. */
  function SlabRings(points: Ring, slab: int): seq<Ring>
  {
    var clipped := ClippedToSlab(points, slab);
    if |clipped| >= 3 then [Shifted(clipped, WORLD * (slab as real))] else []
  }

  function RingsThrough(points: Ring, first: int, last: int): seq<Ring>
    decreases last - first
  {
    if last < first then [] else RingsThrough(points, first, last - 1) + SlabRings(points, last)
  }

  method RingsForSlabs(points: Ring, minSlab: int, maxSlab: int) returns (rings: seq<Ring>)
    requires minSlab <= maxSlab
    ensures rings == RingsThrough(points, minSlab, maxSlab)
  {
    rings := [];
    for slab := minSlab to maxSlab + 1
      invariant rings == RingsThrough(points, minSlab, slab - 1)
    {
      var clipped := ClipSlab(points, slab);
      OneSlabOfRings(points, minSlab, slab);
      if |clipped| >= 3 {
        rings := rings + [Shifted(clipped, WORLD * (slab as real))];
      }
    }
  }

  lemma OneSlabOfRings(points: Ring, first: int, slab: int)
    requires first <= slab
    ensures var clipped := ClippedToSlab(points, slab);
            var before := RingsThrough(points, first, slab - 1);
            RingsThrough(points, first, slab)
            == if |clipped| >= 3 then before + [Shifted(clipped, WORLD * (slab as real))] else before
  {
    if |ClippedToSlab(points, slab)| < 3 {
      assert SlabRings(points, slab) == [];
    }
  }

  lemma {:induction false} TotalAreaConcat(a: seq<Ring>, b: seq<Ring>)
    ensures TotalArea(a + b) == TotalArea(a) + TotalArea(b)
  {
    if a == [] {
      assert a + b == b;
    } else {
      TotalAreaConcat(a[1..], b);
      assert (a + b)[1..] == a[1..] + b;
    }
  }

  lemma SlabRingsArea(points: Ring, slab: int)
    ensures TotalArea(SlabRings(points, slab))
         == Area(Clip(points, SlabEdge(slab), true)) - Area(Clip(points, SlabEdge(slab + 1), true))
  {
    var clipped := ClippedToSlab(points, slab);
    SlabArea(points, slab);
    if |clipped| >= 3 {
      var ring := Shifted(clipped, WORLD * (slab as real));
      ShiftKeepsArea(clipped, WORLD * (slab as real));
      assert [ring][1..] == [];
      assert TotalArea([ring]) == Area(ring) + TotalArea([]);
    } else {
      DegenerateRingHasNoArea(clipped);
    }
  }

  /** The area right of a slab's western edge. */
  function AreaFrom(points: Ring, slab: int): real
  {
    Area(Clip(points, SlabEdge(slab), true))
  }

  lemma OneMoreSlab(points: Ring, first: int, last: int)
    requires first <= last
    ensures TotalArea(RingsThrough(points, first, last))
         == TotalArea(RingsThrough(points, first, last - 1)) + (AreaFrom(points, last) - AreaFrom(points, last + 1))
  {
    SlabRingsArea(points, last);
    TotalAreaConcat(RingsThrough(points, first, last - 1), SlabRings(points, last));
  }

  /** Neighbouring slabs share an edge, so their areas telescope. */
  lemma {:induction false} SlabAreasTelescope(points: Ring, first: int, last: int)
    requires first - 1 <= last
    ensures TotalArea(RingsThrough(points, first, last)) == AreaFrom(points, first) - AreaFrom(points, last + 1)
    decreases last - first
  {
    if first <= last {
      SlabAreasTelescope(points, first, last - 1);
      OneMoreSlab(points, first, last);
    } else {
      assert RingsThrough(points, first, last) == [];
    }
  }

  /** Main result on areas: cutting a closed ring into its slabs conserves the signed area. */
  lemma SlabsConserveArea(points: Ring)
    requires points != []
    ensures TotalArea(RingsThrough(points, SlabRange(points).0, SlabRange(points).1)) == Area(points)
  {
    var (first, last) := SlabRange(points);
    SlabAreasTelescope(points, first, last);
    ClipKeepsInsideChain(points[|points| - 1], points, SlabEdge(first));
    ClipDropsOutsideChain(points[|points| - 1], points, SlabEdge(last + 1));
  }

  ghost predicate DrawableRing(ring: Ring)
  {
    |ring| >= 3 && forall p :: p in ring ==> -HALF_WORLD <= p.lon <= HALF_WORLD
  }

  lemma {:induction false} RingsAreDrawable(points: Ring, first: int, last: int)
    ensures forall ring :: ring in RingsThrough(points, first, last) ==> DrawableRing(ring)
    decreases last - first
  {
    if first <= last {
      RingsAreDrawable(points, first, last - 1);
      SlabBounds(points, last);
      var clipped := ClippedToSlab(points, last);
      var ring := Shifted(clipped, WORLD * (last as real));
      forall p | p in ring
        ensures -HALF_WORLD <= p.lon <= HALF_WORLD
      {
        var i :| 0 <= i < |ring| && ring[i] == p;
        assert clipped[i] in clipped;
      }
    }
  }

  /** The vertex, moved to the slab, lies on the ring. */
  ghost predicate CameFrom(points: Ring, slab: int, v: Point)
  {
    OnRing(points, Point(v.lon + WORLD * (slab as real), v.lat))
  }

  ghost predicate AllCameFrom(ring: Ring, points: Ring, slab: int)
  {
    forall v :: v in ring ==> CameFrom(points, slab, v)
  }

  /** All vertices of the piece come from one slab of the ring. */
  ghost predicate PieceOf(ring: Ring, points: Ring)
  {
    exists slab :: AllCameFrom(ring, points, slab)
  }

  lemma SlabRingIsPiece(points: Ring, slab: int, v: Point)
    requires v in Shifted(ClippedToSlab(points, slab), WORLD * (slab as real))
    ensures CameFrom(points, slab, v)
  {
    var clipped, offset := ClippedToSlab(points, slab), WORLD * (slab as real);
    var i: nat :| i < |clipped| && Shifted(clipped, offset)[i] == v;
    assert Point(v.lon + offset, v.lat) == clipped[i];
    SlabStaysOnRing(points, slab, clipped[i]);
  }

  /** Every vertex of every piece lies on the ring once it is moved back to its slab. */
  lemma {:induction false} RingsArePieces(points: Ring, first: int, last: int)
    ensures forall ring :: ring in RingsThrough(points, first, last) ==> PieceOf(ring, points)
    decreases last - first
  {
    if first <= last {
      RingsArePieces(points, first, last - 1);
      forall ring | ring in SlabRings(points, last)
        ensures PieceOf(ring, points)
      {
        forall v | v in ring
          ensures CameFrom(points, last, v)
        {
          SlabRingIsPiece(points, last, v);
        }
        assert AllCameFrom(ring, points, last);
      }
    }
  }

  /* -------------------------------------------------------------- unwrapping */

  /** The two longitudes are `turns` turns around the world apart. */
  predicate TurnsApart(a: real, b: real, turns: int)
  {
    a - b == WORLD * (turns as real)
  }

  ghost predicate SameMeridian(a: real, b: real)
  {
    exists turns :: TurnsApart(a, b, turns)
  }

  /** How many turns the unwrapping takes off `longitude` to stay near `previous`. */
  function TurnsFrom(previous: real, longitude: real): (turns: int)
    ensures -HALF_WORLD <= longitude - WORLD * (turns as real) - previous < HALF_WORLD
  {
    var delta := longitude - previous;
    if delta >= 180.0 then
      ((delta - 180.0) / 360.0).Floor + 1
    else if delta < -180.0 then
      var whole := ((-180.0 - delta) / 360.0).Floor;
      var remainder := -180.0 - delta - 360.0 * (whole as real);
      -(whole + if remainder != 0.0 then 1 else 0)
    else
      0
  }

  function Unwrapped(points: Ring): (unwrapped: Ring)
    requires points != []
    ensures |unwrapped| == |points|
  {
    if |points| == 1 then points
    else
      var before := Unwrapped(points[..|points| - 1]);
      var raw := points[|points| - 1];
      var turns := TurnsFrom(before[|before| - 1].lon, raw.lon);
      before + [Point(raw.lon - WORLD * (turns as real), raw.lat)]
  }

  /** `unwrapped` visits the same places as `points` without ever turning half the world or more
      eastward, or more than half westward. */
  ghost predicate IsUnwrapping(points: Ring, unwrapped: Ring)
  {
    && |unwrapped| == |points|
    && (points != [] ==> unwrapped[0] == points[0])
    && (forall i :: 0 <= i < |points| ==>
          unwrapped[i].lat == points[i].lat && SameMeridian(points[i].lon, unwrapped[i].lon))
    && (forall i :: 1 <= i < |points| ==>
          -HALF_WORLD <= unwrapped[i].lon - unwrapped[i - 1].lon < HALF_WORLD)
  }

  /** An unwrapping goes on with a point on the right meridian that is not too far away. */
  lemma UnwrappingGoesOn(points: Ring, before: Ring, next: Point)
    requires |points| >= 2 && IsUnwrapping(points[..|points| - 1], before)
    requires next.lat == points[|points| - 1].lat && SameMeridian(points[|points| - 1].lon, next.lon)
    requires -HALF_WORLD <= next.lon - before[|before| - 1].lon < HALF_WORLD
    ensures IsUnwrapping(points, before + [next])
  {
    var n, shorter := |points| - 1, points[..|points| - 1];
    assert forall i | 0 <= i < n :: shorter[i] == points[i] && (before + [next])[i] == before[i];
  }

  /** The unwrapping visits the same places without turning too far. */
  lemma {:induction false} UnwrappedIsUnwrapping(points: Ring)
    requires points != []
    ensures IsUnwrapping(points, Unwrapped(points))
    decreases |points|
  {
    var n := |points| - 1;
    if n == 0 {
      assert TurnsApart(points[0].lon, points[0].lon, 0);
    } else {
      var before := Unwrapped(points[..n]);
      UnwrappedIsUnwrapping(points[..n]);
      var turns := TurnsFrom(before[n - 1].lon, points[n].lon);
      var lon := points[n].lon - WORLD * (turns as real);
      assert TurnsApart(points[n].lon, lon, turns);
      UnwrappingGoesOn(points, before, Point(lon, points[n].lat));
    }
  }

  lemma {:induction false} UnwrappingsAgree(points: Ring, a: Ring, b: Ring, i: nat)
    requires IsUnwrapping(points, a) && IsUnwrapping(points, b)
    requires i < |points|
    ensures a[i] == b[i]
  {
    if i > 0 {
      UnwrappingsAgree(points, a, b, i - 1);
      SameTurns(points[i].lon, a[i].lon, b[i].lon, a[i - 1].lon);
    }
  }

  /** There is exactly one unwrapping, and an exact half-world tie goes west in it. */
  lemma UnwrappedIsTheUnwrapping(points: Ring, other: Ring)
    requires points != []
    ensures IsUnwrapping(points, other) <==> other == Unwrapped(points)
  {
    UnwrappedIsUnwrapping(points);
    if IsUnwrapping(points, other) {
      forall i | 0 <= i < |points|
        ensures other[i] == Unwrapped(points)[i]
      {
        UnwrappingsAgree(points, other, Unwrapped(points), i);
      }
    }
  }

  lemma SameTurns(raw: real, a: real, b: real, previous: real)
    requires SameMeridian(raw, a) && SameMeridian(raw, b)
    requires -HALF_WORLD <= a - previous < HALF_WORLD
    requires -HALF_WORLD <= b - previous < HALF_WORLD
    ensures a == b
  {
    var m :| TurnsApart(raw, a, m);
    var n :| TurnsApart(raw, b, n);
    assert b - a == WORLD * ((m - n) as real);
  }

  /** Unwrap successive longitudes, choosing west for an exact half-world tie. */
  method UnwrapPoints(points: Ring) returns (unwrapped: Ring)
    requires points != []
    ensures unwrapped == Unwrapped(points)
  {
    unwrapped := [points[0]];
    assert points[..1] == [points[0]];
    for i := 1 to |points|
      invariant unwrapped == Unwrapped(points[..i])
    {
      var lon := points[i].lon;
      var delta := lon - unwrapped[|unwrapped| - 1].lon;
      if delta >= 180.0 {
        var wholeTurns := ((delta - 180.0) / 360.0).Floor;
        lon := lon - 360.0 * ((wholeTurns + 1) as real);
      } else if delta < -180.0 {
        var wholeTurns := ((-180.0 - delta) / 360.0).Floor;
        var remainder := -180.0 - delta - 360.0 * (wholeTurns as real);
        var turns := wholeTurns + if remainder != 0.0 then 1 else 0;
        lon := lon + 360.0 * (turns as real);
      }
      assert points[..i + 1][..i] == points[..i];
      unwrapped := unwrapped + [Point(lon, points[i].lat)];
    }
    assert points[..|points|] == points;
  }

  predicate CrossesAntimeridian(points: Ring)
  {
    exists i :: 0 <= i < |points| && JumpsAt(points, i)
  }

  /** The ring jumps over half the world on its way to vertex `i`. */
  predicate JumpsAt(points: Ring, i: nat)
    requires i < |points|
  {
    Jumps(points[if i == 0 then |points| - 1 else i - 1], points[i])
  }

  predicate Jumps(p: Point, q: Point)
  {
    !(-HALF_WORLD <= q.lon - p.lon <= HALF_WORLD)
  }

  /* ------------------------------------------------ edges that span the world */

  /** One for every edge that jumps over half the world. */
  function JumpCount(): EdgeMeasure
  {
    (p, q) => if Jumps(p, q) then 1.0 else 0.0
  }

  /** How much of the stretch between two longitudes lies inside a slab. */
  function SpanInSlab(a: real, b: real, slab: int): real
  {
    var west := if a <= b then a else b;
    var east := if a <= b then b else a;
    var left := if west <= SlabEdge(slab) then SlabEdge(slab) else west;
    var right := if east <= SlabEdge(slab + 1) then east else SlabEdge(slab + 1);
    if left <= right then right - left else 0.0
  }

  /** The edge from `p` to `q` jumps even inside the slab. */
  predicate JumpsInSlab(p: Point, q: Point, slab: int)
  {
    SpanInSlab(p.lon, q.lon, slab) > HALF_WORLD
  }

  /** The closing edge of the ring jumps even inside the slab. */
  predicate ClosingJumpsIn(points: Ring, slab: int)
    requires points != []
  {
    JumpsInSlab(points[|points| - 1], points[0], slab)
  }

  /** The kept part of an edge, cut at both edges of a slab. */
  function JumpsOfPart(slab: int): EdgeMeasure
  {
    InPart(InPart(JumpCount(), SlabEdge(slab + 1), false), SlabEdge(slab), true)
  }

  lemma PartJumpsInSlab(p: Point, q: Point, slab: int)
    ensures JumpsOfPart(slab)(p, q) == if JumpsInSlab(p, q, slab) then 1.0 else 0.0
  {
    assert SlabEdge(slab) + WORLD == SlabEdge(slab + 1);
  }

  /** A clipped ring jumps as often as parts of the ring's edges do inside the slab. */
  lemma JumpsOfClipped(points: Ring, slab: int)
    ensures RingSum(JumpCount(), ClippedToSlab(points, slab)) == RingSum(JumpsOfPart(slab), points)
  {
    var east, west := SlabEdge(slab + 1), SlabEdge(slab);
    assert west + WORLD == east;
    var right := InPart(JumpCount(), east, false);
    ClipSum(JumpCount(), Clip(points, west, true), east, false);
    forall p: Point, q: Point | p.lon == west && q.lon == west
      ensures right(p, q) == 0.0
    {
      assert Inside(p, east, false) && Inside(q, east, false);
    }
    ClipSum(right, points, west, true);
  }

  /** No step of the chain spans more than half the world. */
  predicate SmallSteps(previous: Point, points: Ring)
  {
    && (points != [] ==> !Jumps(previous, points[0]))
    && (forall i | 1 <= i < |points| :: !Jumps(points[i - 1], points[i]))
  }

  lemma {:induction false} SmallStepsDoNotJump(previous: Point, points: Ring, slab: int)
    requires SmallSteps(previous, points)
    ensures Sum(JumpsOfPart(slab), previous, points) == 0.0
    decreases |points|
  {
    if points != [] {
      PartJumpsInSlab(previous, points[0], slab);
      assert forall i | 1 <= i < |points[1..]| :: points[1..][i - 1] == points[i] && points[1..][i] == points[i + 1];
      SmallStepsDoNotJump(points[0], points[1..], slab);
    }
  }

  /** When all steps but the closing one are small, only the closing edge can jump, and at most once in each slab. */
  lemma OnlyTheClosingEdgeJumps(points: Ring, slab: int)
    requires points != [] && SmallSteps(points[0], points[1..])
    ensures RingSum(JumpCount(), ClippedToSlab(points, slab))
         == if ClosingJumpsIn(points, slab) then 1.0 else 0.0
  {
    JumpsOfClipped(points, slab);
    PartJumpsInSlab(points[|points| - 1], points[0], slab);
    SmallStepsDoNotJump(points[0], points[1..], slab);
  }

  lemma {:induction false} JumpsAreCounted(previous: Point, points: Ring)
    ensures Sum(JumpCount(), previous, points) >= 0.0
    ensures Sum(JumpCount(), previous, points) == 0.0 <==> SmallSteps(previous, points)
    decreases |points|
  {
    if points != [] {
      var rest := points[1..];
      JumpsAreCounted(points[0], rest);
      if SmallSteps(points[0], rest) {
        forall i | 1 <= i < |points|
          ensures !Jumps(points[i - 1], points[i])
        {
          if i == 1 {
            assert rest[0] == points[1];
          } else {
            assert rest[i - 2] == points[i - 1] && rest[i - 1] == points[i];
          }
        }
      }
      if SmallSteps(previous, points) {
        assert forall i | 1 <= i < |rest| :: rest[i - 1] == points[i] && rest[i] == points[i + 1];
      }
    }
  }

  /** A closed ring has an edge over half the world exactly when the count is not zero. */
  lemma CountShowsCrossing(ring: Ring)
    ensures CrossesAntimeridian(ring) <==> RingSum(JumpCount(), ring) != 0.0
  {
    if ring != [] {
      var last := ring[|ring| - 1];
      JumpsAreCounted(last, ring);
      if !SmallSteps(last, ring) {
        if Jumps(last, ring[0]) {
          assert JumpsAt(ring, 0);
        } else {
          var i :| 1 <= i < |ring| && Jumps(ring[i - 1], ring[i]);
          assert JumpsAt(ring, i);
        }
      }
    }
  }

  /** A ring of one or two points goes there and back again. */
  lemma ShortRingsJumpEvenly(ring: Ring)
    requires |ring| <= 2
    ensures RingSum(JumpCount(), ring) == 0.0 || RingSum(JumpCount(), ring) == 2.0
  {
    if ring != [] {
      SumShort(JumpCount(), ring[|ring| - 1], ring);
    }
  }

  lemma ShiftKeepsCrossing(ring: Ring, offset: real)
    ensures CrossesAntimeridian(Shifted(ring, offset)) <==> CrossesAntimeridian(ring)
  {
    assert forall i :: 0 <= i < |ring| ==> JumpsAt(Shifted(ring, offset), i) == JumpsAt(ring, i);
  }

  /** The ring of a slab has an edge over half the world exactly when the closing edge has one in it. */
  lemma SlabRingCrosses(points: Ring, slab: int)
    requires points != [] && SmallSteps(points[0], points[1..])
    ensures ClosingJumpsIn(points, slab)
       <==> exists ring :: ring in SlabRings(points, slab) && CrossesAntimeridian(ring)
  {
    var clipped := ClippedToSlab(points, slab);
    OnlyTheClosingEdgeJumps(points, slab);
    CountShowsCrossing(clipped);
    if |clipped| <= 2 {
      ShortRingsJumpEvenly(clipped);
    } else {
      ShiftKeepsCrossing(clipped, WORLD * (slab as real));
      assert SlabRings(points, slab)[0] == Shifted(clipped, WORLD * (slab as real));
    }
  }

  /** A returned ring is drawn without a segment over half the world. */
  ghost predicate AllStayLocal(rings: seq<Ring>)
  {
    forall ring :: ring in rings ==> !CrossesAntimeridian(ring)
  }

  lemma {:induction false} RingsCross(points: Ring, first: int, last: int)
    requires points != [] && SmallSteps(points[0], points[1..])
    ensures AllStayLocal(RingsThrough(points, first, last))
       <==> forall slab :: first <= slab <= last ==> !ClosingJumpsIn(points, slab)
    decreases last - first
  {
    if first <= last {
      RingsCross(points, first, last - 1);
      SlabRingCrosses(points, last);
      var before, here := RingsThrough(points, first, last - 1), SlabRings(points, last);
      assert forall ring :: ring in before + here <==> ring in before || ring in here;
    }
  }

  /** Inside each slab the closing edge of the ring spans at most half the world. */
  ghost predicate ClosesLocally(points: Ring)
    requires points != []
  {
    forall slab :: !ClosingJumpsIn(points, slab)
  }

  lemma OutsideRangeNothingJumps(points: Ring, slab: int)
    requires points != [] && !(SlabRange(points).0 <= slab <= SlabRange(points).1)
    ensures !ClosingJumpsIn(points, slab)
  {
    var (low, high) := SlabRange(points);
    assert points[|points| - 1] in points && points[0] in points;
    if slab < low {
      assert SlabEdge(slab + 1) <= SlabEdge(low);
    } else {
      assert SlabEdge(high + 1) <= SlabEdge(slab);
    }
  }

  /** The pieces of an unwrapped ring are drawn without a segment over half the world, the closing
      segments included, if and only if the ring's own closing edge is no longer than that in any slab. */
  lemma PiecesStayLocalExactlyWhenRingCloses(points: Ring)
    requires points != [] && SmallSteps(points[0], points[1..])
    ensures AllStayLocal(RingsThrough(points, SlabRange(points).0, SlabRange(points).1)) <==> ClosesLocally(points)
  {
    RingsCross(points, SlabRange(points).0, SlabRange(points).1);
    forall slab | !(SlabRange(points).0 <= slab <= SlabRange(points).1)
      ensures !ClosingJumpsIn(points, slab)
    {
      OutsideRangeNothingJumps(points, slab);
    }
  }

  lemma UnwrappedHasSmallSteps(points: Ring)
    requires points != []
    ensures SmallSteps(Unwrapped(points)[0], Unwrapped(points)[1..])
  {
    var u := Unwrapped(points);
    UnwrappedIsUnwrapping(points);
    if |points| > 1 {
      assert u[1..][0] == u[1];
      assert forall i | 1 <= i < |u[1..]| :: u[1..][i - 1] == u[i] && u[1..][i] == u[i + 1];
    }
  }

  /** When the turns of the ring cancel, so that the unwrapped ring closes within half the world, it closes locally. */
  lemma CancellingTurnsCloseLocally(points: Ring)
    requires points != [] && !Jumps(points[|points| - 1], points[0])
    ensures ClosesLocally(points)
  {
  }

  /** Four points around a pole: the ring crosses, is its own unwrapping, and does not close locally. */
  lemma PolarRingDoesNotCloseLocally()
    ensures var ring := [Point(-135.0, 80.0), Point(-45.0, 80.0), Point(45.0, 80.0), Point(135.0, 80.0)];
            CrossesAntimeridian(ring) && Unwrapped(ring) == ring && !ClosesLocally(ring)
  {
    var ring := [Point(-135.0, 80.0), Point(-45.0, 80.0), Point(45.0, 80.0), Point(135.0, 80.0)];
    assert JumpsAt(ring, 0);
    forall i | 0 <= i < 4
      ensures SameMeridian(ring[i].lon, ring[i].lon)
    {
      assert TurnsApart(ring[i].lon, ring[i].lon, 0);
    }
    UnwrappedIsTheUnwrapping(ring, ring);
    assert ClosingJumpsIn(ring, 0);
  }

  /** The turns need not cancel: this ring winds around the pole as well, but the world's edge
      cuts its closing edge into parts that are short enough. */
  lemma WindingRingCanCloseLocally()
    ensures var ring := [Point(0.0, 80.0), Point(90.0, 80.0), Point(180.0, 80.0), Point(-90.0, 80.0)];
            var unwrapped := [Point(0.0, 80.0), Point(90.0, 80.0), Point(180.0, 80.0), Point(270.0, 80.0)];
            && CrossesAntimeridian(ring) && Unwrapped(ring) == unwrapped
            && Jumps(unwrapped[3], unwrapped[0]) && ClosesLocally(unwrapped)
  {
    var ring := [Point(0.0, 80.0), Point(90.0, 80.0), Point(180.0, 80.0), Point(-90.0, 80.0)];
    var unwrapped := [Point(0.0, 80.0), Point(90.0, 80.0), Point(180.0, 80.0), Point(270.0, 80.0)];
    assert JumpsAt(ring, 3);
    forall i | 0 <= i < 4
      ensures SameMeridian(ring[i].lon, unwrapped[i].lon)
    {
      assert TurnsApart(ring[i].lon, unwrapped[i].lon, if i == 3 then -1 else 0);
    }
    UnwrappedIsTheUnwrapping(ring, unwrapped);
    forall slab: int
      ensures !ClosingJumpsIn(unwrapped, slab)
    {
      if slab <= -1 {
        assert SlabEdge(slab + 1) <= SlabEdge(0);
      } else if slab >= 2 {
        assert SlabEdge(slab) >= SlabEdge(2);
      }
    }
  }

  /** Clip an antimeridian-crossing polygon into closed local rings. */
  method SplitAntimeridian(points: Ring) returns (rings: seq<Ring>)
    ensures |points| < 3 || !CrossesAntimeridian(points) ==> rings == [points]
    ensures |points| >= 3 && CrossesAntimeridian(points) ==>
              var unwrapped := Unwrapped(points);
              && TotalArea(rings) == Area(unwrapped)
              && (forall ring :: ring in rings ==> DrawableRing(ring) && PieceOf(ring, unwrapped))
              && (AllStayLocal(rings) <==> ClosesLocally(unwrapped))
              && rings == RingsThrough(unwrapped, SlabRange(unwrapped).0, SlabRange(unwrapped).1)
  {
    if |points| < 3 || !CrossesAntimeridian(points) {
      return [points];
    }
    var unwrapped := UnwrapPoints(points);
    var (minSlab, maxSlab) := SlabRange(unwrapped);
    rings := RingsForSlabs(unwrapped, minSlab, maxSlab);
    SlabsConserveArea(unwrapped);
    RingsAreDrawable(unwrapped, minSlab, maxSlab);
    RingsArePieces(unwrapped, minSlab, maxSlab);
    UnwrappedHasSmallSteps(points);
    PiecesStayLocalExactlyWhenRingCloses(unwrapped);
  }
}
