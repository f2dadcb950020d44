/**
 * Nearest-lanelet search: the plain scans over all lanelets, the searches that prune with an R-tree over bounding
 * boxes, and what it means to be the closest.
 */
module NearestLanelet {
  import opened Wrappers
  import opened RealArithmetic
  import opened Searching

  /** The angle between the pose and a centerline segment, and the same against the reversed segment. */
  datatype Alignment = Alignment(forward: real, reverse: real)

  /**
   * A lanelet as seen from the search pose. dist is the distance to its polygon, comparable the squared distance that
   * is cheaper to compare, boxDx and boxDy the offsets to its bounding box along the axes, boxDist the distance to
   * the box. segment is None when the closest centerline segment is empty.
   */
  datatype Lanelet = Lanelet(
    id: int,
    dist: real,
    comparable: real,
    inside: bool,
    boxDx: real,
    boxDy: real,
    boxDist: real,
    segment: Option<Alignment>,
    angleDiff: real,
    directionChange: bool)

  /** The geometry every sighting obeys: in particular the polygon lies in its box, and inside means distance zero. */
  predicate Geometric(l: Lanelet) {
    && l.dist >= 0.0 && l.comparable == l.dist * l.dist
    && (l.inside ==> l.dist == 0.0)
    && l.boxDx >= 0.0 && l.boxDy >= 0.0 && l.boxDist >= 0.0
    && l.boxDist * l.boxDist == l.boxDx * l.boxDx + l.boxDy * l.boxDy
    && l.boxDist <= l.dist
  }

  /** One lanelet looks the same wherever it is listed. */
  ghost predicate Sightings(ls: seq<Lanelet>) {
    && (forall i :: 0 <= i < |ls| ==> Geometric(ls[i]))
    && forall i, j :: 0 <= i < |ls| && 0 <= j < |ls| && ls[i].id == ls[j].id ==> ls[i] == ls[j]
  }

  /** Lanelets whose direction may change also accept reverse alignment. */
  function SelectionAngle(l: Lanelet): real
    requires l.segment.Some?
  {
    if !l.directionChange then l.segment.value.forward else Min(l.segment.value.forward, l.segment.value.reverse)
  }

  lemma SquareOrder(x: real, y: real)
    requires x >= 0.0 && y >= 0.0
    ensures x <= y <==> x * x <= y * y
  {
    if x <= y {
      MulNonneg(x, y - x);
      MulNonneg(y, y - x);
    } else {
      MulPositive(x - y, x);
      MulNonneg(x - y, y);
    }
  }

  // ----- What the closest lanelet is -----

  ghost predicate AtMinimum(ls: seq<Lanelet>, l: Lanelet) {
    l in ls && forall i :: 0 <= i < |ls| ==> l.dist <= ls[i].dist
  }

  ghost predicate OnlyOne(ls: seq<Lanelet>) {
    forall l, k :: AtMinimum(ls, l) && AtMinimum(ls, k) ==> l == k
  }

  /** l is better aligned than k, or as well aligned and not tagged while k is, or equal in both. */
  predicate Preferred(l: Lanelet, k: Lanelet)
    requires l.segment.Some? && k.segment.Some?
  {
    || SelectionAngle(l) < SelectionAngle(k)
    || (SelectionAngle(l) == SelectionAngle(k) && (l.directionChange ==> k.directionChange))
  }

  /**
   * r is the closest of ls: the only lanelet at minimum distance; or of several the best aligned, untagged before
   * tagged. When several are closest and none has a centerline segment there is no answer.
   */
  ghost predicate IsClosest(ls: seq<Lanelet>, r: Option<Lanelet>) {
    if OnlyOne(ls) then
      r.Some? && AtMinimum(ls, r.value)
    else if forall l :: AtMinimum(ls, l) ==> l.segment.None? then
      r.None?
    else
      && r.Some? && AtMinimum(ls, r.value) && r.value.segment.Some?
      && forall l :: AtMinimum(ls, l) && l.segment.Some? ==> Preferred(r.value, l)
  }

  /** Two answers that agree in distance, alignment and tag, or are both absent. */
  predicate SameKey(r: Option<Lanelet>, q: Option<Lanelet>) {
    match (r, q)
    case (None, None) => true
    case (Some(l), Some(k)) =>
      && l.dist == k.dist && l.directionChange == k.directionChange
      && (l.segment.Some? <==> k.segment.Some?) && (l.segment.Some? ==> SelectionAngle(l) == SelectionAngle(k))
    case _ => false
  }

  lemma ClosestAgree(ls: seq<Lanelet>, r: Option<Lanelet>, q: Option<Lanelet>)
    requires IsClosest(ls, r) && IsClosest(ls, q)
    ensures SameKey(r, q)
  {
  }

  /**
   * What the closest lanelet is, written out. No lanelet is nearer. Its segment makes, forward or if it is tagged in
   * reverse, an angle at most that of any other at the same distance, forward or if tagged in reverse; and a tagged
   * answer is strictly better aligned than every untagged one. It has no segment only if no other is as near.
   */
  lemma ClosestMeans(ls: seq<Lanelet>, r: Lanelet)
    requires IsClosest(ls, Some(r))
    ensures r in ls && forall l :: l in ls ==> r.dist <= l.dist
    ensures r.segment.None? ==> forall l :: l in ls && l.dist == r.dist ==> l == r
    ensures r.segment.Some? ==>
              || (forall l :: l in ls && l.dist == r.dist && l.segment.Some? ==>
                    && r.segment.value.forward <= l.segment.value.forward
                    && (l.directionChange ==> r.segment.value.forward <= l.segment.value.reverse)
                    && (r.directionChange && !l.directionChange ==> r.segment.value.forward < l.segment.value.forward))
              || (r.directionChange
                  && forall l :: l in ls && l.dist == r.dist && l.segment.Some? ==>
                    && r.segment.value.reverse <= l.segment.value.forward
                    && (l.directionChange ==> r.segment.value.reverse <= l.segment.value.reverse)
                    && (!l.directionChange ==> r.segment.value.reverse < l.segment.value.forward))
  {
    assert AtMinimum(ls, r);
    forall l | l in ls
      ensures r.dist <= l.dist && (l.dist == r.dist ==> AtMinimum(ls, l))
    {
    }
    if r.segment.Some? {
      forall l | l in ls && l.dist == r.dist && l.segment.Some?
        ensures l == r || Preferred(r, l)
      {
        assert AtMinimum(ls, l);
      }
    }
  }

  /** There is no answer just when several lanelets are nearest and none of them has a segment. */
  lemma NoClosestMeans(ls: seq<Lanelet>)
    requires ls != []
    ensures IsClosest(ls, None)
            <==> (exists l, k :: && l in ls && k in ls && l != k && l.dist == k.dist
                                 && forall m :: m in ls ==> l.dist <= m.dist && (m.dist == l.dist ==> m.segment.None?))
  {
    if IsClosest(ls, None) {
      NoClosestIsTie(ls);
    }
    if l, k :| && l in ls && k in ls && l != k && l.dist == k.dist
               && forall m :: m in ls ==> l.dist <= m.dist && (m.dist == l.dist ==> m.segment.None?) {
      TieHasNoClosest(ls, l, k);
    }
  }

  lemma NoClosestIsTie(ls: seq<Lanelet>)
    requires IsClosest(ls, None)
    ensures exists l, k :: && l in ls && k in ls && l != k && l.dist == k.dist
                           && forall m :: m in ls ==> l.dist <= m.dist && (m.dist == l.dist ==> m.segment.None?)
  {
    var l, k :| AtMinimum(ls, l) && AtMinimum(ls, k) && l != k;
    forall m | m in ls
      ensures l.dist <= m.dist && (m.dist == l.dist ==> m.segment.None?)
    {
      assert m.dist == l.dist ==> AtMinimum(ls, m);
    }
    assert l in ls && k in ls && l.dist == k.dist;
  }

  lemma TieHasNoClosest(ls: seq<Lanelet>, l: Lanelet, k: Lanelet)
    requires l in ls && k in ls && l != k && l.dist == k.dist
    requires forall m :: m in ls ==> l.dist <= m.dist && (m.dist == l.dist ==> m.segment.None?)
    ensures IsClosest(ls, None)
  {
    assert AtMinimum(ls, l) && AtMinimum(ls, k);
    forall m | AtMinimum(ls, m)
      ensures m.segment.None?
    {
      assert m.dist <= l.dist;
    }
  }

  /** The same lanelet with the direction of its segment turned round, if it is tagged. */
  function Flipped(l: Lanelet): Lanelet {
    if l.directionChange && l.segment.Some? then
      l.(segment := Some(Alignment(l.segment.value.reverse, l.segment.value.forward)))
    else l
  }

  function AllFlipped(ls: seq<Lanelet>): (r: seq<Lanelet>)
    ensures |r| == |ls| && forall i :: 0 <= i < |ls| ==> r[i] == Flipped(ls[i])
  {
    seq(|ls|, i requires 0 <= i < |ls| => Flipped(ls[i]))
  }

  /** Tagged lanelets may be travelled either way: turning them round does not change the closest. */
  lemma FlippingKeepsClosest(ls: seq<Lanelet>, r: Lanelet)
    requires IsClosest(ls, Some(r))
    ensures IsClosest(AllFlipped(ls), Some(Flipped(r)))
  {
    hide AtMinimum, OnlyOne, AllFlipped;
    var flipped := AllFlipped(ls);
    forall l
      ensures AtMinimum(flipped, l) <==> AtMinimum(ls, Flipped(l))
    {
      FlippedMinimum(ls, l);
    }
    assert forall l :: Flipped(Flipped(l)) == l;
    FlippedOnlyOne(ls);
    if !OnlyOne(ls) {
      assert AtMinimum(flipped, Flipped(r));
      forall l | AtMinimum(flipped, l) && l.segment.Some?
        ensures Preferred(Flipped(r), l)
      {
        assert Preferred(r, Flipped(l));
      }
    }
  }

  lemma FlippedMinimum(ls: seq<Lanelet>, l: Lanelet)
    ensures AtMinimum(AllFlipped(ls), l) <==> AtMinimum(ls, Flipped(l))
  {
    var flipped := AllFlipped(ls);
    assert Flipped(Flipped(l)) == l;
    if l in flipped {
      var i :| 0 <= i < |ls| && flipped[i] == l;
      assert ls[i] == Flipped(l);
    }
    if Flipped(l) in ls {
      var i :| 0 <= i < |ls| && ls[i] == Flipped(l);
      assert flipped[i] == l;
    }
    if AtMinimum(flipped, l) {
      forall i | 0 <= i < |ls|
        ensures Flipped(l).dist <= ls[i].dist
      {
        assert l.dist <= flipped[i].dist;
      }
    }
  }

  lemma FlippedOnlyOne(ls: seq<Lanelet>)
    ensures OnlyOne(AllFlipped(ls)) <==> OnlyOne(ls)
  {
    var flipped := AllFlipped(ls);
    forall l
      ensures AtMinimum(flipped, l) <==> AtMinimum(ls, Flipped(l))
    {
      FlippedMinimum(ls, l);
    }
    if OnlyOne(flipped) {
      forall l, k | AtMinimum(ls, l) && AtMinimum(ls, k)
        ensures l == k
      {
        assert Flipped(Flipped(l)) == l && Flipped(Flipped(k)) == k;
        assert AtMinimum(flipped, Flipped(l)) && AtMinimum(flipped, Flipped(k));
      }
    }
    if OnlyOne(ls) {
      forall l, k | AtMinimum(flipped, l) && AtMinimum(flipped, k)
        ensures l == k
      {
        assert Flipped(Flipped(l)) == l && Flipped(Flipped(k)) == k;
        assert Flipped(l) == Flipped(k);
      }
    }
  }

  /** Dropping lanelets that are not at the minimum does not change the closest. */
  lemma ClosestOfSome(ls: seq<Lanelet>, some: seq<Lanelet>, r: Option<Lanelet>)
    requires some != [] && (forall l :: l in some ==> l in ls) && (forall l :: AtMinimum(ls, l) ==> l in some)
    requires IsClosest(some, r)
    requires exists l :: AtMinimum(ls, l)
    ensures IsClosest(ls, r)
  {
    forall l
      ensures AtMinimum(ls, l) <==> AtMinimum(some, l)
    {
      var least :| AtMinimum(ls, least);
      assert least in some && AtMinimum(some, least);
    }
  }

  lemma {:induction false} MinimumExists(ls: seq<Lanelet>) returns (l: Lanelet)
    requires ls != []
    ensures AtMinimum(ls, l)
  {
    var rest := ls[..|ls| - 1];
    l := ls[|ls| - 1];
    if rest != [] {
      var k := MinimumExists(rest);
      if k.dist < l.dist {
        l := k;
      }
    }
  }

  // ----- The scan -----

  /** The least comparable distance. */
  method LeastComparable(ls: seq<Lanelet>) returns (least: real)
    requires ls != []
    ensures exists i :: 0 <= i < |ls| && ls[i].comparable == least
    ensures forall i :: 0 <= i < |ls| ==> least <= ls[i].comparable
  {
    least := ls[0].comparable;
    for i := 0 to |ls|
      invariant exists k :: 0 <= k < |ls| && ls[k].comparable == least
      invariant forall k :: 0 <= k < i ==> least <= ls[k].comparable
    {
      least := Min(least, ls[i].comparable);
    }
  }

  predicate Listed(candidates: seq<Lanelet>, l: Lanelet) {
    exists i :: 0 <= i < |candidates| && candidates[i].id == l.id
  }

  /** Every lanelet that contains the point or ties for the least distance, each once. */
  method Candidates(ls: seq<Lanelet>, least: real) returns (candidates: seq<Lanelet>)
    requires Sightings(ls) && ls != []
    requires exists i :: 0 <= i < |ls| && ls[i].comparable == least
    requires forall i :: 0 <= i < |ls| ==> least <= ls[i].comparable
    ensures forall l :: l in candidates <==> AtMinimum(ls, l)
    ensures forall i, j :: 0 <= i < j < |candidates| ==> candidates[i] != candidates[j]
  {
    candidates := [];
    for i := 0 to |ls|
      invariant forall l :: l in candidates ==> l in ls[..i] && l.comparable == least
      invariant forall k :: 0 <= k < i && ls[k].comparable == least ==> ls[k] in candidates
      invariant forall k, j :: 0 <= k < j < |candidates| ==> candidates[k] != candidates[j]
    {
      if ls[i].inside {
        InsideIsLeast(ls, i, least);
      }
      if ls[i].inside || ls[i].comparable == least {
        if !Listed(candidates, ls[i]) {
          candidates := candidates + [ls[i]];
        } else {
          ghost var k :| 0 <= k < |candidates| && candidates[k].id == ls[i].id;
          assert candidates[k] in ls;
        }
      }
    }
    forall l
      ensures l in candidates <==> AtMinimum(ls, l)
    {
      MinimumIsLeast(ls, l, least);
    }
  }

  lemma InsideIsLeast(ls: seq<Lanelet>, i: nat, least: real)
    requires Sightings(ls) && i < |ls| && ls[i].inside
    requires exists k :: 0 <= k < |ls| && ls[k].comparable == least
    requires forall k :: 0 <= k < |ls| ==> least <= ls[k].comparable
    ensures ls[i].comparable == least
  {
    var k :| 0 <= k < |ls| && ls[k].comparable == least;
    MulNonneg(ls[k].dist, ls[k].dist);
  }

  lemma MinimumIsLeast(ls: seq<Lanelet>, l: Lanelet, least: real)
    requires Sightings(ls)
    requires exists k :: 0 <= k < |ls| && ls[k].comparable == least
    requires forall k :: 0 <= k < |ls| ==> least <= ls[k].comparable
    ensures AtMinimum(ls, l) <==> l in ls && l.comparable == least
  {
    if l in ls {
      forall i | 0 <= i < |ls|
        ensures l.dist <= ls[i].dist <==> l.comparable <= ls[i].comparable
      {
        SquareOrder(l.dist, ls[i].dist);
      }
    }
  }

  /** The best aligned of the candidates, or None when no candidate has a segment. */
  method BestAligned(candidates: seq<Lanelet>) returns (closest: Option<Lanelet>)
    ensures closest.None? <==> forall l :: l in candidates ==> l.segment.None?
    ensures closest.Some? ==> closest.value in candidates && closest.value.segment.Some?
    ensures closest.Some? ==> forall l :: l in candidates && l.segment.Some? ==> Preferred(closest.value, l)
  {
    closest := None;
    var minAngle := 0.0;
    for i := 0 to |candidates|
      invariant closest.None? <==> forall k :: 0 <= k < i ==> candidates[k].segment.None?
      invariant closest.Some? ==> closest.value in candidates[..i] && closest.value.segment.Some?
      invariant closest.Some? ==> minAngle == SelectionAngle(closest.value)
      invariant closest.Some? ==>
                  forall k :: 0 <= k < i && candidates[k].segment.Some? ==> Preferred(closest.value, candidates[k])
    {
      var l := candidates[i];
      if l.segment.Some? {
        var angle := SelectionAngle(l);
        if closest.None? || angle < minAngle {
          minAngle := angle;
          closest := Some(l);
        } else if angle == minAngle && closest.value.directionChange && !l.directionChange {
          closest := Some(l);
        }
      }
    }
  }

  /** The plain scan over all lanelets. */
  method GetClosestLanelet(ls: seq<Lanelet>) returns (r: Option<Lanelet>)
    requires Sightings(ls)
    ensures ls == [] ==> r == None
    ensures ls != [] ==> IsClosest(ls, r)
  {
    if ls == [] {
      return None;
    }
    var least := LeastComparable(ls);
    var candidates := Candidates(ls, least);
    if |candidates| == 1 {
      assert candidates[0] in candidates;
      return Some(candidates[0]);
    }
    ghost var l := MinimumExists(ls);
    assert candidates[0] in candidates && candidates[1] in candidates;
    r := BestAligned(candidates);
  }
}
