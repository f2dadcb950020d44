/**
 * The searches that prune with an R-tree over bounding boxes, and the constrained searches; each agrees with the plain
 * scan.
 */
module RTreeSearch {
  import opened Wrappers
  import opened RealArithmetic
  import opened Searching
  import opened NearestLanelet

  // ----- The R-tree queries -----

  /**
   * The two queries on the tree. nearest(k) lists the k lanelets with the nearest boxes; intersects(r) lists, in any
   * order, the lanelets whose boxes meet the square of half-width r around the search point.
   */
  datatype Index = Index(nearest: nat -> seq<nat>, intersects: real -> seq<nat>)

  predicate Meets(l: Lanelet, r: real) {
    l.boxDx <= r && l.boxDy <= r
  }

  ghost predicate Indexes(index: Index, ls: seq<Lanelet>) {
    && (forall k: nat :: k <= |ls| ==> NearestBoxes(index.nearest(k), ls, k))
    && forall r: real :: IntersectingBoxes(index.intersects(r), ls, r)
  }

  /** k different lanelets in ascending order of box distance, none of the others nearer. */
  ghost predicate NearestBoxes(order: seq<nat>, ls: seq<Lanelet>, k: nat) {
    && |order| == k
    && (forall i :: 0 <= i < k ==> order[i] < |ls|)
    && (forall i, j :: 0 <= i < j < k ==> order[i] != order[j] && ls[order[i]].boxDist <= ls[order[j]].boxDist)
    && forall i, m :: 0 <= i < k && 0 <= m < |ls| && m !in order ==> ls[order[i]].boxDist <= ls[m].boxDist
  }

  ghost predicate IntersectingBoxes(hits: seq<nat>, ls: seq<Lanelet>, r: real) {
    && (forall i :: 0 <= i < |hits| ==> hits[i] < |ls|)
    && forall m :: 0 <= m < |ls| ==> (m in hits <==> Meets(ls[m], r))
  }

  /** A lanelet whose polygon is within r has a box that meets the square of half-width r. */
  lemma WithinRadiusMeets(l: Lanelet, r: real)
    requires Geometric(l) && l.dist <= r
    ensures Meets(l, r)
  {
    MulNonneg(l.boxDx, l.boxDx);
    MulNonneg(l.boxDy, l.boxDy);
    SquareOrder(l.boxDx, l.boxDist);
    SquareOrder(l.boxDy, l.boxDist);
  }

  // ----- The closest lanelet -----

  /** Distances closer than this are kept as ties until the final scan. */
  const DIST_TOLERANCE := 0.0001

  /** What the loop over the hits keeps: every visited lanelet at the global minimum is still a candidate. */
  ghost predicate KeepsMinima(ls: seq<Lanelet>, visited: seq<nat>, candidates: seq<Lanelet>, minDist: Option<real>)
    requires forall i :: 0 <= i < |visited| ==> visited[i] < |ls|
  {
    && (forall l :: l in candidates ==> l in ls)
    && (minDist.None? <==> visited == [])
    && (minDist.Some? ==> exists l :: l in ls && l.dist == minDist.value)
    && forall i :: 0 <= i < |visited| && AtMinimum(ls, ls[visited[i]]) ==>
         ls[visited[i]] in candidates && minDist.value - DIST_TOLERANCE <= ls[visited[i]].dist
  }

  /** The loop over the hits, in whatever order they come: keeps every lanelet at minimum distance that it visits. */
  method TolerantCandidates(ls: seq<Lanelet>, hits: seq<nat>) returns (candidates: seq<Lanelet>)
    requires forall i :: 0 <= i < |hits| ==> hits[i] < |ls|
    ensures forall l :: l in candidates ==> l in ls
    ensures forall i :: 0 <= i < |hits| && AtMinimum(ls, ls[hits[i]]) ==> ls[hits[i]] in candidates
  {
    candidates := [];
    var minDist: Option<real> := None;
    for i := 0 to |hits|
      invariant KeepsMinima(ls, hits[..i], candidates, minDist)
    {
      var l := ls[hits[i]];
      if minDist.None? || l.dist < minDist.value - DIST_TOLERANCE {
        candidates := [l];
        minDist := Some(l.dist);
      } else if l.dist <= minDist.value + DIST_TOLERANCE {
        candidates := candidates + [l];
      }
      assert hits[..i + 1] == hits[..i] + [hits[i]];
    }
    assert hits[..|hits|] == hits;
  }

  // ----- The closest lanelet within constraints -----

  predicate Admissible(l: Lanelet, distThreshold: real, yawThreshold: real) {
    l.dist <= distThreshold && l.angleDiff <= Abs(yawThreshold)
  }

  predicate LexLeq(l: Lanelet, k: Lanelet) {
    l.dist < k.dist || (l.dist == k.dist && l.angleDiff <= k.angleDiff)
  }

  /** r is the admissible lanelet with the least distance and, among those, the least angle; None if none is admissible. */
  ghost predicate IsBest(ls: seq<Lanelet>, distThreshold: real, yawThreshold: real, r: Option<Lanelet>) {
    match r
    case None => forall l :: l in ls ==> !Admissible(l, distThreshold, yawThreshold)
    case Some(best) =>
      && best in ls && Admissible(best, distThreshold, yawThreshold)
      && forall l :: l in ls && Admissible(l, distThreshold, yawThreshold) ==> LexLeq(best, l)
  }

  /** Any two best lanelets have the same distance and the same angle, and one exists just when the other does. */
  lemma BestAgree(ls: seq<Lanelet>, distThreshold: real, yawThreshold: real, r: Option<Lanelet>, q: Option<Lanelet>)
    requires IsBest(ls, distThreshold, yawThreshold, r) && IsBest(ls, distThreshold, yawThreshold, q)
    ensures r.Some? <==> q.Some?
    ensures r.Some? ==> r.value.dist == q.value.dist && r.value.angleDiff == q.value.angleDiff
  {
    if r.Some? {
      assert Admissible(r.value, distThreshold, yawThreshold);
    }
  }

  /** What the best lanelet is, with both thresholds and the order written out. */
  lemma BestMeans(ls: seq<Lanelet>, distThreshold: real, yawThreshold: real, r: Option<Lanelet>)
    ensures IsBest(ls, distThreshold, yawThreshold, r) <==>
              match r
              case None =>
                forall l :: l in ls ==> l.dist > distThreshold || (l.angleDiff > yawThreshold && l.angleDiff > -yawThreshold)
              case Some(best) =>
                && best in ls && best.dist <= distThreshold && (best.angleDiff <= yawThreshold || best.angleDiff <= -yawThreshold)
                && forall l :: l in ls && l.dist <= distThreshold && (l.angleDiff <= yawThreshold || l.angleDiff <= -yawThreshold) ==>
                     best.dist < l.dist || (best.dist == l.dist && best.angleDiff <= l.angleDiff)
  {
    forall l
      ensures Admissible(l, distThreshold, yawThreshold)
              <==> l.dist <= distThreshold && (l.angleDiff <= yawThreshold || l.angleDiff <= -yawThreshold)
    {
    }
    match r {
      case None =>
      case Some(best) =>
        forall l
          ensures LexLeq(best, l) <==> best.dist < l.dist || (best.dist == l.dist && best.angleDiff <= l.angleDiff)
        {
        }
    }
  }

  /** std::sort by distance: the same lanelets in ascending order, ties in any order. */
  ghost predicate SortsByDistance(sort: seq<Lanelet> -> seq<Lanelet>) {
    forall ls :: multiset(sort(ls)) == multiset(ls) && SortedByDistance(sort(ls))
  }

  ghost predicate SortedByDistance(ls: seq<Lanelet>) {
    forall i, j :: 0 <= i <= j < |ls| ==> ls[i].dist <= ls[j].dist
  }

  /** The plain scan: filter by distance, sort, and take the first acceptable distance with its least angle. */
  method GetClosestLaneletWithinConstraint(ls: seq<Lanelet>, distThreshold: real, yawThreshold: real,
                                           sort: seq<Lanelet> -> seq<Lanelet>) returns (closest: Option<Lanelet>)
    requires SortsByDistance(sort)
    ensures IsBest(ls, distThreshold, yawThreshold, closest)
  {
    if ls == [] {
      return None;
    }
    var candidates: seq<Lanelet> := [];
    for i := 0 to |ls|
      invariant forall l :: l in candidates <==> l in ls[..i] && l.dist <= distThreshold
    {
      if ls[i].dist <= distThreshold {
        candidates := candidates + [ls[i]];
      }
    }
    assert ls[..|ls|] == ls;
    if candidates == [] {
      return None;
    }
    var sorted := sort(candidates);
    forall l
      ensures l in sorted <==> l in candidates
    {
      assert l in multiset(sorted) <==> l in multiset(candidates);
    }
    closest := ScanSorted(sorted, distThreshold, yawThreshold);
  }

  method ScanSorted(sorted: seq<Lanelet>, distThreshold: real, yawThreshold: real) returns (closest: Option<Lanelet>)
    requires SortedByDistance(sorted) && forall l :: l in sorted ==> l.dist <= distThreshold
    ensures IsBest(sorted, distThreshold, yawThreshold, closest)
  {
    closest := None;
    for i := 0 to |sorted|
      invariant IsBest(sorted[..i], distThreshold, yawThreshold, closest)
    {
      assert sorted[..i + 1] == sorted[..i] + [sorted[i]];
      if sorted[i].angleDiff > Abs(yawThreshold) {
        continue;
      }
      if closest.Some? && closest.value.dist < sorted[i].dist {
        break;
      }
      if closest.None? || sorted[i].angleDiff < closest.value.angleDiff {
        closest := Some(sorted[i]);
      }
    }
    assert sorted[..|sorted|] == sorted;
  }

  // ----- The tree -----

  lemma SomeSightings(ls: seq<Lanelet>, some: seq<Lanelet>)
    requires Sightings(ls) && forall l :: l in some ==> l in ls
    ensures Sightings(some)
  {
    forall i | 0 <= i < |some|
      ensures some[i] in ls
    {
    }
  }

  datatype LaneletRTree = LaneletRTree(lanelets: seq<Lanelet>, index: Index) {

    ghost predicate Valid() {
      Sightings(lanelets) && Indexes(index, lanelets)
    }

    /** Searches the square around the nearest box's polygon, and agrees with the scan over all lanelets. */
    method GetClosestLanelet() returns (r: Option<Lanelet>)
      requires Valid()
      ensures lanelets == [] ==> r == None
      ensures lanelets != [] ==> IsClosest(lanelets, r)
    {
      if lanelets == [] {
        return None;
      }
      var first := index.nearest(1);
      assert NearestBoxes(first, lanelets, 1);
      var maxSearchRadius := lanelets[first[0]].dist;
      var hits := index.intersects(maxSearchRadius);
      assert IntersectingBoxes(hits, lanelets, maxSearchRadius);
      var candidates := TolerantCandidates(lanelets, hits);
      forall l | AtMinimum(lanelets, l)
        ensures l in candidates
      {
        var m :| 0 <= m < |lanelets| && lanelets[m] == l;
        WithinRadiusMeets(l, maxSearchRadius);
        assert m in hits;
      }
      ghost var l := MinimumExists(lanelets);
      SomeSightings(lanelets, candidates);
      r := NearestLanelet.GetClosestLanelet(candidates);
      ClosestOfSome(lanelets, candidates, r);
    }

    /** Visits boxes by ascending distance and stops early, and still finds the best over all lanelets. */
    method GetClosestLaneletWithinConstraint(distThreshold: real, yawThreshold: real) returns (r: Option<Lanelet>)
      requires Valid()
      ensures IsBest(lanelets, distThreshold, yawThreshold, r)
    {
      var order := index.nearest(|lanelets|);
      assert NearestBoxes(order, lanelets, |lanelets|);
      r := None;
      ghost var i := 0;
      for k := 0 to |order|
        invariant i == k
        invariant BestSoFar(lanelets, order[..i], distThreshold, yawThreshold, r)
      {
        assert order[..k + 1] == order[..k] + [order[k]];
        var l := lanelets[order[k]];
        if (r.Some? && l.boxDist > r.value.dist) || l.boxDist > distThreshold {
          break;
        }
        i := k + 1;
        if !Admissible(l, distThreshold, yawThreshold) {
          continue;
        }
        if r.None? || l.dist < r.value.dist || (l.dist == r.value.dist && l.angleDiff < r.value.angleDiff) {
          r := Some(l);
        }
      }
      RestIsFurther(lanelets, order, i, distThreshold, yawThreshold, r);
    }
  }

  /** r is the best of the lanelets visited so far. */
  ghost predicate BestSoFar(ls: seq<Lanelet>, visited: seq<nat>, distThreshold: real, yawThreshold: real, r: Option<Lanelet>)
  {
    && (forall i :: 0 <= i < |visited| ==> visited[i] < |ls|)
    && match r
       case None => forall i :: 0 <= i < |visited| ==> !Admissible(ls[visited[i]], distThreshold, yawThreshold)
       case Some(best) =>
         && best in ls && Admissible(best, distThreshold, yawThreshold)
         && forall i :: 0 <= i < |visited| && Admissible(ls[visited[i]], distThreshold, yawThreshold) ==>
              LexLeq(best, ls[visited[i]])
  }

  /** Once a box is too far, so is every lanelet not yet visited. */
  lemma RestIsFurther(ls: seq<Lanelet>, order: seq<nat>, i: nat, distThreshold: real, yawThreshold: real, r: Option<Lanelet>)
    requires Sightings(ls) && NearestBoxes(order, ls, |ls|) && i <= |order|
    requires BestSoFar(ls, order[..i], distThreshold, yawThreshold, r)
    requires i < |order| ==>
      (r.Some? && ls[order[i]].boxDist > r.value.dist) || ls[order[i]].boxDist > distThreshold
    ensures IsBest(ls, distThreshold, yawThreshold, r)
  {
    forall l | l in ls && Admissible(l, distThreshold, yawThreshold)
      ensures r.Some? && LexLeq(r.value, l)
    {
      var m :| 0 <= m < |ls| && ls[m] == l;
      EveryIndexVisited(order, |ls|, m);
      var j :| 0 <= j < |order| && order[j] == m;
      if j < i {
        assert order[..i][j] == m;
      } else {
        assert ls[order[i]].boxDist <= ls[order[j]].boxDist <= l.dist;
      }
    }
  }

  /** n different numbers below n are all the numbers below n. */
  lemma EveryIndexVisited(order: seq<nat>, n: nat, m: nat)
    requires |order| == n && m < n && forall i :: 0 <= i < n ==> order[i] < n
    requires forall i, j :: 0 <= i < j < n ==> order[i] != order[j]
    ensures m in order
  {
    var visited := set i | 0 <= i < n :: order[i];
    DistinctCount(order, n);
    if m !in order {
      SubsetCount(visited, Below(n) - {m});
    }
  }

  function Below(n: nat): (s: set<nat>)
    ensures |s| == n && forall k: nat :: k in s <==> k < n
  {
    if n == 0 then {} else Below(n - 1) + {n - 1}
  }

  lemma {:induction false} DistinctCount(order: seq<nat>, k: nat)
    requires k <= |order| && forall i, j :: 0 <= i < j < |order| ==> order[i] != order[j]
    ensures |set i | 0 <= i < k :: order[i]| == k
  {
    if k == 0 {
    } else {
      DistinctCount(order, k - 1);
      assert (set i | 0 <= i < k :: order[i]) == (set i | 0 <= i < k - 1 :: order[i]) + {order[k - 1]};
    }
  }

  lemma {:induction false} SubsetCount(a: set<nat>, b: set<nat>)
    requires a <= b
    ensures |a| <= |b|
  {
    if a == {} {
    } else {
      var x :| x in a;
      SubsetCount(a - {x}, b - {x});
    }
  }
}
