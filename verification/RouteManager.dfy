/** Following the current lanelet along a route: the sequences around it, and the updates that move it. */
module Routes {
  import opened Wrappers
  import opened LaneletSequences
  import NearestLanelet
  import RTreeSearch

  datatype Pose = Pose(x: real, y: real, yaw: real)

  /**
   * The map as the route manager reads it: every lanelet id, the length of a lanelet, how far along a lanelet a pose
   * is, and a lanelet as seen from a pose.
   */
  datatype World = World(
    ids: set<Id>,
    length3d: Id -> real,
    entryToEgo: (Id, Pose) -> real,
    sight: (Pose, Id) -> NearestLanelet.Lanelet)

  // ----- Walking along the first neighbour -----

  /**
   * The lanelets visited from a lanelet by always taking the first neighbour, until the accumulated distance reaches
   * the limit, there is no neighbour, or the neighbour has been seen.
   */
  ghost function Walk(step: Id -> seq<Id>, length: Id -> real, ids: set<Id>,
                      lanelet: Id, seen: seq<Id>, distance: real, limit: real): (r: seq<Id>)
    requires StaysIn(step, ids)
    decreases ids - Elements(seen)
  {
    if distance >= limit || step(lanelet) == [] || step(lanelet)[0] in seen then []
    else
      var next := step(lanelet)[0];
      assert next in ids - Elements(seen) && next in Elements(seen + [next]);
      [next] + Walk(step, length, ids, next, seen + [next], distance + length(next), limit)
  }

  ghost predicate StaysIn(step: Id -> seq<Id>, ids: set<Id>) {
    forall a, b :: b in step(a) ==> b in ids
  }

  function Elements(s: seq<Id>): set<Id> {
    set x | x in s
  }

  function Total(length: Id -> real, p: seq<Id>): real {
    if p == [] then 0.0 else length(p[0]) + Total(length, p[1..])
  }

  lemma {:induction false} TotalOneMore(length: Id -> real, p: seq<Id>, x: Id)
    ensures Total(length, p + [x]) == Total(length, p) + length(x)
  {
    if p == [] {
    } else {
      assert (p + [x])[1..] == p[1..] + [x];
      TotalOneMore(length, p[1..], x);
    }
  }

  /** Every lanelet of a walk is a first neighbour of the one before. */
  ghost predicate FollowsSteps(step: Id -> seq<Id>, start: Id, p: seq<Id>) {
    && (p != [] ==> p[0] in step(start) && p[0] == step(start)[0])
    && forall i :: 0 < i < |p| ==> p[i] in step(p[i - 1]) && p[i] == step(p[i - 1])[0]
  }

  /** A walk follows steps, never meets a lanelet twice, and meets none that was seen before. */
  lemma {:induction false} WalkIsFresh(step: Id -> seq<Id>, length: Id -> real, ids: set<Id>,
                                       lanelet: Id, seen: seq<Id>, distance: real, limit: real)
    requires StaysIn(step, ids)
    ensures var w := Walk(step, length, ids, lanelet, seen, distance, limit);
            && FollowsSteps(step, lanelet, w)
            && Distinct(w) && (forall x :: x in w ==> x in ids && x !in seen)
    decreases ids - Elements(seen)
  {
    if distance >= limit || step(lanelet) == [] || step(lanelet)[0] in seen {
    } else {
      var next := step(lanelet)[0];
      assert next in ids - Elements(seen) && next in Elements(seen + [next]);
      WalkIsFresh(step, length, ids, next, seen + [next], distance + length(next), limit);
      FreshStep(step, ids, lanelet, seen, next, Walk(step, length, ids, next, seen + [next], distance + length(next), limit));
    }
  }

  lemma FreshStep(step: Id -> seq<Id>, ids: set<Id>, lanelet: Id, seen: seq<Id>, next: Id, w: seq<Id>)
    requires next in step(lanelet) && next == step(lanelet)[0] && next in ids && next !in seen
    requires FollowsSteps(step, next, w) && Distinct(w) && forall x :: x in w ==> x in ids && x !in seen + [next]
    ensures FollowsSteps(step, lanelet, [next] + w) && Distinct([next] + w)
    ensures forall x :: x in [next] + w ==> x in ids && x !in seen
  {
  }

  /**
   * A walk covers the limit unless it runs out of neighbours or comes back to a lanelet already seen, and it does not
   * go on once the limit is covered.
   */
  lemma {:induction false} WalkCovers(step: Id -> seq<Id>, length: Id -> real, ids: set<Id>,
                                      lanelet: Id, seen: seq<Id>, distance: real, limit: real)
    requires StaysIn(step, ids)
    ensures var w := Walk(step, length, ids, lanelet, seen, distance, limit);
            var last := if w == [] then lanelet else w[|w| - 1];
            && (distance + Total(length, w) >= limit || step(last) == [] || step(last)[0] in seen + w)
            && (forall k :: 0 <= k < |w| ==> distance + Total(length, w[..k]) < limit)
    decreases ids - Elements(seen)
  {
    if distance >= limit || step(lanelet) == [] || step(lanelet)[0] in seen {
    } else {
      var next := step(lanelet)[0];
      assert next in ids - Elements(seen) && next in Elements(seen + [next]);
      WalkCovers(step, length, ids, next, seen + [next], distance + length(next), limit);
      CoverStep(length, seen, next, Walk(step, length, ids, next, seen + [next], distance + length(next), limit), distance, limit);
    }
  }

  lemma CoverStep(length: Id -> real, seen: seq<Id>, next: Id, w: seq<Id>, distance: real, limit: real)
    requires distance < limit
    requires forall k :: 0 <= k < |w| ==> distance + length(next) + Total(length, w[..k]) < limit
    ensures seen + [next] + w == seen + ([next] + w)
    ensures Total(length, [next] + w) == length(next) + Total(length, w)
    ensures forall k :: 0 <= k < |[next] + w| ==> distance + Total(length, ([next] + w)[..k]) < limit
  {
    forall k | 0 <= k < |[next] + w|
      ensures distance + Total(length, ([next] + w)[..k]) < limit
    {
      if k > 0 {
        assert ([next] + w)[..k] == [next] + w[..k - 1];
        assert ([next] + w[..k - 1])[1..] == w[..k - 1];
      }
    }
    assert ([next] + w)[1..] == w;
  }

  /**
   * Steps that only add neighbours where there were none lengthen a walk without changing its beginning, also when more
   * lanelets count as seen, as long as the shorter walk meets none of them.
   */
  lemma {:induction false} WalkExtends(step: Id -> seq<Id>, more: Id -> seq<Id>, length: Id -> real, lengths: Id -> real,
                                       ids: set<Id>, all: set<Id>, lanelet: Id, seen: seq<Id>, wider: seq<Id>,
                                       distance: real, limit: real)
    requires StaysIn(step, ids) && StaysIn(more, all)
    requires forall a :: step(a) != [] ==> more(a) == step(a)
    requires forall a :: a in ids ==> lengths(a) == length(a)
    requires forall x :: x in Walk(step, length, ids, lanelet, seen, distance, limit) ==> x !in wider
    ensures Walk(step, length, ids, lanelet, seen, distance, limit) <= Walk(more, lengths, all, lanelet, wider, distance, limit)
    decreases ids - Elements(seen)
  {
    if distance >= limit || step(lanelet) == [] || step(lanelet)[0] in seen {
    } else {
      var next := step(lanelet)[0];
      var w := Walk(step, length, ids, next, seen + [next], distance + length(next), limit);
      assert next in ids - Elements(seen) && next in Elements(seen + [next]);
      assert Walk(step, length, ids, lanelet, seen, distance, limit) == [next] + w;
      WalkIsFresh(step, length, ids, next, seen + [next], distance + length(next), limit);
      forall x | x in w
        ensures x !in wider + [next]
      {
        assert x in [next] + w && x !in seen + [next];
      }
      WalkExtends(step, more, length, lengths, ids, all, next, seen + [next], wider + [next], distance + length(next), limit);
    }
  }

  // ----- Lane sequences -----

  ghost predicate Connected(g: RoutingGraph, p: seq<Id>) {
    forall i :: 0 <= i < |p| - 1 ==> p[i + 1] in g.following(p[i])
  }

  lemma ConnectedInWider(g: RoutingGraph, wider: RoutingGraph, p: seq<Id>)
    requires Connected(g, p) && forall a, b :: b in g.following(a) ==> b in wider.following(a)
    ensures Connected(wider, p)
  {
    forall i | 0 <= i < |p| - 1
      ensures p[i + 1] in wider.following(p[i])
    {
      var a, b := p[i], p[i + 1];
      assert b in g.following(a);
      assert b in wider.following(a);
    }
  }

  /** A lane sequence is built just from lanelets that follow each other. */
  method CreateLaneSequence(lanelets: seq<Id>, g: RoutingGraph) returns (r: Option<seq<Id>>)
    ensures r == if Connected(g, lanelets) then Some(lanelets) else None
  {
    for i := 0 to if lanelets == [] then 0 else |lanelets| - 1
      invariant forall k :: 0 <= k < i ==> lanelets[k + 1] in g.following(lanelets[k])
    {
      if lanelets[i + 1] !in g.following(lanelets[i]) {
        return None;
      }
    }
    return Some(lanelets);
  }

  // ----- The traversals -----

  /** One step of a walk that goes on. */
  lemma WalkStep(step: Id -> seq<Id>, length: Id -> real, ids: set<Id>,
                 lanelet: Id, seen: seq<Id>, distance: real, limit: real)
    requires StaysIn(step, ids) && distance < limit && step(lanelet) != [] && step(lanelet)[0] !in seen
    ensures var next := step(lanelet)[0];
            && seen + Walk(step, length, ids, lanelet, seen, distance, limit)
               == seen + [next] + Walk(step, length, ids, next, seen + [next], distance + length(next), limit)
            && ids - Elements(seen + [next]) < ids - Elements(seen)
  {
    var next := step(lanelet)[0];
    assert next in ids - Elements(seen) && next in Elements(seen + [next]);
    var w := Walk(step, length, ids, next, seen + [next], distance + length(next), limit);
    assert seen + ([next] + w) == seen + [next] + w;
  }

  /** The ways a walk ends. */
  lemma WalkStops(step: Id -> seq<Id>, length: Id -> real, ids: set<Id>,
                  lanelet: Id, seen: seq<Id>, distance: real, limit: real)
    requires StaysIn(step, ids)
    requires distance >= limit || step(lanelet) == [] || step(lanelet)[0] in seen
    ensures Walk(step, length, ids, lanelet, seen, distance, limit) == []
  {
  }

  /** Backward: every lanelet found is put in front of the sequence. */
  method TraverseBackward(step: Id -> seq<Id>, length: Id -> real, ghost ids: set<Id>,
                          lanelet: Id, entry: real, limit: real) returns (sequence: seq<Id>)
    requires StaysIn(step, ids)
    ensures sequence == Reverse(Walk(step, length, ids, lanelet, [], entry, limit))
  {
    hide Walk, Reverse, StaysIn;
    sequence := [];
    var distance, neighbours := entry, step(lanelet);
    ghost var walked: seq<Id>, last := [], lanelet;
    while distance < limit
      invariant neighbours == step(last) && sequence == Reverse(walked)
      invariant Walk(step, length, ids, lanelet, [], entry, limit)
             == walked + Walk(step, length, ids, last, walked, distance, limit)
      decreases ids - Elements(walked)
    {
      ReverseMembers(walked);
      if neighbours == [] {
        WalkStops(step, length, ids, last, walked, distance, limit);
        return;
      }
      var next := neighbours[0];
      if next in sequence {
        WalkStops(step, length, ids, last, walked, distance, limit);
        return;
      }
      WalkStep(step, length, ids, last, walked, distance, limit);
      ReverseAppend(walked, next);
      sequence := [next] + sequence;
      distance := distance + length(next);
      neighbours := step(next);
      walked, last := walked + [next], next;
    }
    WalkStops(step, length, ids, last, walked, distance, limit);
  }

  lemma {:induction false} ReverseAppend(p: seq<Id>, x: Id)
    ensures Reverse(p + [x]) == [x] + Reverse(p)
  {
    if p == [] {
    } else {
      assert (p + [x])[1..] == p[1..] + [x];
      ReverseAppend(p[1..], x);
    }
  }

  /** Forward: every lanelet found is put behind the sequence. */
  method TraverseForward(step: Id -> seq<Id>, length: Id -> real, ghost ids: set<Id>,
                         lanelet: Id, seen: seq<Id>, exit: real, limit: real) returns (sequence: seq<Id>)
    requires StaysIn(step, ids)
    ensures sequence == seen + Walk(step, length, ids, lanelet, seen, exit, limit)
  {
    sequence := seen;
    var distance, neighbours := exit, step(lanelet);
    ghost var last := lanelet;
    while distance < limit
      invariant neighbours == step(last)
      invariant seen + Walk(step, length, ids, lanelet, seen, exit, limit)
             == sequence + Walk(step, length, ids, last, sequence, distance, limit)
      decreases ids - Elements(sequence)
    {
      if neighbours == [] {
        break;
      }
      var next := neighbours[0];
      if next in sequence {
        break;
      }
      WalkStep(step, length, ids, last, sequence, distance, limit);
      sequence := sequence + [next];
      distance := distance + length(next);
      neighbours := step(next);
      last := next;
    }
  }

  // ----- The sequence around a lanelet -----

  /** The lanelets behind, the lanelet itself, and the lanelets ahead, in driving order. */
  ghost function Around(back: Id -> seq<Id>, ahead: Id -> seq<Id>, length: Id -> real, ids: set<Id>, lanelet: Id,
                        entry: real, exit: real, forwardLength: real, backwardLength: real): seq<Id>
    requires StaysIn(back, ids) && StaysIn(ahead, ids)
  {
    var behind := Reverse(Walk(back, length, ids, lanelet, [], entry, backwardLength)) + [lanelet];
    behind + Walk(ahead, length, ids, lanelet, behind, exit, forwardLength)
  }

  /** The step of an edge: back and ahead are the two ends of edges of g. */
  ghost predicate StepsOf(back: Id -> seq<Id>, ahead: Id -> seq<Id>, g: RoutingGraph) {
    && (forall a, b :: b in back(a) ==> a in g.following(b))
    && (forall a, b :: b in ahead(a) ==> b in g.following(a))
  }

  function Occurrences(s: seq<Id>, x: Id): nat {
    multiset(s)[x]
  }

  /**
   * Consecutive lanelets are connected. Every other lanelet occurs at most once; the lanelet itself occurs once, and a
   * second time just when the way back comes round to it.
   */
  lemma AroundIsConnected(back: Id -> seq<Id>, ahead: Id -> seq<Id>, g: RoutingGraph, length: Id -> real, ids: set<Id>,
                          lanelet: Id, entry: real, exit: real, forwardLength: real, backwardLength: real)
    requires StaysIn(back, ids) && StaysIn(ahead, ids) && StepsOf(back, ahead, g)
    ensures var s := Around(back, ahead, length, ids, lanelet, entry, exit, forwardLength, backwardLength);
            && Connected(g, s)
            && OnceBut(s, lanelet, lanelet in Walk(back, length, ids, lanelet, [], entry, backwardLength))
            && forall x :: x in s ==> x == lanelet || x in ids
  {
    hide Walk, Reverse, StepsOf, StaysIn, FollowsSteps, OnceBut, Occurrences;
    var walkedBack := Walk(back, length, ids, lanelet, [], entry, backwardLength);
    var behind := Reverse(walkedBack) + [lanelet];
    var walkedAhead := Walk(ahead, length, ids, lanelet, behind, exit, forwardLength);
    WalkIsFresh(back, length, ids, lanelet, [], entry, backwardLength);
    WalkIsFresh(ahead, length, ids, lanelet, behind, exit, forwardLength);
    BehindConnected(back, ahead, g, lanelet, walkedBack);
    AheadConnected(back, ahead, g, lanelet, behind, walkedAhead);
    OccurrencesAround(walkedBack, lanelet, walkedAhead);
  }

  /** Every element occurs once, except that x occurs twice if twice says so. */
  ghost predicate OnceBut(s: seq<Id>, x: Id, twice: bool) {
    Occurrences(s, x) == (if twice then 2 else 1) && forall y :: y != x ==> Occurrences(s, y) <= 1
  }

  lemma OccurrencesAround(behind: seq<Id>, lanelet: Id, ahead: seq<Id>)
    requires Distinct(behind) && Distinct(ahead) && forall x :: x in ahead ==> x !in Reverse(behind) + [lanelet]
    ensures OnceBut(Reverse(behind) + [lanelet] + ahead, lanelet, lanelet in behind)
  {
    hide Reverse, Distinct;
    var s := Reverse(behind) + [lanelet] + ahead;
    ReverseDistinct(behind);
    ReverseMembers(behind);
    forall x
      ensures Occurrences(s, x) == (if x in behind then 1 else 0) + (if x == lanelet then 1 else 0) + (if x in ahead then 1 else 0)
    {
      DistinctOnce(Reverse(behind), x);
      DistinctOnce(ahead, x);
    }
  }

  lemma BehindConnected(back: Id -> seq<Id>, ahead: Id -> seq<Id>, g: RoutingGraph, lanelet: Id, w: seq<Id>)
    requires StepsOf(back, ahead, g) && FollowsSteps(back, lanelet, w)
    ensures Connected(g, Reverse(w) + [lanelet])
  {
    var s := Reverse(w) + [lanelet];
    forall i | 0 <= i < |s| - 1
      ensures s[i + 1] in g.following(s[i])
    {
      var k := |w| - 1 - i;
      assert k > 0 ==> w[k] in back(w[k - 1]);
    }
  }

  lemma AheadConnected(back: Id -> seq<Id>, ahead: Id -> seq<Id>, g: RoutingGraph, lanelet: Id, behind: seq<Id>, w: seq<Id>)
    requires StepsOf(back, ahead, g) && FollowsSteps(ahead, lanelet, w)
    requires Connected(g, behind) && behind != [] && behind[|behind| - 1] == lanelet
    ensures Connected(g, behind + w)
  {
    var s := behind + w;
    forall i | 0 <= i < |s| - 1
      ensures s[i + 1] in g.following(s[i])
    {
      if i + 1 < |behind| {
        assert s[i] == behind[i] && s[i + 1] == behind[i + 1];
      } else {
        var k := i + 1 - |behind|;
        assert s[i + 1] == w[k];
        if k > 0 {
          assert s[i] == w[k - 1] && w[k] in ahead(w[k - 1]);
        } else {
          assert s[i] == lanelet && w[0] in ahead(lanelet);
        }
      }
    }
  }

  lemma ReverseDistinct(p: seq<Id>)
    ensures Distinct(p) ==> Distinct(Reverse(p))
  {
  }

  lemma ReverseMembers(p: seq<Id>)
    ensures forall x :: x in Reverse(p) <==> x in p
  {
    forall x | x in p
      ensures x in Reverse(p)
    {
      var i :| 0 <= i < |p| && p[i] == x;
      assert Reverse(p)[|p| - 1 - i] == x;
    }
  }

  lemma {:induction false} DistinctOnce(s: seq<Id>, x: Id)
    requires Distinct(s)
    ensures multiset(s)[x] == if x in s then 1 else 0
  {
    if s == [] {
    } else {
      var rest, last := s[..|s| - 1], s[|s| - 1];
      assert s == rest + [last];
      DistinctOnce(rest, x);
    }
  }

  // ----- The route manager -----

  /** What is asked of a route manager that changes it. */
  datatype Move =
    | Update(pose: Pose, distThresholdSoft: real, yawThresholdSoft: real, searchWindow: real)
    | Commit(pose: Pose)

  datatype RouteManager = RouteManager(
    world: World,
    routingGraph: RoutingGraph,
    routeSubgraph: RoutingGraph,
    allRouteLanelets: seq<Id>,
    allRouteLengthCache: map<Id, real>,
    preferredLanelets: seq<Id>,
    startLanelet: Id,
    goalLanelet: Id,
    currentPose: Pose,
    currentLanelet: Id)
  {
    /**
     * The route's lanelets are cached and on the map, the subgraph joins route lanelets by edges of the routing graph,
     * and the current lanelet is on the route.
     */
    ghost predicate Valid() {
      && currentLanelet in allRouteLanelets
      && Elements(allRouteLanelets) == allRouteLengthCache.Keys <= world.ids
      && Converse(routingGraph) && Converse(routeSubgraph)
      && (forall a, b :: b in routeSubgraph.following(a) ==> b in routingGraph.following(a))
      && StaysIn(routeSubgraph.following, allRouteLengthCache.Keys) && StaysIn(routeSubgraph.previous, allRouteLengthCache.Keys)
      && StaysIn(routingGraph.following, world.ids) && StaysIn(routingGraph.previous, world.ids)
      && (forall pose, id :: world.sight(pose, id).id == id && NearestLanelet.Geometric(world.sight(pose, id)))
    }

    /** The cached length of a route lanelet, the measured length of any other. */
    function Lengths(): Id -> real {
      a => if a in allRouteLengthCache then allRouteLengthCache[a] else world.length3d(a)
    }

    function EntryToEgo(): real {
      world.entryToEgo(currentLanelet, currentPose)
    }

    function EgoToExit(): real {
      world.length3d(currentLanelet) - EntryToEgo()
    }

    ghost function RouteSequence(forwardLength: real, backwardLength: real): seq<Id>
      requires Valid()
    {
      Around(routeSubgraph.previous, routeSubgraph.following, Lengths(), allRouteLengthCache.Keys, currentLanelet,
             EntryToEgo(), EgoToExit(), forwardLength, backwardLength)
    }

    /** The lanelets behind the current one on the route, nearest first. */
    ghost function RouteBehind(backwardLength: real): seq<Id>
      requires Valid()
    {
      Walk(routeSubgraph.previous, Lengths(), allRouteLengthCache.Keys, currentLanelet, [], EntryToEgo(), backwardLength)
    }

    /** On the route first, beyond its ends on the whole routing graph. */
    function OutwardPrevious(): Id -> seq<Id> {
      a => if routeSubgraph.previous(a) == [] then routingGraph.previous(a) else routeSubgraph.previous(a)
    }

    function OutwardFollowing(): Id -> seq<Id> {
      a => if routeSubgraph.following(a) == [] then routingGraph.following(a) else routeSubgraph.following(a)
    }

    ghost function OutwardSequence(forwardLength: real, backwardLength: real): seq<Id>
      requires Valid()
    {
      Around(OutwardPrevious(), OutwardFollowing(), Lengths(), world.ids, currentLanelet,
             EntryToEgo(), EgoToExit(), forwardLength, backwardLength)
    }

    ghost function OutwardBehind(backwardLength: real): seq<Id>
      requires Valid()
    {
      Walk(OutwardPrevious(), Lengths(), world.ids, currentLanelet, [], EntryToEgo(), backwardLength)
    }

    /** Behind ego, leaving the route only ever lengthens the sequence. */
    lemma OutwardReachesFurther(backwardLength: real)
      requires Valid()
      ensures RouteBehind(backwardLength) <= OutwardBehind(backwardLength)
    {
      WalkExtends(routeSubgraph.previous, OutwardPrevious(), Lengths(), Lengths(), allRouteLengthCache.Keys, world.ids,
                  currentLanelet, [], [], EntryToEgo(), backwardLength);
    }

    /** The lanelets ahead of the current one on the route, none of them behind it. */
    ghost function RouteAhead(forwardLength: real, backwardLength: real): seq<Id>
      requires Valid()
    {
      Walk(routeSubgraph.following, Lengths(), allRouteLengthCache.Keys, currentLanelet,
           Reverse(RouteBehind(backwardLength)) + [currentLanelet], EgoToExit(), forwardLength)
    }

    ghost function OutwardAhead(forwardLength: real, backwardLength: real): seq<Id>
      requires Valid()
    {
      Walk(OutwardFollowing(), Lengths(), world.ids, currentLanelet,
           Reverse(OutwardBehind(backwardLength)) + [currentLanelet], EgoToExit(), forwardLength)
    }

    /**
     * Ahead of ego, leaving the route lengthens the sequence if and only if the way back outside the route does not come
     * round to a lanelet ahead on the route.
     */
    lemma OutwardReachesFurtherAhead(forwardLength: real, backwardLength: real)
      requires Valid()
      ensures RouteAhead(forwardLength, backwardLength) <= OutwardAhead(forwardLength, backwardLength)
              <==> forall x :: x in RouteAhead(forwardLength, backwardLength) ==> x !in OutwardBehind(backwardLength)
    {
      hide Reverse, Walk;
      var behind, outwardBehind := RouteBehind(backwardLength), OutwardBehind(backwardLength);
      var seen, wider := Reverse(behind) + [currentLanelet], Reverse(outwardBehind) + [currentLanelet];
      var route, outward := RouteAhead(forwardLength, backwardLength), OutwardAhead(forwardLength, backwardLength);
      WalkIsFresh(routeSubgraph.following, Lengths(), allRouteLengthCache.Keys, currentLanelet, seen, EgoToExit(), forwardLength);
      WalkIsFresh(OutwardFollowing(), Lengths(), world.ids, currentLanelet, wider, EgoToExit(), forwardLength);
      ReverseMembers(behind);
      ReverseMembers(outwardBehind);
      if forall x :: x in route ==> x !in outwardBehind {
        WalkExtends(routeSubgraph.following, OutwardFollowing(), Lengths(), Lengths(), allRouteLengthCache.Keys, world.ids,
                    currentLanelet, seen, wider, EgoToExit(), forwardLength);
      }
      if route <= outward {
        forall x | x in route
          ensures x !in outwardBehind
        {
          assert x in outward && x !in wider;
        }
      }
    }

    lemma OutwardStaysOnMap()
      requires Valid()
      ensures StaysIn(OutwardPrevious(), world.ids) && StaysIn(OutwardFollowing(), world.ids)
    {
    }

    /** The outward sequence covers the two lengths in the same way, with what it means for the map to end. */
    lemma OutwardSequenceCovers(forwardLength: real, backwardLength: real)
      requires Valid()
      ensures var behind := OutwardBehind(backwardLength);
              var front := Reverse(behind) + [currentLanelet];
              var s := OutwardSequence(forwardLength, backwardLength);
              && s == front + OutwardAhead(forwardLength, backwardLength)
              && Covers(OutwardPrevious(), currentLanelet, behind, behind, EntryToEgo(), backwardLength)
              && Covers(OutwardFollowing(), currentLanelet, s, OutwardAhead(forwardLength, backwardLength), EgoToExit(), forwardLength)
    {
      hide Walk, Reverse, Total, StaysIn, OutwardPrevious, OutwardFollowing, Converse;
      OutwardStaysOnMap();
      var front := Reverse(OutwardBehind(backwardLength)) + [currentLanelet];
      WalkCovers(OutwardPrevious(), Lengths(), world.ids, currentLanelet, [], EntryToEgo(), backwardLength);
      assert [] + OutwardBehind(backwardLength) == OutwardBehind(backwardLength);
      WalkCovers(OutwardFollowing(), Lengths(), world.ids, currentLanelet, front, EgoToExit(), forwardLength);
    }

    /**
     * The sequence on the route reaches at least the two lengths asked for, each unless the route ends there or its
     * next lanelet is already in the sequence; and neither side has a lanelet more than it needs.
     */
    lemma RouteSequenceCovers(forwardLength: real, backwardLength: real)
      requires Valid()
      ensures var behind := RouteBehind(backwardLength);
              var front := Reverse(behind) + [currentLanelet];
              var s := RouteSequence(forwardLength, backwardLength);
              && front <= s
              && Covers(routeSubgraph.previous, currentLanelet, behind, behind, EntryToEgo(), backwardLength)
              && Covers(routeSubgraph.following, currentLanelet, s, s[|front|..], EgoToExit(), forwardLength)
    {
      hide Walk, Reverse, Total, StaysIn;
      var front := Reverse(RouteBehind(backwardLength)) + [currentLanelet];
      WalkCovers(routeSubgraph.previous, Lengths(), allRouteLengthCache.Keys, currentLanelet, [], EntryToEgo(), backwardLength);
      assert [] + RouteBehind(backwardLength) == RouteBehind(backwardLength);
      WalkCovers(routeSubgraph.following, Lengths(), allRouteLengthCache.Keys, currentLanelet, front, EgoToExit(), forwardLength);
    }

    /** The walked lanelets cover the limit, unless nothing new follows the last one, and none is walked in vain. */
    ghost predicate Covers(step: Id -> seq<Id>, lanelet: Id, sequence: seq<Id>, walked: seq<Id>, distance: real, limit: real) {
      var last := if walked == [] then lanelet else walked[|walked| - 1];
      && (distance + Total(Lengths(), walked) >= limit || step(last) == [] || step(last)[0] in sequence)
      && forall k :: 0 <= k < |walked| ==> distance + Total(Lengths(), walked[..k]) < limit
    }

    /** dist[k] is start and the lengths of the first k lanelets of w: cached on the route, measured elsewhere. */
    ghost predicate Distances(w: seq<Id>, start: real, dist: seq<real>) {
      && |dist| == |w| + 1 && dist[0] == start
      && forall k :: 0 <= k < |w| ==>
           dist[k + 1] == dist[k] + if w[k] in allRouteLengthCache then allRouteLengthCache[w[k]] else world.length3d(w[k])
    }

    lemma {:induction false} DistancesAreTotals(w: seq<Id>, start: real, dist: seq<real>, k: nat)
      requires Distances(w, start, dist) && k <= |w|
      ensures start + Total(Lengths(), w[..k]) == dist[k]
    {
      if k == 0 {
      } else {
        DistancesAreTotals(w, start, dist, k - 1);
        assert w[..k] == w[..k - 1] + [w[k - 1]];
        TotalOneMore(Lengths(), w[..k - 1], w[k - 1]);
        assert dist[k - 1 + 1] == dist[k] && 0 <= k - 1 < |w|;
      }
    }

    /** next is the first neighbour of the lanelet. */
    ghost predicate StepsFirst(neighbours: Id -> seq<Id>, lanelet: Id, next: Id) {
      neighbours(lanelet) != [] && next == neighbours(lanelet)[0]
    }

    /**
     * What the sequence on the route is, written out. behind and ahead always go to the first neighbour; the distance from
     * ego to the far end of each grows by the cached lengths, from how far ego is along the current lanelet and how far it
     * has to go there; it stays below the length asked for up to the last lanelet, and reaches it with the last one, or
     * the route ends there or comes round to a lanelet of the sequence.
     */
    lemma RouteSequenceMeans(forwardLength: real, backwardLength: real, back: seq<real>, front: seq<real>)
      requires Valid()
      requires Distances(RouteBehind(backwardLength), world.entryToEgo(currentLanelet, currentPose), back)
      requires Distances(RouteAhead(forwardLength, backwardLength),
                         world.length3d(currentLanelet) - world.entryToEgo(currentLanelet, currentPose), front)
      ensures var behind, ahead := RouteBehind(backwardLength), RouteAhead(forwardLength, backwardLength);
              var s := RouteSequence(forwardLength, backwardLength);
              var first, last := if behind == [] then currentLanelet else behind[|behind| - 1],
                                 if ahead == [] then currentLanelet else ahead[|ahead| - 1];
              && s == Reverse(behind) + [currentLanelet] + ahead
              && (forall x :: x in behind || x in ahead ==> x in allRouteLengthCache)
              && (behind != [] ==> StepsFirst(routeSubgraph.previous, currentLanelet, behind[0]))
              && (forall i :: 0 < i < |behind| ==> StepsFirst(routeSubgraph.previous, behind[i - 1], behind[i]))
              && (ahead != [] ==> StepsFirst(routeSubgraph.following, currentLanelet, ahead[0]))
              && (forall i :: 0 < i < |ahead| ==> StepsFirst(routeSubgraph.following, ahead[i - 1], ahead[i]))
              && (forall k :: 0 <= k < |behind| ==> back[k] < backwardLength)
              && (forall k :: 0 <= k < |ahead| ==> front[k] < forwardLength)
              && (back[|behind|] >= backwardLength || routeSubgraph.previous(first) == [] || routeSubgraph.previous(first)[0] in behind)
              && (front[|ahead|] >= forwardLength || routeSubgraph.following(last) == [] || routeSubgraph.following(last)[0] in s)
    {
      hide Walk, Reverse, Total, StaysIn;
      var behind, ahead := RouteBehind(backwardLength), RouteAhead(forwardLength, backwardLength);
      var seen := Reverse(behind) + [currentLanelet];
      WalkIsFresh(routeSubgraph.previous, Lengths(), allRouteLengthCache.Keys, currentLanelet, [], EntryToEgo(), backwardLength);
      WalkIsFresh(routeSubgraph.following, Lengths(), allRouteLengthCache.Keys, currentLanelet, seen, EgoToExit(), forwardLength);
      RouteSequenceCovers(forwardLength, backwardLength);
      CoversMeans(routeSubgraph.previous, currentLanelet, behind, behind, EntryToEgo(), backwardLength, back);
      var s := RouteSequence(forwardLength, backwardLength);
      assert s[|seen|..] == ahead;
      CoversMeans(routeSubgraph.following, currentLanelet, s, ahead, EgoToExit(), forwardLength, front);
    }

    lemma CoversMeans(step: Id -> seq<Id>, lanelet: Id, sequence: seq<Id>, walked: seq<Id>, distance: real, limit: real, dist: seq<real>)
      requires Covers(step, lanelet, sequence, walked, distance, limit) && Distances(walked, distance, dist)
      ensures var last := if walked == [] then lanelet else walked[|walked| - 1];
              && (dist[|walked|] >= limit || step(last) == [] || step(last)[0] in sequence)
              && forall k :: 0 <= k < |walked| ==> dist[k] < limit
    {
      hide Total;
      DistancesAreTotals(walked, distance, dist, |walked|);
      assert walked[..|walked|] == walked;
      forall k | 0 <= k < |walked|
        ensures dist[k] < limit
      {
        DistancesAreTotals(walked, distance, dist, k);
        assert distance + Total(Lengths(), walked[..k]) < limit;
      }
    }

    /** A neighbour on the route if there is one, and otherwise one on the whole map. */
    ghost predicate StepsOutward(onRoute: Id -> seq<Id>, onMap: Id -> seq<Id>, lanelet: Id, next: Id) {
      if onRoute(lanelet) != [] then next == onRoute(lanelet)[0] else onMap(lanelet) != [] && next == onMap(lanelet)[0]
    }

    /** No neighbour on the route and none on the map, or one that is in the sequence. */
    ghost predicate EndsOutward(onRoute: Id -> seq<Id>, onMap: Id -> seq<Id>, lanelet: Id, sequence: seq<Id>) {
      if onRoute(lanelet) != [] then onRoute(lanelet)[0] in sequence else onMap(lanelet) == [] || onMap(lanelet)[0] in sequence
    }

    /** What the outward sequence is, written out in the same way. */
    lemma OutwardSequenceMeans(forwardLength: real, backwardLength: real, back: seq<real>, front: seq<real>)
      requires Valid()
      requires Distances(OutwardBehind(backwardLength), world.entryToEgo(currentLanelet, currentPose), back)
      requires Distances(OutwardAhead(forwardLength, backwardLength),
                         world.length3d(currentLanelet) - world.entryToEgo(currentLanelet, currentPose), front)
      ensures var behind, ahead := OutwardBehind(backwardLength), OutwardAhead(forwardLength, backwardLength);
              var s := OutwardSequence(forwardLength, backwardLength);
              var first, last := if behind == [] then currentLanelet else behind[|behind| - 1],
                                 if ahead == [] then currentLanelet else ahead[|ahead| - 1];
              && s == Reverse(behind) + [currentLanelet] + ahead
              && (behind != [] ==> StepsOutward(routeSubgraph.previous, routingGraph.previous, currentLanelet, behind[0]))
              && (forall i :: 0 < i < |behind| ==>
                    StepsOutward(routeSubgraph.previous, routingGraph.previous, behind[i - 1], behind[i]))
              && (ahead != [] ==> StepsOutward(routeSubgraph.following, routingGraph.following, currentLanelet, ahead[0]))
              && (forall i :: 0 < i < |ahead| ==>
                    StepsOutward(routeSubgraph.following, routingGraph.following, ahead[i - 1], ahead[i]))
              && (forall k :: 0 <= k < |behind| ==> back[k] < backwardLength)
              && (forall k :: 0 <= k < |ahead| ==> front[k] < forwardLength)
              && (back[|behind|] >= backwardLength || EndsOutward(routeSubgraph.previous, routingGraph.previous, first, behind))
              && (front[|ahead|] >= forwardLength || EndsOutward(routeSubgraph.following, routingGraph.following, last, s))
    {
      hide Walk, Reverse, Total, StaysIn;
      var behind, ahead := OutwardBehind(backwardLength), OutwardAhead(forwardLength, backwardLength);
      OutwardStaysOnMap();
      var seen := Reverse(behind) + [currentLanelet];
      WalkIsFresh(OutwardPrevious(), Lengths(), world.ids, currentLanelet, [], EntryToEgo(), backwardLength);
      WalkIsFresh(OutwardFollowing(), Lengths(), world.ids, currentLanelet, seen, EgoToExit(), forwardLength);
      OutwardSequenceCovers(forwardLength, backwardLength);
      var s := OutwardSequence(forwardLength, backwardLength);
      CoversMeans(OutwardPrevious(), currentLanelet, behind, behind, EntryToEgo(), backwardLength, back);
      CoversMeans(OutwardFollowing(), currentLanelet, s, ahead, EgoToExit(), forwardLength, front);
    }

    /** The sequence on the route: connected, on the route, and no lanelet twice but perhaps the current one. */
    lemma RouteSequenceConnected(forwardLength: real, backwardLength: real)
      requires Valid()
      ensures var s := RouteSequence(forwardLength, backwardLength);
              && Connected(routingGraph, s) && Connected(routeSubgraph, s)
              && OnceBut(s, currentLanelet, currentLanelet in RouteBehind(backwardLength))
              && currentLanelet in s && forall x :: x in s ==> x in allRouteLanelets
    {
      AroundIsConnected(routeSubgraph.previous, routeSubgraph.following, routeSubgraph, Lengths(), allRouteLengthCache.Keys,
                        currentLanelet, EntryToEgo(), EgoToExit(), forwardLength, backwardLength);
      ConnectedInWider(routeSubgraph, routingGraph, RouteSequence(forwardLength, backwardLength));
      assert forall x :: x in allRouteLanelets <==> x in Elements(allRouteLanelets);
    }

    /** The sequence that may leave the route: connected as well, and no lanelet twice but perhaps the current one. */
    lemma OutwardSequenceConnected(forwardLength: real, backwardLength: real)
      requires Valid()
      ensures var s := OutwardSequence(forwardLength, backwardLength);
              && Connected(routingGraph, s)
              && OnceBut(s, currentLanelet, currentLanelet in OutwardBehind(backwardLength))
    {
      AroundIsConnected(OutwardPrevious(), OutwardFollowing(), routingGraph, Lengths(), world.ids,
                        currentLanelet, EntryToEgo(), EgoToExit(), forwardLength, backwardLength);
    }

    /** Always the whole sequence: the fallback to the current lanelet alone is never taken. */
    method GetLaneletSequenceOnRoute(forwardLength: real, backwardLength: real) returns (sequence: seq<Id>)
      requires Valid()
      ensures sequence == RouteSequence(forwardLength, backwardLength)
    {
      var behind := TraverseBackward(routeSubgraph.previous, Lengths(), allRouteLengthCache.Keys,
                                     currentLanelet, EntryToEgo(), backwardLength);
      behind := behind + [currentLanelet];
      var all := TraverseForward(routeSubgraph.following, Lengths(), allRouteLengthCache.Keys,
                                 currentLanelet, behind, EgoToExit(), forwardLength);
      RouteSequenceConnected(forwardLength, backwardLength);
      var created := CreateLaneSequence(all, routingGraph);
      if created.Some? {
        return created.value;
      }
      return [currentLanelet];
    }

    method GetLaneletSequenceOutwardRoute(forwardLength: real, backwardLength: real) returns (sequence: seq<Id>)
      requires Valid()
      ensures sequence == OutwardSequence(forwardLength, backwardLength)
    {
      var behind := TraverseBackward(OutwardPrevious(), Lengths(), world.ids, currentLanelet, EntryToEgo(), backwardLength);
      behind := behind + [currentLanelet];
      var all := TraverseForward(OutwardFollowing(), Lengths(), world.ids, currentLanelet, behind, EgoToExit(), forwardLength);
      OutwardSequenceConnected(forwardLength, backwardLength);
      var created := CreateLaneSequence(all, routingGraph);
      if created.Some? {
        return created.value;
      }
      return [currentLanelet];
    }

    // ----- Moving along the route -----

    function Seen(pose: Pose, ids: seq<Id>): (ls: seq<NearestLanelet.Lanelet>)
      ensures |ls| == |ids| && forall i :: 0 <= i < |ids| ==> ls[i] == world.sight(pose, ids[i])
    {
      seq(|ids|, i requires 0 <= i < |ids| => world.sight(pose, ids[i]))
    }

    lemma SeenAreSightings(pose: Pose, ids: seq<Id>)
      requires Valid()
      ensures NearestLanelet.Sightings(Seen(pose, ids))
      ensures forall l :: l in Seen(pose, ids) ==> l.id in ids
    {
      var ls := Seen(pose, ids);
      forall i | 0 <= i < |ls|
        ensures NearestLanelet.Geometric(ls[i]) && ls[i].id == ids[i] && ls[i] == world.sight(pose, ls[i].id)
      {
        assert world.sight(pose, ids[i]).id == ids[i];
      }
    }

    /** next is this manager with another pose and a current lanelet among ids. */
    ghost predicate MovedTo(next: RouteManager, pose: Pose, ids: seq<Id>) {
      next == this.(currentPose := pose, currentLanelet := next.currentLanelet) && next.currentLanelet in ids
    }

    /** What a successful update or commit does. */
    ghost predicate Makes(move: Move, next: RouteManager)
      requires Valid()
    {
      var chosen := Some(world.sight(move.pose, next.currentLanelet));
      match move
      case Update(pose, distThresholdSoft, yawThresholdSoft, searchWindow) =>
        var neighbours := RouteSequence(searchWindow, searchWindow);
        var ls := Seen(pose, neighbours);
        && MovedTo(next, pose, neighbours)
        && (|| RTreeSearch.IsBest(ls, distThresholdSoft, yawThresholdSoft, chosen)
            || (RTreeSearch.IsBest(ls, distThresholdSoft, yawThresholdSoft, None) && NearestLanelet.IsClosest(ls, chosen)))
      case Commit(pose) =>
        && MovedTo(next, pose, allRouteLanelets)
        && NearestLanelet.IsClosest(Seen(pose, allRouteLanelets), chosen)
    }

    /** Moving to a lanelet seen among route lanelets. */
    lemma MoveToSeen(pose: Pose, ids: seq<Id>, l: NearestLanelet.Lanelet)
      requires Valid() && l in Seen(pose, ids) && forall x :: x in ids ==> x in allRouteLanelets
      ensures var next := this.(currentPose := pose, currentLanelet := l.id);
              next.Valid() && MovedTo(next, pose, ids) && world.sight(pose, next.currentLanelet) == l
    {
      var i :| 0 <= i < |ids| && Seen(pose, ids)[i] == l;
      assert world.sight(pose, ids[i]).id == ids[i];
    }

    /**
     * Tracks the pose along the sequence around the current lanelet: the best lanelet within the thresholds, or else
     * the closest. There is no result only when no neighbour is within the thresholds and several tie as closest
     * without a centerline segment.
     */
    method UpdateCurrentPose(pose: Pose, distThresholdSoft: real, yawThresholdSoft: real, searchWindow: real,
                             sort: seq<NearestLanelet.Lanelet> -> seq<NearestLanelet.Lanelet>) returns (r: Option<RouteManager>)
      requires Valid() && RTreeSearch.SortsByDistance(sort)
      ensures match r
              case Some(next) =>
                next.Valid() && Makes(Update(pose, distThresholdSoft, yawThresholdSoft, searchWindow), next)
              case None =>
                var ls := Seen(pose, RouteSequence(searchWindow, searchWindow));
                RTreeSearch.IsBest(ls, distThresholdSoft, yawThresholdSoft, None) && NearestLanelet.IsClosest(ls, None)
    {
      hide Around, MovedTo, OnceBut, Connected;
      var neighbours := GetLaneletSequenceOnRoute(searchWindow, searchWindow);
      RouteSequenceConnected(searchWindow, searchWindow);
      SeenAreSightings(pose, neighbours);
      var ls := Seen(pose, neighbours);
      var closest := RTreeSearch.GetClosestLaneletWithinConstraint(ls, distThresholdSoft, yawThresholdSoft, sort);
      if closest.Some? {
        r := Some(this.(currentPose := pose, currentLanelet := closest.value.id));
        MoveToSeen(pose, neighbours, closest.value);
        return;
      }
      closest := NearestLanelet.GetClosestLanelet(ls);
      if closest.Some? {
        r := Some(this.(currentPose := pose, currentLanelet := closest.value.id));
        MoveToSeen(pose, neighbours, closest.value);
        return;
      }
      return None;
    }

    /** After a lane change: the closest of all route lanelets, found through the R-tree over them. */
    method CommitLaneChangeSuccess(pose: Pose, index: RTreeSearch.Index) returns (r: Option<RouteManager>)
      requires Valid() && RTreeSearch.Indexes(index, Seen(pose, allRouteLanelets))
      ensures match r
              case Some(next) => next.Valid() && Makes(Commit(pose), next)
              case None => NearestLanelet.IsClosest(Seen(pose, allRouteLanelets), None)
    {
      SeenAreSightings(pose, allRouteLanelets);
      var tree := RTreeSearch.LaneletRTree(Seen(pose, allRouteLanelets), index);
      var closest := tree.GetClosestLanelet();
      if closest.Some? {
        r := Some(this.(currentPose := pose, currentLanelet := closest.value.id));
        MoveToSeen(pose, allRouteLanelets, closest.value);
        return;
      }
      return None;
    }
  }

  // ----- Runs -----

  /** Every manager of the run makes the move that gives the next one. */
  ghost predicate IsRun(run: seq<RouteManager>, moves: seq<Move>) {
    |run| == |moves| + 1 && forall i :: 0 <= i < |moves| && run[i].Valid() ==> run[i].Makes(moves[i], run[i + 1])
  }

  /** Neighbouring elements are joined by an edge, in one direction or the other. */
  ghost predicate Chain(g: RoutingGraph, p: seq<Id>) {
    forall k :: 0 <= k < |p| - 1 ==> p[k + 1] in g.following(p[k]) || p[k] in g.following(p[k + 1])
  }

  ghost predicate ChainFrom(g: RoutingGraph, a: Id, b: Id, p: seq<Id>) {
    p != [] && p[0] == a && p[|p| - 1] == b && Chain(g, p)
  }

  /** b is reached from a along the lanes, forward and back, without changing lanes. */
  ghost predicate Joined(g: RoutingGraph, a: Id, b: Id) {
    exists p :: ChainFrom(g, a, b, p)
  }

  lemma ConnectedJoins(g: RoutingGraph, s: seq<Id>, i: nat, j: nat)
    requires Connected(g, s) && i < |s| && j < |s|
    ensures Joined(g, s[i], s[j])
  {
    if i <= j {
      assert ChainFrom(g, s[i], s[j], s[i..j + 1]);
    } else {
      var p := Reverse(s[j..i + 1]);
      assert |p| == i + 1 - j && forall k :: 0 <= k < |p| ==> p[k] == s[i - k];
      forall k | 0 <= k < |p| - 1
        ensures p[k] in g.following(p[k + 1])
      {
        assert s[i - k - 1 + 1] in g.following(s[i - k - 1]);
      }
      assert ChainFrom(g, s[i], s[j], p);
    }
  }

  lemma JoinedTrans(g: RoutingGraph, a: Id, b: Id, c: Id)
    requires Joined(g, a, b) && Joined(g, b, c)
    ensures Joined(g, a, c)
  {
    var p :| ChainFrom(g, a, b, p);
    var q :| ChainFrom(g, b, c, q);
    var r := p + q[1..];
    forall k | 0 <= k < |r| - 1
      ensures r[k + 1] in g.following(r[k]) || r[k] in g.following(r[k + 1])
    {
      if k >= |p| - 1 {
        assert r[k] == q[k - |p| + 1] && r[k + 1] == q[k - |p| + 2];
      }
    }
    assert ChainFrom(g, a, c, r);
  }

  /**
   * A move leads to a valid manager of the same route; an update leads to a lanelet joined to the current one along the
   * lanes of the route.
   */
  lemma MoveKeepsRoute(manager: RouteManager, move: Move, next: RouteManager)
    requires manager.Valid() && manager.Makes(move, next)
    ensures next.Valid()
    ensures next == manager.(currentPose := move.pose, currentLanelet := next.currentLanelet)
    ensures move.Update? ==> Joined(manager.routeSubgraph, manager.currentLanelet, next.currentLanelet)
  {
    hide RTreeSearch.IsBest, NearestLanelet.IsClosest, NearestLanelet.Geometric, Around, OnceBut, Joined;
    if move.Update? {
      var s := manager.RouteSequence(move.searchWindow, move.searchWindow);
      manager.RouteSequenceConnected(move.searchWindow, move.searchWindow);
      var i :| 0 <= i < |s| && s[i] == manager.currentLanelet;
      var j :| 0 <= j < |s| && s[j] == next.currentLanelet;
      ConnectedJoins(manager.routeSubgraph, s, i, j);
    }
  }

  /**
   * The current lanelet should be the one closest to the pose. After an update it is, among the neighbours, if and only
   * if none of them is within the thresholds or one at minimum distance is; after a commit it always is, on the route.
   */
  lemma MoveGivesClosest(manager: RouteManager, move: Move, next: RouteManager)
    requires manager.Valid() && manager.Makes(move, next)
    ensures var chosen := manager.world.sight(move.pose, next.currentLanelet);
            match move
            case Update(pose, distThreshold, yawThreshold, window) =>
              var ls := manager.Seen(pose, manager.RouteSequence(window, window));
              NearestLanelet.AtMinimum(ls, chosen)
              <==> || (forall l :: l in ls ==> !RTreeSearch.Admissible(l, distThreshold, yawThreshold))
                   || exists l :: NearestLanelet.AtMinimum(ls, l) && RTreeSearch.Admissible(l, distThreshold, yawThreshold)
            case Commit(pose) => NearestLanelet.AtMinimum(manager.Seen(pose, manager.allRouteLanelets), chosen)
  {
    hide RouteManager.Valid, RouteManager.RouteSequence;
    match move {
      case Update(pose, distThreshold, yawThreshold, window) =>
        var ls := manager.Seen(pose, manager.RouteSequence(window, window));
        BestOrClosest(ls, distThreshold, yawThreshold, manager.world.sight(pose, next.currentLanelet));
      case Commit(pose) =>
    }
  }

  lemma BestOrClosest(ls: seq<NearestLanelet.Lanelet>, distThreshold: real, yawThreshold: real, chosen: NearestLanelet.Lanelet)
    requires || RTreeSearch.IsBest(ls, distThreshold, yawThreshold, Some(chosen))
             || (RTreeSearch.IsBest(ls, distThreshold, yawThreshold, None) && NearestLanelet.IsClosest(ls, Some(chosen)))
    ensures NearestLanelet.AtMinimum(ls, chosen)
            <==> || (forall l :: l in ls ==> !RTreeSearch.Admissible(l, distThreshold, yawThreshold))
                 || exists l :: NearestLanelet.AtMinimum(ls, l) && RTreeSearch.Admissible(l, distThreshold, yawThreshold)
  {
    if RTreeSearch.IsBest(ls, distThreshold, yawThreshold, Some(chosen)) {
      if l :| NearestLanelet.AtMinimum(ls, l) && RTreeSearch.Admissible(l, distThreshold, yawThreshold) {
        assert RTreeSearch.LexLeq(chosen, l);
      }
    }
  }

  /** Over every run of updates and commits the current lanelet is one of the route's, and the route never changes. */
  lemma {:induction false} RunStaysOnRoute(run: seq<RouteManager>, moves: seq<Move>)
    requires IsRun(run, moves) && run[0].Valid()
    ensures var last := run[|run| - 1];
            && last.Valid() && last.currentLanelet in run[0].allRouteLanelets
            && last == run[0].(currentPose := last.currentPose, currentLanelet := last.currentLanelet)
  {
    if moves == [] {
    } else {
      var n := |moves|;
      RunStaysOnRoute(run[..n], moves[..n - 1]);
      MoveKeepsRoute(run[n - 1], moves[n - 1], run[n]);
    }
  }

  /**
   * Over every run of updates without a commit the manager tracks its lane: the last current lanelet is joined to the
   * first by a chain of following and previous edges of the route. Another lane is only reached by a commit.
   */
  lemma {:induction false} UpdatesTrackTheLane(run: seq<RouteManager>, moves: seq<Move>)
    requires IsRun(run, moves) && run[0].Valid() && forall i :: 0 <= i < |moves| ==> moves[i].Update?
    ensures Joined(run[0].routeSubgraph, run[0].currentLanelet, run[|run| - 1].currentLanelet)
  {
    if moves == [] {
      assert ChainFrom(run[0].routeSubgraph, run[0].currentLanelet, run[0].currentLanelet, [run[0].currentLanelet]);
    } else {
      var n := |moves|;
      UpdatesTrackTheLane(run[..n], moves[..n - 1]);
      RunStaysOnRoute(run[..n], moves[..n - 1]);
      MoveKeepsRoute(run[n - 1], moves[n - 1], run[n]);
      JoinedTrans(run[0].routeSubgraph, run[0].currentLanelet, run[n - 1].currentLanelet, run[n].currentLanelet);
    }
  }

  // ----- One map -----

  /** At most one neighbour each. */
  function Single(m: map<Id, Id>): Id -> seq<Id> {
    a => if a in m then [m[a]] else []
  }

  lemma SingleStays(m: map<Id, Id>, ids: set<Id>)
    requires m.Values <= ids
    ensures StaysIn(Single(m), ids)
  {
  }

  lemma SingleConverse(g: RoutingGraph, m: map<Id, Id>, w: map<Id, Id>)
    requires g.following == Single(m) && g.previous == Single(w)
    requires (forall a :: a in m ==> m[a] in w && w[m[a]] == a) && forall a :: a in w ==> w[a] in m && m[w[a]] == a
    ensures Converse(g)
  {
  }

  /** Every lanelet is 5 m away and has no centerline segment. */
  function TiedSight(pose: Pose, id: Id): NearestLanelet.Lanelet {
    NearestLanelet.Lanelet(id, 5.0, 25.0, false, 0.0, 0.0, 0.0, None, 0.0, false)
  }

  /** Lanelet 1 is 1 m away and crossed at an angle of 3, any other is 2 m away and aligned. */
  function CrossedSight(pose: Pose, id: Id): NearestLanelet.Lanelet {
    if id == 1 then NearestLanelet.Lanelet(id, 1.0, 1.0, false, 0.0, 0.0, 0.0, None, 3.0, false)
    else NearestLanelet.Lanelet(id, 2.0, 4.0, false, 0.0, 0.0, 0.0, None, 0.0, false)
  }

  ghost predicate IsSight(sight: (Pose, Id) -> NearestLanelet.Lanelet) {
    forall pose, id :: sight(pose, id).id == id && NearestLanelet.Geometric(sight(pose, id))
  }

  lemma SampleSights()
    ensures IsSight(TiedSight) && IsSight(CrossedSight)
  {
  }

  /**
   * The route 1 -> 2 on a map that leads on from 2 to 3 and back to 1. The lanelets are 4 m, 3 m and 2 m long, and ego is
   * 1.5 m into lanelet 1.
   */
  function LoopedMap(pose: Pose, sight: (Pose, Id) -> NearestLanelet.Lanelet): RouteManager {
    RouteManager(
      World({1, 2, 3}, a => if a == 1 then 4.0 else if a == 2 then 3.0 else 2.0, (a, p) => 1.5, sight),
      RoutingGraph(Single(map[1 := 2, 2 := 3, 3 := 1]), Single(map[2 := 1, 3 := 2, 1 := 3]), a => 1.0, 1.0),
      RoutingGraph(Single(map[1 := 2]), Single(map[2 := 1]), a => 1.0, 1.0),
      [1, 2], map[1 := 4.0, 2 := 3.0], [1, 2], 1, 2, pose, 1)
  }

  lemma LoopedMapIsValid(pose: Pose, sight: (Pose, Id) -> NearestLanelet.Lanelet)
    requires IsSight(sight)
    ensures LoopedMap(pose, sight).Valid()
  {
    hide StaysIn, Converse;
    LoopedMapGraphs(pose, sight);
    assert Elements([1, 2]) == {1, 2};
  }

  lemma LoopedMapGraphs(pose: Pose, sight: (Pose, Id) -> NearestLanelet.Lanelet)
    ensures var m := LoopedMap(pose, sight);
            && Converse(m.routingGraph) && Converse(m.routeSubgraph)
            && StaysIn(m.routeSubgraph.following, m.allRouteLengthCache.Keys)
            && StaysIn(m.routeSubgraph.previous, m.allRouteLengthCache.Keys)
            && StaysIn(m.routingGraph.following, m.world.ids) && StaysIn(m.routingGraph.previous, m.world.ids)
  {
    hide Single, StaysIn, Converse;
    var m := LoopedMap(pose, sight);
    var next, last := map[1 := 2, 2 := 3, 3 := 1], map[2 := 1, 3 := 2, 1 := 3];
    SingleConverse(m.routingGraph, next, last);
    SingleConverse(m.routeSubgraph, map[1 := 2], map[2 := 1]);
    SingleStays(next, {1, 2, 3});
    SingleStays(last, {1, 2, 3});
    SingleStays(map[1 := 2], {1, 2});
    SingleStays(map[2 := 1], {1, 2});
    assert m.allRouteLengthCache.Keys == {1, 2};
  }

  lemma LoopedMapRoute(pose: Pose, sight: (Pose, Id) -> NearestLanelet.Lanelet, backwardLength: real)
    requires IsSight(sight)
    ensures var m := LoopedMap(pose, sight);
            m.Valid() && m.RouteBehind(backwardLength) == [] && m.RouteAhead(5.0, backwardLength) == [2]
            && m.RouteAhead(2.5, backwardLength) == []
            && m.RouteSequence(5.0, backwardLength) == [1, 2]
  {
    var m := LoopedMap(pose, sight);
    LoopedMapIsValid(pose, sight);
    hide RouteManager.Valid;
    assert m.RouteBehind(backwardLength) == [];
    assert Reverse([]) + [1] == [1];
    var step, ids := m.routeSubgraph.following, m.allRouteLengthCache.Keys;
    assert Walk(step, m.Lengths(), ids, 2, [1] + [2], 5.5, 5.0) == [];
    assert Walk(step, m.Lengths(), ids, 1, [1], 2.5, 5.0) == [2];
  }

  /** Going back 4 m off the route comes round to lanelet 2, so nothing is left ahead where the route has it ahead. */
  lemma OutwardMayFallShort(pose: Pose)
    ensures var m := LoopedMap(pose, TiedSight);
            && m.Valid() && m.RouteSequence(5.0, 4.0) == [1, 2]
            && m.OutwardSequence(5.0, 4.0) == [2, 3, 1] && m.OutwardAhead(5.0, 4.0) == []
  {
    hide RouteManager.Valid, IsSight, TiedSight, NearestLanelet.Geometric;
    SampleSights();
    var m := LoopedMap(pose, TiedSight);
    LoopedMapRoute(pose, TiedSight, 4.0);
    var step, ids := m.OutwardPrevious(), m.world.ids;
    assert Walk(step, m.Lengths(), ids, 2, [3] + [2], 6.5, 4.0) == [];
    assert Walk(step, m.Lengths(), ids, 3, [] + [3], 3.5, 4.0) == [2];
    assert m.OutwardBehind(4.0) == [3, 2];
    assert Reverse([3, 2]) + [1] == [2, 3, 1];
  }

  /** Two neighbours out of bounds, equally far and without a centerline segment: no update is possible. */
  lemma UpdateMayFail(pose: Pose, yawThreshold: real)
    ensures var m := LoopedMap(pose, TiedSight);
            && m.Valid() && m.RouteSequence(5.0, 5.0) == [1, 2]
            && RTreeSearch.IsBest(m.Seen(pose, [1, 2]), 1.0, yawThreshold, None)
            && NearestLanelet.IsClosest(m.Seen(pose, [1, 2]), None)
            && forall next :: !m.Makes(Update(pose, 1.0, yawThreshold, 5.0), next)
  {
    hide RouteManager.Valid, RouteManager.RouteSequence, RouteManager.Makes, IsSight, NearestLanelet.Geometric;
    hide RTreeSearch.IsBest, NearestLanelet.IsClosest;
    SampleSights();
    var m := LoopedMap(pose, TiedSight);
    LoopedMapRoute(pose, TiedSight, 5.0);
    TiedAfar(m.Seen(pose, [1, 2]), yawThreshold);
    forall next
      ensures !m.Makes(Update(pose, 1.0, yawThreshold, 5.0), next)
    {
      NoMove(m, pose, 1.0, yawThreshold, 5.0, next);
    }
  }

  lemma TiedAfar(ls: seq<NearestLanelet.Lanelet>, yawThreshold: real)
    requires |ls| == 2 && ls[0] != ls[1] && ls[0].dist == ls[1].dist == 5.0 && ls[0].segment.None? && ls[1].segment.None?
    ensures RTreeSearch.IsBest(ls, 1.0, yawThreshold, None) && NearestLanelet.IsClosest(ls, None)
  {
    assert NearestLanelet.AtMinimum(ls, ls[0]) && NearestLanelet.AtMinimum(ls, ls[1]);
  }

  /** When there is neither a best neighbour nor a closest one, no update is made. */
  lemma NoMove(m: RouteManager, pose: Pose, distThreshold: real, yawThreshold: real, window: real, next: RouteManager)
    requires m.Valid()
    requires var ls := m.Seen(pose, m.RouteSequence(window, window));
             RTreeSearch.IsBest(ls, distThreshold, yawThreshold, None) && NearestLanelet.IsClosest(ls, None)
    ensures !m.Makes(Update(pose, distThreshold, yawThreshold, window), next)
  {
    hide RouteManager.Valid, RouteManager.RouteSequence, NearestLanelet.IsClosest, RTreeSearch.IsBest;
    var ls, chosen := m.Seen(pose, m.RouteSequence(window, window)), Some(m.world.sight(pose, next.currentLanelet));
    if m.Makes(Update(pose, distThreshold, yawThreshold, window), next) {
      if RTreeSearch.IsBest(ls, distThreshold, yawThreshold, chosen) {
        RTreeSearch.BestAgree(ls, distThreshold, yawThreshold, chosen, None);
      } else {
        NearestLanelet.ClosestAgree(ls, chosen, None);
      }
    }
  }

  /** The closest lanelet is crossed, so an update takes the next one, which is not closest. */
  lemma UpdateMayLeaveClosest(pose: Pose)
    ensures var m := LoopedMap(pose, CrossedSight);
            var next := m.(currentPose := pose, currentLanelet := 2);
            && m.Valid() && m.Makes(Update(pose, 3.0, 1.0, 5.0), next)
            && !NearestLanelet.AtMinimum(m.Seen(pose, m.RouteSequence(5.0, 5.0)), m.world.sight(pose, 2))
  {
    hide RouteManager.Valid, RouteManager.RouteSequence, IsSight, NearestLanelet.Geometric, RTreeSearch.IsBest;
    hide NearestLanelet.AtMinimum, NearestLanelet.IsClosest;
    SampleSights();
    var m := LoopedMap(pose, CrossedSight);
    LoopedMapRoute(pose, CrossedSight, 5.0);
    var ls := m.Seen(pose, [1, 2]);
    CrossedNearby(ls, ls[1]);
  }

  lemma CrossedNearby(ls: seq<NearestLanelet.Lanelet>, chosen: NearestLanelet.Lanelet)
    requires |ls| == 2 && chosen == ls[1] && ls[0].dist == 1.0 && ls[0].angleDiff == 3.0
    requires ls[1].dist == 2.0 && ls[1].angleDiff == 0.0
    ensures RTreeSearch.IsBest(ls, 3.0, 1.0, Some(chosen)) && !NearestLanelet.AtMinimum(ls, chosen)
  {
    assert ls[0].dist < chosen.dist;
  }
}
