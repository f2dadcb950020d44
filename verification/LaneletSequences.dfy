/**
 * Enumeration of the lanelet sequences ahead of and behind a lanelet, up to a length limit, on a routing graph that may
 * have cycles.
 */
module LaneletSequences {
  import opened RealArithmetic
  import opened Searching

  type Id = int

  /** following and previous list the neighbours of a lanelet; minLength bounds every lanelet length from below. */
  datatype RoutingGraph = RoutingGraph(
    following: Id -> seq<Id>,
    previous: Id -> seq<Id>,
    length: Id -> real,
    minLength: real)

  ghost predicate Converse(g: RoutingGraph) {
    forall a, b :: b in g.following(a) <==> a in g.previous(b)
  }

  /** One direction of travel: the lanelets that may come next, and the lengths. */
  datatype Travel = Travel(next: Id -> seq<Id>, length: Id -> real, minLength: real)

  ghost predicate PositiveLengths(t: Travel) {
    t.minLength > 0.0 && forall a :: t.length(a) >= t.minLength
  }

  function Ahead(g: RoutingGraph): Travel {
    Travel(g.following, g.length, g.minLength)
  }

  function Without(ids: seq<Id>, exclude: seq<Id>): (r: seq<Id>)
    ensures forall x :: x in r <==> x in ids && x !in exclude
  {
    if ids == [] then []
    else if ids[|ids| - 1] in exclude then Without(ids[..|ids| - 1], exclude)
    else Without(ids[..|ids| - 1], exclude) + [ids[|ids| - 1]]
  }

  /** The graph whose predecessor lists have the excluded lanelets removed. */
  function Pruned(g: RoutingGraph, exclude: seq<Id>): RoutingGraph {
    g.(previous := a => Without(g.previous(a), exclude))
  }

  function Behind(g: RoutingGraph): Travel {
    Travel(g.previous, g.length, g.minLength)
  }

  // ----- The paths, as the recursion builds them: furthest lanelet first -----

  function AppendAll(paths: seq<seq<Id>>, last: Id): (r: seq<seq<Id>>)
    ensures |r| == |paths| && forall i :: 0 <= i < |r| ==> r[i] == paths[i] + [last]
  {
    seq(|paths|, i requires 0 <= i < |paths| => paths[i] + [last])
  }

  /** A measure that every lanelet travelled brings down by at least one. */
  function Budget(t: Travel, remaining: real): real
    requires t.minLength > 0.0
  {
    Max(remaining, 0.0) / t.minLength
  }

  lemma BudgetFalls(t: Travel, remaining: real, length: real)
    requires t.minLength > 0.0 && length >= t.minLength && length < remaining
    ensures Budget(t, remaining) >= 1.0 && Budget(t, remaining - length) <= Budget(t, remaining) - 1.0
  {
    QuotientFalls(Budget(t, remaining), Budget(t, remaining - length), t.minLength, remaining, length);
  }

  lemma QuotientFalls(q: real, q': real, m: real, remaining: real, length: real)
    requires m > 0.0 && q * m == remaining && q' * m == remaining - length && m <= length < remaining
    ensures q >= 1.0 && q' <= q - 1.0
  {
    if q' > q - 1.0 {
      MulPositive(q' - (q - 1.0), m);
    }
    if q < 1.0 {
      MulPositive(1.0 - q, m);
    }
  }

  /** Every path ends, furthest first, in the lanelet it starts from. */
  predicate EndsIn(path: seq<Id>, last: Id) {
    path != [] && path[|path| - 1] == last
  }

  ghost function Paths(t: Travel, current: Id, remaining: real): (r: seq<seq<Id>>)
    requires PositiveLengths(t)
    ensures r != [] && forall i :: 0 <= i < |r| ==> EndsIn(r[i], current)
    decreases Budget(t, remaining), 0
  {
    if t.next(current) == [] || t.length(current) >= remaining then [[current]]
    else
      BudgetFalls(t, remaining, t.length(current));
      AppendAll(PathsFromEach(t, t.next(current), remaining - t.length(current)), current)
  }

  ghost function PathsFromEach(t: Travel, starts: seq<Id>, remaining: real): (r: seq<seq<Id>>)
    requires PositiveLengths(t)
    ensures r == [] <==> starts == []
    ensures forall i :: 0 <= i < |r| ==> r[i] != [] && r[i][|r[i]| - 1] in starts
    decreases Budget(t, remaining), 1, |starts|
  {
    if starts == [] then []
    else PathsFromEach(t, starts[..|starts| - 1], remaining) + Paths(t, starts[|starts| - 1], remaining)
  }

  // ----- What the paths are -----

  function Reverse(p: seq<Id>): (r: seq<Id>)
    ensures |r| == |p| && forall i :: 0 <= i < |p| ==> r[i] == p[|p| - 1 - i]
  {
    if p == [] then [] else Reverse(p[1..]) + [p[0]]
  }

  /** The length of the first k lanelets of p. */
  function TravelLength(t: Travel, p: seq<Id>, k: nat): real
    requires k <= |p|
  {
    if k == 0 then 0.0 else TravelLength(t, p, k - 1) + t.length(p[k - 1])
  }

  /**
   * p, nearest lanelet first, follows the lanes and stops at the first lanelet where the accumulated length reaches the
   * limit or nothing follows.
   */
  ghost predicate StoppingPath(t: Travel, p: seq<Id>, limit: real) {
    && p != []
    && (forall i :: 0 <= i < |p| - 1 ==> p[i + 1] in t.next(p[i]))
    && (forall k :: 0 < k < |p| ==> TravelLength(t, p, k) < limit)
    && (t.next(p[|p| - 1]) == [] || TravelLength(t, p, |p|) >= limit)
  }

  lemma {:induction false} TravelLengthShift(t: Travel, p: seq<Id>, k: nat)
    requires 0 < k <= |p|
    ensures TravelLength(t, p, k) == t.length(p[0]) + TravelLength(t, p[1..], k - 1)
  {
    if k == 1 {
    } else {
      TravelLengthShift(t, p, k - 1);
    }
  }

  /** Taking the first lanelet off a path that goes on leaves a stopping path for the remaining limit, and back. */
  lemma StoppingPathTail(t: Travel, p: seq<Id>, limit: real)
    requires |p| >= 2
    ensures StoppingPath(t, p, limit)
       <==> p[1] in t.next(p[0]) && t.length(p[0]) < limit && StoppingPath(t, p[1..], limit - t.length(p[0]))
  {
    var tail := p[1..];
    forall k | 0 < k <= |p|
      ensures TravelLength(t, p, k) == t.length(p[0]) + TravelLength(t, tail, k - 1)
    {
      TravelLengthShift(t, p, k);
    }
    if StoppingPath(t, p, limit) {
      assert TravelLength(t, p, 1) < limit;
      forall k | 0 < k < |tail|
        ensures TravelLength(t, tail, k) < limit - t.length(p[0])
      {
        assert TravelLength(t, p, k + 1) < limit;
      }
      forall i | 0 <= i < |tail| - 1
        ensures tail[i + 1] in t.next(tail[i])
      {
        assert p[i + 1 + 1] in t.next(p[i + 1]);
      }
    }
    if p[1] in t.next(p[0]) && t.length(p[0]) < limit && StoppingPath(t, tail, limit - t.length(p[0])) {
      forall i | 0 <= i < |p| - 1
        ensures p[i + 1] in t.next(p[i])
      {
        assert i > 0 ==> tail[i] in t.next(tail[i - 1]);
      }
    }
  }

  /** The recursion returns exactly the stopping paths that start at the current lanelet, furthest lanelet first. */
  lemma {:induction false} PathsAreStoppingPaths(t: Travel, current: Id, limit: real, p: seq<Id>)
    requires PositiveLengths(t)
    ensures Reverse(p) in Paths(t, current, limit) <==> p != [] && p[0] == current && StoppingPath(t, p, limit)
    decreases |p|, 0
  {
    if |p| == 1 {
      assert Reverse(p) == [] + [p[0]] && TravelLength(t, p, 1) == t.length(p[0]);
    } else if |p| >= 2 {
      assert TravelLength(t, p, 1) == t.length(p[0]);
      StoppingPathTail(t, p, limit);
    }
    if p != [] && t.next(current) != [] && t.length(current) < limit {
      var rest := limit - t.length(current);
      BudgetFalls(t, limit, t.length(current));
      AppendedIn(PathsFromEach(t, t.next(current), rest), current, Reverse(p[1..]), p[0]);
      if |p| >= 2 {
        PathsFromEachAre(t, t.next(current), rest, p[1..]);
      }
    } else if p != [] {
      assert Paths(t, current, limit) == [[current]] && Reverse(p)[|p| - 1] == p[0];
      assert |p| == 1 && p[0] == current ==> Reverse(p) == [current];
    }
  }

  lemma AppendedIn(paths: seq<seq<Id>>, last: Id, path: seq<Id>, end: Id)
    ensures path + [end] in AppendAll(paths, last) <==> path in paths && end == last
  {
    if path + [end] in AppendAll(paths, last) {
      var i :| 0 <= i < |paths| && AppendAll(paths, last)[i] == path + [end];
      assert (paths[i] + [last])[..|paths[i]|] == paths[i] && (path + [end])[..|path|] == path;
      assert (paths[i] + [last])[|paths[i]|] == last;
    }
    if path in paths && end == last {
      var i :| 0 <= i < |paths| && paths[i] == path;
      assert AppendAll(paths, last)[i] == path + [end];
    }
  }

  lemma {:induction false} PathsFromEachAre(t: Travel, starts: seq<Id>, limit: real, p: seq<Id>)
    requires PositiveLengths(t) && p != []
    ensures Reverse(p) in PathsFromEach(t, starts, limit) <==> p[0] in starts && StoppingPath(t, p, limit)
    decreases |p|, 1, |starts|
  {
    if starts == [] {
    } else {
      PathsFromEachAre(t, starts[..|starts| - 1], limit, p);
      PathsAreStoppingPaths(t, starts[|starts| - 1], limit, p);
    }
  }

  // ----- No path twice -----

  ghost predicate Distinct<T>(s: seq<T>) {
    forall i, j :: 0 <= i < j < |s| ==> s[i] != s[j]
  }

  ghost predicate DistinctNeighbours(t: Travel) {
    forall a :: Distinct(t.next(a))
  }

  lemma {:induction false} PathsDistinct(t: Travel, current: Id, limit: real)
    requires PositiveLengths(t) && DistinctNeighbours(t)
    ensures Distinct(Paths(t, current, limit))
    decreases Budget(t, limit), 0
  {
    if t.next(current) == [] || t.length(current) >= limit {
    } else {
      var rest := limit - t.length(current);
      BudgetFalls(t, limit, t.length(current));
      PathsFromEachDistinct(t, t.next(current), rest);
      var tails := PathsFromEach(t, t.next(current), rest);
      forall i, j | 0 <= i < j < |tails|
        ensures tails[i] + [current] != tails[j] + [current]
      {
        assert (tails[i] + [current])[..|tails[i]|] == tails[i] && (tails[j] + [current])[..|tails[j]|] == tails[j];
      }
    }
  }

  lemma {:induction false} PathsFromEachDistinct(t: Travel, starts: seq<Id>, limit: real)
    requires PositiveLengths(t) && DistinctNeighbours(t) && Distinct(starts)
    ensures Distinct(PathsFromEach(t, starts, limit))
    decreases Budget(t, limit), 1, |starts|
  {
    if starts == [] {
    } else {
      var earlier, last := starts[..|starts| - 1], starts[|starts| - 1];
      PathsFromEachDistinct(t, earlier, limit);
      PathsDistinct(t, last, limit);
      var left, right := PathsFromEach(t, earlier, limit), Paths(t, last, limit);
      forall i, j | 0 <= i < |left| && 0 <= j < |right|
        ensures left[i] != right[j]
      {
        assert EndsIn(right[j], last);
      }
    }
  }

  // ----- Excluding lanelets -----

  /** Paths depend on the neighbour lists only, not on how they are represented. */
  lemma {:induction false} SamePaths(t: Travel, u: Travel, current: Id, limit: real)
    requires PositiveLengths(t) && SameTravel(t, u)
    ensures Paths(t, current, limit) == Paths(u, current, limit)
    decreases Budget(t, limit), 0
  {
    if t.next(current) == [] || t.length(current) >= limit {
    } else {
      BudgetFalls(t, limit, t.length(current));
      SamePathsFromEach(t, u, t.next(current), limit - t.length(current));
    }
  }

  ghost predicate SameTravel(t: Travel, u: Travel) {
    t.length == u.length && t.minLength == u.minLength && forall a :: t.next(a) == u.next(a)
  }

  lemma {:induction false} SamePathsFromEach(t: Travel, u: Travel, starts: seq<Id>, limit: real)
    requires PositiveLengths(t) && SameTravel(t, u)
    ensures PathsFromEach(t, starts, limit) == PathsFromEach(u, starts, limit)
    decreases Budget(t, limit), 1, |starts|
  {
    if starts == [] {
    } else {
      SamePathsFromEach(t, u, starts[..|starts| - 1], limit);
      SamePaths(t, u, starts[|starts| - 1], limit);
    }
  }

  lemma {:induction false} WithoutNone(ids: seq<Id>)
    ensures Without(ids, []) == ids
  {
    if ids == [] {
    } else {
      WithoutNone(ids[..|ids| - 1]);
    }
  }

  /** The paths with an exclusion list are the paths with an empty list on the pruned graph. */
  lemma ExcludingIsPruning(g: RoutingGraph, exclude: seq<Id>, lanelet: Id, length: real)
    requires PositiveLengths(Behind(g))
    ensures PrecedingPaths(g, exclude, lanelet, length) == PrecedingPaths(Pruned(g, exclude), [], lanelet, length)
  {
    var pruned := Pruned(g, exclude);
    forall a
      ensures Behind(pruned).next(a) == Behind(Pruned(pruned, [])).next(a)
    {
      WithoutNone(pruned.previous(a));
    }
    SamePathsFromEach(Behind(pruned), Behind(Pruned(pruned, [])), pruned.previous(lanelet), length);
  }

  /** The paths behind a lanelet that avoid the excluded lanelets, furthest lanelet first. */
  ghost function PrecedingPaths(g: RoutingGraph, exclude: seq<Id>, lanelet: Id, length: real): seq<seq<Id>>
    requires PositiveLengths(Behind(g))
  {
    PathsFromEach(Behind(Pruned(g, exclude)), Pruned(g, exclude).previous(lanelet), length)
  }

  // ----- The recursive enumerators -----

  lemma AppendAllConcat(a: seq<seq<Id>>, b: seq<seq<Id>>, last: Id)
    ensures AppendAll(a + b, last) == AppendAll(a, last) + AppendAll(b, last)
  {
  }

  /** The inner loop: puts current behind every sequence found from a neighbour. */
  method WithCurrent(tmp: seq<seq<Id>>, current: Id) returns (sequences: seq<seq<Id>>)
    ensures sequences == AppendAll(tmp, current)
  {
    sequences := [];
    for j := 0 to |tmp|
      invariant |sequences| == j && forall k :: 0 <= k < j ==> sequences[k] == tmp[k] + [current]
    {
      sequences := sequences + [tmp[j] + [current]];
    }
  }

  /** One more start adds the paths from it. */
  lemma OneMoreStart(t: Travel, starts: seq<Id>, start: Id, remaining: real)
    requires PositiveLengths(t)
    ensures PathsFromEach(t, starts + [start], remaining) == PathsFromEach(t, starts, remaining) + Paths(t, start, remaining)
  {
    assert (starts + [start])[..|starts|] == starts;
  }

  /** Lanelet sequences ahead of current, furthest lanelet first. */
  method SucceedingRecursive(g: RoutingGraph, current: Id, remaining: real) returns (sequences: seq<seq<Id>>)
    requires PositiveLengths(Ahead(g))
    ensures sequences == Paths(Ahead(g), current, remaining)
    decreases Budget(Ahead(g), remaining)
  {
    sequences := [];
    var next, length := g.following(current), g.length(current);
    if next == [] || length >= remaining {
      return [[current]];
    }
    BudgetFalls(Ahead(g), remaining, length);
    for i := 0 to |next|
      invariant sequences == AppendAll(PathsFromEach(Ahead(g), next[..i], remaining - length), current)
    {
      var tmp := SucceedingRecursive(g, next[i], remaining - length);
      var appended := WithCurrent(tmp, current);
      assert next[..i + 1] == next[..i] + [next[i]];
      OneMoreStart(Ahead(g), next[..i], next[i], remaining - length);
      AppendAllConcat(PathsFromEach(Ahead(g), next[..i], remaining - length), tmp, current);
      sequences := sequences + appended;
    }
    assert next[..|next|] == next;
  }

  /** Lanelet sequences behind current that avoid the excluded lanelets, furthest lanelet first. */
  method PrecedingRecursive(g: RoutingGraph, current: Id, remaining: real, exclude: seq<Id>)
    returns (sequences: seq<seq<Id>>)
    requires PositiveLengths(Behind(g))
    ensures sequences == Paths(Behind(Pruned(g, exclude)), current, remaining)
    decreases Budget(Behind(g), remaining)
  {
    hide PathsFromEach;
    ghost var behind := Behind(Pruned(g, exclude));
    sequences := [];
    var prev, length := g.previous(current), g.length(current);
    if prev == [] || length >= remaining {
      return [[current]];
    }
    BudgetFalls(behind, remaining, length);
    for i := 0 to |prev|
      invariant sequences == AppendAll(PathsFromEach(behind, Without(prev[..i], exclude), remaining - length), current)
    {
      assert prev[..i + 1][..i] == prev[..i];
      if prev[i] in exclude {
        continue;
      }
      var tmp := PrecedingRecursive(g, prev[i], remaining - length, exclude);
      var appended := WithCurrent(tmp, current);
      ghost var kept := Without(prev[..i], exclude);
      OneMoreStart(behind, kept, prev[i], remaining - length);
      AppendAllConcat(PathsFromEach(behind, kept, remaining - length), tmp, current);
      sequences := sequences + appended;
    }
    assert prev[..|prev|] == prev;
    if sequences == [] {
      sequences := [[current]];
    }
  }

  /**
   * Lanelet sequences leading to a lanelet, furthest lanelet first: exactly the stopping paths against the lanes that
   * avoid the excluded lanelets, turned round.
   */
  method GetPrecedingLaneletSequences(g: RoutingGraph, lanelet: Id, length: real, exclude: seq<Id>)
    returns (sequences: seq<seq<Id>>)
    requires PositiveLengths(Behind(g))
    ensures sequences == PrecedingPaths(g, exclude, lanelet, length)
    ensures forall p :: p != [] ==>
              (Reverse(p) in sequences
               <==> p[0] in g.previous(lanelet) && p[0] !in exclude && StoppingPath(Behind(Pruned(g, exclude)), p, length))
    ensures DistinctNeighbours(Behind(Pruned(g, exclude))) ==> Distinct(sequences)
  {
    ghost var behind := Behind(Pruned(g, exclude));
    var prev := g.previous(lanelet);
    sequences := [];
    for i := 0 to |prev|
      invariant sequences == PathsFromEach(behind, Without(prev[..i], exclude), length)
    {
      assert prev[..i + 1][..i] == prev[..i];
      if prev[i] in exclude {
        continue;
      }
      var tmp := PrecedingRecursive(g, prev[i], length, exclude);
      OneMoreStart(behind, Without(prev[..i], exclude), prev[i], length);
      sequences := sequences + tmp;
    }
    assert prev[..|prev|] == prev;
    forall p | p != []
      ensures Reverse(p) in sequences <==> p[0] in prev && p[0] !in exclude && StoppingPath(behind, p, length)
    {
      PathsFromEachAre(behind, Without(prev, exclude), length, p);
    }
    if DistinctNeighbours(behind) {
      assert Distinct(behind.next(lanelet));
      PathsFromEachDistinct(behind, Without(prev, exclude), length);
    }
  }

  /** Read furthest first, a path behind a lanelet follows the lanes, avoids the excluded lanelets and leads to it. */
  lemma PrecedingFollowsLanes(g: RoutingGraph, exclude: seq<Id>, lanelet: Id, length: real, p: seq<Id>)
    requires Converse(g) && p != [] && p[0] in Pruned(g, exclude).previous(lanelet)
    requires StoppingPath(Behind(Pruned(g, exclude)), p, length)
    ensures var s := Reverse(p) + [lanelet];
            && (forall i :: 0 <= i < |s| - 1 ==> s[i + 1] in g.following(s[i]))
            && forall i :: 0 <= i < |s| - 1 ==> s[i] !in exclude
  {
    var s := Reverse(p) + [lanelet];
    forall i | 0 <= i < |s| - 1
      ensures s[i + 1] in g.following(s[i]) && s[i] !in exclude
    {
      var k := |p| - 1 - i;
      if k > 0 {
        assert p[k - 1 + 1] in Behind(Pruned(g, exclude)).next(p[k - 1]);
      }
    }
  }

  /** dist[k] is the length of the first k lanelets of p, summed up one by one. */
  ghost predicate RunningLengths(g: RoutingGraph, p: seq<Id>, dist: seq<real>) {
    && |dist| == |p| + 1 && dist[0] == 0.0
    && forall k :: 0 <= k < |p| ==> dist[k + 1] == dist[k] + g.length(p[k])
  }

  lemma {:induction false} RunningLength(t: Travel, g: RoutingGraph, p: seq<Id>, dist: seq<real>, k: nat)
    requires RunningLengths(g, p, dist) && t.length == g.length && k <= |p|
    ensures TravelLength(t, p, k) == dist[k]
  {
    if k == 0 {
    } else {
      RunningLength(t, g, p, dist, k - 1);
      assert dist[k - 1 + 1] == dist[k - 1] + g.length(p[k - 1]);
    }
  }

  /**
   * What a stopping path ahead is, written out: it follows the lanes, the lengths before its last lanelet sum up to less
   * than the limit, and with the last lanelet they reach it or nothing follows.
   */
  lemma SucceedingMeans(g: RoutingGraph, length: real, p: seq<Id>, dist: seq<real>)
    requires RunningLengths(g, p, dist) && p != []
    ensures StoppingPath(Ahead(g), p, length)
            <==> && (forall i :: 0 <= i < |p| - 1 ==> p[i + 1] in g.following(p[i]))
                 && (forall k :: 0 < k < |p| ==> dist[k] < length)
                 && (g.following(p[|p| - 1]) == [] || dist[|p|] >= length)
  {
    hide TravelLength;
    RunningLengthsStop(Ahead(g), g, length, p, dist);
  }

  lemma RunningLengthsStop(t: Travel, g: RoutingGraph, limit: real, p: seq<Id>, dist: seq<real>)
    requires RunningLengths(g, p, dist) && t.length == g.length && p != []
    ensures StoppingPath(t, p, limit)
            <==> && (forall i :: 0 <= i < |p| - 1 ==> p[i + 1] in t.next(p[i]))
                 && (forall k :: 0 < k < |p| ==> dist[k] < limit)
                 && (t.next(p[|p| - 1]) == [] || dist[|p|] >= limit)
  {
    forall k: nat | k <= |p|
      ensures TravelLength(t, p, k) == dist[k]
    {
      RunningLength(t, g, p, dist, k);
    }
  }

  /** From a lanelet on, a path ahead of it follows the lanes. */
  lemma SucceedingFollowsLanes(g: RoutingGraph, lanelet: Id, length: real, p: seq<Id>)
    requires p != [] && p[0] in g.following(lanelet) && StoppingPath(Ahead(g), p, length)
    ensures var s := [lanelet] + p; forall i :: 0 <= i < |s| - 1 ==> s[i + 1] in g.following(s[i])
  {
    var s := [lanelet] + p;
    forall i | 0 <= i < |s| - 1
      ensures s[i + 1] in g.following(s[i])
    {
      if i > 0 {
        assert p[i - 1 + 1] in Ahead(g).next(p[i - 1]);
      }
    }
  }

  /** What a stopping path behind is, with an exclusion list, written out. */
  lemma PrecedingMeans(g: RoutingGraph, exclude: seq<Id>, length: real, p: seq<Id>, dist: seq<real>)
    requires RunningLengths(g, p, dist) && p != []
    ensures StoppingPath(Behind(Pruned(g, exclude)), p, length)
            <==> && (forall i :: 0 <= i < |p| - 1 ==> p[i + 1] in g.previous(p[i]))
                 && (forall i :: 0 < i < |p| ==> p[i] !in exclude)
                 && (forall k :: 0 < k < |p| ==> dist[k] < length)
                 && ((forall x :: x in g.previous(p[|p| - 1]) ==> x in exclude) || dist[|p|] >= length)
  {
    hide TravelLength, Without;
    RunningLengthsStop(Behind(Pruned(g, exclude)), g, length, p, dist);
    WithoutAll(g.previous(p[|p| - 1]), exclude);
    PrunedEdges(g, exclude, p);
  }

  lemma PrunedEdges(g: RoutingGraph, exclude: seq<Id>, p: seq<Id>)
    ensures (forall i :: 0 <= i < |p| - 1 ==> p[i + 1] in Behind(Pruned(g, exclude)).next(p[i]))
            <==> && (forall i :: 0 <= i < |p| - 1 ==> p[i + 1] in g.previous(p[i]))
                 && (forall i :: 0 < i < |p| ==> p[i] !in exclude)
  {
    hide Without;
    var t := Behind(Pruned(g, exclude));
    forall a, b
      ensures b in t.next(a) <==> b in g.previous(a) && b !in exclude
    {
    }
    if forall i :: 0 <= i < |p| - 1 ==> p[i + 1] in t.next(p[i]) {
      forall i | 0 < i < |p|
        ensures p[i] !in exclude && p[i] in g.previous(p[i - 1])
      {
        assert p[i - 1 + 1] in t.next(p[i - 1]);
      }
    }
  }

  lemma WithoutAll(ids: seq<Id>, exclude: seq<Id>)
    ensures Without(ids, exclude) == [] <==> forall x :: x in ids ==> x in exclude
  {
    var r := Without(ids, exclude);
    if r != [] {
      var x := r[0];
      assert x in r;
      assert x in ids && x !in exclude;
    } else {
      forall x | x in ids
        ensures x in exclude
      {
        assert x !in r;
      }
    }
  }

  /** Lanelet sequences ahead of a lanelet, nearest lanelet first. */
  method GetSucceedingLaneletSequences(g: RoutingGraph, lanelet: Id, length: real) returns (sequences: seq<seq<Id>>)
    requires PositiveLengths(Ahead(g))
    ensures forall p :: p in sequences <==> p != [] && p[0] in g.following(lanelet) && StoppingPath(Ahead(g), p, length)
    ensures DistinctNeighbours(Ahead(g)) ==> Distinct(sequences)
    ensures sequences == ReverseAll(PathsFromEach(Ahead(g), g.following(lanelet), length))
  {
    var next := g.following(lanelet);
    sequences := [];
    for i := 0 to |next|
      invariant sequences == ReverseAll(PathsFromEach(Ahead(g), next[..i], length))
    {
      var tmp := SucceedingRecursive(g, next[i], length);
      assert next[..i + 1][..i] == next[..i];
      ReverseAllConcat(PathsFromEach(Ahead(g), next[..i], length), tmp);
      sequences := sequences + ReverseAll(tmp);
    }
    assert next[..|next|] == next;
    ReversedPaths(Ahead(g), next, length);
  }

  function ReverseAll(paths: seq<seq<Id>>): (r: seq<seq<Id>>)
    ensures |r| == |paths| && forall i :: 0 <= i < |r| ==> r[i] == Reverse(paths[i])
  {
    seq(|paths|, i requires 0 <= i < |paths| => Reverse(paths[i]))
  }

  lemma ReverseAllConcat(a: seq<seq<Id>>, b: seq<seq<Id>>)
    ensures ReverseAll(a + b) == ReverseAll(a) + ReverseAll(b)
  {
  }

  lemma ReverseReverse(p: seq<Id>)
    ensures Reverse(Reverse(p)) == p
  {
  }

  /** Turned round, the paths from a list of starts are the stopping paths from them, each once. */
  lemma ReversedPaths(t: Travel, starts: seq<Id>, limit: real)
    requires PositiveLengths(t)
    ensures forall p :: p in ReverseAll(PathsFromEach(t, starts, limit))
                        <==> p != [] && p[0] in starts && StoppingPath(t, p, limit)
    ensures DistinctNeighbours(t) && Distinct(starts) ==> Distinct(ReverseAll(PathsFromEach(t, starts, limit)))
  {
    var paths := PathsFromEach(t, starts, limit);
    forall p
      ensures p in ReverseAll(paths) <==> p != [] && p[0] in starts && StoppingPath(t, p, limit)
    {
      InReverseAll(paths, p);
      if p != [] {
        PathsFromEachAre(t, starts, limit, p);
      }
    }
    if DistinctNeighbours(t) && Distinct(starts) {
      PathsFromEachDistinct(t, starts, limit);
      forall i, j | 0 <= i < j < |paths|
        ensures Reverse(paths[i]) != Reverse(paths[j])
      {
        ReverseReverse(paths[i]);
        ReverseReverse(paths[j]);
      }
    }
  }

  lemma InReverseAll(paths: seq<seq<Id>>, p: seq<Id>)
    ensures p in ReverseAll(paths) <==> Reverse(p) in paths
  {
    if p in ReverseAll(paths) {
      var i :| 0 <= i < |paths| && ReverseAll(paths)[i] == p;
      ReverseReverse(paths[i]);
    }
    if Reverse(p) in paths {
      var i :| 0 <= i < |paths| && paths[i] == Reverse(p);
      ReverseReverse(p);
      assert ReverseAll(paths)[i] == p;
    }
  }
}
