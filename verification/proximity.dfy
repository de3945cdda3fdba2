/**
 * `ReportValidator._estimate_optimal_clusters`: a single greedy pass that
 * counts "star" groups of points, each made of a representative and every
 * not-yet-visited point within the proximity radius of it.
 *
 * The geodesic distance is a parameter; only its comparison with the radius
 * matters. Grouping is deliberately not transitive: a point near a member
 * that is not a representative is not pulled into that group.
 */
module Proximity {
  import opened Reports

  /** `self.radius_meters`. */
  const RadiusMeters: real := 50.0

  /** A distance in meters between two coordinates (geodesic in the source). */
  type Distance = (Coord, Coord) -> real

  /** The estimator's test `geodesic(coord1, coord2).meters <= radius`: the boundary counts. */
  predicate Near(dist: Distance, a: Coord, b: Coord)
  {
    dist(a, b) <= RadiusMeters
  }

  /**
   * Point `j` is still unvisited when the pass reaches it, so it becomes the
   * representative of a new group.
   */
  predicate StartsGroup(coords: seq<Coord>, dist: Distance, j: nat)
    requires j < |coords|
    decreases j, 1
  {
    !Covered(coords, dist, j, j)
  }

  /** Some representative among points `0 .. r-1` is near point `k`. */
  predicate Covered(coords: seq<Coord>, dist: Distance, r: nat, k: nat)
    requires r <= |coords| && k < |coords|
    decreases r, 0
  {
    r > 0 &&
    (Covered(coords, dist, r - 1, k) ||
     (StartsGroup(coords, dist, r - 1) && Near(dist, coords[r - 1], coords[k])))
  }

  /** Number of representatives among the first `m` points. */
  function GroupCount(coords: seq<Coord>, dist: Distance, m: nat): nat
    requires m <= |coords|
  {
    if m == 0 then 0
    else GroupCount(coords, dist, m - 1) + (if StartsGroup(coords, dist, m - 1) then 1 else 0)
  }

  /** What the estimator returns: 1 for at most two points, else the number of groups. */
  function EstimatedClusters(coords: seq<Coord>, dist: Distance): (k: nat)
    ensures 1 <= k
    ensures |coords| > 0 ==> k <= |coords|
  {
    if |coords| <= 2 then 1
    else
      GroupCountBounds(coords, dist, |coords|);
      GroupCount(coords, dist, |coords|)
  }

  /** The greedy pass with its `visited` flags, as the source runs it. */
  method EstimateOptimalClusters(coords: seq<Coord>, dist: Distance) returns (clusters: nat)
    ensures clusters == EstimatedClusters(coords, dist)
    ensures 1 <= clusters
    ensures |coords| > 0 ==> clusters <= |coords|
  {
    var n := |coords|;
    if n <= 2 {
      return 1;
    }
    var visited := new bool[n](_ => false);
    clusters := 0;
    for i := 0 to n
      invariant visited.Length == n
      invariant forall k :: 0 <= k < i ==> visited[k]
      invariant forall k :: i <= k < n ==> (visited[k] <==> Covered(coords, dist, i, k))
      invariant clusters == GroupCount(coords, dist, i)
    {
      if !visited[i] {
        clusters := clusters + 1;
        visited[i] := true;
        for j := 0 to n
          invariant visited[i]
          invariant forall k :: 0 <= k < i ==> visited[k]
          invariant forall k :: i < k < n ==>
            (visited[k] <==> Covered(coords, dist, i, k) || (k < j && Near(dist, coords[i], coords[k])))
        {
          if i != j && !visited[j] {
            if Near(dist, coords[i], coords[j]) {
              visited[j] := true;
            }
          }
        }
      }
    }
    // the pass leaves no point unvisited
    assert forall k :: 0 <= k < n ==> visited[k];
    GroupCountBounds(coords, dist, n);
  }

  /** The first point always starts a group, so there is at least one group. */
  lemma {:induction false} GroupCountBounds(coords: seq<Coord>, dist: Distance, m: nat)
    requires 1 <= m <= |coords|
    ensures 1 <= GroupCount(coords, dist, m) <= m
  {
    if m > 1 {
      GroupCountBounds(coords, dist, m - 1);
    }
  }

  /** The estimator's range: 1 for at most two points, otherwise between 1 and n. */
  lemma EstimatedClustersRange(coords: seq<Coord>, dist: Distance)
    ensures |coords| <= 2 ==> EstimatedClusters(coords, dist) == 1
    ensures |coords| > 2 ==> 1 <= EstimatedClusters(coords, dist) <= |coords|
  {
    if |coords| > 2 {
      GroupCountBounds(coords, dist, |coords|);
    }
  }

  /** `Covered` is exactly "some earlier representative is within the radius". */
  lemma {:induction false} CoveredMeans(coords: seq<Coord>, dist: Distance, r: nat, k: nat)
    requires r <= |coords| && k < |coords|
    ensures Covered(coords, dist, r, k) <==>
      exists q :: 0 <= q < r && StartsGroup(coords, dist, q) && Near(dist, coords[q], coords[k])
  {
    if r > 0 {
      CoveredMeans(coords, dist, r - 1, k);
    }
  }

  /**
   * Point `j` starts a new group exactly when no earlier representative is
   * within the radius of it (being near an absorbed point does not count).
   */
  lemma StartsGroupIff(coords: seq<Coord>, dist: Distance, j: nat)
    requires j < |coords|
    ensures StartsGroup(coords, dist, j) <==>
      forall i :: 0 <= i < j && StartsGroup(coords, dist, i) ==> !Near(dist, coords[i], coords[j])
  {
    CoveredMeans(coords, dist, j, j);
  }

  /**
   * A chain a - b - c where a is near b and b is near c but a is not near c
   * gives two groups: the pass is not transitive.
   */
  lemma ChainIsNotMerged(coords: seq<Coord>, dist: Distance)
    requires |coords| == 3
    requires Near(dist, coords[0], coords[1]) && Near(dist, coords[1], coords[2])
    requires !Near(dist, coords[0], coords[2])
    ensures EstimatedClusters(coords, dist) == 2
  {
    assert StartsGroup(coords, dist, 0);
    assert !StartsGroup(coords, dist, 1);
    assert !Covered(coords, dist, 2, 2);
    assert StartsGroup(coords, dist, 2);
    assert GroupCount(coords, dist, 1) == 1;
    assert GroupCount(coords, dist, 2) == 1;
  }

  /**
   * Two close pairs far apart from each other: points 0 and 1 within the
   * radius, points 2 and 3 within it, and neither of 2, 3 near point 0.
   */
  lemma TwoSeparatePairs(coords: seq<Coord>, dist: Distance)
    requires |coords| == 4
    requires Near(dist, coords[0], coords[1]) && Near(dist, coords[2], coords[3])
    requires !Near(dist, coords[0], coords[2]) && !Near(dist, coords[0], coords[3])
    ensures EstimatedClusters(coords, dist) == 2
  {
    assert StartsGroup(coords, dist, 0);
    assert !StartsGroup(coords, dist, 1);
    assert !Covered(coords, dist, 2, 2);
    assert StartsGroup(coords, dist, 2);
    assert Covered(coords, dist, 3, 3);
    assert !StartsGroup(coords, dist, 3);
    assert GroupCount(coords, dist, 1) == 1;
    assert GroupCount(coords, dist, 2) == 1;
    assert GroupCount(coords, dist, 3) == 2;
  }

  /** Every point near the first point is covered by it once the first point is processed. */
  lemma {:induction false} CoveredByFirst(coords: seq<Coord>, dist: Distance, r: nat, k: nat)
    requires 1 <= r <= |coords| && k < |coords|
    requires Near(dist, coords[0], coords[k])
    ensures Covered(coords, dist, r, k)
  {
    if r > 1 {
      CoveredByFirst(coords, dist, r - 1, k);
    } else {
      assert StartsGroup(coords, dist, 0);
    }
  }

  /** All points near the first one: a single group, for any number of points. */
  lemma {:induction false} OneGroupWhenAllNearFirst(coords: seq<Coord>, dist: Distance, m: nat)
    requires 1 <= m <= |coords|
    requires forall k :: 0 <= k < |coords| ==> Near(dist, coords[0], coords[k])
    ensures GroupCount(coords, dist, m) == 1
  {
    if m > 1 {
      OneGroupWhenAllNearFirst(coords, dist, m - 1);
      CoveredByFirst(coords, dist, m - 1, m - 1);
    }
  }

  /** Reports at one identical coordinate form one group (the distance of a point to itself is 0). */
  lemma IdenticalPointsOneGroup(coords: seq<Coord>, dist: Distance)
    requires |coords| >= 1
    requires forall k :: 0 <= k < |coords| ==> coords[k] == coords[0]
    requires dist(coords[0], coords[0]) == 0.0
    ensures EstimatedClusters(coords, dist) == 1
  {
    if |coords| > 2 {
      OneGroupWhenAllNearFirst(coords, dist, |coords|);
    }
  }
}
