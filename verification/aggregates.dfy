/**
 * Per-incident aggregates computed both by `process_batch_reports`
 * (ML/services/validator.py) and by the admin endpoints (api/admin.py):
 * maximum priority with default 1, set of disaster types, mean location.
 */
module Aggregates {
  import opened Reports

  /** Report priorities as the submission schema bounds them. */
  const MinPriority: int := 1
  const MaxPriorityLevel: int := 5

  function MaxInt(a: int, b: int): int
  {
    if b > a then b else a
  }

  /** `max([r.priority for r in group], default=1)`. */
  function MaxPriority(group: seq<Report>): (p: int)
    ensures group == [] ==> p == 1
    ensures group != [] ==> exists i :: 0 <= i < |group| && group[i].priority == p
    ensures forall i :: 0 <= i < |group| ==> group[i].priority <= p
  {
    if group == [] then 1
    else if |group| == 1 then group[0].priority
    else MaxInt(group[0].priority, MaxPriority(group[1..]))
  }

  predicate ValidPriorities(group: seq<Report>)
  {
    forall i :: 0 <= i < |group| ==> MinPriority <= group[i].priority <= MaxPriorityLevel
  }

  /** With priorities in 1..5, the incident priority is in 1..5 too (also for an empty group). */
  lemma MaxPriorityInRange(group: seq<Report>)
    requires ValidPriorities(group)
    ensures MinPriority <= MaxPriority(group) <= MaxPriorityLevel
  {
    if group != [] {
      var i :| 0 <= i < |group| && group[i].priority == MaxPriority(group);
    }
  }

  /** `set(r.disaster_type for r in group)`. */
  function DisasterTypes(group: seq<Report>): (types: set<string>)
    ensures forall i :: 0 <= i < |group| ==> group[i].disasterType in types
    ensures forall t :: t in types ==> exists i :: 0 <= i < |group| && group[i].disasterType == t
  {
    set i | 0 <= i < |group| :: group[i].disasterType
  }

  function SumLat(group: seq<Report>): real
  {
    if group == [] then 0.0 else group[0].lat + SumLat(group[1..])
  }

  function SumLng(group: seq<Report>): real
  {
    if group == [] then 0.0 else group[0].lng + SumLng(group[1..])
  }

  /** The arithmetic mean of the members' coordinates. */
  function MeanLocation(group: seq<Report>): (c: Coord)
    requires |group| > 0
    ensures c.lat * |group| as real == SumLat(group)
    ensures c.lng * |group| as real == SumLng(group)
  {
    Coord(SumLat(group) / |group| as real, SumLng(group) / |group| as real)
  }

  lemma {:induction false} SumLatBounds(group: seq<Report>, lo: real, hi: real)
    requires forall i :: 0 <= i < |group| ==> lo <= group[i].lat <= hi
    ensures |group| as real * lo <= SumLat(group) <= |group| as real * hi
  {
    if group != [] {
      SumLatBounds(group[1..], lo, hi);
    }
  }

  lemma {:induction false} SumLngBounds(group: seq<Report>, lo: real, hi: real)
    requires forall i :: 0 <= i < |group| ==> lo <= group[i].lng <= hi
    ensures |group| as real * lo <= SumLng(group) <= |group| as real * hi
  {
    if group != [] {
      SumLngBounds(group[1..], lo, hi);
    }
  }

  lemma DivideBounds(sum: real, n: real, lo: real, hi: real)
    requires n > 0.0 && n * lo <= sum <= n * hi
    ensures lo <= sum / n <= hi
  {
  }

  /** The centre of an incident lies within any latitude/longitude box that holds all its members. */
  lemma MeanLocationWithinBounds(group: seq<Report>, latLo: real, latHi: real, lngLo: real, lngHi: real)
    requires |group| > 0
    requires forall i :: 0 <= i < |group| ==> latLo <= group[i].lat <= latHi && lngLo <= group[i].lng <= lngHi
    ensures latLo <= MeanLocation(group).lat <= latHi
    ensures lngLo <= MeanLocation(group).lng <= lngHi
  {
    SumLatBounds(group, latLo, latHi);
    SumLngBounds(group, lngLo, lngHi);
    DivideBounds(SumLat(group), |group| as real, latLo, latHi);
    DivideBounds(SumLng(group), |group| as real, lngLo, lngHi);
  }
}
