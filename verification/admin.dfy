/**
 * The post-query logic of the admin endpoints in api/admin.py: the dashboard
 * (verified reports clustered into incident summaries, sorted by priority and
 * recency, with report counts), the incident-details lookup and the derived
 * statistics. Database query results are the input sequence `allReports`;
 * both queries of an endpoint are taken to read the same snapshot, and a
 * filtered query to return its rows in the order of `allReports`.
 */
module Admin {
  import opened Wrappers
  import opened Reports
  import opened Proximity
  import opened Clustering
  import opened Aggregates
  import opened Filtering

  /** `IncidentSummary` of schemas/report_schemas.py. */
  datatype IncidentSummary = IncidentSummary(
    incidentId: string,
    totalReports: nat,
    authenticReports: nat,
    priority: int,
    disasterTypes: set<string>,
    location: Coord,
    reports: seq<Report>)

  /** `DashboardResponse` of schemas/report_schemas.py. */
  datatype DashboardResponse = DashboardResponse(
    incidents: seq<IncidentSummary>,
    totalReports: nat,
    totalIncidents: nat,
    verifiedReports: nat,
    pendingVerification: nat)

  /** The derived fields of the statistics response. */
  datatype Statistics = Statistics(
    totalReports: nat,
    verifiedReports: nat,
    pendingVerification: int,
    verificationRate: real)

  /** HTTP 404 "Incident not found". */
  datatype Error = IncidentNotFound

  /** `select(RescueReport).where(RescueReport.is_verified == True)`. */
  function VerifiedReports(allReports: seq<Report>): (verified: seq<Report>)
    ensures |verified| <= |allReports|
    ensures forall r :: r in verified <==> r in allReports && r.isVerified
  {
    FilterMembers(allReports, (r: Report) => r.isVerified);
    Filter(allReports, (r: Report) => r.isVerified)
  }

  /** `[r for r in all_reports if not r.is_verified]`. */
  function PendingReports(allReports: seq<Report>): (pending: seq<Report>)
    ensures |pending| <= |allReports|
    ensures forall r :: r in pending <==> r in allReports && !r.isVerified
  {
    FilterMembers(allReports, (r: Report) => !r.isVerified);
    Filter(allReports, (r: Report) => !r.isVerified)
  }

  /** `verified_reports` counts the reports whose `is_verified` is true. */
  lemma VerifiedCount(allReports: seq<Report>)
    ensures |VerifiedReports(allReports)| == |set i: nat | i < |allReports| && allReports[i].isVerified|
  {
    var keep := (r: Report) => r.isVerified;
    FilterCount(allReports, keep);
    assert (set i: nat | i < |allReports| && keep(allReports[i])) ==
           (set i: nat | i < |allReports| && allReports[i].isVerified);
  }

  /** `pending_verification` counts the reports whose `is_verified` is false. */
  lemma PendingCount(allReports: seq<Report>)
    ensures |PendingReports(allReports)| == |set i: nat | i < |allReports| && !allReports[i].isVerified|
  {
    var keep := (r: Report) => !r.isVerified;
    FilterCount(allReports, keep);
    assert (set i: nat | i < |allReports| && keep(allReports[i])) ==
           (set i: nat | i < |allReports| && !allReports[i].isVerified);
  }

  /** Verified and pending reports together account for every report. */
  lemma VerifiedPlusPending(allReports: seq<Report>)
    ensures |VerifiedReports(allReports)| + |PendingReports(allReports)| == |allReports|
  {
    FilterSplits(allReports, (r: Report) => r.isVerified, (r: Report) => !r.isVerified);
  }

  /** The newest member timestamp, the second component of the dashboard's sort key. */
  function LatestTimestamp(reports: seq<Report>): (t: int)
    requires |reports| > 0
    ensures exists i :: 0 <= i < |reports| && reports[i].timestamp == t
  {
    if |reports| == 1 then reports[0].timestamp
    else MaxInt(reports[0].timestamp, LatestTimestamp(reports[1..]))
  }

  /** The latest timestamp is the timestamp of some member and no member is newer. */
  lemma {:induction false} LatestTimestampIsNewest(reports: seq<Report>)
    requires |reports| > 0
    ensures exists i :: 0 <= i < |reports| && reports[i].timestamp == LatestTimestamp(reports)
    ensures forall i :: 0 <= i < |reports| ==> reports[i].timestamp <= LatestTimestamp(reports)
  {
    if |reports| == 1 {
      assert reports[0].timestamp == LatestTimestamp(reports);
    } else {
      LatestTimestampIsNewest(reports[1..]);
      var j :| 0 <= j < |reports[1..]| && reports[1..][j].timestamp == LatestTimestamp(reports[1..]);
      if reports[0].timestamp < LatestTimestamp(reports[1..]) {
        assert reports[j + 1].timestamp == LatestTimestamp(reports);
      } else {
        assert reports[0].timestamp == LatestTimestamp(reports);
      }
      forall i | 1 <= i < |reports|
        ensures reports[i].timestamp <= LatestTimestamp(reports)
      {
        assert reports[i] == reports[1..][i - 1];
      }
    }
  }

  /** One dashboard incident built from a cluster of verified reports; every report counts as authentic. */
  function SummarizeVerified(incidentId: string, group: seq<Report>): (s: IncidentSummary)
    requires |group| > 0
    ensures s.incidentId == incidentId && s.reports == group
    ensures s.totalReports == s.authenticReports == |group|
    ensures s.priority == MaxPriority(group)
    ensures s.disasterTypes == DisasterTypes(group)
    ensures s.location == MeanLocation(group)
  {
    IncidentSummary(incidentId, |group|, |group|, MaxPriority(group), DisasterTypes(group),
                    MeanLocation(group), group)
  }

  predicate HasReports(incident: IncidentSummary)
  {
    |incident.reports| > 0
  }

  /**
   * `incident` may come before `other` under the key `(-priority, latest
   * timestamp)`: higher priority first, then older latest report first.
   */
  predicate KeyLe(incident: IncidentSummary, other: IncidentSummary): (le: bool)
    requires HasReports(incident) && HasReports(other)
    ensures le <==> !KeyLess(other, incident)
    ensures incident.priority > other.priority ==> le
    ensures incident.priority < other.priority ==> !le
  {
    incident.priority > other.priority ||
    (incident.priority == other.priority &&
     LatestTimestamp(incident.reports) <= LatestTimestamp(other.reports))
  }

  /** The strict form of `KeyLe`: the comparison the sort swaps on. */
  predicate KeyLess(incident: IncidentSummary, other: IncidentSummary)
    requires HasReports(incident) && HasReports(other)
  {
    incident.priority > other.priority ||
    (incident.priority == other.priority &&
     LatestTimestamp(incident.reports) < LatestTimestamp(other.reports))
  }

  predicate SortedByKey(incidents: seq<IncidentSummary>)
  {
    (forall i :: 0 <= i < |incidents| ==> HasReports(incidents[i])) &&
    forall p, q :: 0 <= p < q < |incidents| ==> KeyLe(incidents[p], incidents[q])
  }

  /** `incidents.sort(key=...)`, in place, by insertion with adjacent swaps. */
  method SortIncidents(a: array<IncidentSummary>)
    requires forall k :: 0 <= k < a.Length ==> HasReports(a[k])
    modifies a
    ensures SortedByKey(a[..])
    ensures multiset(a[..]) == multiset(old(a[..]))
  {
    var i := 0;
    while i < a.Length
      invariant 0 <= i <= a.Length
      invariant forall k :: 0 <= k < a.Length ==> HasReports(a[k])
      invariant forall p, q :: 0 <= p < q < i ==> KeyLe(a[p], a[q])
      invariant multiset(a[..]) == multiset(old(a[..]))
    {
      SinkLast(a, i);
      i := i + 1;
    }
  }

  /** One insertion step: moves `a[i]` down past every strictly later-keyed incident before it. */
  method SinkLast(a: array<IncidentSummary>, i: nat)
    requires i < a.Length
    requires forall k :: 0 <= k < a.Length ==> HasReports(a[k])
    requires forall p, q :: 0 <= p < q < i ==> KeyLe(a[p], a[q])
    modifies a
    ensures forall k :: 0 <= k < a.Length ==> HasReports(a[k])
    ensures forall p, q :: 0 <= p < q <= i ==> KeyLe(a[p], a[q])
    ensures multiset(a[..]) == multiset(old(a[..]))
    ensures a[i + 1..] == old(a[i + 1..])
  {
    var j := i;
    while j > 0 && KeyLess(a[j], a[j - 1])
      invariant 0 <= j <= i
      invariant forall k :: 0 <= k < a.Length ==> HasReports(a[k])
      invariant forall p, q :: 0 <= p < q <= i && p != j && q != j ==> KeyLe(a[p], a[q])
      invariant forall q :: j < q <= i ==> KeyLe(a[j], a[q])
      invariant multiset(a[..]) == multiset(old(a[..]))
      invariant forall k :: i < k < a.Length ==> a[k] == old(a[k])
    {
      SwapDown(a, i, j);
      j := j - 1;
    }
  }

  /** One adjacent swap of the insertion step, moving the inserted incident from `j` to `j - 1`. */
  method SwapDown(a: array<IncidentSummary>, i: nat, j: nat)
    requires 0 < j <= i < a.Length
    requires forall k :: 0 <= k < a.Length ==> HasReports(a[k])
    requires KeyLess(a[j], a[j - 1])
    requires forall p, q :: 0 <= p < q <= i && p != j && q != j ==> KeyLe(a[p], a[q])
    requires forall q :: j < q <= i ==> KeyLe(a[j], a[q])
    modifies a
    ensures forall k :: 0 <= k < a.Length ==> HasReports(a[k])
    ensures forall p, q :: 0 <= p < q <= i && p != j - 1 && q != j - 1 ==> KeyLe(a[p], a[q])
    ensures forall q :: j - 1 < q <= i ==> KeyLe(a[j - 1], a[q])
    ensures multiset(a[..]) == multiset(old(a[..]))
    ensures forall k :: 0 <= k < a.Length && k != j - 1 && k != j ==> a[k] == old(a[k])
  {
    a[j - 1], a[j] := a[j], a[j - 1];
  }

  /**
   * `incidents` holds exactly one summary per group: every group is non-empty,
   * every incident is the summary of the group under its id, and every group
   * has an incident.
   */
  predicate SummarizesGroups(incidents: seq<IncidentSummary>, groups: map<string, seq<Report>>)
  {
    (forall key :: key in groups ==> |groups[key]| > 0) &&
    |incidents| == |groups| &&
    (forall inc :: inc in incidents ==>
       inc.incidentId in groups && inc == SummarizeVerified(inc.incidentId, groups[inc.incidentId])) &&
    (forall key :: key in groups ==> exists inc :: inc in incidents && inc.incidentId == key)
  }

  /** Reordering the incidents keeps them a summary of the same groups. */
  lemma SummarizesReordered(incidents: seq<IncidentSummary>, reordered: seq<IncidentSummary>,
                            groups: map<string, seq<Report>>)
    requires SummarizesGroups(incidents, groups)
    requires multiset(reordered) == multiset(incidents)
    ensures SummarizesGroups(reordered, groups)
  {
    assert |reordered| == |incidents| by {
      assert |multiset(reordered)| == |multiset(incidents)|;
    }
    assert forall inc :: inc in reordered <==> inc in incidents by {
      assert forall inc :: inc in reordered <==> inc in multiset(reordered);
      assert forall inc :: inc in incidents <==> inc in multiset(incidents);
    }
  }

  /** Every summarized incident lists the reports of its non-empty group. */
  lemma SummariesHaveReports(incidents: seq<IncidentSummary>, groups: map<string, seq<Report>>)
    requires SummarizesGroups(incidents, groups)
    ensures forall k :: 0 <= k < |incidents| ==> HasReports(incidents[k])
  {
    forall k | 0 <= k < |incidents|
      ensures HasReports(incidents[k])
    {
      assert incidents[k] in incidents;
    }
  }

  /** Summarizing one more key keeps the collected incidents one per visited key. */
  lemma CollectStep(clustered: map<string, seq<Report>>, incidents: seq<IncidentSummary>,
                    remaining: set<string>, id: string)
    requires forall key :: key in clustered ==> |clustered[key]| > 0
    requires remaining <= clustered.Keys && id in remaining
    requires forall inc :: inc in incidents ==>
      inc.incidentId in clustered.Keys - remaining && inc == SummarizeVerified(inc.incidentId, clustered[inc.incidentId])
    requires forall key :: key in clustered.Keys - remaining ==>
      exists inc :: inc in incidents && inc.incidentId == key
    ensures var more, left := incidents + [SummarizeVerified(id, clustered[id])], remaining - {id};
      (forall inc :: inc in more ==>
         inc.incidentId in clustered.Keys - left && inc == SummarizeVerified(inc.incidentId, clustered[inc.incidentId])) &&
      (forall key :: key in clustered.Keys - left ==> exists inc :: inc in more && inc.incidentId == key)
  {
    var incident := SummarizeVerified(id, clustered[id]);
    var more, left := incidents + [incident], remaining - {id};
    forall inc | inc in more
      ensures inc.incidentId in clustered.Keys - left
      ensures inc == SummarizeVerified(inc.incidentId, clustered[inc.incidentId])
    {
      if inc !in incidents {
        assert inc == incident;
      }
    }
    forall key | key in clustered.Keys - left
      ensures exists inc :: inc in more && inc.incidentId == key
    {
      if key == id {
        assert incident in more;
      } else {
        assert key in clustered.Keys - remaining;
        var inc :| inc in incidents && inc.incidentId == key;
        assert inc in more;
      }
    }
  }

  /** One incident summary per cluster, in the order the clusters are visited. */
  method CollectIncidents(clustered: map<string, seq<Report>>) returns (incidents: seq<IncidentSummary>)
    requires forall key :: key in clustered ==> |clustered[key]| > 0
    ensures SummarizesGroups(incidents, clustered)
  {
    incidents := [];
    var remaining := clustered.Keys;
    while remaining != {}
      invariant remaining <= clustered.Keys
      invariant |incidents| + |remaining| == |clustered.Keys|
      invariant forall inc :: inc in incidents ==>
        inc.incidentId in clustered.Keys - remaining && inc == SummarizeVerified(inc.incidentId, clustered[inc.incidentId])
      invariant forall key :: key in clustered.Keys - remaining ==>
        exists inc :: inc in incidents && inc.incidentId == key
      decreases remaining
    {
      var incidentId :| incidentId in remaining;
      var incident := SummarizeVerified(incidentId, clustered[incidentId]);
      CollectStep(clustered, incidents, remaining, incidentId);
      incidents := incidents + [incident];
      remaining := remaining - {incidentId};
    }
    assert clustered.Keys - remaining == clustered.Keys;
    assert |clustered.Keys| == |clustered|;
  }

  /** The incidents in dashboard order: a permutation sorted by `KeyLe`. */
  method SortedIncidents(incidents: seq<IncidentSummary>) returns (sorted: seq<IncidentSummary>)
    requires forall k :: 0 <= k < |incidents| ==> HasReports(incidents[k])
    ensures SortedByKey(sorted)
    ensures multiset(sorted) == multiset(incidents)
  {
    var a := new IncidentSummary[|incidents|](k requires 0 <= k < |incidents| => incidents[k]);
    assert a[..] == incidents;
    SortIncidents(a);
    sorted := a[..];
  }

  /** The dashboard incidents of a non-empty batch of verified reports, in dashboard order. */
  method DashboardIncidents(verified: seq<Report>, dist: Distance, kmeans: KMeans)
    returns (incidents: seq<IncidentSummary>)
    requires IsPartitioner(kmeans)
    requires |verified| > 0
    ensures SummarizesGroups(incidents, Clustered(verified, dist, kmeans))
    ensures SortedByKey(incidents)
  {
    var clustered := ClusterReportsByLocation(verified, dist, kmeans);
    assert forall key :: key in clustered ==> |clustered[key]| > 0 by {
      ClusteredIsPartition(verified, dist, kmeans);
    }
    var collected := CollectIncidents(clustered);
    SummariesHaveReports(collected, clustered);
    incidents := SortedIncidents(collected);
    SummarizesReordered(collected, incidents, clustered);
  }

  /** The dashboard of all reports, with incidents clustered from the verified ones. */
  method GetDashboard(allReports: seq<Report>, dist: Distance, kmeans: KMeans) returns (d: DashboardResponse)
    requires IsPartitioner(kmeans)
    ensures d.totalReports == |allReports|
    ensures d.verifiedReports == |VerifiedReports(allReports)|
    ensures d.pendingVerification == |PendingReports(allReports)|
    ensures d.totalIncidents == |d.incidents|
    ensures VerifiedReports(allReports) == [] ==>
      d.incidents == [] && d.verifiedReports == 0 && d.pendingVerification == |allReports|
    ensures VerifiedReports(allReports) != [] ==>
      SummarizesGroups(d.incidents, Clustered(VerifiedReports(allReports), dist, kmeans)) &&
      SortedByKey(d.incidents)
  {
    var verified := VerifiedReports(allReports);
    var pending := PendingReports(allReports);
    assert |verified| + |pending| == |allReports| by {
      VerifiedPlusPending(allReports);
    }
    if |verified| == 0 {
      d := DashboardResponse([], |allReports|, 0, 0, |allReports|);
    } else {
      var incidents := DashboardIncidents(verified, dist, kmeans);
      d := DashboardResponse(incidents, |allReports|, |incidents|, |verified|, |pending|);
    }
  }

  /** `select(RescueReport).where(incident_id == ..., is_verified == True)`. */
  function IncidentReports(incidentId: string, allReports: seq<Report>): (rs: seq<Report>)
    ensures |rs| <= |allReports|
    ensures forall r :: r in rs <==> r in allReports && r.incidentId == Some(incidentId) && r.isVerified
  {
    FilterMembers(allReports, (r: Report) => r.incidentId == Some(incidentId) && r.isVerified);
    Filter(allReports, (r: Report) => r.incidentId == Some(incidentId) && r.isVerified)
  }

  /**
   * The details of one incident: not found when no verified report carries
   * the label, otherwise the summary of exactly those reports.
   */
  function GetIncidentDetails(incidentId: string, allReports: seq<Report>): (r: Result<IncidentSummary, Error>)
    ensures r.Failure? <==>
      forall i :: 0 <= i < |allReports| ==> !(allReports[i].isVerified && allReports[i].incidentId == Some(incidentId))
    ensures r.Success? ==>
      r.value.incidentId == incidentId &&
      r.value.totalReports == r.value.authenticReports == |r.value.reports| > 0 &&
      (forall x :: x in r.value.reports <==>
         x in allReports && x.isVerified && x.incidentId == Some(incidentId))
  {
    var incidentReports := IncidentReports(incidentId, allReports);
    FilterEmptyIff(allReports, (r: Report) => r.incidentId == Some(incidentId) && r.isVerified);
    FilterMembers(allReports, (r: Report) => r.incidentId == Some(incidentId) && r.isVerified);
    if |incidentReports| == 0 then Failure(IncidentNotFound)
    else Success(SummarizeVerified(incidentId, incidentReports))
  }

  /** The verification rate as a percentage; zero when there are no reports. */
  function Percentage(part: nat, whole: nat): (rate: real)
    ensures whole == 0 ==> rate == 0.0
    ensures whole > 0 ==> rate * whole as real == part as real * 100.0
  {
    if whole > 0 then part as real / whole as real * 100.0 else 0.0
  }

  /** A part of a whole is between none and all of it, in percent. */
  lemma PercentageOfPart(part: nat, whole: nat)
    requires part <= whole
    ensures 0.0 <= Percentage(part, whole) <= 100.0
    ensures whole > 0 ==> Percentage(part, whole) * whole as real == part as real * 100.0
    ensures whole > 0 ==> (Percentage(part, whole) == 100.0 <==> part == whole)
  {
    if whole > 0 {
      var q := part as real / whole as real;
      assert q * whole as real == part as real;
      assert 0.0 <= q <= 1.0;
      assert Percentage(part, whole) == q * 100.0;
      assert Percentage(part, whole) * whole as real == q * whole as real * 100.0;
      if Percentage(part, whole) == 100.0 {
        assert q == 1.0;
      }
    }
  }

  /** The counts and rate of the statistics endpoint. */
  function GetStatistics(allReports: seq<Report>): (s: Statistics)
    ensures s.totalReports == |allReports|
    ensures s.verifiedReports == |VerifiedReports(allReports)|
    ensures s.pendingVerification == |PendingReports(allReports)|
    ensures s.verificationRate == Percentage(s.verifiedReports, s.totalReports)
  {
    var totalReports := |allReports|;
    var verifiedReports := |VerifiedReports(allReports)|;
    assert totalReports - verifiedReports == |PendingReports(allReports)| by {
      VerifiedPlusPending(allReports);
    }
    Statistics(totalReports, verifiedReports, totalReports - verifiedReports,
               Percentage(verifiedReports, totalReports))
  }

  /**
   * The verification rate is a percentage: zero without reports, and 100
   * exactly when there are reports and none is pending.
   */
  lemma StatisticsRate(allReports: seq<Report>)
    ensures var s := GetStatistics(allReports);
      0.0 <= s.verificationRate <= 100.0 &&
      (s.totalReports == 0 ==> s.verificationRate == 0.0) &&
      (s.verificationRate == 100.0 <==> s.totalReports > 0 && s.pendingVerification == 0)
  {
    var s := GetStatistics(allReports);
    PercentageOfPart(s.verifiedReports, s.totalReports);
  }
}
