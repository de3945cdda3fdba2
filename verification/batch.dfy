/**
 * `ReportValidator.process_batch_reports`: cluster a batch, score every report,
 * and summarise each incident (size, authentic count, priority, types, centre).
 */
module Batch {
  import opened Wrappers
  import opened Reports
  import opened Proximity
  import opened Clustering
  import opened Authenticity
  import opened Aggregates
  import opened Filtering

  /** One entry of `incident_summary`; the location is absent for an empty group (NaN in the source). */
  datatype IncidentSummary = IncidentSummary(
    totalReports: nat,
    authenticReports: nat,
    priority: int,
    disasterTypes: set<string>,
    location: Option<Coord>)

  /** The dictionary `process_batch_reports` returns. */
  datatype BatchResult = BatchResult(
    clusteredReports: map<string, seq<Report>>,
    validationResults: map<int, Verdict>,
    incidentSummary: map<string, IncidentSummary>,
    totalReportsProcessed: nat,
    totalIncidents: nat)

  /** Whether the verdict recorded under the report's id is "likely authentic". */
  function IsAuthentic(verdicts: map<int, Verdict>): Report -> bool
  {
    (r: Report) => r.id in verdicts && verdicts[r.id].isLikelyAuthentic
  }

  /** The members whose verdict, looked up by report id, is "likely authentic", in group order. */
  function AuthenticMembers(group: seq<Report>, verdicts: map<int, Verdict>): (a: seq<Report>)
    requires forall i :: 0 <= i < |group| ==> group[i].id in verdicts
    ensures |a| <= |group|
    ensures forall r :: r in a <==> r in group && verdicts[r.id].isLikelyAuthentic
  {
    FilterMembers(group, IsAuthentic(verdicts));
    Filter(group, IsAuthentic(verdicts))
  }

  /** `len(authentic_reports)` is the number of members whose verdict is authentic. */
  lemma AuthenticCount(group: seq<Report>, verdicts: map<int, Verdict>)
    requires forall i :: 0 <= i < |group| ==> group[i].id in verdicts
    ensures |AuthenticMembers(group, verdicts)| ==
      |set i: nat | i < |group| && verdicts[group[i].id].isLikelyAuthentic|
  {
    FilterCount(group, IsAuthentic(verdicts));
    assert (set i: nat | i < |group| && IsAuthentic(verdicts)(group[i])) ==
           (set i: nat | i < |group| && verdicts[group[i].id].isLikelyAuthentic);
  }

  /** The summary of one incident, as built inside the loop over `clustered_reports`. */
  function SummarizeIncident(group: seq<Report>, verdicts: map<int, Verdict>): (s: IncidentSummary)
    requires forall i :: 0 <= i < |group| ==> group[i].id in verdicts
    ensures s.totalReports == |group|
    ensures s.authenticReports <= s.totalReports
    ensures s.authenticReports == |set i: nat | i < |group| && verdicts[group[i].id].isLikelyAuthentic|
    ensures group == [] ==> s.priority == 1 && s.location == None
    ensures group != [] ==> s.location == Some(MeanLocation(group))
    ensures s.priority == MaxPriority(group)
    ensures forall i :: 0 <= i < |group| ==> group[i].priority <= s.priority
    ensures s.disasterTypes == DisasterTypes(group)
    ensures ValidPriorities(group) ==> MinPriority <= s.priority <= MaxPriorityLevel
  {
    MaxPriorityInRangeIfValid(group);
    AuthenticCount(group, verdicts);
    IncidentSummary(
      |group|,
      |AuthenticMembers(group, verdicts)|,
      MaxPriority(group),
      DisasterTypes(group),
      if group == [] then None else Some(MeanLocation(group)))
  }

  lemma MaxPriorityInRangeIfValid(group: seq<Report>)
    ensures ValidPriorities(group) ==> MinPriority <= MaxPriority(group) <= MaxPriorityLevel
  {
    if ValidPriorities(group) {
      MaxPriorityInRange(group);
    }
  }

  /** No later report in `reports[..end]` carries the same id as report `i`. */
  predicate LastWithId(reports: seq<Report>, i: nat, end: nat)
    requires i < end <= |reports|
  {
    forall j :: i < j < end ==> reports[j].id != reports[i].id
  }

  function Ids(reports: seq<Report>, end: nat): set<int>
    requires end <= |reports|
  {
    set i | 0 <= i < end :: reports[i].id
  }

  /** Recording the value of report `n` under its id keeps "each id maps to the value of its last report". */
  lemma RecordStep<V>(reports: seq<Report>, value: Report -> V, n: nat, recorded: map<int, V>)
    requires n < |reports|
    requires recorded.Keys == Ids(reports, n)
    requires forall i :: 0 <= i < n && LastWithId(reports, i, n) ==> recorded[reports[i].id] == value(reports[i])
    ensures var after := recorded[reports[n].id := value(reports[n])];
      after.Keys == Ids(reports, n + 1) &&
      forall i :: 0 <= i < n + 1 && LastWithId(reports, i, n + 1) ==> after[reports[i].id] == value(reports[i])
  {
    var after := recorded[reports[n].id := value(reports[n])];
    assert after.Keys == Ids(reports, n + 1) by {
      IdsSnoc(reports, n);
    }
    forall i | 0 <= i < n + 1 && LastWithId(reports, i, n + 1)
      ensures after[reports[i].id] == value(reports[i])
    {
      if i < n {
        assert reports[n].id != reports[i].id;
        assert LastWithId(reports, i, n);
      }
    }
  }

  lemma IdsSnoc(reports: seq<Report>, n: nat)
    requires n < |reports|
    ensures Ids(reports, n + 1) == Ids(reports, n) + {reports[n].id}
  {
    assert reports[n].id in Ids(reports, n + 1);
  }

  /** The loop filling `validation_results`, one verdict per report id. */
  method ValidateAll(reports: seq<Report>, ratio: Ratio) returns (validationResults: map<int, Verdict>)
    ensures validationResults.Keys == Ids(reports, |reports|)
    ensures forall i :: 0 <= i < |reports| && LastWithId(reports, i, |reports|) ==>
      validationResults[reports[i].id] == Assess(reports[i], ratio)
  {
    validationResults := map[];
    for n := 0 to |reports|
      invariant validationResults.Keys == Ids(reports, n)
      invariant forall i :: 0 <= i < n && LastWithId(reports, i, n) ==>
        validationResults[reports[i].id] == Assess(reports[i], ratio)
    {
      var verdict := ValidateReportAuthenticity(reports[n], ratio);
      RecordStep(reports, r => Assess(r, ratio), n, validationResults);
      validationResults := validationResults[reports[n].id := verdict];
    }
  }

  /** The loop filling `incident_summary`, one entry per incident. */
  method SummarizeAll(clusteredReports: map<string, seq<Report>>, validationResults: map<int, Verdict>)
    returns (incidentSummary: map<string, IncidentSummary>)
    requires forall key, t :: key in clusteredReports && 0 <= t < |clusteredReports[key]| ==>
      clusteredReports[key][t].id in validationResults
    ensures incidentSummary.Keys == clusteredReports.Keys
    ensures forall key :: key in incidentSummary ==>
      incidentSummary[key] == SummarizeIncident(clusteredReports[key], validationResults)
  {
    incidentSummary := map[];
    var remaining := clusteredReports.Keys;
    while remaining != {}
      invariant remaining <= clusteredReports.Keys
      invariant incidentSummary.Keys == clusteredReports.Keys - remaining
      invariant forall key :: key in incidentSummary ==>
        incidentSummary[key] == SummarizeIncident(clusteredReports[key], validationResults)
      decreases remaining
    {
      var incidentId :| incidentId in remaining;
      var incidentReports := clusteredReports[incidentId];
      incidentSummary := incidentSummary[incidentId := SummarizeIncident(incidentReports, validationResults)];
      remaining := remaining - {incidentId};
    }
  }

  /**
   * Cluster the batch, score every report (a later report with the same id
   * overwrites an earlier verdict) and summarise every incident.
   */
  method ProcessBatchReports(reports: seq<Report>, dist: Distance, kmeans: KMeans, ratio: Ratio)
    returns (result: BatchResult)
    requires IsPartitioner(kmeans)
    ensures result.clusteredReports == Clustered(reports, dist, kmeans)
    ensures result.validationResults.Keys == Ids(reports, |reports|)
    ensures forall i :: 0 <= i < |reports| && LastWithId(reports, i, |reports|) ==>
      result.validationResults[reports[i].id] == Assess(reports[i], ratio)
    ensures forall key, t :: key in result.clusteredReports && 0 <= t < |result.clusteredReports[key]| ==>
      result.clusteredReports[key][t].id in result.validationResults
    ensures result.incidentSummary.Keys == result.clusteredReports.Keys
    ensures forall key :: key in result.incidentSummary ==>
      result.incidentSummary[key] == SummarizeIncident(result.clusteredReports[key], result.validationResults)
    ensures result.totalReportsProcessed == |reports|
    ensures result.totalIncidents == |result.clusteredReports|
  {
    var clusteredReports: map<string, seq<Report>> := ClusterReportsByLocation(reports, dist, kmeans);
    var validationResults := ValidateAll(reports, ratio);
    assert forall key, t :: key in clusteredReports && 0 <= t < |clusteredReports[key]| ==>
      clusteredReports[key][t].id in validationResults by {
      ClusteredMembersFromBatch(reports, dist, kmeans);
      assert forall i :: 0 <= i < |reports| ==> reports[i].id in validationResults;
    }
    var incidentSummary := SummarizeAll(clusteredReports, validationResults);
    result := BatchResult(clusteredReports, validationResults, incidentSummary, |reports|, |clusteredReports|);
  }

  /** With distinct report ids, every report's entry is its own verdict. */
  lemma DistinctIdsOwnVerdict(reports: seq<Report>, verdicts: map<int, Verdict>, ratio: Ratio)
    requires forall i, j :: 0 <= i < j < |reports| ==> reports[i].id != reports[j].id
    requires forall i :: 0 <= i < |reports| && LastWithId(reports, i, |reports|) ==>
      reports[i].id in verdicts && verdicts[reports[i].id] == Assess(reports[i], ratio)
    ensures forall i :: 0 <= i < |reports| ==>
      reports[i].id in verdicts && verdicts[reports[i].id] == Assess(reports[i], ratio)
  {
    forall i | 0 <= i < |reports|
      ensures LastWithId(reports, i, |reports|)
    {
    }
  }

  /**
   * An empty batch yields one incident "incident_1" with no reports, priority
   * 1 and no location, and no verdicts.
   */
  lemma EmptyBatchResult(result: BatchResult, dist: Distance, kmeans: KMeans, ratio: Ratio)
    requires IsPartitioner(kmeans)
    requires result.clusteredReports == Clustered([], dist, kmeans)
    requires result.validationResults.Keys == Ids([], 0)
    requires result.incidentSummary.Keys == result.clusteredReports.Keys
    requires forall key :: key in result.incidentSummary ==>
      result.incidentSummary[key] == SummarizeIncident(result.clusteredReports[key], result.validationResults)
    requires result.totalIncidents == |result.clusteredReports|
    ensures result.totalIncidents == 1
    ensures result.validationResults == map[]
    ensures result.incidentSummary == map["incident_1" := IncidentSummary(0, 0, 1, {}, None)]
  {
    assert result.clusteredReports == map["incident_1" := []];
    assert result.clusteredReports.Keys == {"incident_1"};
    var s := result.incidentSummary["incident_1"];
    assert s.disasterTypes == {};
  }

  /**
   * In a non-empty batch with priorities in 1..5, every incident summary
   * counts a non-empty group, at most that many authentic reports, and a
   * priority in 1..5 reached by one of its members; its location is the mean.
   */
  lemma BatchIncidentSummary(reports: seq<Report>, dist: Distance, kmeans: KMeans,
                             verdicts: map<int, Verdict>, key: string)
    requires IsPartitioner(kmeans)
    requires |reports| >= 1 && ValidPriorities(reports)
    requires key in Clustered(reports, dist, kmeans)
    requires forall t :: 0 <= t < |Clustered(reports, dist, kmeans)[key]| ==>
      Clustered(reports, dist, kmeans)[key][t].id in verdicts
    ensures var g := Clustered(reports, dist, kmeans)[key];
      var s := SummarizeIncident(g, verdicts);
      s.totalReports == |g| > 0 && s.authenticReports <= s.totalReports &&
      MinPriority <= s.priority <= MaxPriorityLevel &&
      (exists t :: 0 <= t < |g| && g[t].priority == s.priority) &&
      s.location == Some(MeanLocation(g))
  {
    var g := Clustered(reports, dist, kmeans)[key];
    assert |g| > 0 by {
      ClusteredIsPartition(reports, dist, kmeans);
    }
    assert ValidPriorities(g) by {
      ClusteredMembersFromBatch(reports, dist, kmeans);
    }
  }
}
