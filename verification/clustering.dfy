/**
 * `ReportValidator.cluster_reports_by_location`: batches of fewer than two
 * reports form the single incident "incident_1"; larger batches are split by
 * the cluster labels K-Means assigns, each label `l` becoming the key
 * `"incident_{l + 1}"`, with the reports of a key kept in input order.
 *
 * K-Means itself is a parameter: all the grouping relies on is that it
 * returns one label per point, each below the number of clusters asked for.
 */
module Clustering {
  import opened Reports
  import opened IncidentLabels
  import opened Proximity

  /** `KMeans(n_clusters = k, ...).fit_predict(coords)`. */
  type KMeans = (seq<Coord>, nat) -> seq<nat>

  /** K-Means' contract for `1 <= k <= len(coords)`: one label in `[0, k)` per point. */
  ghost predicate IsPartitioner(kmeans: KMeans)
  {
    forall cs: seq<Coord>, k: nat :: 1 <= k <= |cs| ==>
      |kmeans(cs, k)| == |cs| && (forall i :: 0 <= i < |cs| ==> kmeans(cs, k)[i] < k)
  }

  /** The positions whose label maps to `key`. */
  function MemberIndices(labels: seq<nat>, key: string): (idx: seq<nat>)
    ensures forall t :: 0 <= t < |idx| ==> idx[t] < |labels| && IncidentLabel(labels[idx[t]]) == key
    ensures forall t, u :: 0 <= t < u < |idx| ==> idx[t] < idx[u]
    ensures forall i :: 0 <= i < |labels| && IncidentLabel(labels[i]) == key ==> i in idx
  {
    if labels == [] then []
    else
      var n := |labels| - 1;
      MemberIndices(labels[..n], key) + (if IncidentLabel(labels[n]) == key then [n] else [])
  }

  /** The reports grouped under `key`, in input order. */
  function Members(reports: seq<Report>, labels: seq<nat>, key: string): (g: seq<Report>)
    requires |labels| <= |reports|
    ensures |g| == |MemberIndices(labels, key)|
  {
    var idx := MemberIndices(labels, key);
    seq(|idx|, t requires 0 <= t < |idx| => reports[idx[t]])
  }

  /** The keys of the labels that occur. */
  function LabelKeys(labels: seq<nat>): set<string>
  {
    set i | 0 <= i < |labels| :: IncidentLabel(labels[i])
  }

  /** The dictionary the grouping loop builds from a label vector. */
  function Grouped(reports: seq<Report>, labels: seq<nat>): map<string, seq<Report>>
    requires |labels| <= |reports|
  {
    map key | key in LabelKeys(labels) :: Members(reports, labels, key)
  }

  lemma MembersSnoc(reports: seq<Report>, labels: seq<nat>, x: nat, key: string)
    requires |labels| < |reports|
    ensures Members(reports, labels + [x], key) ==
      Members(reports, labels, key) + (if IncidentLabel(x) == key then [reports[|labels|]] else [])
  {
    assert (labels + [x])[..|labels|] == labels;
  }

  /** A key no label maps to has no members. */
  lemma MembersOfAbsentKey(reports: seq<Report>, labels: seq<nat>, key: string)
    requires |labels| <= |reports|
    requires key !in LabelKeys(labels)
    ensures Members(reports, labels, key) == []
  {
    NoIndicesOfAbsentKey(labels, key);
  }

  lemma {:induction false} NoIndicesOfAbsentKey(labels: seq<nat>, key: string)
    requires key !in LabelKeys(labels)
    ensures MemberIndices(labels, key) == []
  {
    if labels != [] {
      var n := |labels| - 1;
      assert IncidentLabel(labels[n]) in LabelKeys(labels);
      assert key !in LabelKeys(labels[..n]) by {
        forall i | 0 <= i < n
          ensures IncidentLabel(labels[..n][i]) in LabelKeys(labels)
        {
          assert IncidentLabel(labels[i]) in LabelKeys(labels);
        }
      }
      NoIndicesOfAbsentKey(labels[..n], key);
    }
  }

  /** One iteration of the grouping loop keeps the dictionary equal to `Grouped` of the labels seen so far. */
  lemma GroupStep(reports: seq<Report>, labels: seq<nat>, x: nat, groups: map<string, seq<Report>>)
    requires |labels| < |reports|
    requires groups.Keys == LabelKeys(labels)
    requires forall key :: key in groups ==> groups[key] == Members(reports, labels, key)
    ensures var id := IncidentLabel(x);
      var withKey := if id in groups then groups else groups[id := []];
      var next := withKey[id := withKey[id] + [reports[|labels|]]];
      next.Keys == LabelKeys(labels + [x]) &&
      forall key :: key in next ==> next[key] == Members(reports, labels + [x], key)
  {
    var id := IncidentLabel(x);
    var withKey := if id in groups then groups else groups[id := []];
    var next := withKey[id := withKey[id] + [reports[|labels|]]];
    assert LabelKeys(labels + [x]) == LabelKeys(labels) + {id} by {
      assert IncidentLabel((labels + [x])[|labels|]) == id;
      forall i | 0 <= i < |labels| ensures (labels + [x])[i] == labels[i] { }
    }
    forall key | key in next
      ensures next[key] == Members(reports, labels + [x], key)
    {
      MembersSnoc(reports, labels, x, key);
      if key !in groups {
        MembersOfAbsentKey(reports, labels, key);
      }
    }
  }

  /** The grouping loop (`for i, label in enumerate(cluster_labels)`), building the dictionary in place. */
  method GroupByLabel(reports: seq<Report>, labels: seq<nat>) returns (groups: map<string, seq<Report>>)
    requires |labels| == |reports|
    ensures groups == Grouped(reports, labels)
  {
    groups := map[];
    for i := 0 to |labels|
      invariant groups.Keys == LabelKeys(labels[..i])
      invariant forall key :: key in groups ==> groups[key] == Members(reports, labels[..i], key)
    {
      var incidentId := IncidentLabel(labels[i]);
      GroupStep(reports, labels[..i], labels[i], groups);
      if incidentId !in groups {
        groups := groups[incidentId := []];
      }
      groups := groups[incidentId := groups[incidentId] + [reports[i]]];
      assert labels[..i + 1] == labels[..i] + [labels[i]];
    }
    assert labels[..|labels|] == labels;
    GroupedFromMembers(reports, labels, groups);
  }

  /** A map with the keys of the labels and each key's members is the grouping. */
  lemma GroupedFromMembers(reports: seq<Report>, labels: seq<nat>, groups: map<string, seq<Report>>)
    requires |labels| <= |reports|
    requires groups.Keys == LabelKeys(labels)
    requires forall key :: key in groups ==> groups[key] == Members(reports, labels, key)
    ensures groups == Grouped(reports, labels)
  {
  }

  /** The labels of the points in a batch (all 0 below two reports, where K-Means is not run). */
  function ClusterLabels(reports: seq<Report>, dist: Distance, kmeans: KMeans): (labels: seq<nat>)
    requires IsPartitioner(kmeans)
    ensures |labels| == |reports|
    ensures |reports| >= 2 ==>
      forall i :: 0 <= i < |labels| ==> labels[i] < EstimatedClusters(Coordinates(reports), dist)
  {
    if |reports| < 2 then seq(|reports|, _ => 0)
    else
      var coords := Coordinates(reports);
      EstimatedClustersRange(coords, dist);
      kmeans(coords, EstimatedClusters(coords, dist))
  }

  /** What `cluster_reports_by_location` returns. */
  function Clustered(reports: seq<Report>, dist: Distance, kmeans: KMeans): (c: map<string, seq<Report>>)
    requires IsPartitioner(kmeans)
    ensures |reports| < 2 ==> c == map["incident_1" := reports]
    ensures |reports| >= 2 ==> c.Keys == LabelKeys(ClusterLabels(reports, dist, kmeans))
  {
    if |reports| < 2 then map["incident_1" := reports]
    else Grouped(reports, ClusterLabels(reports, dist, kmeans))
  }

  method ClusterReportsByLocation(reports: seq<Report>, dist: Distance, kmeans: KMeans)
    returns (clustered: map<string, seq<Report>>)
    requires IsPartitioner(kmeans)
    ensures clustered == Clustered(reports, dist, kmeans)
    ensures |reports| < 2 ==> clustered == map["incident_1" := reports]
    ensures |reports| >= 1 ==> clustered == Grouped(reports, ClusterLabels(reports, dist, kmeans))
  {
    if |reports| < 2 {
      clustered := map["incident_1" := reports];
      if |reports| == 1 {
        SmallBatchIsGrouped(reports, dist, kmeans);
      }
      return;
    }
    var coordinates := Coordinates(reports);
    var nClusters := EstimateOptimalClusters(coordinates, dist);
    var clusterLabels := kmeans(coordinates, nClusters);
    clustered := GroupByLabel(reports, clusterLabels);
  }

  /** A single report under "incident_1" is the grouping by the all-zero label vector. */
  lemma SmallBatchIsGrouped(reports: seq<Report>, dist: Distance, kmeans: KMeans)
    requires IsPartitioner(kmeans)
    requires |reports| == 1
    ensures Clustered(reports, dist, kmeans) == Grouped(reports, ClusterLabels(reports, dist, kmeans))
  {
    var labels := ClusterLabels(reports, dist, kmeans);
    assert labels == [0];
    FirstIncidentLabel();
    assert IncidentLabel(labels[0]) in LabelKeys(labels);
    assert forall key :: key in LabelKeys(labels) ==> key == IncidentLabel(labels[0]);
    assert LabelKeys(labels) == {IncidentLabel(0)};
    assert MemberIndices(labels, "incident_1") == [0];
    assert Members(reports, labels, "incident_1") == reports;
    var g := Grouped(reports, labels);
    assert g.Keys == {"incident_1"} && g["incident_1"] == reports;
  }

  /** Fewer than two reports: one incident "incident_1" holding the input list unchanged (also when empty). */
  lemma SmallBatchSingleIncident(reports: seq<Report>, dist: Distance, kmeans: KMeans)
    requires IsPartitioner(kmeans)
    requires |reports| < 2
    ensures Clustered(reports, dist, kmeans).Keys == {IncidentLabel(0)}
    ensures Clustered(reports, dist, kmeans)[IncidentLabel(0)] == reports
  {
    FirstIncidentLabel();
  }

  /**
   * Every report lands in exactly one group: the group of its own label's key,
   * and no other key of the dictionary lists its position.
   */
  lemma GroupedIsPartition(reports: seq<Report>, labels: seq<nat>, i: nat)
    requires |labels| == |reports| && i < |labels|
    ensures IncidentLabel(labels[i]) in Grouped(reports, labels)
    ensures reports[i] in Grouped(reports, labels)[IncidentLabel(labels[i])]
    ensures forall key :: key in Grouped(reports, labels) ==>
      (i in MemberIndices(labels, key) <==> key == IncidentLabel(labels[i]))
  {
    var key := IncidentLabel(labels[i]);
    var idx := MemberIndices(labels, key);
    assert i in idx;
    var t :| 0 <= t < |idx| && idx[t] == i;
    assert Members(reports, labels, key)[t] == reports[i];
  }

  /**
   * Within a group, reports appear in input order: the t-th member is the
   * report at a position that grows with t.
   */
  lemma GroupedKeepsOrder(reports: seq<Report>, labels: seq<nat>, key: string)
    requires |labels| == |reports|
    requires key in Grouped(reports, labels)
    ensures var g := Grouped(reports, labels)[key]; var idx := MemberIndices(labels, key);
      |g| == |idx| &&
      (forall t :: 0 <= t < |g| ==> g[t] == reports[idx[t]]) &&
      (forall t, u :: 0 <= t < u < |idx| ==> idx[t] < idx[u])
  {
  }

  /** Only labels that occur become keys, so no group is empty. */
  lemma GroupedNoEmptyGroup(reports: seq<Report>, labels: seq<nat>, key: string)
    requires |labels| == |reports|
    requires key in Grouped(reports, labels)
    ensures |Grouped(reports, labels)[key]| > 0
  {
    var i :| 0 <= i < |labels| && IncidentLabel(labels[i]) == key;
    assert i in MemberIndices(labels, key);
  }

  lemma {:induction false} ImageSize(labels: seq<nat>, m: nat)
    requires m <= |labels|
    ensures |LabelKeys(labels[..m])| <= m
  {
    if m > 0 {
      ImageSize(labels, m - 1);
      assert LabelKeys(labels[..m]) == LabelKeys(labels[..m - 1]) + {IncidentLabel(labels[m - 1])};
    }
  }

  lemma {:induction false} KeysBelow(k: nat)
    ensures |set l: nat | l < k :: IncidentLabel(l)| <= k
  {
    if k > 0 {
      KeysBelow(k - 1);
      assert (set l: nat | l < k :: IncidentLabel(l))
        == (set l: nat | l < k - 1 :: IncidentLabel(l)) + {IncidentLabel(k - 1)};
    }
  }

  /** The number of incidents is at least 1 and at most both the batch size and the number of clusters. */
  lemma GroupedCount(reports: seq<Report>, labels: seq<nat>, k: nat)
    requires |labels| == |reports| >= 1
    requires forall i :: 0 <= i < |labels| ==> labels[i] < k
    ensures 1 <= |Grouped(reports, labels)| <= |reports|
    ensures |Grouped(reports, labels)| <= k
  {
    assert Grouped(reports, labels).Keys == LabelKeys(labels);
    LabelKeysBounds(labels, k);
  }

  /** A non-empty label vector with labels below k has between 1 and min(n, k) distinct keys. */
  lemma LabelKeysBounds(labels: seq<nat>, k: nat)
    requires |labels| >= 1
    requires forall i :: 0 <= i < |labels| ==> labels[i] < k
    ensures 1 <= |LabelKeys(labels)| <= |labels|
    ensures |LabelKeys(labels)| <= k
  {
    var keys := LabelKeys(labels);
    assert IncidentLabel(labels[0]) in keys;
    ImageSize(labels, |labels|);
    assert labels[..|labels|] == labels;
    LabelKeysBelow(labels, k);
  }

  lemma LabelKeysBelow(labels: seq<nat>, k: nat)
    requires forall i :: 0 <= i < |labels| ==> labels[i] < k
    ensures |LabelKeys(labels)| <= k
  {
    KeysBelow(k);
    var keys := LabelKeys(labels);
    var below := set l: nat | l < k :: IncidentLabel(l);
    assert keys <= below;
    assert below == keys + (below - keys);
  }

  /** Every report in the result of clustering comes from the batch. */
  lemma ClusteredMembersFromBatch(reports: seq<Report>, dist: Distance, kmeans: KMeans)
    requires IsPartitioner(kmeans)
    ensures forall key, t :: key in Clustered(reports, dist, kmeans) && 0 <= t < |Clustered(reports, dist, kmeans)[key]| ==>
      Clustered(reports, dist, kmeans)[key][t] in reports
  {
  }

  /**
   * Every report of a non-empty batch is in exactly one incident, incidents
   * keep input order and none is empty; there are between 1 and n incidents,
   * and for n >= 2 no more than the estimator's cluster count.
   */
  lemma ClusteredIsPartition(reports: seq<Report>, dist: Distance, kmeans: KMeans)
    requires IsPartitioner(kmeans)
    requires |reports| >= 1
    ensures var c := Clustered(reports, dist, kmeans); var labels := ClusterLabels(reports, dist, kmeans);
      (forall i :: 0 <= i < |reports| ==>
         IncidentLabel(labels[i]) in c && reports[i] in c[IncidentLabel(labels[i])] &&
         forall key :: key in c ==> (i in MemberIndices(labels, key) <==> key == IncidentLabel(labels[i]))) &&
      (forall key :: key in c ==> |c[key]| > 0) &&
      1 <= |c| <= |reports| &&
      (|reports| >= 2 ==> |c| <= EstimatedClusters(Coordinates(reports), dist))
  {
    var c := Clustered(reports, dist, kmeans);
    var labels := ClusterLabels(reports, dist, kmeans);
    if |reports| == 1 {
      SmallBatchIsGrouped(reports, dist, kmeans);
    }
    assert c == Grouped(reports, labels);
    forall i | 0 <= i < |reports|
      ensures IncidentLabel(labels[i]) in c && reports[i] in c[IncidentLabel(labels[i])]
      ensures forall key :: key in c ==> (i in MemberIndices(labels, key) <==> key == IncidentLabel(labels[i]))
    {
      GroupedIsPartition(reports, labels, i);
    }
    forall key | key in c
      ensures |c[key]| > 0
    {
      GroupedNoEmptyGroup(reports, labels, key);
    }
    var k := if |reports| >= 2 then EstimatedClusters(Coordinates(reports), dist) else 1;
    GroupedCount(reports, labels, k);
  }

  lemma {:induction false} AllOneKey(labels: seq<nat>, key: string)
    requires forall i :: 0 <= i < |labels| ==> IncidentLabel(labels[i]) == key
    ensures MemberIndices(labels, key) == seq(|labels|, i => i)
  {
    if labels != [] {
      AllOneKey(labels[..|labels| - 1], key);
    }
  }

  lemma MembersAllOneKey(reports: seq<Report>, labels: seq<nat>, key: string)
    requires |labels| == |reports|
    requires forall i :: 0 <= i < |labels| ==> IncidentLabel(labels[i]) == key
    ensures Members(reports, labels, key) == reports
  {
    AllOneKey(labels, key);
    var idx := MemberIndices(labels, key);
    assert forall t :: 0 <= t < |idx| ==> idx[t] == t;
  }

  lemma LabelKeysAllOneKey(labels: seq<nat>, key: string)
    requires |labels| >= 1
    requires forall i :: 0 <= i < |labels| ==> IncidentLabel(labels[i]) == key
    ensures LabelKeys(labels) == {key}
  {
    assert IncidentLabel(labels[0]) in LabelKeys(labels);
  }

  /** When every label maps to one key, that key is the only one and holds the whole batch. */
  lemma GroupedAllOneKey(reports: seq<Report>, labels: seq<nat>, key: string)
    requires |labels| == |reports| >= 1
    requires forall i :: 0 <= i < |labels| ==> IncidentLabel(labels[i]) == key
    ensures Grouped(reports, labels) == map[key := reports]
  {
    var single := map[key := reports];
    LabelKeysAllOneKey(labels, key);
    MembersAllOneKey(reports, labels, key);
    GroupedFromMembers(reports, labels, single);
  }

  /** A label vector of zeros groups the whole batch under "incident_1". */
  lemma GroupedAllZero(reports: seq<Report>, labels: seq<nat>)
    requires |labels| == |reports| >= 1
    requires forall i :: 0 <= i < |labels| ==> labels[i] == 0
    ensures Grouped(reports, labels) == map["incident_1" := reports]
  {
    GroupedAllOneKey(reports, labels, IncidentLabel(0));
    FirstIncidentLabel();
  }

  /**
   * Reports all at one coordinate (the distance from a point to itself being
   * 0) form the single incident "incident_1", in input order.
   */
  lemma IdenticalCoordinatesOneIncident(reports: seq<Report>, dist: Distance, kmeans: KMeans)
    requires IsPartitioner(kmeans)
    requires |reports| >= 1
    requires forall i :: 0 <= i < |reports| ==> reports[i].lat == reports[0].lat && reports[i].lng == reports[0].lng
    requires dist(Coord(reports[0].lat, reports[0].lng), Coord(reports[0].lat, reports[0].lng)) == 0.0
    ensures Clustered(reports, dist, kmeans) == map["incident_1" := reports]
  {
    if |reports| >= 2 {
      var coords := Coordinates(reports);
      assert forall i :: 0 <= i < |coords| ==> coords[i] == coords[0];
      IdenticalPointsOneGroup(coords, dist);
      var labels := ClusterLabels(reports, dist, kmeans);
      GroupedAllZero(reports, labels);
    }
  }
}
