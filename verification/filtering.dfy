/**
 * Keeping the reports that pass a condition, in input order: the `where`
 * clauses of the admin queries and the authentic-report count of a batch
 * incident. The filter is pinned down by how it splits over concatenation
 * and what it does to one report, and its length is the number of positions
 * whose report passes the condition.
 */
module Filtering {
  import opened Wrappers
  import opened Reports

  /** The reports that pass `keep`, in input order. */
  function Filter(s: seq<Report>, keep: Report -> bool): (r: seq<Report>)
    ensures |r| <= |s|
  {
    if s == [] then []
    else (if keep(s[0]) then [s[0]] else []) + Filter(s[1..], keep)
  }

  /** A report is kept exactly when it is one of the input reports and passes the condition. */
  lemma {:induction false} FilterMembers(s: seq<Report>, keep: Report -> bool)
    ensures forall x :: x in Filter(s, keep) <==> x in s && keep(x)
    ensures forall i :: 0 <= i < |s| && keep(s[i]) ==> s[i] in Filter(s, keep)
  {
    if s != [] {
      FilterMembers(s[1..], keep);
      assert forall x :: x in s <==> x == s[0] || x in s[1..];
    }
  }

  /** Nothing is kept exactly when no report passes the condition. */
  lemma FilterEmptyIff(s: seq<Report>, keep: Report -> bool)
    ensures Filter(s, keep) == [] <==> forall i :: 0 <= i < |s| ==> !keep(s[i])
  {
    FilterMembers(s, keep);
  }

  /** Filtering distributes over concatenation: the kept reports stay in query order. */
  lemma {:induction false} FilterAppend(a: seq<Report>, b: seq<Report>, keep: Report -> bool)
    ensures Filter(a + b, keep) == Filter(a, keep) + Filter(b, keep)
  {
    if a == [] {
      assert a + b == b;
    } else {
      var head := if keep(a[0]) then [a[0]] else [];
      assert Filter(a + b, keep) == head + Filter(a[1..] + b, keep) by {
        assert (a + b)[0] == a[0];
        assert (a + b)[1..] == a[1..] + b;
      }
      FilterAppend(a[1..], b, keep);
      AppendAssoc(head, Filter(a[1..], keep), Filter(b, keep));
    }
  }

  /** A single report is kept exactly when it passes the condition. */
  lemma FilterSingle(x: Report, keep: Report -> bool)
    ensures Filter([x], keep) == if keep(x) then [x] else []
  {
    assert [x][1..] == [];
  }

  /** The positions below `n` whose report passes the condition. */
  function KeptPositions(s: seq<Report>, keep: Report -> bool, n: nat): set<nat>
    requires n <= |s|
  {
    set i: nat | i < n && keep(s[i])
  }

  lemma FilterSnocCount(s: seq<Report>, keep: Report -> bool, n: nat)
    requires 0 < n <= |s|
    ensures |Filter(s[..n], keep)| == |Filter(s[..n - 1], keep)| + if keep(s[n - 1]) then 1 else 0
  {
    assert s[..n] == s[..n - 1] + [s[n - 1]];
    FilterAppend(s[..n - 1], [s[n - 1]], keep);
    FilterSingle(s[n - 1], keep);
  }

  lemma KeptPositionsStep(s: seq<Report>, keep: Report -> bool, n: nat)
    requires 0 < n <= |s|
    ensures |KeptPositions(s, keep, n)| == |KeptPositions(s, keep, n - 1)| + if keep(s[n - 1]) then 1 else 0
  {
    if keep(s[n - 1]) {
      assert KeptPositions(s, keep, n) == KeptPositions(s, keep, n - 1) + {n - 1};
    } else {
      assert KeptPositions(s, keep, n) == KeptPositions(s, keep, n - 1);
    }
  }

  lemma {:induction false} FilterPrefixCount(s: seq<Report>, keep: Report -> bool, n: nat)
    requires n <= |s|
    ensures |Filter(s[..n], keep)| == |KeptPositions(s, keep, n)|
  {
    if n == 0 {
      assert s[..0] == [];
      assert KeptPositions(s, keep, 0) == {};
    } else {
      FilterSnocCount(s, keep, n);
      KeptPositionsStep(s, keep, n);
      FilterPrefixCount(s, keep, n - 1);
    }
  }

  /** The number of kept reports is the number of positions whose report passes the condition. */
  lemma FilterCount(s: seq<Report>, keep: Report -> bool)
    ensures |Filter(s, keep)| == |set i: nat | i < |s| && keep(s[i])|
  {
    FilterPrefixCount(s, keep, |s|);
    assert s[..|s|] == s;
  }

  /** Every report is kept either by a condition or by its negation, never both. */
  lemma {:induction false} FilterSplits(s: seq<Report>, keep: Report -> bool, drop: Report -> bool)
    requires forall x :: drop(x) == !keep(x)
    ensures |Filter(s, keep)| + |Filter(s, drop)| == |s|
  {
    if s != [] {
      FilterSplits(s[1..], keep, drop);
    }
  }
}
