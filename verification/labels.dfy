/**
 * Incident labels `"incident_{cluster + 1}"`, written with Python's decimal
 * formatting of a non-negative integer, and the proof that distinct cluster
 * labels give distinct incident keys.
 */
module IncidentLabels {
  import opened Wrappers

  const Prefix: string := "incident_"

  predicate IsDigit(c: char) { '0' <= c <= '9' }

  function DigitChar(d: nat): (c: char)
    requires d < 10
    ensures IsDigit(c) && c as int - '0' as int == d
  {
    ('0' as int + d) as char
  }

  /** `str(n)` for a non-negative integer: most significant digit first. */
  function DecimalString(n: nat): (s: string)
    ensures |s| >= 1
    ensures forall i :: 0 <= i < |s| ==> IsDigit(s[i])
    ensures n >= 1 ==> s[0] != '0'
    decreases n
  {
    if n < 10 then [DigitChar(n)] else DecimalString(n / 10) + [DigitChar(n % 10)]
  }

  /** `int(s)` for a non-empty string of decimal digits. */
  function ParseDecimal(s: string): nat
    requires forall i :: 0 <= i < |s| ==> IsDigit(s[i])
    decreases |s|
  {
    if s == [] then 0
    else
      assert IsDigit(s[|s| - 1]);
      ParseDecimal(s[..|s| - 1]) * 10 + (s[|s| - 1] as int - '0' as int)
  }

  lemma {:induction false} ParseDecimalString(n: nat)
    ensures ParseDecimal(DecimalString(n)) == n
    decreases n
  {
    if n >= 10 {
      var s := DecimalString(n);
      assert s[..|s| - 1] == DecimalString(n / 10);
      ParseDecimalString(n / 10);
    }
  }

  /** The dictionary key the grouping loop gives to a K-Means cluster. */
  function IncidentLabel(cluster: nat): (key: string)
    ensures |key| > |Prefix| && key[..|Prefix|] == Prefix
  {
    Prefix + DecimalString(cluster + 1)
  }

  /** Reads the cluster index back out of an incident key, if it is one. */
  function LabelOf(key: string): Option<nat>
  {
    if |key| > |Prefix| && key[..|Prefix|] == Prefix
       && (forall i :: |Prefix| <= i < |key| ==> IsDigit(key[i]))
    then
      var n := ParseDecimal(key[|Prefix|..]);
      if n >= 1 then Some(n - 1) else None
    else None
  }

  lemma LabelRoundTrip(cluster: nat)
    ensures LabelOf(IncidentLabel(cluster)) == Some(cluster)
  {
    var key := IncidentLabel(cluster);
    assert key[|Prefix|..] == DecimalString(cluster + 1);
    ParseDecimalString(cluster + 1);
  }

  /** Distinct cluster labels never share an incident key. */
  lemma IncidentLabelInjective(a: nat, b: nat)
    ensures IncidentLabel(a) == IncidentLabel(b) <==> a == b
  {
    LabelRoundTrip(a);
    LabelRoundTrip(b);
  }

  /** The key of the first cluster is the literal the small-batch branch uses. */
  lemma FirstIncidentLabel()
    ensures IncidentLabel(0) == "incident_1"
  {
    assert DecimalString(1) == "1";
  }
}
