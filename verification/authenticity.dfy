/**
 * `ReportValidator.validate_report_authenticity`: the best fuzzy match of a
 * report's title or description against eight reference news phrases, three
 * "fake" indicators, and the verdict that combines them.
 *
 * `SequenceMatcher(None, a, b).ratio()` is a parameter; `.lower()` is modelled
 * on ASCII letters.
 */
module Authenticity {
  import opened Wrappers
  import opened Reports

  /** `self.latest_disaster_news`. */
  const LatestDisasterNews: seq<string> := [
    "Major earthquake hits downtown area",
    "Flash floods reported in residential zones",
    "Wildfire spreading through forest areas",
    "Tornado warning issued for suburban regions",
    "Hurricane approaching coastal areas",
    "Landslide blocks mountain roads",
    "Building collapse in commercial district",
    "Chemical spill in industrial zone"
  ]

  /** The disaster types that do not raise the third fake indicator. */
  const KnownDisasterTypes: seq<string> :=
    ["flood", "earthquake", "fire", "tornado", "hurricane", "landslide", "collapse", "spill"]

  const SimilarityThreshold: real := 0.3
  const FakeScoreThreshold: real := 0.7
  const MinTitleLength: nat := 10

  /** A string similarity ratio (difflib's in the source). */
  type Ratio = (string, string) -> real

  /** What difflib promises of `ratio()`: a value in [0, 1]. */
  ghost predicate IsRatio(ratio: Ratio)
  {
    forall a, b :: 0.0 <= ratio(a, b) <= 1.0
  }

  function LowerChar(c: char): char
  {
    if 'A' <= c <= 'Z' then (c as int + 32) as char else c
  }

  function Lower(s: string): (r: string)
    ensures |r| == |s|
    ensures forall i :: 0 <= i < |s| ==> r[i] == LowerChar(s[i])
  {
    seq(|s|, i requires 0 <= i < |s| => LowerChar(s[i]))
  }

  /** `report.description or ""`. */
  function DescriptionText(report: Report): (text: string)
    ensures report.description.Some? ==> text == report.description.value
    ensures report.description.None? ==> text == ""
  {
    match report.description
    case Some(d) => d
    case None => ""
  }

  function Max(a: real, b: real): real
  {
    if b > a then b else a
  }

  /** The overall similarity of a report to reference phrase `p`: the better of title and description. */
  function PhraseScore(report: Report, ratio: Ratio, p: nat): (score: real)
    requires p < |LatestDisasterNews|
    ensures var news := Lower(LatestDisasterNews[p]);
      ratio(Lower(report.title), news) <= score && ratio(Lower(DescriptionText(report)), news) <= score &&
      (score == ratio(Lower(report.title), news) || score == ratio(Lower(DescriptionText(report)), news))
  {
    var news := Lower(LatestDisasterNews[p]);
    Max(ratio(Lower(report.title), news), ratio(Lower(DescriptionText(report)), news))
  }

  function PhraseScores(report: Report, ratio: Ratio): (scores: seq<real>)
    ensures |scores| == |LatestDisasterNews|
    ensures forall p :: 0 <= p < |scores| ==> scores[p] == PhraseScore(report, ratio, p)
  {
    seq(|LatestDisasterNews|, p requires 0 <= p < |LatestDisasterNews| => PhraseScore(report, ratio, p))
  }

  /** A running maximum that starts at 0, with the position of the last strict improvement. */
  datatype Match = Match(score: real, index: Option<nat>)

  /**
   * The best score and where it was first reached: the maximum of 0 and all
   * scores; no position when no score exceeds 0; otherwise the first position
   * holding the maximum.
   */
  function BestMatch(scores: seq<real>): (m: Match)
    ensures 0.0 <= m.score
    ensures forall i :: 0 <= i < |scores| ==> scores[i] <= m.score
    ensures m.index.None? ==> m.score == 0.0
    ensures m.index.Some? ==>
      m.index.value < |scores| && scores[m.index.value] == m.score && 0.0 < m.score &&
      forall i :: 0 <= i < m.index.value ==> scores[i] < m.score
  {
    if scores == [] then Match(0.0, None)
    else
      var n := |scores| - 1;
      var m := BestMatch(scores[..n]);
      if scores[n] > m.score then Match(scores[n], Some(n)) else m
  }

  /** Extending the scores by one keeps the running maximum unless the new score beats it strictly. */
  lemma BestMatchStep(scores: seq<real>, p: nat)
    requires p < |scores|
    ensures BestMatch(scores[..p + 1]) ==
      if scores[p] > BestMatch(scores[..p]).score then Match(scores[p], Some(p)) else BestMatch(scores[..p])
  {
    assert scores[..p + 1][..p] == scores[..p];
  }

  /** The reference phrase at a match position. */
  function NewsAt(index: Option<nat>): Option<string>
    requires index.Some? ==> index.value < |LatestDisasterNews|
  {
    match index
    case None => None
    case Some(p) => Some(LatestDisasterNews[p])
  }

  /** Very short title; no needs listed; disaster type outside the known list. */
  function FakeIndicators(report: Report): (indicators: seq<bool>)
    ensures |indicators| == 3
    ensures indicators[0] <==> |report.title| < MinTitleLength
    ensures indicators[1] <==> |report.needs| == 0
    ensures indicators[2] <==> Lower(report.disasterType) !in KnownDisasterTypes
  {
    [|report.title| < MinTitleLength, |report.needs| == 0, Lower(report.disasterType) !in KnownDisasterTypes]
  }

  function CountTrue(bs: seq<bool>): (c: nat)
    ensures c <= |bs|
  {
    if bs == [] then 0 else (if bs[0] then 1 else 0) + CountTrue(bs[1..])
  }

  /** `sum(fake_indicators) / len(fake_indicators)`. */
  function FakeScore(indicators: seq<bool>): (score: real)
    requires |indicators| > 0
    ensures score * |indicators| as real == CountTrue(indicators) as real
    ensures 0.0 <= score <= 1.0
  {
    CountTrue(indicators) as real / |indicators| as real
  }

  /** The result dictionary of `validate_report_authenticity`. */
  datatype Verdict = Verdict(
    isLikelyAuthentic: bool,
    similarityScore: real,
    matchingNews: Option<string>,
    fakeIndicators: seq<bool>,
    fakeScore: real)

  /** The verdict the scorer reaches for a report. */
  function Assess(report: Report, ratio: Ratio): (v: Verdict)
    ensures v.isLikelyAuthentic <==> v.similarityScore >= SimilarityThreshold && v.fakeScore < FakeScoreThreshold
    ensures v.fakeIndicators == FakeIndicators(report) && v.fakeScore == FakeScore(v.fakeIndicators)
    ensures 0.0 <= v.similarityScore
    ensures forall p :: 0 <= p < |LatestDisasterNews| ==> PhraseScore(report, ratio, p) <= v.similarityScore
    ensures v.matchingNews.None? ==> v.similarityScore == 0.0
  {
    var best := BestMatch(PhraseScores(report, ratio));
    var indicators := FakeIndicators(report);
    var fakeScore := FakeScore(indicators);
    Verdict(best.score >= SimilarityThreshold && fakeScore < FakeScoreThreshold,
            best.score, NewsAt(best.index), indicators, fakeScore)
  }

  /** The scorer's loop over the reference phrases, keeping a running maximum. */
  method ValidateReportAuthenticity(report: Report, ratio: Ratio) returns (v: Verdict)
    ensures v == Assess(report, ratio)
  {
    var titleLower := Lower(report.title);
    var descriptionLower := Lower(DescriptionText(report));
    ghost var scores := PhraseScores(report, ratio);
    var maxSimilarity := 0.0;
    var matchingNews: Option<string> := None;
    for p := 0 to |LatestDisasterNews|
      invariant maxSimilarity == BestMatch(scores[..p]).score
      invariant matchingNews == NewsAt(BestMatch(scores[..p]).index)
    {
      var newsLower := Lower(LatestDisasterNews[p]);
      var titleSimilarity := ratio(titleLower, newsLower);
      var descSimilarity := ratio(descriptionLower, newsLower);
      var overallSimilarity := Max(titleSimilarity, descSimilarity);
      BestMatchStep(scores, p);
      if overallSimilarity > maxSimilarity {
        maxSimilarity := overallSimilarity;
        matchingNews := Some(LatestDisasterNews[p]);
      }
    }
    assert scores[..|LatestDisasterNews|] == scores;
    var fakeIndicators := FakeIndicators(report);
    var fakeScore := FakeScore(fakeIndicators);
    v := Verdict(maxSimilarity >= SimilarityThreshold && fakeScore < FakeScoreThreshold,
                 maxSimilarity, matchingNews, fakeIndicators, fakeScore);
  }

  /**
   * The similarity score is the largest phrase score (0 when every phrase
   * scores 0); the matching phrase is absent exactly when the score is 0, and
   * otherwise is the first phrase reaching it.
   */
  lemma SimilarityIsFirstMaximum(report: Report, ratio: Ratio)
    ensures var v := Assess(report, ratio);
      (forall p :: 0 <= p < |LatestDisasterNews| ==> PhraseScore(report, ratio, p) <= v.similarityScore) &&
      (v.matchingNews.None? <==> v.similarityScore == 0.0) &&
      (v.matchingNews.Some? ==>
         exists p :: 0 <= p < |LatestDisasterNews| &&
           v.matchingNews.value == LatestDisasterNews[p] &&
           PhraseScore(report, ratio, p) == v.similarityScore &&
           (forall q :: 0 <= q < p ==> PhraseScore(report, ratio, q) < v.similarityScore))
  {
    var best := BestMatch(PhraseScores(report, ratio));
    if best.index.Some? {
      var p := best.index.value;
      assert LatestDisasterNews[p] == Assess(report, ratio).matchingNews.value;
    }
  }

  /** With a ratio in [0, 1], the similarity score is in [0, 1] too. */
  lemma SimilarityInUnitInterval(report: Report, ratio: Ratio)
    requires IsRatio(ratio)
    ensures 0.0 <= Assess(report, ratio).similarityScore <= 1.0
  {
    var scores := PhraseScores(report, ratio);
    var best := BestMatch(scores);
    if best.index.Some? {
      var p := best.index.value;
      var news := Lower(LatestDisasterNews[p]);
      assert 0.0 <= ratio(Lower(report.title), news) <= 1.0;
      assert 0.0 <= ratio(Lower(DescriptionText(report)), news) <= 1.0;
    }
  }

  lemma CountTrueOfThree(bs: seq<bool>)
    requires |bs| == 3
    ensures CountTrue(bs) == (if bs[0] then 1 else 0) + (if bs[1] then 1 else 0) + (if bs[2] then 1 else 0)
  {
    assert CountTrue(bs[2..]) == (if bs[2] then 1 else 0) by {
      assert bs[2..][1..] == [];
    }
    assert bs[1..][1..] == bs[2..];
  }

  /** The fake score counts the indicators in thirds: one of 0, 1/3, 2/3 and 1. */
  lemma FakeScoreInThirds(report: Report, ratio: Ratio)
    ensures var v := Assess(report, ratio);
      |v.fakeIndicators| == 3 &&
      v.fakeScore == CountTrue(v.fakeIndicators) as real / 3.0 &&
      (v.fakeScore == 0.0 || v.fakeScore == 1.0 / 3.0 || v.fakeScore == 2.0 / 3.0 || v.fakeScore == 1.0)
  {
  }

  /**
   * A report is judged authentic exactly when its similarity reaches 0.3 and at
   * most two of the three indicators are raised.
   */
  lemma AuthenticIff(report: Report, ratio: Ratio)
    ensures var v := Assess(report, ratio);
      v.isLikelyAuthentic <==> v.similarityScore >= SimilarityThreshold && CountTrue(v.fakeIndicators) <= 2
  {
    CountTrueOfThree(FakeIndicators(report));
  }

  /** A fake score of 0.7 or more rejects the report, whatever the similarity. */
  lemma HighFakeScoreRejects(report: Report, ratio: Ratio)
    requires Assess(report, ratio).fakeScore >= FakeScoreThreshold
    ensures !Assess(report, ratio).isLikelyAuthentic
  {
  }

  /** All three indicators raised: the report is rejected whatever the similarity. */
  lemma AllIndicatorsReject(report: Report, ratio: Ratio)
    requires |report.title| < MinTitleLength && |report.needs| == 0
    requires Lower(report.disasterType) !in KnownDisasterTypes
    ensures Assess(report, ratio).fakeScore == 1.0
    ensures !Assess(report, ratio).isLikelyAuthentic
  {
    CountTrueOfThree(FakeIndicators(report));
  }

  /** A missing description is scored as the empty string. */
  lemma MissingDescriptionIsEmpty(report: Report, ratio: Ratio)
    requires report.description.None?
    ensures Assess(report, ratio) == Assess(report.(description := Some("")), ratio)
  {
    assert PhraseScores(report, ratio) == PhraseScores(report.(description := Some("")), ratio);
  }

  /** Title "hi", type "alien invasion", no needs: all indicators raised, score 1.0, rejected. */
  lemma ShortAlienReportRejected(report: Report, ratio: Ratio)
    requires report.title == "hi" && report.disasterType == "alien invasion" && report.needs == []
    ensures Assess(report, ratio).fakeIndicators == [true, true, true]
    ensures Assess(report, ratio).fakeScore == 1.0
    ensures !Assess(report, ratio).isLikelyAuthentic
  {
    assert |Lower(report.disasterType)| == 14;
    AllIndicatorsReject(report, ratio);
  }

  /**
   * A title identical to the first reference phrase (ratio 1.0), a known type
   * and some needs: similarity 1.0, no fake indicator, authentic, matched to
   * that phrase.
   */
  lemma ExactTitleMatchAccepted(report: Report, ratio: Ratio)
    requires IsRatio(ratio)
    requires ratio(Lower(report.title), Lower(LatestDisasterNews[0])) == 1.0
    requires |report.title| >= MinTitleLength && |report.needs| > 0
    requires report.disasterType == "earthquake"
    ensures Assess(report, ratio).similarityScore == 1.0
    ensures Assess(report, ratio).fakeScore == 0.0
    ensures Assess(report, ratio).isLikelyAuthentic
    ensures Assess(report, ratio).matchingNews == Some(LatestDisasterNews[0])
  {
    var scores := PhraseScores(report, ratio);
    assert scores[0] == 1.0;
    SimilarityInUnitInterval(report, ratio);
    var best := BestMatch(scores);
    assert best.score == 1.0;
    assert best.index == Some(0);
    assert Lower(report.disasterType) == "earthquake";
    CountTrueOfThree(FakeIndicators(report));
  }
}
