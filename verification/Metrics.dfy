/** Answer and evidence metrics: exact match and the two F1 scores, in exact arithmetic. */
module Metrics {
  import opened Prelude
  import opened PyText

  datatype Scores = Scores(precision: real, recall: real, f1: real)

  function HarmonicMean(precision: real, recall: real): real
    requires precision >= 0.0 && recall >= 0.0
  {
    if precision == 0.0 || recall == 0.0 then 0.0 else 2.0 * precision * recall / (precision + recall)
  }

  function Ratio(part: nat, whole: nat): (r: real)
    requires whole > 0
    ensures r >= 0.0
  {
    NonNegativeQuotient(part as real, whole as real);
    part as real / whole as real
  }

  lemma NonNegativeQuotient(a: real, b: real)
    requires a >= 0.0 && b > 0.0
    ensures a / b >= 0.0
  {
  }

  function Overlap(gold: multiset<string>, predicted: multiset<string>): nat {
    |gold * predicted|
  }

  /** `_token_f1`. */
  function TokenF1(gold: seq<string>, predicted: seq<string>): real {
    if gold == [] && predicted == [] then 1.0
    else if gold == [] || predicted == [] then 0.0
    else
      var overlap := Overlap(multiset(gold), multiset(predicted));
      if overlap == 0 then 0.0
      else HarmonicMean(Ratio(overlap, |predicted|), Ratio(overlap, |gold|))
  }

  // ----- the arithmetic -----

  lemma CancelProduct(x: real, y: real, p: real, g: real)
    requires p > 0.0 && g > 0.0 && x * (p * g) == y * (p * g)
    ensures x == y
  {
    assert p * g > 0.0;
    assert (x - y) * (p * g) == 0.0;
  }

  lemma Expand(q: real, a: real, b: real, p: real, g: real)
    ensures q * (a + b) * (p * g) == q * ((a * p) * g + (b * g) * p)
  {
  }

  lemma Regroup(a: real, b: real, p: real, g: real)
    ensures 2.0 * a * b * (p * g) == 2.0 * (a * p) * (b * g)
  {
  }

  /** The harmonic mean of o/p and o/g. */
  lemma HarmonicOfRatios(o: real, p: real, g: real)
    requires o > 0.0 && p > 0.0 && g > 0.0
    ensures o / p > 0.0 && o / g > 0.0
    ensures HarmonicMean(o / p, o / g) == 2.0 * o / (p + g)
  {
    var a, b, q := o / p, o / g, 2.0 * o / (p + g);
    assert a * p == o && b * g == o && q * (p + g) == 2.0 * o;
    Expand(q, a, b, p, g);
    Regroup(a, b, p, g);
    assert q * (o * g + o * p) == o * (q * (p + g));
    CancelProduct(q * (a + b), 2.0 * a * b, p, g);
    Solve(q, a + b, 2.0 * a * b);
  }

  lemma Solve(q: real, d: real, n: real)
    requires d > 0.0 && q * d == n
    ensures n / d == q
  {
  }

  lemma HalfQuotient(o: nat, n: nat)
    requires n > 0 && 2 * o <= n
    ensures 0.0 <= 2.0 * o as real / n as real <= 1.0
    ensures 2.0 * o as real / n as real == 1.0 <==> 2 * o == n
  {
    var q := 2.0 * o as real / n as real;
    assert q * n as real == 2.0 * o as real;
    if q == 1.0 {
      assert n as real == 2.0 * o as real;
    }
    if q > 1.0 {
      Exceeds(q, n as real);
    }
  }

  lemma Exceeds(q: real, n: real)
    requires q > 1.0 && n > 0.0
    ensures q * n > n
  {
  }

  // ----- the laws of token F1 -----

  lemma OverlapBounds(gold: multiset<string>, predicted: multiset<string>)
    ensures Overlap(gold, predicted) <= |gold| && Overlap(gold, predicted) <= |predicted|
    ensures 2 * Overlap(gold, predicted) == |gold| + |predicted| <==> gold == predicted
    ensures Overlap(gold, predicted) == Overlap(predicted, gold)
  {
    var both := gold * predicted;
    assert gold == both + (gold - both) && predicted == both + (predicted - both);
    assert |gold| == |both| + |gold - both| && |predicted| == |both| + |predicted - both|;
    assert both == predicted * gold;
    if 2 * |both| == |gold| + |predicted| {
      assert |gold - both| == 0 && |predicted - both| == 0;
      assert gold - both == multiset{} && predicted - both == multiset{};
    }
    if gold == predicted {
      assert both == gold;
    }
  }

  /** Unless both lists are empty the score is twice the overlap over the number of tokens. */
  lemma ClosedForm(gold: seq<string>, predicted: seq<string>)
    requires gold != [] || predicted != []
    ensures TokenF1(gold, predicted)
         == 2.0 * Overlap(multiset(gold), multiset(predicted)) as real / (|gold| + |predicted|) as real
  {
    var overlap := Overlap(multiset(gold), multiset(predicted));
    OverlapBounds(multiset(gold), multiset(predicted));
    assert |multiset(gold)| == |gold| && |multiset(predicted)| == |predicted|;
    if overlap > 0 {
      HarmonicOfRatios(overlap as real, |predicted| as real, |gold| as real);
      assert (|gold| + |predicted|) as real == |predicted| as real + |gold| as real;
    }
  }

  /** The score lies between 0 and 1, is symmetric, and is 1 exactly when the tokens are the same up to order. */
  lemma TokenF1Laws(gold: seq<string>, predicted: seq<string>)
    ensures 0.0 <= TokenF1(gold, predicted) <= 1.0
    ensures TokenF1(gold, predicted) == TokenF1(predicted, gold)
    ensures TokenF1(gold, predicted) == 1.0 <==> multiset(gold) == multiset(predicted)
  {
    var g, p := multiset(gold), multiset(predicted);
    assert |g| == |gold| && |p| == |predicted|;
    OverlapBounds(g, p);
    OverlapBounds(p, g);
    if gold != [] || predicted != [] {
      ClosedForm(gold, predicted);
      ClosedForm(predicted, gold);
      HalfQuotient(Overlap(g, p), |gold| + |predicted|);
    }
  }

  // ----- evidence -----

  /** An evidence key; the locator may be missing. */
  datatype Evidence = Evidence(sourceType: string, sourceId: string, locator: Option<string>)

  /** `compute_evidence_metrics` on the two sets of keys. */
  function EvidenceScores(gold: set<Evidence>, predicted: set<Evidence>): Scores {
    if gold == {} && predicted == {} then Scores(1.0, 1.0, 1.0)
    else if gold == {} || predicted == {} then Scores(0.0, 0.0, 0.0)
    else
      var overlap := |gold * predicted|;
      var precision, recall := Ratio(overlap, |predicted|), Ratio(overlap, |gold|);
      Scores(precision, recall, HarmonicMean(precision, recall))
  }

  lemma SetOverlap(gold: set<Evidence>, predicted: set<Evidence>)
    ensures |gold * predicted| <= |gold| && |gold * predicted| <= |predicted|
    ensures 2 * |gold * predicted| == |gold| + |predicted| <==> gold == predicted
    ensures gold * predicted == predicted * gold
  {
    var both := gold * predicted;
    assert gold == both + (gold - both) && predicted == both + (predicted - both);
    assert |gold| == |both| + |gold - both| && |predicted| == |both| + |predicted - both|;
  }

  lemma EvidenceClosedForm(gold: set<Evidence>, predicted: set<Evidence>)
    requires gold != {} || predicted != {}
    ensures EvidenceScores(gold, predicted).f1 == 2.0 * |gold * predicted| as real / (|gold| + |predicted|) as real
  {
    var overlap := |gold * predicted|;
    SetOverlap(gold, predicted);
    if overlap > 0 {
      HarmonicOfRatios(overlap as real, |predicted| as real, |gold| as real);
      assert (|gold| + |predicted|) as real == |predicted| as real + |gold| as real;
    }
  }

  /** The evidence score obeys the same laws; swapping the sets swaps precision and recall. */
  lemma EvidenceLaws(gold: set<Evidence>, predicted: set<Evidence>)
    ensures var s, t := EvidenceScores(gold, predicted), EvidenceScores(predicted, gold);
            0.0 <= s.f1 <= 1.0 && s.f1 == t.f1 && s.precision == t.recall && s.recall == t.precision
    ensures EvidenceScores(gold, predicted).f1 == 1.0 <==> gold == predicted
  {
    SetOverlap(gold, predicted);
    SetOverlap(predicted, gold);
    if gold != {} || predicted != {} {
      EvidenceClosedForm(gold, predicted);
      EvidenceClosedForm(predicted, gold);
      HalfQuotient(|gold * predicted|, |gold| + |predicted|);
    }
  }

  /** Precision is the common keys by the predicted ones, recall the common keys by the gold ones. */
  lemma EvidenceCounts(gold: set<Evidence>, predicted: set<Evidence>)
    requires gold != {} && predicted != {}
    ensures EvidenceScores(gold, predicted).precision * |predicted| as real == |gold * predicted| as real
    ensures EvidenceScores(gold, predicted).recall * |gold| as real == |gold * predicted| as real
  {
    RatioOf(|gold * predicted|, |predicted|);
    RatioOf(|gold * predicted|, |gold|);
  }

  lemma RatioOf(part: nat, whole: nat)
    requires whole > 0
    ensures Ratio(part, whole) * whole as real == part as real
  {
  }

  /** With nothing on one side only, all three scores are zero; with nothing on both, one. */
  lemma EvidenceEmpty(s: set<Evidence>)
    ensures EvidenceScores({}, s) == EvidenceScores(s, {}) == if s == {} then Scores(1.0, 1.0, 1.0) else Scores(0.0, 0.0, 0.0)
  {
  }
}
