/** Classification metrics over exact reals (app/utils/evaluation_metrics.py). */
module Metrics {

  datatype Label = Label(name: string)

  datatype Cell = TP | FP | TN | FN

  datatype Counts = Counts(tp: nat, fp: nat, tn: nat, fn: nat)

  function CellOf(actual: Label, predicted: Label, positive: Label): Cell {
    if predicted == positive then (if actual == positive then TP else FP)
    else if actual == positive then FN else TN
  }

  /** How many pairs fall into `cell`. */
  function Count(actual: seq<Label>, predicted: seq<Label>, positive: Label, cell: Cell): nat
    requires |actual| == |predicted|
  {
    if actual == [] then 0
    else
      var n := |actual| - 1;
      var one := if CellOf(actual[n], predicted[n], positive) == cell then 1 else 0;
      Count(actual[..n], predicted[..n], positive, cell) + one
  }

  function AllCounts(actual: seq<Label>, predicted: seq<Label>, positive: Label): Counts
    requires |actual| == |predicted|
  {
    Counts(Count(actual, predicted, positive, TP), Count(actual, predicted, positive, FP),
           Count(actual, predicted, positive, TN), Count(actual, predicted, positive, FN))
  }

  function Correct(actual: seq<Label>, predicted: seq<Label>): nat
    requires |actual| == |predicted|
  {
    if actual == [] then 0
    else
      var n := |actual| - 1;
      Correct(actual[..n], predicted[..n]) + if actual[n] == predicted[n] then 1 else 0
  }

  datatype Tally = Tallied(counts: Counts) | LengthMismatch

  method ConfusionCounts(actual: seq<Label>, predicted: seq<Label>, positive: Label) returns (r: Tally)
    ensures r.LengthMismatch? <==> |actual| != |predicted|
    ensures r.Tallied? ==> r.counts == AllCounts(actual, predicted, positive)
  {
    if |actual| != |predicted| {
      return LengthMismatch;
    }
    var tp, fp, tn, fn := 0, 0, 0, 0;
    for i := 0 to |actual|
      invariant tp == Count(actual[..i], predicted[..i], positive, TP)
      invariant fp == Count(actual[..i], predicted[..i], positive, FP)
      invariant tn == Count(actual[..i], predicted[..i], positive, TN)
      invariant fn == Count(actual[..i], predicted[..i], positive, FN)
    {
      assert actual[..i + 1][..i] == actual[..i] && predicted[..i + 1][..i] == predicted[..i];
      if predicted[i] == positive && actual[i] == positive {
        tp := tp + 1;
      } else if predicted[i] == positive && actual[i] != positive {
        fp := fp + 1;
      } else if predicted[i] != positive && actual[i] != positive {
        tn := tn + 1;
      } else {
        fn := fn + 1;
      }
    }
    assert actual[..|actual|] == actual && predicted[..|predicted|] == predicted;
    return Tallied(Counts(tp, fp, tn, fn));
  }

  /** What puts a pair into a cell. */
  ghost predicate InCell(actual: Label, predicted: Label, positive: Label, cell: Cell) {
    match cell
    case TP => actual == positive && predicted == positive
    case FP => actual != positive && predicted == positive
    case TN => actual != positive && predicted != positive
    case FN => actual == positive && predicted != positive
  }

  ghost function Pairs(actual: seq<Label>, predicted: seq<Label>, positive: Label, cell: Cell): set<nat>
    requires |actual| == |predicted|
  {
    set i: nat | i < |actual| && InCell(actual[i], predicted[i], positive, cell)
  }

  /** Each counter is the number of positions whose pair is of its kind. */
  lemma {:induction false} CountIs(actual: seq<Label>, predicted: seq<Label>, positive: Label, cell: Cell)
    requires |actual| == |predicted|
    ensures Count(actual, predicted, positive, cell) == |Pairs(actual, predicted, positive, cell)|
  {
    if actual != [] {
      var n := |actual| - 1;
      var before := Pairs(actual[..n], predicted[..n], positive, cell);
      CountIs(actual[..n], predicted[..n], positive, cell);
      assert CellOf(actual[n], predicted[n], positive) == cell <==> InCell(actual[n], predicted[n], positive, cell);
      if InCell(actual[n], predicted[n], positive, cell) {
        assert Pairs(actual, predicted, positive, cell) == before + {n};
      } else {
        assert Pairs(actual, predicted, positive, cell) == before;
      }
    }
  }

  ghost function EqualPairs(actual: seq<Label>, predicted: seq<Label>): set<nat>
    requires |actual| == |predicted|
  {
    set i: nat | i < |actual| && actual[i] == predicted[i]
  }

  lemma {:induction false} CorrectIs(actual: seq<Label>, predicted: seq<Label>)
    requires |actual| == |predicted|
    ensures Correct(actual, predicted) == |EqualPairs(actual, predicted)|
  {
    if actual != [] {
      var n := |actual| - 1;
      var before := EqualPairs(actual[..n], predicted[..n]);
      CorrectIs(actual[..n], predicted[..n]);
      if actual[n] == predicted[n] {
        assert EqualPairs(actual, predicted) == before + {n};
      } else {
        assert EqualPairs(actual, predicted) == before;
      }
    }
  }

  /** `class_distribution`: the multiset of the labels. */
  function ClassDistribution(labels: seq<Label>): multiset<Label> {
    multiset(labels)
  }

  /** Two labels that differ although neither is the positive one. */
  ghost predicate Confused(actual: seq<Label>, predicted: seq<Label>, positive: Label, i: nat)
    requires i < |actual| == |predicted|
  {
    actual[i] != predicted[i] && actual[i] != positive && predicted[i] != positive
  }

  /** The four counts add up to the samples and to the positive label's share of both distributions. */
  lemma {:induction false} CountsAddUp(actual: seq<Label>, predicted: seq<Label>, positive: Label)
    requires |actual| == |predicted|
    ensures
      var tp, fp := Count(actual, predicted, positive, TP), Count(actual, predicted, positive, FP);
      var tn, fn := Count(actual, predicted, positive, TN), Count(actual, predicted, positive, FN);
      && tp + fp + tn + fn == |actual|
      && tp + fn == ClassDistribution(actual)[positive]
      && tp + fp == ClassDistribution(predicted)[positive]
  {
    if actual == [] {
    } else {
      var n := |actual| - 1;
      CountsAddUp(actual[..n], predicted[..n], positive);
      DistributionAppend(actual, n, positive);
      DistributionAppend(predicted, n, positive);
    }
  }

  lemma {:induction false} DistributionAppend(labels: seq<Label>, n: nat, x: Label)
    requires |labels| == n + 1
    ensures ClassDistribution(labels)[x] == ClassDistribution(labels[..n])[x] + if labels[n] == x then 1 else 0
  {
    assert labels == labels[..n] + [labels[n]];
  }

  /** `correct` lies between tp and tp + tn, and reaches tp + tn exactly when no pair confuses two other labels. */
  lemma {:induction false} CorrectBounds(actual: seq<Label>, predicted: seq<Label>, positive: Label)
    requires |actual| == |predicted|
    ensures
      var tp, tn := Count(actual, predicted, positive, TP), Count(actual, predicted, positive, TN);
      var correct := Correct(actual, predicted);
      && tp <= correct <= tp + tn
      && (correct == tp + tn <==> forall i: nat :: i < |actual| ==> !Confused(actual, predicted, positive, i))
  {
    if actual == [] {
    } else {
      var n := |actual| - 1;
      var a, p := actual[..n], predicted[..n];
      CorrectBounds(a, p, positive);
      assert forall i: nat :: i < n ==> (Confused(a, p, positive, i) <==> Confused(actual, predicted, positive, i));
      assert (forall i: nat :: i < |actual| ==> !Confused(actual, predicted, positive, i)) <==>
        (forall i: nat :: i < n ==> !Confused(a, p, positive, i)) && !Confused(actual, predicted, positive, n);
    }
  }

  lemma {:induction false} CorrectAtMostAll(actual: seq<Label>, predicted: seq<Label>, positive: Label)
    requires |actual| == |predicted|
    ensures Correct(actual, predicted) <= |actual|
  {
    CountsAddUp(actual, predicted, positive);
    CorrectBounds(actual, predicted, positive);
  }

  // ----- Scores

  function SafeDivide(numerator: real, denominator: real): real {
    if denominator != 0.0 then numerator / denominator else 0.0
  }

  function Precision(c: Counts): real {
    SafeDivide(c.tp as real, (c.tp + c.fp) as real)
  }

  function Recall(c: Counts): real {
    SafeDivide(c.tp as real, (c.tp + c.fn) as real)
  }

  function F1(c: Counts): real {
    SafeDivide(2.0 * Precision(c) * Recall(c), Precision(c) + Recall(c))
  }

  datatype Summary = Summary(samples: nat, accuracy: real, precision: real, recall: real, f1: real, counts: Counts)
                   | NoSummary

  method CountCorrect(actual: seq<Label>, predicted: seq<Label>) returns (correct: nat)
    requires |actual| == |predicted|
    ensures correct == Correct(actual, predicted)
  {
    correct := 0;
    for i := 0 to |actual|
      invariant correct == Correct(actual[..i], predicted[..i])
    {
      assert actual[..i + 1][..i] == actual[..i] && predicted[..i + 1][..i] == predicted[..i];
      if actual[i] == predicted[i] {
        correct := correct + 1;
      }
    }
    assert actual[..|actual|] == actual && predicted[..|predicted|] == predicted;
  }

  /** `classification_summary`: lengths must match and at least one sample is required. */
  method ClassificationSummary(actual: seq<Label>, predicted: seq<Label>, positive: Label) returns (r: Summary)
    ensures r.NoSummary? <==> |actual| != |predicted| || actual == []
    ensures r.Summary? ==>
      && r.samples == |actual| && r.counts == AllCounts(actual, predicted, positive)
      && r.accuracy * |actual| as real == |EqualPairs(actual, predicted)| as real && 0.0 <= r.accuracy <= 1.0
      && r.precision == Precision(r.counts) && r.recall == Recall(r.counts) && r.f1 == F1(r.counts)
  {
    if |actual| != |predicted| || actual == [] {
      return NoSummary;
    }
    var tally := ConfusionCounts(actual, predicted, positive);
    var counts := tally.counts;
    var correct := CountCorrect(actual, predicted);
    CorrectIs(actual, predicted);
    CorrectAtMostAll(actual, predicted, positive);
    RatioBounds(correct, |actual|);
    var accuracy := SafeDivide(correct as real, |actual| as real);
    return Summary(|actual|, accuracy, Precision(counts), Recall(counts), F1(counts), counts);
  }

  /** Multiplying by a positive factor keeps the order. */
  lemma {:induction false} MulOrder(x: real, y: real, k: real)
    requires k > 0.0
    ensures x <= y <==> x * k <= y * k
  {
    if x <= y {
      assert (y - x) * k >= 0.0;
    } else {
      assert (x - y) * k > 0.0;
    }
  }

  lemma {:induction false} RatioBounds(a: nat, b: nat)
    requires a <= b
    ensures 0.0 <= SafeDivide(a as real, b as real) <= 1.0
    ensures b > 0 ==> SafeDivide(a as real, b as real) * b as real == a as real
    ensures b > 0 && a > 0 ==> SafeDivide(a as real, b as real) > 0.0
  {
    if b > 0 {
      var q, d := a as real / b as real, b as real;
      assert q * d == a as real;
      MulOrder(0.0, q, d);
      MulOrder(q, 1.0, d);
      MulOrder(q, 0.0, d);
    }
  }

  /** The counts in terms of the labels. */
  lemma {:induction false} CountsAre(actual: seq<Label>, predicted: seq<Label>, positive: Label)
    requires |actual| == |predicted|
    ensures
      var c := AllCounts(actual, predicted, positive);
      && c.tp == |Pairs(actual, predicted, positive, TP)|
      && c.tp + c.fp == ClassDistribution(predicted)[positive] && c.tp + c.fn == ClassDistribution(actual)[positive]
  {
    CountIs(actual, predicted, positive, TP);
    CountsAddUp(actual, predicted, positive);
  }

  /**
   Precision is the share of the predicted positives that are right, recall the share of the actual
   positives that are found; a share of nothing is zero.
  */
  lemma {:induction false} SharesOfPositives(actual: seq<Label>, predicted: seq<Label>, positive: Label, c: Counts,
                                             right: nat, found: nat, all: nat)
    requires |actual| == |predicted| && c == AllCounts(actual, predicted, positive)
    requires right == |Pairs(actual, predicted, positive, TP)|
    requires found == ClassDistribution(predicted)[positive] && all == ClassDistribution(actual)[positive]
    ensures if found > 0 then Precision(c) == right as real / found as real else Precision(c) == 0.0
    ensures if all > 0 then Recall(c) == right as real / all as real else Recall(c) == 0.0
  {
    CountsAre(actual, predicted, positive);
  }

  /** `f` is the harmonic mean of `p` and `r`, stated without division. */
  lemma {:induction false} HarmonicMean(p: real, r: real, f: real)
    requires 0.0 < p <= r && f * (p + r) == 2.0 * p * r
    ensures p <= f <= r
  {
    assert (r - p) * p >= 0.0 && (r - p) * r >= 0.0;
    assert p * (p + r) <= 2.0 * p * r <= r * (p + r);
    MulOrder(p, f, p + r);
    MulOrder(f, r, p + r);
  }

  lemma {:induction false} F1Product(c: Counts)
    requires Precision(c) + Recall(c) > 0.0
    ensures F1(c) * (Precision(c) + Recall(c)) == 2.0 * Precision(c) * Recall(c)
  {
  }

  /** All scores are in [0, 1], and F1 lies between precision and recall. */
  lemma {:induction false} ScoreBounds(c: Counts)
    ensures 0.0 <= Precision(c) <= 1.0 && 0.0 <= Recall(c) <= 1.0 && 0.0 <= F1(c) <= 1.0
    ensures if Precision(c) <= Recall(c) then Precision(c) <= F1(c) <= Recall(c) else Recall(c) <= F1(c) <= Precision(c)
  {
    var p, r := Precision(c), Recall(c);
    RatioBounds(c.tp, c.tp + c.fp);
    RatioBounds(c.tp, c.tp + c.fn);
    if c.tp == 0 {
      assert p == 0.0 && r == 0.0;
    } else {
      F1Product(c);
      if p <= r {
        HarmonicMean(p, r, F1(c));
      } else {
        HarmonicMean(r, p, F1(c));
      }
    }
  }

  lemma {:induction false} ClosedForm(t: real, a: real, b: real, p: real, r: real, f: real, g: real)
    requires t > 0.0 && a > 0.0 && b > 0.0 && p > 0.0 && r > 0.0
    requires p * a == t && r * b == t && f * (p + r) == 2.0 * p * r && g * (a + b) == 2.0 * t
    ensures f == g
  {
    var k := (p + r) * (a * b);
    assert f * k == 2.0 * t * t by {
      assert f * k == (f * (p + r)) * (a * b) == (2.0 * p * r) * (a * b) == 2.0 * (p * a) * (r * b);
    }
    assert k == t * (a + b) by {
      assert k == (p * a) * b + (r * b) * a;
    }
    assert g * k == 2.0 * t * t by {
      assert g * k == (g * (a + b)) * t;
    }
    assert k > 0.0 by { assert a * b > 0.0; }
    MulOrder(f, g, k);
    MulOrder(g, f, k);
  }

  /** F1 equals 2tp / (2tp + fp + fn), degenerate cases included. */
  lemma {:induction false} F1ClosedForm(c: Counts)
    ensures F1(c) == SafeDivide((2 * c.tp) as real, (2 * c.tp + c.fp + c.fn) as real)
  {
    RatioBounds(c.tp, c.tp + c.fp);
    RatioBounds(c.tp, c.tp + c.fn);
    if c.tp == 0 {
      assert Precision(c) == 0.0 && Recall(c) == 0.0;
      RatioBounds(0, c.fp + c.fn);
      MulOrder(SafeDivide(0.0, (c.fp + c.fn) as real), 0.0, 1.0);
    } else {
      var t, a, b := c.tp as real, (c.tp + c.fp) as real, (c.tp + c.fn) as real;
      F1Product(c);
      assert (2.0 * t / (a + b)) * (a + b) == 2.0 * t;
      ClosedForm(t, a, b, Precision(c), Recall(c), F1(c), 2.0 * t / (a + b));
      assert (2 * c.tp) as real == 2.0 * t && (2 * c.tp + c.fp + c.fn) as real == a + b;
    }
  }
}
