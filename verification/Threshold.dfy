/** The percentile detector: fitted on training rows, calibrated on validation rows (cote3mon/threshold.py). */
module Threshold {
  import opened Wrappers
  import opened Percentile
  import opened PercentileLaws

  /** A row's feature values, in the order of the model's features. */
  type Row = seq<real>

  datatype PercentileModel = PercentileModel(centres: seq<real>, scales: seq<real>, threshold: real)

  predicate Rows(rows: seq<Row>, width: nat) {
    forall i | 0 <= i < |rows| :: |rows[i]| == width
  }

  function Column(rows: seq<Row>, width: nat, feature: nat): (values: seq<real>)
    requires Rows(rows, width) && feature < width
    ensures |values| == |rows| && forall i | 0 <= i < |rows| :: values[i] == rows[i][feature]
  {
    seq(|rows|, i requires 0 <= i < |rows| => rows[i][feature])
  }

  function Abs(x: real): real {
    if x < 0.0 then -x else x
  }

  function Max(a: real, b: real): real {
    if a >= b then a else b
  }

  function Deviation(x: real, centre: real, scale: real): real
    requires scale > 0.0
  {
    Abs(x - centre) / scale
  }

  predicate Usable(model: PercentileModel, width: nat) {
    |model.centres| == |model.scales| == width && forall f | 0 <= f < width :: model.scales[f] > 0.0
  }

  /** The largest deviation among the first n features. */
  function MaxDeviation(model: PercentileModel, row: Row, n: nat): real
    requires Usable(model, |row|) && 0 < n <= |row|
  {
    var last := Deviation(row[n - 1], model.centres[n - 1], model.scales[n - 1]);
    if n == 1 then last else Max(MaxDeviation(model, row, n - 1), last)
  }

  function Score(model: PercentileModel, row: Row): real
    requires Usable(model, |row|) && row != []
  {
    MaxDeviation(model, row, |row|)
  }

  predicate IsAnomaly(model: PercentileModel, row: Row)
    requires Usable(model, |row|) && row != []
  {
    Score(model, row) > model.threshold
  }

  function Scores(model: PercentileModel, rows: seq<Row>, width: nat): (scores: seq<real>)
    requires Rows(rows, width) && Usable(model, width) && width > 0
    ensures |scores| == |rows| && forall i | 0 <= i < |rows| :: scores[i] == Score(model, rows[i])
  {
    seq(|rows|, i requires 0 <= i < |rows| => Score(model, rows[i]))
  }

  const TINY := 0.000000001

  function Centre(values: seq<real>): real {
    PercentilePython(values, 0.5)
  }

  function Scale(values: seq<real>): (scale: real)
    ensures scale > 0.0
  {
    Max(Max(Centre(values) - PercentilePython(values, 0.01), PercentilePython(values, 0.99) - Centre(values)), TINY)
  }

  /** Centres and scales are those of the training columns. */
  ghost predicate FittedOn(model: PercentileModel, training: seq<Row>, width: nat)
    requires Rows(training, width)
  {
    && Usable(model, width)
    && forall f: nat | f < width ::
         model.centres[f] == Centre(Column(training, width, f)) && model.scales[f] == Scale(Column(training, width, f))
  }

  ghost predicate CalibratedOn(model: PercentileModel, validation: seq<Row>, width: nat, rate: real)
    requires Rows(validation, width) && Usable(model, width) && width > 0 && 0.0 < rate < 1.0
  {
    model.threshold == PercentilePython(Scores(model, validation, width), 1.0 - rate)
  }

  method Fit(training: seq<Row>, validation: seq<Row>, rate: real, width: nat) returns (fitted: Attempt<PercentileModel>)
    requires Rows(training, width) && Rows(validation, width)
    ensures fitted.Returned? <==> training != [] && validation != [] && 0.0 < rate < 1.0 && width > 0
    ensures fitted.Returned? ==>
      FittedOn(fitted.value, training, width) && CalibratedOn(fitted.value, validation, width, rate)
  {
    hide PercentilePython;
    if training == [] || validation == [] {
      return Raised;
    }
    if !(0.0 < rate < 1.0) {
      return Raised;
    }
    var centres, scales: seq<real> := [], [];
    for feature := 0 to width
      invariant |centres| == |scales| == feature
      invariant forall f: nat | f < feature ::
        centres[f] == Centre(Column(training, width, f)) && scales[f] == Scale(Column(training, width, f))
    {
      var values := Column(training, width, feature);
      var centre := PercentilePython(values, 0.5);
      var low := PercentilePython(values, 0.01);
      var high := PercentilePython(values, 0.99);
      centres := centres + [centre];
      scales := scales + [Max(Max(centre - low, high - centre), TINY)];
    }
    if width == 0 {
      return Raised;
    }
    var provisional := PercentileModel(centres, scales, 0.0);
    var scores := Scores(provisional, validation, width);
    var model := provisional.(threshold := PercentilePython(scores, 1.0 - rate));
    ThresholdDoesNotScore(provisional, model, validation, width);
    fitted := Returned(model);
  }

  lemma {:induction false} SameDeviation(a: PercentileModel, b: PercentileModel, row: Row, n: nat)
    requires a.centres == b.centres && a.scales == b.scales && Usable(a, |row|) && 0 < n <= |row|
    ensures MaxDeviation(a, row, n) == MaxDeviation(b, row, n)
  {
    if n > 1 {
      SameDeviation(a, b, row, n - 1);
    }
  }

  lemma {:induction false} ThresholdDoesNotScore(a: PercentileModel, b: PercentileModel, rows: seq<Row>, width: nat)
    requires a.centres == b.centres && a.scales == b.scales && Rows(rows, width) && Usable(a, width) && width > 0
    ensures Scores(a, rows, width) == Scores(b, rows, width)
  {
    forall i | 0 <= i < |rows| ensures Score(a, rows[i]) == Score(b, rows[i]) {
      SameDeviation(a, b, rows[i], width);
    }
  }

  // ----- what the score and the threshold mean

  lemma {:induction false} MaxDeviationWithin(model: PercentileModel, row: Row, n: nat, bound: real)
    requires Usable(model, |row|) && 0 < n <= |row|
    ensures MaxDeviation(model, row, n) <= bound <==>
      forall f | 0 <= f < n :: Deviation(row[f], model.centres[f], model.scales[f]) <= bound
  {
    hide Deviation;
    if n > 1 {
      MaxDeviationWithin(model, row, n - 1, bound);
    }
  }

  lemma {:induction false} ProductOfPositives(a: real, b: real)
    requires a > 0.0 && b > 0.0
    ensures a * b > 0.0
  {
  }

  lemma {:induction false} QuotientAtMost(a: real, scale: real, t: real)
    requires scale > 0.0
    ensures a / scale <= t <==> a <= t * scale
  {
    var q := a / scale;
    assert (q - t) * scale == a - t * scale && (t - q) * scale == t * scale - a;
    if q > t {
      ProductOfPositives(q - t, scale);
    } else if q < t {
      ProductOfPositives(t - q, scale);
    }
  }

  lemma {:induction false} DeviationWithin(x: real, centre: real, scale: real, t: real)
    requires scale > 0.0
    ensures Deviation(x, centre, scale) <= t <==> centre - t * scale <= x <= centre + t * scale
  {
    QuotientAtMost(Abs(x - centre), scale, t);
  }

  /** The score is at most t exactly when every feature lies within t scales of its centre. */
  lemma {:induction false} ScoreWithin(model: PercentileModel, row: Row, t: real)
    requires Usable(model, |row|) && row != []
    ensures Score(model, row) <= t <==>
      forall f | 0 <= f < |row| ::
        model.centres[f] - t * model.scales[f] <= row[f] <= model.centres[f] + t * model.scales[f]
  {
    hide Deviation;
    MaxDeviationWithin(model, row, |row|, t);
    forall f | 0 <= f < |row|
      ensures Deviation(row[f], model.centres[f], model.scales[f]) <= t <==>
        model.centres[f] - t * model.scales[f] <= row[f] <= model.centres[f] + t * model.scales[f] {
      DeviationWithin(row[f], model.centres[f], model.scales[f], t);
    }
  }

  /** What is fitted for a feature: its median, and the widest of a billionth and the distances to its 1st and 99th
      percentiles. */
  lemma {:induction false} FittedMeans(
    model: PercentileModel, training: seq<Row>, width: nat, feature: nat, s: seq<real>)
    requires Rows(training, width) && FittedOn(model, training, width) && training != [] && feature < width
    requires IsOrderOf(s, Column(training, width, feature))
    ensures var n, centre, scale := |training|, model.centres[feature], model.scales[feature];
      var low := PercentilePython(Column(training, width, feature), 0.01);
      var high := PercentilePython(Column(training, width, feature), 0.99);
      && |s| == n && centre == (s[(n - 1) / 2] + s[n / 2]) / 2.0
      && scale >= 0.000000001 && scale >= centre - low && scale >= high - centre
      && (scale == 0.000000001 || scale == centre - low || scale == high - centre)
  {
    hide PercentilePython;
    var values := Column(training, width, feature);
    assert |s| == |multiset(s)| == |multiset(values)| == |values|;
    HalfIsMedian(values, s);
  }

  /** A row inside the training band of every feature scores at most 1. */
  lemma {:induction false} BandScoresAtMostOne(model: PercentileModel, training: seq<Row>, row: Row)
    requires Rows(training, |row|) && FittedOn(model, training, |row|) && row != []
    requires forall f: nat | f < |row| ::
      PercentilePython(Column(training, |row|, f), 0.01) <= row[f] <= PercentilePython(Column(training, |row|, f), 0.99)
    ensures Score(model, row) <= 1.0
  {
    hide PercentilePython, Deviation;
    forall f: nat | f < |row| ensures Deviation(row[f], model.centres[f], model.scales[f]) <= 1.0 {
      var values := Column(training, |row|, f);
      assert model.centres[f] == Centre(values) && model.scales[f] == Scale(values);
      assert Scale(values) >= Centre(values) - PercentilePython(values, 0.01);
      assert Scale(values) >= PercentilePython(values, 0.99) - Centre(values);
      DeviationWithin(row[f], Centre(values), Scale(values), 1.0);
    }
    MaxDeviationWithin(model, row, |row|, 1.0);
  }

  function Anomalies(model: PercentileModel, rows: seq<Row>, width: nat): nat
    requires Rows(rows, width) && Usable(model, width) && width > 0
  {
    if rows == [] then 0
    else (if IsAnomaly(model, rows[0]) then 1 else 0) + Anomalies(model, rows[1..], width)
  }

  lemma {:induction false} AnomaliesAreExceedances(model: PercentileModel, rows: seq<Row>, width: nat)
    requires Rows(rows, width) && Usable(model, width) && width > 0
    ensures Anomalies(model, rows, width) == CountAbove(Scores(model, rows, width), model.threshold)
  {
    hide Score;
    if rows != [] {
      AnomaliesAreExceedances(model, rows[1..], width);
      assert Scores(model, rows, width)[1..] == Scores(model, rows[1..], width);
    }
  }

  /** The calibrated detector raises at most the allowed number of alarms on its own validation rows, and exactly that
      many when no two of them score the same. */
  lemma {:induction false} CalibratedAlarms(model: PercentileModel, validation: seq<Row>, width: nat, rate: real)
    requires Rows(validation, width) && Usable(model, width) && width > 0 && validation != [] && 0.0 < rate < 1.0
    requires CalibratedOn(model, validation, width, rate)
    ensures Anomalies(model, validation, width) <= Allowed(|validation|, rate)
    ensures (forall i, j | 0 <= i < j < |validation| :: Score(model, validation[i]) != Score(model, validation[j])) ==>
      Anomalies(model, validation, width) == Allowed(|validation|, rate)
  {
    hide Score, PercentilePython, CountAbove, Anomalies, Allowed, Sorted, Position;
    var scores := Scores(model, validation, width);
    AnomaliesAreExceedances(model, validation, width);
    ExceedancesOfPercentile(scores, rate);
    if forall i, j | 0 <= i < j < |validation| :: Score(model, validation[i]) != Score(model, validation[j]) {
      DistinctExceedances(scores, rate);
    }
  }
}
