/** How the forest's score is normalised. */
module ForestLaws {
  import opened Forest

  /** The expected path for a number of samples. */
  lemma {:induction false} AveragePathLengthIs(log: real -> real, samples: int)
    ensures samples <= 1 ==> AveragePathLength(log, samples) == 0.0
    ensures AveragePathLength(log, 2) == 1.0
    ensures samples > 2 ==>
      AveragePathLength(log, samples) + 2.0 * (samples as real - 1.0) / samples as real
      == 2.0 * (log(samples as real - 1.0) + 0.5772156649015329)
  {
  }

  // ----- quotients

  function Over(a: real, b: real): real
    requires b != 0.0
  {
    a / b
  }

  lemma {:induction false} OverIs(a: real, b: real, q: real)
    requires b != 0.0
    ensures Over(a, b) == q <==> q * b == a
  {
    assert Over(a, b) * b == a;
    assert (Over(a, b) - q) * b == a - q * b;
    if Over(a, b) != q {
      NonZeroProduct(Over(a, b) - q, b);
    }
  }

  lemma {:induction false} NonZeroProduct(a: real, b: real)
    requires a != 0.0 && b != 0.0
    ensures a * b != 0.0
  {
  }

  lemma {:induction false} Regrouped(q: real, c: real, n: real)
    ensures -q * (n * c) == -(q * c * n)
  {
  }

  lemma {:induction false} NestedQuotient(t: real, n: real, c: real)
    requires n != 0.0 && c != 0.0
    ensures n * c != 0.0 && Over(-t, n * c) == -Over(Over(t, n), c)
  {
    hide Over;
    NonZeroProduct(n, c);
    var m := Over(t, n);
    var q := Over(m, c);
    OverIs(t, n, m);
    OverIs(m, c, q);
    Regrouped(q, c, n);
    OverIs(-t, n * c, -q);
  }

  // ----- the score

  lemma {:induction false} ScoreFromMean(total: real, n: real, expected: real, power: real -> real)
    requires n > 0.0
    ensures ScoreFrom(total, n * expected, power) ==
      if expected == 0.0 then 1.0 else power(-Over(Over(total, n), expected))
  {
    if expected != 0.0 {
      NestedQuotient(total, n, expected);
      assert ScoreFrom(total, n * expected, power) == power(Over(-total, n * expected));
    }
  }

  /** Unless the expected path is zero, the score depends on the mean path over the trees, in expected paths. */
  lemma {:induction false} ScoreOfMeanPath(
    forest: seq<Exported>, trees: seq<Tree>, maxSamples: int, values: seq<real>, log: real -> real, power: real -> real)
    requires Fits(forest, trees, |values|) && forest != []
    ensures ScoreOf(forest, trees, maxSamples, values, log, power) ==
      if AveragePathLength(log, maxSamples) == 0.0 then 1.0
      else power(-Over(Over(TotalPath(log, forest, trees, values), |forest| as real), AveragePathLength(log, maxSamples)))
  {
    hide TotalPath, Fits, AveragePathLength, ScoreFrom, Over;
    var total, n, expected := TotalPath(log, forest, trees, values), |forest| as real, AveragePathLength(log, maxSamples);
    ScoreFromMean(total, n, expected, power);
    assert Denominator(log, forest, maxSamples) == n * expected;
    assert ScoreOf(forest, trees, maxSamples, values, log, power) == ScoreFrom(total, n * expected, power);
  }

  /** A row whose path is on average the expected one scores two to the power of minus one. */
  lemma {:induction false} ExpectedPathScoresHalf(
    forest: seq<Exported>, trees: seq<Tree>, maxSamples: int, values: seq<real>, log: real -> real, power: real -> real)
    requires Fits(forest, trees, |values|) && forest != [] && AveragePathLength(log, maxSamples) != 0.0
    requires TotalPath(log, forest, trees, values) == AveragePathLength(log, maxSamples) * |forest| as real
    ensures ScoreOf(forest, trees, maxSamples, values, log, power) == power(-1.0)
  {
    hide TotalPath, Fits, AveragePathLength, ScoreOf, Over;
    var expected := AveragePathLength(log, maxSamples);
    ScoreOfMeanPath(forest, trees, maxSamples, values, log, power);
    OverIs(TotalPath(log, forest, trees, values), |forest| as real, expected);
    OverIs(expected, expected, 1.0);
  }

  lemma {:induction false} OverIsZero(a: real, b: real)
    requires b != 0.0
    ensures Over(a, b) == 0.0 <==> a == 0.0
  {
    OverIs(a, b, 0.0);
  }

  /** The score is 1 exactly when the expected path or the row's total path is zero. */
  lemma {:induction false} ScoreIsOneExactly(
    forest: seq<Exported>, trees: seq<Tree>, maxSamples: int, values: seq<real>, log: real -> real, power: real -> real)
    requires Fits(forest, trees, |values|) && forest != [] && StrictlyIncreasing(power) && power(0.0) == 1.0
    ensures ScoreOf(forest, trees, maxSamples, values, log, power) == 1.0 <==>
      AveragePathLength(log, maxSamples) == 0.0 || TotalPath(log, forest, trees, values) == 0.0
  {
    hide TotalPath, Fits, AveragePathLength, ScoreOf, Over;
    ScoreOfMeanPath(forest, trees, maxSamples, values, log, power);
    var total, expected := TotalPath(log, forest, trees, values), AveragePathLength(log, maxSamples);
    if expected != 0.0 {
      var mean := Over(total, |forest| as real);
      OverIsZero(total, |forest| as real);
      OverIsZero(mean, expected);
      var q := Over(mean, expected);
      assert q != 0.0 ==> power(-q) != power(0.0);
    }
  }

  lemma {:induction false} FitsBoth(a: seq<Exported>, b: seq<Exported>, s: seq<Tree>, t: seq<Tree>, width: nat)
    requires Fits(a, s, width) && Fits(b, t, width)
    ensures Fits(a + b, s + t, width)
  {
    hide Usable, Forms;
  }

  lemma {:induction false} FitsFewer(a: seq<Exported>, s: seq<Tree>, n: nat, width: nat)
    requires Fits(a, s, width) && n <= |a|
    ensures Fits(a[..n], s[..n], width)
  {
    hide Usable, Forms;
  }

  lemma {:induction false} TotalPathStep(
    log: real -> real, a: seq<Exported>, s: seq<Tree>, e: Exported, t: Tree, values: seq<real>)
    requires Fits(a, s, |values|) && Fits(a + [e], s + [t], |values|)
    ensures Usable(e, |values|) && LaidOut(e.arrays, t)
    ensures TotalPath(log, a + [e], s + [t], values) == TotalPath(log, a, s, values) + PathLength(log, e, t, values)
  {
    assert (a + [e])[..|a|] == a && (s + [t])[..|a|] == s;
    assert (a + [e])[|a|] == e && (s + [t])[|a|] == t;
    hide Usable, LaidOut, PathLength;
  }

  lemma {:induction false} TotalPathOfBoth(
    log: real -> real, a: seq<Exported>, b: seq<Exported>, s: seq<Tree>, t: seq<Tree>, values: seq<real>)
    requires Fits(a, s, |values|) && Fits(b, t, |values|)
    ensures Fits(a + b, s + t, |values|)
    ensures TotalPath(log, a + b, s + t, values) == TotalPath(log, a, s, values) + TotalPath(log, b, t, values)
  {
    FitsBoth(a, b, s, t, |values|);
    if b == [] {
      assert a + b == a && s + t == s;
    } else {
      var k := |b| - 1;
      FitsFewer(b, t, k, |values|);
      FitsBoth(a, b[..k], s, t[..k], |values|);
      assert b == b[..k] + [b[k]] && t == t[..k] + [t[k]];
      assert a + b == a + b[..k] + [b[k]] && s + t == s + t[..k] + [t[k]];
      hide Fits, TotalPath, PathLength;
      TotalPathStep(log, b[..k], t[..k], b[k], t[k], values);
      TotalPathStep(log, a + b[..k], s + t[..k], b[k], t[k], values);
      TotalPathOfBoth(log, a, b[..k], s, t[..k], values);
    }
  }

  lemma {:induction false} DoubledQuotient(t: real, n: real)
    requires n > 0.0
    ensures Over(t + t, n + n) == Over(t, n)
  {
    hide Over;
    var q := Over(t, n);
    OverIs(t, n, q);
    assert q * (n + n) == q * n + q * n;
    OverIs(t + t, n + n, q);
  }

  /** A forest put after itself scores as the forest does. */
  lemma {:induction false} DoubledForestScoresTheSame(
    forest: seq<Exported>, trees: seq<Tree>, maxSamples: int, values: seq<real>, log: real -> real, power: real -> real)
    requires Fits(forest, trees, |values|) && forest != []
    ensures Fits(forest + forest, trees + trees, |values|)
    ensures ScoreOf(forest + forest, trees + trees, maxSamples, values, log, power)
            == ScoreOf(forest, trees, maxSamples, values, log, power)
  {
    hide TotalPath, Fits, AveragePathLength, ScoreOf, Over;
    TotalPathOfBoth(log, forest, forest, trees, trees, values);
    ScoreOfMeanPath(forest, trees, maxSamples, values, log, power);
    ScoreOfMeanPath(forest + forest, trees + trees, maxSamples, values, log, power);
    DoubledQuotient(TotalPath(log, forest, trees, values), |forest| as real);
    assert |forest + forest| as real == |forest| as real + |forest| as real;
  }

  // ----- the way down and the path length

  /** At every fork the row goes left when its value, found through the feature map, is at most the threshold. */
  lemma {:induction false} RouteFollowsThresholds(e: Exported, values: seq<real>, path: seq<nat>, n: nat)
    requires Usable(e, |values|) && Route(e, values, path) && n + 1 < |path|
    ensures var v, a := path[n], e.arrays;
      && a.left[v] != -1
      && path[n + 1] == if values[e.featureMap[a.feature[v]]] <= a.threshold[v] then a.left[v] else a.right[v]
  {
    StepOnRoute(e, values, path, n);
    assert Decided(e, values, path[n], path[n + 1]);
  }

  /** A tree's path length is the number of edges down to the leaf and the expected path of the leaf's samples. */
  lemma {:induction false} PathLengthOfRoute(
    log: real -> real, e: Exported, t: Tree, values: seq<real>, path: seq<nat>)
    requires Usable(e, |values|) && ExportOf(e, t) && Route(e, values, path)
    requires path[|path| - 1] < |e.arrays.left| && e.arrays.left[path[|path| - 1]] == -1
    ensures path[|path| - 1] < |e.arrays.samples|
    ensures PathLength(log, e, t, values)
            == (|path| - 1) as real + AveragePathLength(log, e.arrays.samples[path[|path| - 1]])
  {
    hide PathLength, LeafOf, AveragePathLength, DepthIn, Usable;
    PathLengthIsDepthPlusEstimate(log, e, t, values);
    RouteEndsAtLeafOf(e, t, values, path);
  }
}
