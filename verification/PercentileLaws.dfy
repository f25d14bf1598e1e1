/** Linear interpolation between ranks, said of the ordered values alone. */
module PercentileLaws {
  import opened Percentile

  /** The values in ascending order. */
  ghost predicate IsOrderOf(s: seq<real>, values: seq<real>) {
    Ascending(s) && multiset(s) == multiset(values)
  }

  lemma {:induction false} SameSmallest(a: seq<real>, b: seq<real>)
    requires Ascending(a) && IsOrderOf(b, a) && a != [] && b != []
    ensures a[0] == b[0]
  {
    assert a[0] in multiset(b) && b[0] in multiset(a);
    var i :| 0 <= i < |a| && a[i] == b[0];
    var j :| 0 <= j < |b| && b[j] == a[0];
    assert a[0] <= a[i] && b[0] <= b[j];
  }

  lemma {:induction false} WithoutSmallest(s: seq<real>)
    requires s != []
    ensures multiset(s[1..]) == multiset(s) - multiset{s[0]}
  {
    assert s == [s[0]] + s[1..];
  }

  lemma {:induction false} OrderIsUnique(a: seq<real>, b: seq<real>)
    requires Ascending(a) && IsOrderOf(b, a)
    ensures a == b
  {
    assert |a| == |multiset(a)| == |multiset(b)| == |b|;
    if a != [] {
      SameSmallest(a, b);
      WithoutSmallest(a);
      WithoutSmallest(b);
      OrderIsUnique(a[1..], b[1..]);
      assert a == [a[0]] + a[1..] && b == [b[0]] + b[1..];
    }
  }

  lemma {:induction false} SortedIsTheOrder(values: seq<real>, s: seq<real>)
    requires IsOrderOf(s, values)
    ensures Sorted(values) == s && |s| == |values|
  {
    hide Sorted;
    SortedIsSort(values);
    OrderIsUnique(s, Sorted(values));
  }

  lemma {:induction false} BlendIsLinear(a: real, b: real, weight: real)
    ensures Blend(a, b, weight) - a == weight * (b - a)
  {
  }

  lemma {:induction false} AtIsLinear(s: seq<real>, place: real, m: nat)
    requires m + 1 < |s| && m as real <= place <= (m + 1) as real
    ensures At(s, place) - s[m] == (place - m as real) * (s[m + 1] - s[m])
  {
    hide Blend;
    if place < (m + 1) as real {
      BlendIsLinear(s[m], s[m + 1], place - m as real);
    } else if m + 2 < |s| {
      BlendEnds(s[m + 1], s[m + 2], 0.0);
    }
  }

  lemma {:induction false} SameProduct(x: real, y: real, d: real)
    requires x == y
    ensures x * d == y * d
  {
  }

  lemma {:induction false} PlaceIs(n: nat, p: real)
    requires n > 0 && 0.0 <= p <= 1.0
    ensures Position(n, p) == (n - 1) as real * p
  {
  }

  /** Between the ranks m and m + 1 the percentile rises in proportion to (n - 1) p. */
  lemma {:induction false} LinearBetweenRanks(values: seq<real>, s: seq<real>, p: real, m: nat)
    requires IsOrderOf(s, values) && 0.0 <= p <= 1.0 && m + 1 < |s|
    requires m as real <= (|s| - 1) as real * p <= (m + 1) as real
    ensures PercentilePython(values, p) - s[m] == ((|s| - 1) as real * p - m as real) * (s[m + 1] - s[m])
    ensures PercentileC(s, p) == PercentilePython(values, p)
  {
    hide Position, At, PercentilePython, PercentileC, Sorted;
    SortedIsTheOrder(values, s);
    PlaceIs(|s|, p);
    PythonIsAt(values, p);
    CIsAt(s, p);
    var place := Position(|s|, p);
    AtIsLinear(s, place, m);
    SameProduct(place - m as real, (|s| - 1) as real * p - m as real, s[m + 1] - s[m]);
  }

  /** At a rank, it is the value of that rank; of no values, it is zero. */
  lemma {:induction false} ExactAtRank(values: seq<real>, s: seq<real>, p: real, k: nat)
    requires IsOrderOf(s, values) && 0.0 <= p <= 1.0
    ensures values == [] ==> PercentilePython(values, p) == 0.0
    ensures k < |s| && (|s| - 1) as real * p == k as real ==>
      PercentilePython(values, p) == s[k] == PercentileC(s, p)
  {
    SortedIsTheOrder(values, s);
    if k < |s| && (|s| - 1) as real * p == k as real {
      hide Position, At, PercentilePython, PercentileC, Sorted;
      PlaceIs(|s|, p);
      PythonIsAt(values, p);
      CIsAt(s, p);
      AtRank(s, k);
    }
  }

  lemma {:induction false} AtRank(s: seq<real>, k: nat)
    requires k < |s|
    ensures At(s, k as real) == s[k]
  {
    hide Blend;
    if k + 1 < |s| {
      BlendEnds(s[k], s[k + 1], 0.0);
    }
  }

  /** The 50th percentile is the median: the mean of the middle two, or the middle one twice. */
  lemma {:induction false} HalfIsMedian(values: seq<real>, s: seq<real>)
    requires IsOrderOf(s, values) && s != []
    ensures PercentilePython(values, 0.5) == (s[(|s| - 1) / 2] + s[|s| / 2]) / 2.0
  {
    hide PercentilePython, PercentileC;
    var n := |s|;
    if n % 2 == 1 {
      assert (n - 1) as real * 0.5 == ((n - 1) / 2) as real;
      ExactAtRank(values, s, 0.5, (n - 1) / 2);
    } else {
      var m := n / 2 - 1;
      assert (n - 1) as real * 0.5 == m as real + 0.5;
      LinearBetweenRanks(values, s, 0.5, m);
    }
  }

  /** The allowance is rate (n - 1), rounded up. */
  lemma {:induction false} AllowedIsCeiling(n: nat, rate: real)
    requires n > 0
    ensures rate * (n - 1) as real <= Allowed(n, rate) as real < rate * (n - 1) as real + 1.0
  {
  }
}
