/** Linear-interpolation percentiles, in Python and in C, over real numbers. */
module Percentile {
  import opened Sorting

  // ----- sorting

  predicate Less(a: real, b: real) {
    a < b
  }

  /** sorted() */
  function Sorted(s: seq<real>): (r: seq<real>)
    ensures |r| == |s|
  {
    StableSorted(Less, s)
  }

  ghost predicate Ascending(s: seq<real>) {
    forall i, j | 0 <= i <= j < |s| :: s[i] <= s[j]
  }

  lemma {:induction false} SortedIsSort(s: seq<real>)
    ensures Ascending(Sorted(s)) && multiset(Sorted(s)) == multiset(s)
  {
    hide StableSorted;
    StableSortedIsSort(Less, s);
    assert Ordered(Less, Sorted(s));
  }

  lemma {:induction false} SortedIsIdentity(s: seq<real>)
    requires Ascending(s)
    ensures Sorted(s) == s
  {
    hide StableSorted;
    StableSortedOfOrdered(Less, s);
  }

  // ----- the two percentiles

  function Ceil(x: real): int {
    if x.Floor as real == x then x.Floor else x.Floor + 1
  }

  /** A place between the first and the last of n values. */
  function Position(n: nat, probability: real): (position: real)
    requires n > 0 && 0.0 <= probability <= 1.0
    ensures 0.0 <= position <= (n - 1) as real
  {
    (n - 1) as real * probability
  }

  function Blend(a: real, b: real, weight: real): real {
    a * (1.0 - weight) + b * weight
  }

  /** features.py: values in any order. */
  function PercentilePython(values: seq<real>, probability: real): real
    requires 0.0 <= probability <= 1.0
  {
    if values == [] then 0.0 else
    var ordered := Sorted(values);
    if |ordered| == 1 then ordered[0] else
    var position := Position(|ordered|, probability);
    var lower, upper := position.Floor, Ceil(position);
    if lower == upper then ordered[lower]
    else Blend(ordered[lower], ordered[upper], position - lower as real)
  }

  /** gateway.c: values already sorted; the upper index is the lower one or its successor. */
  function PercentileC(values: seq<real>, probability: real): real
    requires 0.0 <= probability <= 1.0
  {
    if values == [] then 0.0 else
    var position := Position(|values|, probability);
    var lower := position.Floor;
    var upper := lower + if position > lower as real then 1 else 0;
    Blend(values[lower], values[upper], position - lower as real)
  }

  /** The value at a real-valued place of an ascending list. */
  function At(s: seq<real>, position: real): real
    requires s != [] && 0.0 <= position <= (|s| - 1) as real
  {
    var lower := position.Floor;
    if lower == |s| - 1 then s[lower] else Blend(s[lower], s[lower + 1], position - lower as real)
  }

  lemma {:induction false} BlendEnds(a: real, b: real, weight: real)
    ensures Blend(a, b, 0.0) == a && Blend(a, a, weight) == a
  {
  }

  lemma {:induction false} ProductSign(a: real, b: real)
    requires a >= 0.0 && b >= 0.0
    ensures a * b >= 0.0 && (a > 0.0 && b > 0.0 ==> a * b > 0.0)
  {
  }

  /** Where a blend lies: by these parts of the distance from either end. */
  lemma {:induction false} BlendParts(a: real, b: real, weight: real)
    ensures Blend(a, b, weight) == a + (b - a) * weight == b - (b - a) * (1.0 - weight)
  {
  }

  lemma {:induction false} BlendBetween(a: real, b: real, weight: real)
    requires a <= b && 0.0 <= weight < 1.0
    ensures a <= Blend(a, b, weight) <= b && (a < b ==> Blend(a, b, weight) < b)
  {
    hide Blend;
    BlendParts(a, b, weight);
    ProductSign(b - a, weight);
    ProductSign(b - a, 1.0 - weight);
  }

  lemma {:induction false} BlendMonotone(a: real, b: real, v: real, w: real)
    requires a <= b && v <= w
    ensures Blend(a, b, v) <= Blend(a, b, w)
  {
    ProductSign(b - a, w - v);
    assert Blend(a, b, w) - Blend(a, b, v) == (b - a) * (w - v);
  }

  lemma {:induction false} PythonIsAt(values: seq<real>, probability: real)
    requires values != [] && 0.0 <= probability <= 1.0
    ensures PercentilePython(values, probability) == At(Sorted(values), Position(|values|, probability))
  {
    hide Sorted, Blend, Position;
    var s, position := Sorted(values), Position(|values|, probability);
    var lower := position.Floor;
    if lower + 1 < |s| {
      BlendEnds(s[lower], s[lower + 1], 0.0);
    }
  }

  lemma {:induction false} CIsAt(values: seq<real>, probability: real)
    requires values != [] && 0.0 <= probability <= 1.0
    ensures PercentileC(values, probability) == At(values, Position(|values|, probability))
  {
    hide Blend, Position;
    var position := Position(|values|, probability);
    var lower := position.Floor;
    BlendEnds(values[lower], values[lower], position - lower as real);
    if lower + 1 < |values| {
      BlendEnds(values[lower], values[lower + 1], 0.0);
    }
  }

  /** On sorted input the gateway and the analysis compute the same number. */
  lemma {:induction false} ImplementationsAgree(values: seq<real>, probability: real)
    requires Ascending(values) && 0.0 <= probability <= 1.0
    ensures PercentileC(values, probability) == PercentilePython(values, probability)
  {
    hide Blend, Position, At;
    if values != [] {
      SortedIsIdentity(values);
      PythonIsAt(values, probability);
      CIsAt(values, probability);
      hide PercentileC, PercentilePython;
    }
  }

  // ----- between its neighbours, and monotone

  lemma {:induction false} AtBetween(s: seq<real>, position: real)
    requires Ascending(s) && s != [] && 0.0 <= position <= (|s| - 1) as real
    ensures var lower := position.Floor;
      && s[lower] <= At(s, position)
      && (lower + 1 == |s| ==> At(s, position) == s[lower])
      && (lower + 1 < |s| ==> At(s, position) <= s[lower + 1])
      && (lower + 1 < |s| && s[lower] < s[lower + 1] ==> At(s, position) < s[lower + 1])
      && (lower + 1 < |s| && s[lower] == s[lower + 1] ==> At(s, position) == s[lower + 1])
  {
    hide Blend;
    var lower := position.Floor;
    if lower + 1 < |s| {
      BlendBetween(s[lower], s[lower + 1], position - lower as real);
      BlendEnds(s[lower], s[lower + 1], position - lower as real);
    }
  }

  lemma {:induction false} AtMonotone(s: seq<real>, p: real, q: real)
    requires Ascending(s) && s != [] && 0.0 <= p <= q <= (|s| - 1) as real
    ensures At(s, p) <= At(s, q)
  {
    hide Blend;
    AtBetween(s, p);
    AtBetween(s, q);
    var lower := p.Floor;
    if q.Floor == lower && lower + 1 < |s| {
      BlendMonotone(s[lower], s[lower + 1], p - lower as real, q - lower as real);
    }
  }

  lemma {:induction false} PositionMonotone(n: nat, p: real, q: real)
    requires n > 0 && 0.0 <= p <= q <= 1.0
    ensures Position(n, p) <= Position(n, q)
  {
    assert (n - 1) as real * (q - p) >= 0.0;
  }

  /** A percentile lies between the smallest and the largest value. */
  lemma {:induction false} WithinRange(values: seq<real>, probability: real)
    requires values != [] && 0.0 <= probability <= 1.0
    ensures var s := Sorted(values);
      && s[0] <= PercentilePython(values, probability) <= s[|s| - 1]
      && multiset(s) == multiset(values) && Ascending(s)
  {
    hide Sorted, Position, PercentilePython, At;
    SortedIsSort(values);
    PythonIsAt(values, probability);
    AtBetween(Sorted(values), Position(|values|, probability));
  }

  lemma {:induction false} Monotone(values: seq<real>, p: real, q: real)
    requires 0.0 <= p <= q <= 1.0
    ensures PercentilePython(values, p) <= PercentilePython(values, q)
  {
    hide Sorted, Position, At, Blend;
    if values != [] {
      SortedIsSort(values);
      PythonIsAt(values, p);
      PythonIsAt(values, q);
      PositionMonotone(|values|, p, q);
      AtMonotone(Sorted(values), Position(|values|, p), Position(|values|, q));
      hide PercentilePython;
    }
  }

  // ----- how many values lie above a percentile

  function CountAbove(s: seq<real>, t: real): nat {
    if s == [] then 0 else (if s[0] > t then 1 else 0) + CountAbove(s[1..], t)
  }

  lemma {:induction false} CountPlaced(x: real, s: seq<real>, t: real)
    ensures CountAbove(Place(Less, x, s), t) == (if x > t then 1 else 0) + CountAbove(s, t)
  {
    if s == [] || x <= s[0] {
      assert ([x] + s)[1..] == s;
    } else {
      CountPlaced(x, s[1..], t);
      assert Place(Less, x, s)[1..] == Place(Less, x, s[1..]);
    }
  }

  lemma {:induction false} CountSorted(s: seq<real>, t: real)
    ensures CountAbove(Sorted(s), t) == CountAbove(s, t)
  {
    if s != [] {
      CountSorted(s[1..], t);
      CountPlaced(s[0], Sorted(s[1..]), t);
    }
  }

  lemma {:induction false} CountBounds(s: seq<real>, t: real)
    ensures CountAbove(s, t) <= |s|
    ensures (forall i | 0 <= i < |s| :: s[i] > t) ==> CountAbove(s, t) == |s|
  {
    if s != [] {
      CountBounds(s[1..], t);
    }
  }

  lemma {:induction false} CountSplit(s: seq<real>, m: nat, t: real)
    requires m <= |s| && forall i | 0 <= i < m :: s[i] <= t
    ensures CountAbove(s, t) == CountAbove(s[m..], t)
  {
    if m > 0 {
      CountSplit(s[1..], m - 1, t);
      assert s[1..][m - 1..] == s[m..];
    } else {
      assert s[0..] == s;
    }
  }

  /** The number of false positives that a rate allows among n values. */
  function Allowed(n: nat, rate: real): int
    requires n > 0
  {
    Ceil(rate * (n - 1) as real)
  }

  /** Where the percentile for a false positive rate falls, and how many values lie past that place. */
  lemma {:induction false} CutPoint(n: nat, rate: real)
    requires n > 0 && 0.0 < rate < 1.0
    ensures var m := Position(n, 1.0 - rate).Floor;
      0 <= m < n && Allowed(n, rate) == n - 1 - m && (n > 1 ==> m + 1 < n)
  {
    var whole := (n - 1) as real;
    Complement(whole, rate);
    assert Position(n, 1.0 - rate) == whole - rate * whole;
    hide Position;
    FloorAndCeil(n - 1, rate * whole);
  }

  lemma {:induction false} Complement(whole: real, rate: real)
    requires whole >= 0.0 && 0.0 < rate < 1.0
    ensures whole * (1.0 - rate) == whole - rate * whole
    ensures if whole > 0.0 then 0.0 < rate * whole < whole else rate * whole == 0.0
  {
    assert whole > 0.0 ==> rate * whole > 0.0 && (1.0 - rate) * whole > 0.0;
  }

  lemma {:induction false} FloorAndCeil(whole: nat, over: real)
    requires 0.0 <= over <= whole as real
    ensures Ceil(over) == whole - (whole as real - over).Floor
    ensures over > 0.0 ==> (whole as real - over).Floor < whole
  {
  }

  /** At most ceil(rate (n - 1)) of the n values exceed their own (1 - rate) percentile; exactly that many when the
      two values around the cut differ, and only then. */
  lemma {:induction false} ExceedancesOfPercentile(values: seq<real>, rate: real)
    requires values != [] && 0.0 < rate < 1.0
    ensures var n, s := |values|, Sorted(values);
      var m := n - 1 - Allowed(n, rate);
      var count := CountAbove(values, PercentilePython(values, 1.0 - rate));
      && 0 <= m < n && count <= Allowed(n, rate)
      && (count == Allowed(n, rate) <==> m + 1 == n || s[m] < s[m + 1])
  {
    hide Sorted, Position, PercentilePython, CountAbove, At, Allowed;
    CutPoint(|values|, rate);
    SortedIsSort(values);
    var s, position := Sorted(values), Position(|values|, 1.0 - rate);
    PythonIsAt(values, 1.0 - rate);
    AtBetween(s, position);
    CountSorted(values, At(s, position));
    CountPast(s, position.Floor, At(s, position));
  }

  lemma {:induction false} CountPast(s: seq<real>, m: nat, t: real)
    requires Ascending(s) && m < |s| && s[m] <= t
    requires m + 1 < |s| ==> t <= s[m + 1] && (s[m] < s[m + 1] ==> t < s[m + 1]) && (s[m] == s[m + 1] ==> t == s[m + 1])
    ensures CountAbove(s, t) <= |s| - 1 - m
    ensures CountAbove(s, t) == |s| - 1 - m <==> m + 1 == |s| || s[m] < s[m + 1]
  {
    CountSplit(s, m + 1, t);
    CountBounds(s[m + 1..], t);
    if m + 1 < |s| && s[m] == s[m + 1] {
      CountSplit(s, m + 2, t);
      CountBounds(s[m + 2..], t);
    }
  }

  /** With distinct values the count is exact. */
  lemma {:induction false} DistinctExceedances(values: seq<real>, rate: real)
    requires values != [] && 0.0 < rate < 1.0
    requires forall i, j | 0 <= i < j < |values| :: values[i] != values[j]
    ensures CountAbove(values, PercentilePython(values, 1.0 - rate)) == Allowed(|values|, rate)
  {
    hide Sorted, Position, PercentilePython, CountAbove, Allowed;
    ExceedancesOfPercentile(values, rate);
    CutPoint(|values|, rate);
    var s := Sorted(values);
    var m := |values| - 1 - Allowed(|values|, rate);
    SortedIsSort(values);
    if m + 1 < |values| {
      assert s[m] <= s[m + 1];
      if s[m] == s[m + 1] {
        TwiceInMultiset(s, m);
        OnceInMultiset(values, s[m]);
      }
    }
  }

  lemma {:induction false} TwiceInMultiset(s: seq<real>, m: nat)
    requires m + 1 < |s| && s[m] == s[m + 1]
    ensures multiset(s)[s[m]] >= 2
  {
    assert s == s[..m] + [s[m], s[m + 1]] + s[m + 2..];
  }

  lemma {:induction false} OnceInMultiset(s: seq<real>, x: real)
    requires forall i, j | 0 <= i < j < |s| :: s[i] != s[j]
    ensures multiset(s)[x] <= 1
  {
    if s != [] {
      assert s == [s[0]] + s[1..];
      OnceInMultiset(s[1..], x);
      forall j | 0 <= j < |s[1..]| ensures s[1..][j] != s[0] {
        assert s[1..][j] == s[j + 1];
      }
    }
  }
}
