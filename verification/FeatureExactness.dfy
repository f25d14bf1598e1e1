/** What each feature of a window is, said of its requests by other means than the feature's own computation. */
module FeatureExactness {
  import opened Telemetry
  import opened Sorting
  import opened Percentile
  import opened PercentileLaws
  import opened Features
  import Laws = FeatureLaws

  // ----- idle time

  /** The nearest integer; of two that are equally near, the even one. */
  lemma {:induction false} RoundIsNearest(x: real)
    ensures -0.5 <= Round(x) as real - x <= 0.5
    ensures Round(x) as real - x == 0.5 || Round(x) as real - x == -0.5 ==> Round(x) % 2 == 0
    ensures x == x.Floor as real ==> Round(x) == x.Floor
  {
  }

  /** The latency is a whole number of nanoseconds. */
  predicate Whole(request: Event) {
    request.latency * 1000.0 == (request.latency * 1000.0).Floor as real
  }

  /** From the end of one request to the start of the next, in nanoseconds; negative when they overlap. */
  function Gap(previous: Event, current: Event): real {
    current.at as real - current.latency * 1000.0 - previous.at as real
  }

  lemma {:induction false} IdleIsGap(previous: Event, current: Event)
    ensures var idle, gap := Idle(previous, current) * 1000.0, Gap(previous, current);
      && (gap >= 0.0 ==> -0.5 <= idle - gap <= 0.5) && (gap < 0.0 ==> 0.0 <= idle <= 0.5)
      && (Whole(current) ==> idle == if gap > 0.0 then gap else 0.0)
  {
    hide Round;
    RoundIsNearest(current.latency * 1000.0);
  }

  /** Each idle value, in nanoseconds, is the gap between its two requests, or none when the second starts before the
      first has ended; within half a nanosecond when the latency is not whole. */
  lemma {:induction false} IdleValueIsGap(requests: seq<Event>, i: nat)
    requires i + 1 < |requests|
    ensures var idle, gap := IdleValues(requests)[i] * 1000.0, Gap(requests[i], requests[i + 1]);
      && (gap >= 0.0 ==> -0.5 <= idle - gap <= 0.5) && (gap < 0.0 ==> 0.0 <= idle <= 0.5)
      && (Whole(requests[i + 1]) ==> idle == if gap > 0.0 then gap else 0.0)
  {
    hide Idle;
    if i == 0 {
      IdleIsGap(requests[0], requests[1]);
    } else {
      IdleValueIsGap(requests[1..], i - 1);
    }
  }

  function TotalOf(field: Event -> real, requests: seq<Event>): real {
    if requests == [] then 0.0 else field(requests[0]) + TotalOf(field, requests[1..])
  }

  /** No request starts before its predecessor has ended, and latencies are whole nanoseconds. */
  ghost predicate OneAtATime(requests: seq<Event>) {
    forall i | 0 < i < |requests| :: Whole(requests[i]) && Gap(requests[i - 1], requests[i]) >= 0.0
  }

  lemma {:induction false} IdleBalance(requests: seq<Event>)
    requires requests != [] && OneAtATime(requests)
    ensures Sum(IdleValues(requests)) * 1000.0 + TotalOf(Latency, requests[1..]) * 1000.0
            == (requests[|requests| - 1].at - requests[0].at) as real
  {
    hide Idle, Whole;
    if |requests| > 1 {
      var rest := requests[1..];
      forall i | 0 < i < |rest| ensures Whole(rest[i]) && Gap(rest[i - 1], rest[i]) >= 0.0 {
        assert rest[i] == requests[i + 1] && rest[i - 1] == requests[i];
      }
      IdleBalance(rest);
      IdleIsGap(requests[0], requests[1]);
      assert Whole(requests[1]) && Gap(requests[0], requests[1]) >= 0.0;
    }
  }

  // ----- means and percentiles

  lemma {:induction false} SumOfField(field: Event -> real, requests: seq<Event>)
    ensures Sum(Each(field, requests)) == TotalOf(field, requests)
  {
    if requests != [] {
      SumOfField(field, requests[1..]);
      assert Each(field, requests)[1..] == Each(field, requests[1..]);
    }
  }

  lemma {:induction false} MeanTimesCount(values: seq<real>)
    ensures Mean(values) * |values| as real == Sum(values)
  {
    if values != [] {
      DividedBack(Sum(values), |values|);
    }
  }

  /** The mean of a field times the number of events is its total; of no events it is zero. */
  lemma {:induction false} MeanOfField(field: Event -> real, events: seq<Event>)
    ensures Mean(Each(field, events)) * |events| as real == TotalOf(field, events)
    ensures events == [] ==> Mean(Each(field, events)) == 0.0
  {
    hide Sum, Divided;
    MeanTimesCount(Each(field, events));
    SumOfField(field, events);
  }

  // The computed features by name, so that each can be spoken of with the others hidden.

  lemma {:induction false} MeansOf(requests: seq<Event>, seconds: int)
    requires requests != [] && seconds > 0
    ensures var f := RequestFeaturesOf(requests, seconds);
      && f.latencyMean == Mean(Each(Latency, requests))
      && f.inputMean == Mean(Each(Bytes, requests))
      && f.idleMean == Mean(IdleValues(requests))
  {
    hide Mean, Reuse, Share, FailureShare, Transitions, CvSquared, PercentilePython, Divided, IdleValues;
  }

  lemma {:induction false} P95sOf(requests: seq<Event>, seconds: int)
    requires requests != [] && seconds > 0
    ensures var f := RequestFeaturesOf(requests, seconds);
      && f.latencyP95 == PercentilePython(Each(Latency, requests), 0.95)
      && f.idleP95 == PercentilePython(IdleValues(requests), 0.95)
  {
    hide Mean, Reuse, Share, FailureShare, Transitions, CvSquared, PercentilePython, Divided, IdleValues;
  }

  lemma {:induction false} CvOf(requests: seq<Event>, seconds: int)
    requires requests != [] && seconds > 0
    ensures var f := RequestFeaturesOf(requests, seconds);
      && f.idleCvSquared == CvSquared(IdleValues(requests))
  {
    hide Mean, Reuse, Share, FailureShare, Transitions, CvSquared, PercentilePython, Divided, IdleValues;
  }

  lemma {:induction false} RateAndErrorsOf(requests: seq<Event>, seconds: int)
    requires requests != [] && seconds > 0
    ensures var f := RequestFeaturesOf(requests, seconds);
      && f.requestRate == Divided(|requests| as real, seconds)
      && f.errorRatio == FailureShare(Each(Result, requests))
  {
    hide Mean, Reuse, Share, FailureShare, Transitions, CvSquared, PercentilePython, Divided, IdleValues;
  }

  lemma {:induction false} ReusesOf(requests: seq<Event>, seconds: int)
    requires requests != [] && seconds > 0
    ensures var f := RequestFeaturesOf(requests, seconds);
      && f.keyReuse == Reuse(Each(KeyFingerprint, requests))
      && f.requestReuse == Reuse(Each(RequestFingerprint, requests))
  {
    hide Mean, Reuse, Share, FailureShare, Transitions, CvSquared, PercentilePython, Divided, IdleValues;
  }

  lemma {:induction false} TransitionsOf(requests: seq<Event>, seconds: int)
    requires requests != [] && seconds > 0
    ensures var f := RequestFeaturesOf(requests, seconds);
      && (|requests| > 1 ==>
            f.transitionRatio == Divided(Transitions(Each(Operation, requests)) as real, |requests| - 1))
      && (|requests| == 1 ==> f.transitionRatio == 0.0)
  {
    hide Mean, Reuse, Share, FailureShare, Transitions, CvSquared, PercentilePython, Divided, IdleValues;
  }

  /** Mean times count is the total, for latencies and sizes. */
  lemma {:induction false} MeansAreTotals(requests: seq<Event>, seconds: int)
    requires requests != [] && seconds > 0
    ensures RequestFeaturesOf(requests, seconds).latencyMean * |requests| as real == TotalOf(Latency, requests)
    ensures RequestFeaturesOf(requests, seconds).inputMean * |requests| as real == TotalOf(Bytes, requests)
  {
    hide RequestFeaturesOf, IdleValues, Mean, Sum;
    MeansOf(requests, seconds);
    MeanOfField(Latency, requests);
    MeanOfField(Bytes, requests);
  }

  lemma {:induction false} IdleMeanIsTotal(requests: seq<Event>, seconds: int)
    requires requests != [] && seconds > 0
    ensures RequestFeaturesOf(requests, seconds).idleMean * (|requests| - 1) as real == Sum(IdleValues(requests))
  {
    hide RequestFeaturesOf, IdleValues, Mean, Sum;
    MeansOf(requests, seconds);
    MeanTimesCount(IdleValues(requests));
  }

  /** When requests do not overlap, the idle time and the latencies after the first make up the window's span. */
  lemma {:induction false} IdleAndLatencyFillTheSpan(requests: seq<Event>, seconds: int)
    requires requests != [] && seconds > 0 && OneAtATime(requests)
    ensures RequestFeaturesOf(requests, seconds).idleMean * (|requests| - 1) as real * 1000.0
            + TotalOf(Latency, requests[1..]) * 1000.0
            == (requests[|requests| - 1].at - requests[0].at) as real
  {
    hide RequestFeaturesOf, IdleValues, Sum;
    IdleMeanIsTotal(requests, seconds);
    IdleBalance(requests);
  }

  /** The largest size is that of some request and no request's is larger. */
  lemma {:induction false} InputMaxIsLargest(requests: seq<Event>, seconds: int)
    requires requests != [] && seconds > 0
    ensures forall i | 0 <= i < |requests| :: requests[i].bytes <= RequestFeaturesOf(requests, seconds).inputMax
    ensures exists i :: 0 <= i < |requests| && requests[i].bytes == RequestFeaturesOf(requests, seconds).inputMax
  {
    hide Mean, Reuse, Share, FailureShare, Transitions, CvSquared, PercentilePython, Divided, IdleValues, Largest;
    var sizes := Each(Bytes, requests);
    var i :| 0 <= i < |sizes| && sizes[i] == Largest(sizes);
    assert requests[i].bytes == sizes[i];
  }

  /** The 95th percentile is on the line between the two ranks around 0.95 (n - 1). */
  ghost predicate OnTheLine(p95: real, s: seq<real>, m: nat)
    requires m + 1 < |s|
  {
    p95 - s[m] == ((|s| - 1) as real * 0.95 - m as real) * (s[m + 1] - s[m])
  }

  lemma {:induction false} P95OfOrder(values: seq<real>, s: seq<real>, m: nat)
    requires IsOrderOf(s, values) && m + 1 < |s| && m as real <= (|s| - 1) as real * 0.95 <= (m + 1) as real
    ensures OnTheLine(PercentilePython(values, 0.95), s, m)
  {
    hide PercentilePython, PercentileC, IsOrderOf;
    LinearBetweenRanks(values, s, 0.95, m);
  }

  /** Both 95th percentiles of a window are on the line of the ordered values. */
  lemma {:induction false} P95IsLinear(requests: seq<Event>, seconds: int, s: seq<real>, m: nat)
    requires requests != [] && seconds > 0 && m + 1 < |s| && m as real <= (|s| - 1) as real * 0.95 <= (m + 1) as real
    ensures IsOrderOf(s, Each(Latency, requests)) ==> OnTheLine(RequestFeaturesOf(requests, seconds).latencyP95, s, m)
    ensures IsOrderOf(s, IdleValues(requests)) ==> OnTheLine(RequestFeaturesOf(requests, seconds).idleP95, s, m)
  {
    hide RequestFeaturesOf, IdleValues, PercentilePython, IsOrderOf, OnTheLine;
    P95sOf(requests, seconds);
    if IsOrderOf(s, Each(Latency, requests)) {
      P95OfOrder(Each(Latency, requests), s, m);
    }
    if IsOrderOf(s, IdleValues(requests)) {
      P95OfOrder(IdleValues(requests), s, m);
    }
  }

  /** Of one value they are that value, and of none zero. */
  lemma {:induction false} P95OfOne(requests: seq<Event>, seconds: int)
    requires requests != [] && seconds > 0
    ensures |requests| == 1 ==> RequestFeaturesOf(requests, seconds).latencyP95 == requests[0].latency
    ensures |requests| == 1 ==> RequestFeaturesOf(requests, seconds).idleP95 == 0.0
    ensures |requests| == 2 ==> RequestFeaturesOf(requests, seconds).idleP95 == IdleValues(requests)[0]
  {
    hide RequestFeaturesOf, IdleValues, PercentilePython;
    P95sOf(requests, seconds);
    P95OfValues(Each(Latency, requests));
    P95OfValues(IdleValues(requests));
  }

  lemma {:induction false} P95OfValues(values: seq<real>)
    ensures values == [] ==> PercentilePython(values, 0.95) == 0.0
    ensures |values| == 1 ==> PercentilePython(values, 0.95) == values[0]
  {
    hide PercentilePython, PercentileC;
    if |values| <= 1 {
      ExactAtRank(values, values, 0.95, 0);
    }
  }

  // ----- the spread of idle time

  function SumOfSquares(values: seq<real>): real {
    if values == [] then 0.0 else values[0] * values[0] + SumOfSquares(values[1..])
  }

  lemma {:induction false} SquaresFromZero(values: seq<real>)
    ensures SquaresFrom(values, 0.0) == SumOfSquares(values)
  {
    if values != [] {
      SquaresFromZero(values[1..]);
      assert values[0] - 0.0 == values[0];
    }
  }

  lemma {:induction false} SpreadAlgebra(cv: real, spread: real, squares: real, sum: real, mean: real, n: real)
    requires Square(mean) > 0.0 && n > 0.0 && sum == Times(mean, n)
    requires spread == squares - 2.0 * Times(mean, sum) + Times(n, Square(mean))
    requires Times(Times(cv, Square(mean)), n) == spread
    ensures Times(cv, Times(sum, sum)) == Times(n, squares) - Times(sum, sum)
  {
    var sq := Square(mean);
    assert Times(sum, sum) == Times(Times(sq, n), n);
    assert Times(mean, sum) == Times(sq, n) == Times(n, sq);
    assert spread == squares - Times(sq, n);
    assert Times(cv, Times(Times(sq, n), n)) == Times(Times(Times(cv, sq), n), n);
    assert Times(spread, n) == Times(n, squares) - Times(Times(sq, n), n);
  }

  lemma {:induction false} QuotientTimes(a: real, n: int, b: real)
    requires n > 0 && b > 0.0
    ensures Times(Times(Divided(a, n) / b, b), n as real) == a
  {
    assert Divided(a, n) / b * b == Divided(a, n);
    assert Divided(a, n) * n as real == a;
  }

  /** Times the squared sum S of the m idle values, squared idle_cv is m times their sum of squares less S squared. */
  lemma {:induction false} CvOfValues(values: seq<real>)
    ensures |values| <= 1 || Sum(values) <= 0.0 ==> CvSquared(values) == 0.0
    ensures |values| > 1 && Sum(values) > 0.0 ==>
      CvSquared(values) * (Sum(values) * Sum(values))
      == |values| as real * SumOfSquares(values) - Sum(values) * Sum(values)
  {
    hide Sum, SquaresFrom, SumOfSquares, Square, Times, Divided;
    if |values| > 0 {
      SignOfMean(values);
    }
    if |values| > 1 && Sum(values) > 0.0 {
      var mean, n := Mean(values), |values| as real;
      SquareIsPositive(mean);
      SquaresMoved(values, mean);
      SquaresFromZero(values);
      DividedBack(Sum(values), |values|);
      QuotientTimes(SquaresFrom(values, mean), |values|, Square(mean));
      SpreadAlgebra(CvSquared(values), SquaresFrom(values, mean), SumOfSquares(values), Sum(values), mean, n);
      TimesIs(CvSquared(values), Sum(values), n, SumOfSquares(values));
    }
  }

  lemma {:induction false} TimesIs(cv: real, sum: real, n: real, squares: real)
    ensures Times(cv, Times(sum, sum)) == cv * (sum * sum)
    ensures Times(n, squares) == n * squares && Times(sum, sum) == sum * sum
  {
  }

  lemma {:induction false} SignOfMean(values: seq<real>)
    requires values != []
    ensures Mean(values) > 0.0 <==> Sum(values) > 0.0
  {
    hide Sum;
    Laws.QuotientEnds(|values|);
    if Sum(values) > 0.0 {
      Laws.QuotientSign(Sum(values), |values|);
    } else {
      Laws.QuotientRises(Sum(values), 0.0, |values|);
    }
  }

  lemma {:induction false} IdleCvIs(requests: seq<Event>, seconds: int)
    requires requests != [] && seconds > 0
    ensures var cv, idle := RequestFeaturesOf(requests, seconds).idleCvSquared, IdleValues(requests);
      && (|idle| <= 1 || Sum(idle) <= 0.0 ==> cv == 0.0)
      && (|idle| > 1 && Sum(idle) > 0.0 ==>
            cv * (Sum(idle) * Sum(idle)) == |idle| as real * SumOfSquares(idle) - Sum(idle) * Sum(idle))
  {
    hide RequestFeaturesOf, IdleValues, Sum, SumOfSquares, CvSquared;
    CvOf(requests, seconds);
    CvOfValues(IdleValues(requests));
  }
}
