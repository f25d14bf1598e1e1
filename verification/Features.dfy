/** The features of one window (cote3mon/features.py). */
module Features {
  import opened Telemetry
  import opened Percentile

  /** What a window's requests say; the square of idle_cv stands for idle_cv itself. */
  datatype RequestFeatures = RequestFeatures(
    scenario: string, attack: bool, requestRate: real,
    putRatio: real, getRatio: real, deleteRatio: real, rejectRatio: real, errorRatio: real,
    latencyMean: real, latencyP95: real, inputMean: real, inputMax: real,
    keyReuse: real, requestReuse: real, transitionRatio: real,
    idleMean: real, idleP95: real, idleCvSquared: real)

  datatype Row = Row(window: Window, features: RequestFeatures, cpuMean: real, rssMean: real)

  // ----- sums and means

  function Sum(values: seq<real>): real {
    if values == [] then 0.0 else values[0] + Sum(values[1..])
  }

  function Divided(sum: real, count: int): real
    requires count > 0
  {
    sum / count as real
  }

  /** fmean(), or zero for no values */
  function Mean(values: seq<real>): real {
    if values == [] then 0.0 else Divided(Sum(values), |values|)
  }

  function Largest(values: seq<real>): (largest: real)
    requires values != []
    ensures largest in values && forall i | 0 <= i < |values| :: values[i] <= largest
  {
    if |values| == 1 then values[0] else
      var rest := Largest(values[1..]);
      if values[0] >= rest then values[0] else rest
  }

  function Each<T>(field: Event -> T, events: seq<Event>): (values: seq<T>)
    ensures |values| == |events| && forall i | 0 <= i < |events| :: values[i] == field(events[i])
  {
    seq(|events|, i requires 0 <= i < |events| => field(events[i]))
  }

  function Operation(event: Event): string { event.operation }

  function Result(event: Event): string { event.result }

  function Latency(event: Event): real { event.latency }

  function Bytes(event: Event): real { event.bytes }

  function KeyFingerprint(event: Event): string { event.keyFingerprint }

  function RequestFingerprint(event: Event): string { event.requestFingerprint }

  function Cpu(event: Event): real { event.cpu }

  function Rss(event: Event): real { event.rss }

  // ----- idle time

  /** round(): to the nearest integer, a tie to the even one */
  function Round(x: real): int {
    var below := x.Floor;
    var over := x - below as real;
    if over < 0.5 || (over == 0.5 && below % 2 == 0) then below else below + 1
  }

  /** Microseconds between the end of one request and the start of the next, never less than none. */
  function Idle(previous: Event, current: Event): (idle: real)
    ensures idle >= 0.0
  {
    var gap := (current.at - Round(current.latency * 1000.0) - previous.at) as real / 1000.0;
    if gap > 0.0 then gap else 0.0
  }

  function IdleValues(requests: seq<Event>): (values: seq<real>)
    ensures |values| == if requests == [] then 0 else |requests| - 1
  {
    if |requests| <= 1 then [] else [Idle(requests[0], requests[1])] + IdleValues(requests[1..])
  }

  function Times(a: real, b: real): real {
    a * b
  }

  function Square(x: real): real {
    Times(x, x)
  }

  lemma {:induction false} PositiveProduct(a: real, b: real)
    requires (a > 0.0 && b > 0.0) || (a < 0.0 && b < 0.0)
    ensures Times(a, b) > 0.0
  {
  }

  lemma {:induction false} NoProduct(a: real)
    ensures Times(a, 0.0) == 0.0 == Times(0.0, a)
  {
  }

  lemma {:induction false} SquareIsPositive(x: real)
    ensures if x == 0.0 then Square(x) == 0.0 else Square(x) > 0.0
  {
    hide Times;
    if x == 0.0 {
      NoProduct(x);
    } else {
      PositiveProduct(x, x);
    }
  }

  function SquaresFrom(values: seq<real>, centre: real): real {
    if values == [] then 0.0 else Square(values[0] - centre) + SquaresFrom(values[1..], centre)
  }

  /** The square of pstdev() over the mean. */
  function CvSquared(values: seq<real>): real {
    var mean := Mean(values);
    if |values| <= 1 || mean <= 0.0 then 0.0 else
      SquareIsPositive(mean);
      Divided(SquaresFrom(values, mean), |values|) / Square(mean)
  }

  // ----- a row

  function Present(texts: seq<string>): seq<string> {
    if texts == [] then [] else (if texts[0] == "" then [] else [texts[0]]) + Present(texts[1..])
  }

  /** The share of values that repeat an earlier one. */
  function Reuse(texts: seq<string>): real {
    var present := Present(texts);
    if present == [] then 0.0
    else 1.0 - Divided(|set text | text in present| as real, |present|)
  }

  function Transitions(operations: seq<string>): nat {
    if |operations| <= 1 then 0
    else (if operations[0] != operations[1] then 1 else 0) + Transitions(operations[1..])
  }

  function Share(texts: seq<string>, text: string): real
    requires texts != []
  {
    Divided(multiset(texts)[text] as real, |texts|)
  }

  function FailureShare(results: seq<string>): real
    requires results != []
  {
    Divided((|results| - multiset(results)["OK"]) as real, |results|)
  }

  function RequestFeaturesOf(requests: seq<Event>, seconds: int): RequestFeatures
    requires requests != [] && seconds > 0
  {
    var count := |requests|;
    var operations := Each(Operation, requests);
    var results := Each(Result, requests);
    var latencies := Each(Latency, requests);
    var sizes := Each(Bytes, requests);
    var idle := IdleValues(requests);
    RequestFeatures(
      scenario := requests[0].scenario,
      attack := requests[0].attack,
      requestRate := Divided(count as real, seconds),
      putRatio := Share(operations, "PUT"),
      getRatio := Share(operations, "GET"),
      deleteRatio := Share(operations, "DELETE"),
      rejectRatio := Share(operations, "REJECT"),
      errorRatio := FailureShare(results),
      latencyMean := Mean(latencies),
      latencyP95 := PercentilePython(latencies, 0.95),
      inputMean := Mean(sizes),
      inputMax := Largest(sizes),
      keyReuse := Reuse(Each(KeyFingerprint, requests)),
      requestReuse := Reuse(Each(RequestFingerprint, requests)),
      transitionRatio := if count > 1 then Divided(Transitions(operations) as real, count - 1) else 0.0,
      idleMean := Mean(idle),
      idleP95 := PercentilePython(idle, 0.95),
      idleCvSquared := CvSquared(idle))
  }

  function OfKind(events: seq<Event>, kind: Kind): (chosen: seq<Event>) {
    if events == [] then [] else
      var last := events[|events| - 1];
      OfKind(events[..|events| - 1], kind) + if last.kind == kind then [last] else []
  }

  /** The row of a window's events; none when the window holds no request. */
  function RowsOfBucket(bucket: seq<Event>, window: Window, seconds: int): (rows: seq<Row>)
    requires seconds > 0
  {
    var requests := OfKind(bucket, Request);
    var resources := OfKind(bucket, Resource);
    if requests == [] then [] else
      var features := RequestFeaturesOf(SortedByTime(requests), seconds);
      [Row(window, features, Mean(Each(Cpu, resources)), Mean(Each(Rss, resources)))]
  }

  // ----- bounds on idle time

  lemma {:induction false} RoundIsNonNegative(x: real)
    requires x >= 0.0
    ensures Round(x) >= 0
  {
  }

  lemma {:induction false} IdleWithinGap(previous: Event, current: Event)
    requires previous.at <= current.at && current.latency >= 0.0
    ensures Idle(previous, current) <= (current.at - previous.at) as real / 1000.0
  {
    hide Round;
    RoundIsNonNegative(current.latency * 1000.0);
  }

  ghost predicate NonNegativeLatencies(requests: seq<Event>) {
    forall i | 0 <= i < |requests| :: requests[i].latency >= 0.0
  }

  /** The idle time of a window is at most the time from its first request to its last. */
  lemma {:induction false} IdleWithinWindow(requests: seq<Event>)
    requires requests != [] && InTimeOrder(requests) && NonNegativeLatencies(requests)
    ensures Sum(IdleValues(requests)) <= (requests[|requests| - 1].at - requests[0].at) as real / 1000.0
  {
    hide Idle;
    if |requests| > 1 {
      IdleWithinWindow(requests[1..]);
      IdleWithinGap(requests[0], requests[1]);
    }
  }

  ghost predicate NonNegative(values: seq<real>) {
    forall i | 0 <= i < |values| :: values[i] >= 0.0
  }

  lemma {:induction false} IdleIsNonNegative(requests: seq<Event>)
    ensures NonNegative(IdleValues(requests))
  {
    if |requests| > 1 {
      IdleIsNonNegative(requests[1..]);
    }
  }

  lemma {:induction false} SumIsNonNegative(values: seq<real>)
    requires NonNegative(values)
    ensures Sum(values) >= 0.0
  {
    if values != [] {
      SumIsNonNegative(values[1..]);
    }
  }

  lemma {:induction false} SquareOfSum(a: real, b: real)
    requires a >= 0.0 && b >= 0.0
    ensures Square(a) + Square(b) <= Square(a + b)
  {
    assert Square(a + b) == Square(a) + Square(b) + 2.0 * Times(a, b);
    if a > 0.0 && b > 0.0 {
      PositiveProduct(a, b);
    } else {
      NoProduct(a);
      NoProduct(b);
    }
  }

  /** The sum of squares of non-negative numbers is at most the square of their sum. */
  lemma {:induction false} SquaresAtMostSquare(values: seq<real>)
    requires NonNegative(values)
    ensures SquaresFrom(values, 0.0) <= Square(Sum(values))
  {
    hide Square;
    if values != [] {
      SquaresAtMostSquare(values[1..]);
      SumIsNonNegative(values[1..]);
      SquareOfSum(values[0], Sum(values[1..]));
      assert values[0] - 0.0 == values[0];
    } else {
      SquareIsPositive(0.0);
    }
  }

  lemma {:induction false} SquareMoved(x: real, c: real, sum: real, n: real)
    ensures Square(x - c) == Square(x) - 2.0 * Times(c, x) + Square(c)
    ensures Times(c, x + sum) == Times(c, x) + Times(c, sum)
    ensures Times(n + 1.0, Square(c)) == Times(n, Square(c)) + Square(c)
  {
  }

  lemma {:induction false} SquaresMoved(values: seq<real>, centre: real)
    ensures SquaresFrom(values, centre)
            == SquaresFrom(values, 0.0) - 2.0 * Times(centre, Sum(values)) + Times(|values| as real, Square(centre))
  {
    hide Square, Times;
    if values != [] {
      SquaresMoved(values[1..], centre);
      assert values[0] - 0.0 == values[0];
      SquareMoved(values[0], centre, Sum(values[1..]), |values[1..]| as real);
    } else {
      NoProduct(centre);
      NoProduct(Square(centre));
    }
  }

  lemma {:induction false} AtMostAfterDivision(a: real, b: real, n: real)
    requires n > 0.0 && a <= Times(b, n)
    ensures a / n <= b
  {
    var q := a / n;
    assert Times(q - b, n) == a - Times(b, n);
    if q > b {
      PositiveProduct(q - b, n);
    }
  }

  lemma {:induction false} VarianceBound(spread: real, sum: real, mean: real, n: real)
    requires n > 0.0 && mean > 0.0 && sum == Times(mean, n)
    requires spread <= Square(sum) - 2.0 * Times(mean, sum) + Times(n, Square(mean))
    ensures Square(mean) > 0.0
    ensures spread / n / Square(mean) <= n - 1.0
  {
    SquareIsPositive(mean);
    var m := Square(mean);
    assert Square(sum) == Times(Times(m, n), n) && Times(mean, sum) == Times(m, n) == Times(n, m);
    assert Times(Times(m, n) - m, n) == Times(Times(m, n), n) - Times(m, n);
    assert Times(n - 1.0, m) == Times(m, n) - m;
    hide Square, Times;
    AtMostAfterDivision(spread, Times(m, n) - m, n);
    AtMostAfterDivision(spread / n, n - 1.0, m);
  }

  lemma {:induction false} DividedBack(sum: real, count: int)
    requires count > 0
    ensures sum == Times(Divided(sum, count), count as real)
  {
  }

  /** The square of the coefficient of variation of m non-negative values is at most m - 1. */
  lemma {:induction false} CvBound(values: seq<real>)
    requires values != [] && NonNegative(values)
    ensures CvSquared(values) <= |values| as real - 1.0
  {
    hide Sum, SquaresFrom, Square, Times;
    var mean, n := Mean(values), |values| as real;
    if |values| > 1 && mean > 0.0 {
      SquaresAtMostSquare(values);
      SquaresMoved(values, mean);
      DividedBack(Sum(values), |values|);
      VarianceBound(SquaresFrom(values, mean), Sum(values), mean, n);
    }
  }

  /** A window of m + 1 requests has idle_cv squared at most m - 1. */
  lemma {:induction false} IdleCvBound(requests: seq<Event>, seconds: int)
    requires |requests| > 1 && seconds > 0
    ensures RequestFeaturesOf(requests, seconds).idleCvSquared <= |requests| as real - 2.0
  {
    IdleIsNonNegative(requests);
    CvBound(IdleValues(requests));
  }
}
