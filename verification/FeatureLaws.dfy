/** What the ratios of a window say about its requests. */
module FeatureLaws {
  import opened Telemetry
  import opened Features
  import opened Percentile

  // ----- quotients of counts

  lemma {:induction false} PartOfWhole(count: int, whole: int)
    requires 0 <= count <= whole && whole > 0
    ensures 0.0 <= Divided(count as real, whole) <= 1.0
    ensures Divided(count as real, whole) == 0.0 <==> count == 0
    ensures Divided(count as real, whole) == 1.0 <==> count == whole
  {
    var q := Divided(count as real, whole);
    DividedBack(count as real, whole);
    DividedBack(whole as real, whole);
    QuotientRises(count as real, whole as real, whole);
    QuotientRises(0.0, count as real, whole);
    QuotientEnds(whole);
  }

  lemma {:induction false} QuotientEnds(whole: int)
    requires whole > 0
    ensures Divided(0.0, whole) == 0.0 && Divided(whole as real, whole) == 1.0
  {
  }

  lemma {:induction false} QuotientSum(a: real, b: real, whole: int)
    requires whole > 0
    ensures Divided(a, whole) + Divided(b, whole) == Divided(a + b, whole)
    ensures Divided(a, whole) - Divided(b, whole) == Divided(a - b, whole)
  {
  }

  lemma {:induction false} QuotientSign(a: real, whole: int)
    requires whole > 0 && a > 0.0
    ensures Divided(a, whole) > 0.0
  {
  }

  lemma {:induction false} QuotientRises(a: real, b: real, whole: int)
    requires whole > 0 && a <= b
    ensures Divided(a, whole) <= Divided(b, whole)
    ensures a < b ==> Divided(a, whole) < Divided(b, whole)
  {
    QuotientSum(b, a, whole);
    if a < b {
      QuotientSign(b - a, whole);
    }
  }

  // ----- shares of operations and results

  lemma {:induction false} CountMeans(texts: seq<string>, text: string)
    ensures multiset(texts)[text] <= |texts|
    ensures multiset(texts)[text] == |texts| <==> forall i | 0 <= i < |texts| :: texts[i] == text
  {
    if texts != [] {
      CountMeans(texts[1..], text);
      assert texts == [texts[0]] + texts[1..];
    }
  }

  /** A share is 0 when the text does not occur, 1 when nothing else does, and otherwise strictly between. */
  lemma {:induction false} ShareMeans(texts: seq<string>, text: string)
    requires texts != []
    ensures 0.0 <= Share(texts, text) <= 1.0
    ensures Share(texts, text) == 0.0 <==> text !in texts
    ensures Share(texts, text) == 1.0 <==> forall i | 0 <= i < |texts| :: texts[i] == text
  {
    hide Divided;
    CountMeans(texts, text);
    PartOfWhole(multiset(texts)[text], |texts|);
  }

  predicate Known(operation: string) {
    operation == "PUT" || operation == "GET" || operation == "DELETE" || operation == "REJECT"
  }

  function KnownCount(texts: seq<string>): nat {
    multiset(texts)["PUT"] + multiset(texts)["GET"] + multiset(texts)["DELETE"] + multiset(texts)["REJECT"]
  }

  lemma {:induction false} KnownCountMeans(texts: seq<string>)
    ensures KnownCount(texts) <= |texts|
    ensures KnownCount(texts) == |texts| <==> forall i | 0 <= i < |texts| :: Known(texts[i])
  {
    if texts == [] {
      assert KnownCount(texts) == 0;
    } else {
      KnownCountMeans(texts[1..]);
      assert texts == [texts[0]] + texts[1..];
      assert multiset(texts) == multiset{texts[0]} + multiset(texts[1..]);
      assert KnownCount(texts) == KnownCount(texts[1..]) + if Known(texts[0]) then 1 else 0;
    }
  }

  /** A ratio between 0 and 1 that is 0 when no request has the operation and 1 when every request has. */
  ghost predicate Tells(ratio: real, requests: seq<Event>, operation: string) {
    && 0.0 <= ratio <= 1.0
    && (ratio == 0.0 <==> forall i | 0 <= i < |requests| :: requests[i].operation != operation)
    && (ratio == 1.0 <==> forall i | 0 <= i < |requests| :: requests[i].operation == operation)
  }

  lemma {:induction false} ShareTells(requests: seq<Event>, operation: string)
    requires requests != []
    ensures Tells(Share(Each(Operation, requests), operation), requests, operation)
  {
    hide Share;
    var operations := Each(Operation, requests);
    ShareMeans(operations, operation);
    assert forall i | 0 <= i < |requests| :: operations[i] == requests[i].operation;
  }

  lemma {:induction false} RatiosAreShares(requests: seq<Event>, seconds: int)
    requires requests != [] && seconds > 0
    ensures var f, operations := RequestFeaturesOf(requests, seconds), Each(Operation, requests);
      && f.putRatio == Share(operations, "PUT") && f.getRatio == Share(operations, "GET")
      && f.deleteRatio == Share(operations, "DELETE") && f.rejectRatio == Share(operations, "REJECT")
  {
    hide Divided, Mean, Reuse, Share, FailureShare, Transitions, CvSquared;
  }

  /** Each operation ratio tells of its own operation; together they add up to at most 1, and to 1 exactly when no
      request has another operation. */
  lemma {:induction false} OperationRatios(requests: seq<Event>, seconds: int)
    requires requests != [] && seconds > 0
    ensures Tells(RequestFeaturesOf(requests, seconds).putRatio, requests, "PUT")
    ensures Tells(RequestFeaturesOf(requests, seconds).getRatio, requests, "GET")
    ensures Tells(RequestFeaturesOf(requests, seconds).deleteRatio, requests, "DELETE")
    ensures Tells(RequestFeaturesOf(requests, seconds).rejectRatio, requests, "REJECT")
    ensures var f := RequestFeaturesOf(requests, seconds);
      var sum := f.putRatio + f.getRatio + f.deleteRatio + f.rejectRatio;
      && sum <= 1.0
      && (sum == 1.0 <==> forall i | 0 <= i < |requests| :: Known(requests[i].operation))
  {
    hide RequestFeaturesOf, Divided, KnownCount, Share, Tells, Known;
    var operations := Each(Operation, requests);
    RatiosAreShares(requests, seconds);
    ShareTells(requests, "PUT");
    ShareTells(requests, "GET");
    ShareTells(requests, "DELETE");
    ShareTells(requests, "REJECT");
    KnownCountMeans(operations);
    PartOfWhole(KnownCount(operations), |operations|);
    FourShares(operations);
    assert forall i | 0 <= i < |requests| :: operations[i] == requests[i].operation;
  }

  lemma {:induction false} FourShares(texts: seq<string>)
    requires texts != []
    ensures Share(texts, "PUT") + Share(texts, "GET") + Share(texts, "DELETE") + Share(texts, "REJECT")
            == Divided(KnownCount(texts) as real, |texts|)
  {
    hide Divided;
    var n := |texts|;
    var put, get := multiset(texts)["PUT"] as real, multiset(texts)["GET"] as real;
    var delete, reject := multiset(texts)["DELETE"] as real, multiset(texts)["REJECT"] as real;
    QuotientSum(put, get, n);
    QuotientSum(put + get, delete, n);
    QuotientSum(put + get + delete, reject, n);
  }

  lemma {:induction false} FailureShareMeans(results: seq<string>)
    requires results != []
    ensures 0.0 <= FailureShare(results) <= 1.0
    ensures FailureShare(results) == 0.0 <==> forall i | 0 <= i < |results| :: results[i] == "OK"
    ensures FailureShare(results) == 1.0 <==> "OK" !in results
  {
    hide Divided;
    CountMeans(results, "OK");
    PartOfWhole(|results| - multiset(results)["OK"], |results|);
  }

  /** The error ratio is 0 when every request succeeded and 1 when none did. */
  lemma {:induction false} ErrorRatioMeans(requests: seq<Event>, seconds: int)
    requires requests != [] && seconds > 0
    ensures var ratio := RequestFeaturesOf(requests, seconds).errorRatio;
      && 0.0 <= ratio <= 1.0
      && (ratio == 0.0 <==> forall i | 0 <= i < |requests| :: requests[i].result == "OK")
      && (ratio == 1.0 <==> forall i | 0 <= i < |requests| :: requests[i].result != "OK")
  {
    hide Divided, Mean, Reuse, Share, FailureShare, Transitions, CvSquared;
    var results := Each(Result, requests);
    FailureShareMeans(results);
    assert forall i | 0 <= i < |requests| :: results[i] == requests[i].result;
  }

  // ----- repetition

  ghost predicate NoRepeats(texts: seq<string>) {
    forall i, j | 0 <= i < j < |texts| :: texts[i] != texts[j]
  }

  lemma {:induction false} DistinctTexts(texts: seq<string>)
    ensures |set text | text in texts| <= |texts|
    ensures |set text | text in texts| == |texts| <==> NoRepeats(texts)
  {
    if texts != [] {
      var rest := texts[1..];
      var all, fewer := set text | text in texts, set text | text in rest;
      DistinctTexts(rest);
      assert all == fewer + {texts[0]};
      assert NoRepeats(texts) <==> texts[0] !in rest && NoRepeats(rest);
      assert texts[0] in rest <==> texts[0] in fewer;
    }
  }

  /** Reuse lies in [0, 1) and is 0 exactly when no fingerprint that is present occurs twice. */
  lemma {:induction false} ReuseMeans(texts: seq<string>)
    ensures 0.0 <= Reuse(texts) < 1.0
    ensures Reuse(texts) == 0.0 <==> NoRepeats(Present(texts))
  {
    hide Divided, Present;
    var present := Present(texts);
    if present != [] {
      DistinctTexts(present);
      var distinct := set text | text in present;
      assert present[0] in distinct;
      PartOfWhole(|distinct|, |present|);
    }
  }

  /** The two reuse ratios of a window tell of its keys and of its requests. */
  lemma {:induction false} ReuseRatios(requests: seq<Event>, seconds: int)
    requires requests != [] && seconds > 0
    ensures var f := RequestFeaturesOf(requests, seconds);
      && 0.0 <= f.keyReuse < 1.0 && 0.0 <= f.requestReuse < 1.0
      && (f.keyReuse == 0.0 <==> NoRepeats(Present(Each(KeyFingerprint, requests))))
      && (f.requestReuse == 0.0 <==> NoRepeats(Present(Each(RequestFingerprint, requests))))
  {
    hide Divided, Mean, Reuse, Share, FailureShare, Transitions, CvSquared, Present, NoRepeats;
    ReuseMeans(Each(KeyFingerprint, requests));
    ReuseMeans(Each(RequestFingerprint, requests));
  }

  // ----- transitions

  ghost predicate AllSame(operations: seq<string>) {
    forall i | 0 < i < |operations| :: operations[i] == operations[i - 1]
  }

  ghost predicate AlwaysChanging(operations: seq<string>) {
    forall i | 0 < i < |operations| :: operations[i] != operations[i - 1]
  }

  lemma {:induction false} TransitionsMean(operations: seq<string>)
    requires operations != []
    ensures Transitions(operations) <= |operations| - 1
    ensures Transitions(operations) == 0 <==> AllSame(operations)
    ensures Transitions(operations) == |operations| - 1 <==> AlwaysChanging(operations)
  {
    if |operations| > 1 {
      var rest := operations[1..];
      TransitionsMean(rest);
      assert forall i | 0 < i < |rest| :: rest[i] == operations[i + 1] && rest[i - 1] == operations[i];
      assert AllSame(operations) <==> operations[1] == operations[0] && AllSame(rest) by {
        if operations[1] == operations[0] && AllSame(rest) {
          forall i | 0 < i < |operations| ensures operations[i] == operations[i - 1] {
            assert i > 1 ==> rest[i - 1] == rest[i - 2];
          }
        }
      }
      assert AlwaysChanging(operations) <==> operations[1] != operations[0] && AlwaysChanging(rest) by {
        if operations[1] != operations[0] && AlwaysChanging(rest) {
          forall i | 0 < i < |operations| ensures operations[i] != operations[i - 1] {
            assert i > 1 ==> rest[i - 1] != rest[i - 2];
          }
        }
      }
    }
  }

  /** The transition ratio is 0 when the operation never changes and 1 when it changes every time. */
  lemma {:induction false} TransitionRatioMeans(requests: seq<Event>, seconds: int)
    requires |requests| > 1 && seconds > 0
    ensures var ratio := RequestFeaturesOf(requests, seconds).transitionRatio;
      && 0.0 <= ratio <= 1.0
      && (ratio == 0.0 <==> forall i | 0 < i < |requests| :: requests[i].operation == requests[i - 1].operation)
      && (ratio == 1.0 <==> forall i | 0 < i < |requests| :: requests[i].operation != requests[i - 1].operation)
  {
    hide Divided, Mean, Reuse, Share, Transitions, CvSquared;
    var operations := Each(Operation, requests);
    TransitionsMean(operations);
    PartOfWhole(Transitions(operations), |requests| - 1);
    assert RequestFeaturesOf(requests, seconds).transitionRatio
        == Divided(Transitions(operations) as real, |requests| - 1);
    assert forall i | 0 <= i < |requests| :: operations[i] == requests[i].operation;
  }

  // ----- means

  lemma {:induction false} SumAtMost(values: seq<real>, bound: real)
    requires forall i | 0 <= i < |values| :: values[i] <= bound
    ensures Sum(values) <= Times(|values| as real, bound)
  {
    if values == [] {
      NoProduct(bound);
    } else {
      SumAtMost(values[1..], bound);
      assert Times(|values| as real, bound) == Times(|values[1..]| as real, bound) + bound;
    }
  }

  lemma {:induction false} SumAtLeast(values: seq<real>, bound: real)
    requires forall i | 0 <= i < |values| :: values[i] >= bound
    ensures Sum(values) >= Times(|values| as real, bound)
  {
    if values == [] {
      NoProduct(bound);
    } else {
      SumAtLeast(values[1..], bound);
      assert Times(|values| as real, bound) == Times(|values[1..]| as real, bound) + bound;
    }
  }

  lemma {:induction false} MeanWithin(values: seq<real>, low: real, high: real)
    requires values != [] && forall i | 0 <= i < |values| :: low <= values[i] <= high
    ensures low <= Mean(values) <= high
  {
    hide Divided, Sum;
    SumAtMost(values, high);
    SumAtLeast(values, low);
    QuotientRises(Sum(values), Times(|values| as real, high), |values|);
    QuotientRises(Times(|values| as real, low), Sum(values), |values|);
    TimesDivided(high, |values|);
    TimesDivided(low, |values|);
  }

  lemma {:induction false} PercentileWithin(values: seq<real>, probability: real, low: real, high: real)
    requires values != [] && 0.0 <= probability <= 1.0
    requires forall i | 0 <= i < |values| :: low <= values[i] <= high
    ensures low <= PercentilePython(values, probability) <= high
  {
    hide PercentilePython, Sorted;
    WithinRange(values, probability);
    var s := Sorted(values);
    assert s[0] in multiset(s) && s[|s| - 1] in multiset(s);
  }

  /** Both latency features lie between any bounds on the latencies. */
  lemma {:induction false} LatenciesWithin(requests: seq<Event>, seconds: int, low: real, high: real)
    requires requests != [] && seconds > 0
    requires forall i | 0 <= i < |requests| :: low <= requests[i].latency <= high
    ensures low <= RequestFeaturesOf(requests, seconds).latencyMean <= high
    ensures low <= RequestFeaturesOf(requests, seconds).latencyP95 <= high
  {
    hide Divided, Mean, Reuse, Share, FailureShare, Transitions, CvSquared, PercentilePython;
    var latencies := Each(Latency, requests);
    MeanWithin(latencies, low, high);
    PercentileWithin(latencies, 0.95, low, high);
  }

  /** The mean input size lies between the smallest and the largest, and the largest is reached. */
  lemma {:induction false} InputsWithin(requests: seq<Event>, seconds: int, low: real)
    requires requests != [] && seconds > 0
    requires forall i | 0 <= i < |requests| :: low <= requests[i].bytes
    ensures low <= RequestFeaturesOf(requests, seconds).inputMean <= RequestFeaturesOf(requests, seconds).inputMax
    ensures exists i :: 0 <= i < |requests| && requests[i].bytes == RequestFeaturesOf(requests, seconds).inputMax
  {
    hide Divided, Mean, Reuse, Share, FailureShare, Transitions, CvSquared, PercentilePython;
    var sizes := Each(Bytes, requests);
    MeanWithin(sizes, low, Largest(sizes));
    var i :| 0 <= i < |sizes| && sizes[i] == Largest(sizes);
    assert requests[i].bytes == Largest(sizes);
  }

  /** The mean idle time is at most the window's span divided among the gaps. */
  lemma {:induction false} IdleMeanWithinSpan(requests: seq<Event>, seconds: int)
    requires |requests| > 1 && seconds > 0 && InTimeOrder(requests) && NonNegativeLatencies(requests)
    ensures 0.0 <= RequestFeaturesOf(requests, seconds).idleMean
            <= Divided((requests[|requests| - 1].at - requests[0].at) as real / 1000.0, |requests| - 1)
  {
    hide Divided, Sum, IdleValues, Reuse, Share, FailureShare, Transitions, CvSquared, PercentilePython;
    var idle := IdleValues(requests);
    IdleWithinWindow(requests);
    IdleIsNonNegative(requests);
    SumIsNonNegative(idle);
    QuotientRises(Sum(idle), (requests[|requests| - 1].at - requests[0].at) as real / 1000.0, |idle|);
    QuotientRises(0.0, Sum(idle), |idle|);
    QuotientEnds(|idle|);
  }

  lemma {:induction false} TimesDivided(x: real, n: int)
    requires n > 0
    ensures Divided(Times(n as real, x), n) == x
  {
  }

  /** The resource means of a window's row lie between any bounds on its resource samples. */
  lemma {:induction false} ResourcesWithin(
    bucket: seq<Event>, window: Window, seconds: int, cpu: (real, real), rss: (real, real))
    requires seconds > 0 && OfKind(bucket, Request) != [] && OfKind(bucket, Resource) != []
    requires forall i | 0 <= i < |OfKind(bucket, Resource)| ::
      && cpu.0 <= OfKind(bucket, Resource)[i].cpu <= cpu.1
      && rss.0 <= OfKind(bucket, Resource)[i].rss <= rss.1
    ensures |RowsOfBucket(bucket, window, seconds)| == 1
    ensures cpu.0 <= RowsOfBucket(bucket, window, seconds)[0].cpuMean <= cpu.1
    ensures rss.0 <= RowsOfBucket(bucket, window, seconds)[0].rssMean <= rss.1
  {
    hide OfKind, RequestFeaturesOf, Mean;
    MeanWithin(Each(Cpu, OfKind(bucket, Resource)), cpu.0, cpu.1);
    MeanWithin(Each(Rss, OfKind(bucket, Resource)), rss.0, rss.1);
  }
}
