/** The ratios of a window as counts of places among its requests, and whose scenario a window takes. */
module FeatureCounts {
  import opened Telemetry
  import opened Sorting
  import opened Features
  import opened FeatureExactness
  import Laws = FeatureLaws

  // ----- places of texts

  ghost function Places(texts: seq<string>, text: string): set<int> {
    set i | 0 <= i < |texts| && texts[i] == text
  }

  ghost function OtherPlaces(texts: seq<string>, text: string): set<int> {
    set i | 0 <= i < |texts| && texts[i] != text
  }

  lemma {:induction false} CountOfLast(texts: seq<string>, text: string)
    requires texts != []
    ensures var n := |texts| - 1;
      multiset(texts)[text] == multiset(texts[..n])[text] + if texts[n] == text then 1 else 0
  {
    assert texts == texts[..|texts| - 1] + [texts[|texts| - 1]];
  }

  lemma {:induction false} CountIsPlaces(texts: seq<string>, text: string)
    ensures multiset(texts)[text] == |Places(texts, text)|
    ensures |texts| - multiset(texts)[text] == |OtherPlaces(texts, text)|
  {
    if texts != [] {
      var n := |texts| - 1;
      CountIsPlaces(texts[..n], text);
      CountOfLast(texts, text);
      PlacesOfLast(texts, text);
    } else {
      assert Places(texts, text) == {} && OtherPlaces(texts, text) == {};
    }
  }

  lemma {:induction false} PlacesOfLast(texts: seq<string>, text: string)
    requires texts != []
    ensures var n := |texts| - 1;
      && |Places(texts, text)| == |Places(texts[..n], text)| + (if texts[n] == text then 1 else 0)
      && |OtherPlaces(texts, text)| == |OtherPlaces(texts[..n], text)| + if texts[n] != text then 1 else 0
  {
    var n := |texts| - 1;
    assert Places(texts, text) == Places(texts[..n], text) + if texts[n] == text then {n} else {};
    assert OtherPlaces(texts, text) == OtherPlaces(texts[..n], text) + if texts[n] != text then {n} else {};
  }

  lemma {:induction false} QuotientTimesCount(count: real, whole: int)
    requires whole > 0
    ensures Divided(count, whole) * whole as real == count
  {
  }

  /** The requests with an operation, and those that did not succeed. */
  ghost function WithOperation(requests: seq<Event>, operation: string): set<int> {
    set i | 0 <= i < |requests| && requests[i].operation == operation
  }

  ghost function Unsuccessful(requests: seq<Event>): set<int> {
    set i | 0 <= i < |requests| && requests[i].result != "OK"
  }

  lemma {:induction false} ShareCounts(requests: seq<Event>, operation: string)
    requires requests != []
    ensures Share(Each(Operation, requests), operation) * |requests| as real
            == |WithOperation(requests, operation)| as real
  {
    hide Divided;
    var operations := Each(Operation, requests);
    CountIsPlaces(operations, operation);
    assert Places(operations, operation) == WithOperation(requests, operation);
    QuotientTimesCount(multiset(operations)[operation] as real, |requests|);
  }

  lemma {:induction false} FailureShareCounts(requests: seq<Event>)
    requires requests != []
    ensures FailureShare(Each(Result, requests)) * |requests| as real == |Unsuccessful(requests)| as real
  {
    hide Divided;
    var results := Each(Result, requests);
    CountIsPlaces(results, "OK");
    assert OtherPlaces(results, "OK") == Unsuccessful(requests);
    QuotientTimesCount((|results| - multiset(results)["OK"]) as real, |requests|);
  }

  /** Each operation ratio, times the number of requests, is the number of requests with that operation. */
  lemma {:induction false} RatiosAreCounts(requests: seq<Event>, seconds: int)
    requires requests != [] && seconds > 0
    ensures RequestFeaturesOf(requests, seconds).putRatio * |requests| as real
            == |WithOperation(requests, "PUT")| as real
    ensures RequestFeaturesOf(requests, seconds).getRatio * |requests| as real
            == |WithOperation(requests, "GET")| as real
    ensures RequestFeaturesOf(requests, seconds).deleteRatio * |requests| as real
            == |WithOperation(requests, "DELETE")| as real
    ensures RequestFeaturesOf(requests, seconds).rejectRatio * |requests| as real
            == |WithOperation(requests, "REJECT")| as real
  {
    hide RequestFeaturesOf, Share, WithOperation;
    Laws.RatiosAreShares(requests, seconds);
    ShareCounts(requests, "PUT");
    ShareCounts(requests, "GET");
    ShareCounts(requests, "DELETE");
    ShareCounts(requests, "REJECT");
  }

  /** The error ratio counts the requests that did not succeed, and the rate those of the window's seconds. */
  lemma {:induction false} ErrorsAndRateAreCounts(requests: seq<Event>, seconds: int)
    requires requests != [] && seconds > 0
    ensures RequestFeaturesOf(requests, seconds).errorRatio * |requests| as real == |Unsuccessful(requests)| as real
    ensures RequestFeaturesOf(requests, seconds).requestRate * seconds as real == |requests| as real
  {
    hide RequestFeaturesOf, FailureShare, Unsuccessful, Divided;
    RateAndErrorsOf(requests, seconds);
    FailureShareCounts(requests);
    QuotientTimesCount(|requests| as real, seconds);
  }

  // ----- repetition

  lemma {:induction false} PresentIs(texts: seq<string>)
    ensures |Present(texts)| == |texts| - multiset(texts)[""]
    ensures forall text :: text in Present(texts) <==> text in texts && text != ""
  {
    if texts != [] {
      PresentIs(texts[1..]);
      assert texts == [texts[0]] + texts[1..];
    }
  }

  /** Reuse times the number of fingerprints present is how many more those are than the different ones. */
  lemma {:induction false} ReuseCounts(texts: seq<string>)
    ensures var present, different := |OtherPlaces(texts, "")|, |set text | text in texts && text != ""|;
      if present == 0 then Reuse(texts) == 0.0 else Reuse(texts) * present as real == (present - different) as real
  {
    hide Divided, Present, OtherPlaces;
    PresentIs(texts);
    CountIsPlaces(texts, "");
    var present := Present(texts);
    assert (set text | text in present) == set text | text in texts && text != "";
    if present != [] {
      QuotientTimesCount(|set text | text in present| as real, |present|);
    }
  }

  /** The requests that carry a fingerprint, and the different fingerprints they carry. */
  ghost function Carrying(fingerprint: Event -> string, requests: seq<Event>): set<int> {
    set i | 0 <= i < |requests| && fingerprint(requests[i]) != ""
  }

  ghost function Different(fingerprint: Event -> string, requests: seq<Event>): set<string> {
    set i | 0 <= i < |requests| && fingerprint(requests[i]) != "" :: fingerprint(requests[i])
  }

  lemma {:induction false} ReuseOfField(fingerprint: Event -> string, requests: seq<Event>)
    ensures var carrying, different := |Carrying(fingerprint, requests)|, |Different(fingerprint, requests)|;
      var reuse := Reuse(Each(fingerprint, requests));
      if carrying == 0 then reuse == 0.0 else reuse * carrying as real == (carrying - different) as real
  {
    hide Reuse;
    var texts := Each(fingerprint, requests);
    ReuseCounts(texts);
    assert OtherPlaces(texts, "") == Carrying(fingerprint, requests);
    assert (set text | text in texts && text != "") == Different(fingerprint, requests);
  }

  /** Each reuse ratio, times the number of requests that carry the fingerprint, is how many repeat an earlier one. */
  lemma {:induction false} ReuseRatiosAreCounts(requests: seq<Event>, seconds: int)
    requires requests != [] && seconds > 0
    ensures var carrying, different := |Carrying(KeyFingerprint, requests)|, |Different(KeyFingerprint, requests)|;
      var reuse := RequestFeaturesOf(requests, seconds).keyReuse;
      if carrying == 0 then reuse == 0.0 else reuse * carrying as real == (carrying - different) as real
    ensures
      var carrying, different := |Carrying(RequestFingerprint, requests)|, |Different(RequestFingerprint, requests)|;
      var reuse := RequestFeaturesOf(requests, seconds).requestReuse;
      if carrying == 0 then reuse == 0.0 else reuse * carrying as real == (carrying - different) as real
  {
    hide RequestFeaturesOf, Reuse, Carrying, Different;
    ReusesOf(requests, seconds);
    ReuseOfField(KeyFingerprint, requests);
    ReuseOfField(RequestFingerprint, requests);
  }

  // ----- transitions

  predicate ChangesAt(operations: seq<string>, i: int) {
    0 < i < |operations| && operations[i] != operations[i - 1]
  }

  ghost function Changes(operations: seq<string>): set<int> {
    set i | 0 < i < |operations| && ChangesAt(operations, i)
  }

  lemma {:induction false} TransitionsLast(operations: seq<string>)
    requires |operations| > 1
    ensures var n := |operations| - 1;
      Transitions(operations) == Transitions(operations[..n]) + if operations[n] != operations[n - 1] then 1 else 0
  {
    var n := |operations| - 1;
    if |operations| > 2 {
      TransitionsLast(operations[1..]);
      assert operations[1..][..n - 1] == operations[..n][1..];
    }
  }

  lemma {:induction false} TransitionsAreChanges(operations: seq<string>)
    ensures Transitions(operations) == |Changes(operations)|
  {
    if |operations| > 1 {
      var n := |operations| - 1;
      var init := operations[..n];
      TransitionsLast(operations);
      TransitionsAreChanges(init);
      assert Changes(operations) == Changes(init) + if operations[n] != operations[n - 1] then {n} else {};
    } else {
      assert Changes(operations) == {};
    }
  }

  predicate OperationChangesAt(requests: seq<Event>, i: int) {
    0 < i < |requests| && requests[i].operation != requests[i - 1].operation
  }

  /** The transition ratio times the number of neighbours is how often the operation changes; alone, it is zero. */
  lemma {:induction false} TransitionRatioCounts(requests: seq<Event>, seconds: int)
    requires requests != [] && seconds > 0
    ensures |requests| == 1 ==> RequestFeaturesOf(requests, seconds).transitionRatio == 0.0
    ensures |requests| > 1 ==>
      RequestFeaturesOf(requests, seconds).transitionRatio * (|requests| - 1) as real
      == |set i | 0 < i < |requests| && OperationChangesAt(requests, i)| as real
  {
    hide RequestFeaturesOf, Transitions, Divided;
    TransitionsOf(requests, seconds);
    var operations := Each(Operation, requests);
    TransitionsAreChanges(operations);
    assert Changes(operations) == set i | 0 < i < |requests| && OperationChangesAt(requests, i) by {
      forall i | 0 < i < |requests| ensures ChangesAt(operations, i) == OperationChangesAt(requests, i) {
      }
    }
    if |requests| > 1 {
      QuotientTimesCount(Transitions(operations) as real, |requests| - 1);
    }
  }

  // ----- the row of a bucket

  /** The first given among the earliest. */
  predicate IsEarliest(requests: seq<Event>, k: nat)
    requires k < |requests|
  {
    && (forall j | 0 <= j < |requests| :: requests[k].at <= requests[j].at)
    && forall j | 0 <= j < k :: requests[k].at < requests[j].at
  }

  lemma {:induction false} SortedStartsWithEarliest(requests: seq<Event>) returns (k: nat)
    requires requests != []
    ensures k < |requests| && IsEarliest(requests, k) && SortedByTime(requests)[0] == requests[k]
  {
    if |requests| == 1 {
      k := 0;
    } else {
      var rest := SortedStartsWithEarliest(requests[1..]);
      k := if Earlier(requests[rest + 1], requests[0]) then rest + 1 else 0;
      assert forall j | 0 < j < |requests| :: requests[j] == requests[1..][j - 1];
    }
  }

  /** A bucket has a row when it holds a request; the row takes scenario and label from its earliest request. */
  lemma {:induction false} RowOfBucketIs(bucket: seq<Event>, window: Window, seconds: int) returns (k: nat)
    requires seconds > 0 && OfKind(bucket, Request) != []
    ensures var requests, rows := OfKind(bucket, Request), RowsOfBucket(bucket, window, seconds);
      && k < |requests| && IsEarliest(requests, k) && |rows| == 1 && rows[0].window == window
      && rows[0].features.scenario == requests[k].scenario && rows[0].features.attack == requests[k].attack
  {
    var requests := OfKind(bucket, Request);
    k := SortedStartsWithEarliest(requests);
    hide OfKind, SortedByTime, Mean, IdleValues, Reuse, Share, FailureShare, Transitions, CvSquared, IsEarliest;
  }
}
