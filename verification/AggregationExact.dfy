/** The rows of aggregate_events() said of the events alone: which windows have one, in which order, and of what. */
module AggregationExact {
  import opened Orders
  import opened Telemetry
  import opened Features
  import opened Aggregation
  import opened AggregationLaws
  import opened FeatureExactness

  /** The run has no request at all, or one that is at least the warm-up older than the event. */
  ghost predicate Warm(events: seq<Event>, event: Event, warmup: int) {
    (exists at :: Requested(events, event.run, at)) ==>
      exists at :: Requested(events, event.run, at) && at + warmup * 1000000000 <= event.at
  }

  /** The window starts at a multiple of its length and the time lies in it. */
  predicate Spans(start: int, at: int, seconds: int)
    requires seconds > 0
  {
    start <= at < start + seconds * 1000000000 && start % (seconds * 1000000000) == 0
  }

  /** The events that a window's row speaks of. */
  ghost predicate Belongs(events: seq<Event>, event: Event, window: Window, seconds: int, warmup: int)
    requires seconds > 0
  {
    event.run == window.run && Spans(window.start, event.at, seconds) && Warm(events, event, warmup)
  }

  lemma {:induction false} RetainedIsWarm(events: seq<Event>, event: Event, seconds: int, warmup: int)
    requires seconds > 0
    ensures Retained(PlanFor(events, seconds, warmup), event) <==> Warm(events, event, warmup)
  {
    hide FirstRequests, Requested;
    FirstRequestIsEarliest(events, event.run);
  }

  lemma {:induction false} NoMultipleWithin(width: int, n: int)
    requires -width < width * n < width
    ensures n == 0
  {
    assert n >= 1 ==> width * n >= width;
    assert n <= -1 ==> width * n <= -width;
  }

  lemma {:induction false} Quotient(width: int, at: int)
    requires width > 0
    ensures at == width * (at / width) + at % width
  {
  }

  lemma {:induction false} Distributes(width: int, d: int, e: int)
    ensures width * (d - e) == width * d - width * e
  {
  }

  lemma {:induction false} Multiple(width: int, start: int, at: int)
    requires width > 0 && start <= at < start + width && start % width == 0
    ensures at - at % width == start
  {
    var d, e := at / width, start / width;
    Quotient(width, at);
    Quotient(width, start);
    Distributes(width, d, e);
    NoMultipleWithin(width, d - e);
  }

  lemma {:induction false} FallsIsBelongs(events: seq<Event>, event: Event, window: Window, seconds: int, warmup: int)
    requires seconds > 0
    ensures Falls(PlanFor(events, seconds, warmup), event, window) <==> Belongs(events, event, window, seconds, warmup)
  {
    hide FirstRequests, Warm;
    RetainedIsWarm(events, event, seconds, warmup);
    var width := seconds * 1000000000;
    WindowStarts(event.at, width);
    if Spans(window.start, event.at, seconds) {
      Multiple(width, window.start, event.at);
    }
  }

  /** Exactly the events that belong to the window and are of the kind, each as often as given. */
  ghost predicate AllOf(chosen: seq<Event>, kind: Kind, events: seq<Event>, window: Window, seconds: int, warmup: int)
    requires seconds > 0
  {
    forall event ::
      multiset(chosen)[event]
      == if event.kind == kind && Belongs(events, event, window, seconds, warmup) then multiset(events)[event] else 0
  }

  lemma {:induction false} KindOfBucket(events: seq<Event>, kind: Kind, window: Window, seconds: int, warmup: int)
    requires seconds > 0
    ensures var bucket := Bucket(PlanFor(events, seconds, warmup), events, window);
      AllOf(OfKind(bucket, kind), kind, events, window, seconds, warmup)
  {
    hide FirstRequests, Belongs, Falls, Bucket, OfKind;
    var plan := PlanFor(events, seconds, warmup);
    var bucket := Bucket(plan, events, window);
    forall event ensures
        multiset(OfKind(bucket, kind))[event]
        == if event.kind == kind && Belongs(events, event, window, seconds, warmup) then multiset(events)[event] else 0
    {
      InKind(bucket, kind, event);
      InBucket(plan, events, window, event);
      FallsIsBelongs(events, event, window, seconds, warmup);
    }
  }

  /** What a row says: the features of the requests in order of time, and the means of the resource samples. */
  ghost predicate SpeaksOf(row: Row, requests: seq<Event>, resources: seq<Event>, seconds: int)
    requires seconds > 0
  {
    && requests != [] && InTimeOrder(requests)
    && row.features == RequestFeaturesOf(requests, seconds)
    && row.cpuMean * |resources| as real == TotalOf(Cpu, resources)
    && row.rssMean * |resources| as real == TotalOf(Rss, resources)
    && (resources == [] ==> row.cpuMean == 0.0 == row.rssMean)
  }

  lemma {:induction false} RowOfBucketSpeaks(bucket: seq<Event>, window: Window, seconds: int, row: Row)
    requires seconds > 0 && RowsOfBucket(bucket, window, seconds) == [row]
    ensures SpeaksOf(row, SortedByTime(OfKind(bucket, Request)), OfKind(bucket, Resource), seconds)
    ensures row.window == window
  {
    hide OfKind, SortedByTime, RequestFeaturesOf, Sum, Mean, InTimeOrder;
    SortedByTimeIsSorted(OfKind(bucket, Request));
    MeanOfField(Cpu, OfKind(bucket, Resource));
    MeanOfField(Rss, OfKind(bucket, Resource));
  }

  /** Every row speaks of all the requests and all the resource samples that belong to its window, and of no others. */
  lemma {:induction false} RowsAreExact(events: seq<Event>, seconds: int, warmup: int, i: nat)
    returns (requests: seq<Event>, resources: seq<Event>)
    requires seconds > 0 && i < |Aggregate(events, seconds, warmup)|
    ensures var row := Aggregate(events, seconds, warmup)[i];
      && AllOf(requests, Request, events, row.window, seconds, warmup)
      && AllOf(resources, Resource, events, row.window, seconds, warmup)
      && SpeaksOf(row, requests, resources, seconds)
  {
    hide FirstRequests, RowsOfBucket, AllOf, SpeaksOf, OfKind, SortedByTime, Aggregate, Bucket;
    RowsExact(events, seconds, warmup);
    var row := Aggregate(events, seconds, warmup)[i];
    var bucket := Bucket(PlanFor(events, seconds, warmup), events, row.window);
    requests, resources := SortedByTime(OfKind(bucket, Request)), OfKind(bucket, Resource);
    assert RowOf(PlanFor(events, seconds, warmup), events, row.window, seconds) == [row];
    RowOfBucketSpeaks(bucket, row.window, seconds, row);
    KindOfBucket(events, Request, row.window, seconds, warmup);
    KindOfBucket(events, Resource, row.window, seconds, warmup);
    SortedByTimeIsSorted(OfKind(bucket, Request));
    SameContents(requests, OfKind(bucket, Request), events, row.window, seconds, warmup);
  }

  lemma {:induction false} SameContents(
    a: seq<Event>, b: seq<Event>, events: seq<Event>, window: Window, seconds: int, warmup: int)
    requires seconds > 0 && multiset(a) == multiset(b) && AllOf(b, Request, events, window, seconds, warmup)
    ensures AllOf(a, Request, events, window, seconds, warmup)
  {
    hide Belongs;
  }

  /** Some request belongs to the window of a row. */
  lemma {:induction false} RowHasRequest(events: seq<Event>, seconds: int, warmup: int, i: nat) returns (event: Event)
    requires seconds > 0 && i < |Aggregate(events, seconds, warmup)|
    ensures event in events && event.kind == Request
    ensures Belongs(events, event, Aggregate(events, seconds, warmup)[i].window, seconds, warmup)
  {
    hide Aggregate, Belongs, InTimeOrder, RequestFeaturesOf, TotalOf;
    var requests, resources := RowsAreExact(events, seconds, warmup, i);
    event := requests[0];
    assert event in multiset(requests);
    assert event in multiset(events);
  }

  /** A window to which a request belongs has a row. */
  lemma {:induction false} RequestHasRow(
    events: seq<Event>, event: Event, window: Window, seconds: int, warmup: int)
    requires seconds > 0 && event in events && event.kind == Request
    requires Belongs(events, event, window, seconds, warmup)
    ensures HasRow(Aggregate(events, seconds, warmup), window)
  {
    hide Aggregate, HasRow, Belongs, Falls, FirstRequests;
    RowsExact(events, seconds, warmup);
    FallsIsBelongs(events, event, window, seconds, warmup);
    assert HoldsRequest(PlanFor(events, seconds, warmup), events, window);
  }

  /** Rows come in order of the run's text, within a run in order of time, no window twice. */
  lemma {:induction false} RowsInOrder(events: seq<Event>, seconds: int, warmup: int, i: nat, j: nat)
    requires seconds > 0 && i < j < |Aggregate(events, seconds, warmup)|
    ensures var a, b := Aggregate(events, seconds, warmup)[i].window, Aggregate(events, seconds, warmup)[j].window;
      if a.run == b.run then a.start < b.start else exists k: nat :: LessAt(a.run, b.run, k)
  {
    hide Aggregate, TextLess, LessAt;
    RowsExact(events, seconds, warmup);
    var a, b := Aggregate(events, seconds, warmup)[i].window, Aggregate(events, seconds, warmup)[j].window;
    assert Before(a, b);
    TextLessIsLexicographic(a.run, b.run);
    TextLessTotal(a.run, b.run);
  }
}
