/** What aggregation keeps: nothing is lost or counted twice, and the order of the input does not matter. */
module AggregationLaws {
  import opened Telemetry
  import opened Features
  import opened Aggregation

  // ----- earliest requests

  /** A run has a request at a time. */
  ghost predicate Requested(events: seq<Event>, run: string, at: int) {
    exists event :: event in events && event.kind == Request && event.run == run && event.at == at
  }

  lemma {:induction false} RequestedGrows(events: seq<Event>, run: string, at: int)
    requires events != []
    ensures Requested(events, run, at) <==>
      Requested(Init(events), run, at) ||
      (Last(events).kind == Request && Last(events).run == run && Last(events).at == at)
  {
    assert forall event :: event in events <==> event in Init(events) || event == Last(events);
    assert Last(events) in events;
  }

  /** A run's first request is the earliest given, and there is one when any is given. */
  lemma {:induction false} FirstRequestIsEarliest(events: seq<Event>, run: string)
    ensures run in FirstRequests(events) ==> Requested(events, run, FirstRequests(events)[run])
    ensures forall at | Requested(events, run, at) :: run in FirstRequests(events) && FirstRequests(events)[run] <= at
  {
    hide Requested;
    if events == [] {
      NothingRequested(run);
    } else {
      FirstRequestIsEarliest(Init(events), run);
      var first := FirstRequests(events);
      assert first == NextFirst(FirstRequests(Init(events)), Last(events));
      hide FirstRequests;
      if run in first {
        RequestedGrows(events, run, first[run]);
      }
      forall at | Requested(events, run, at) ensures run in first && first[run] <= at {
        RequestedGrows(events, run, at);
      }
    }
  }

  lemma {:induction false} NothingRequested(run: string)
    ensures forall at :: !Requested([], run, at)
  {
  }

  lemma {:induction false} SameFirstRequests(a: seq<Event>, b: seq<Event>)
    requires multiset(a) == multiset(b)
    ensures FirstRequests(a) == FirstRequests(b)
  {
    hide FirstRequests;
    assert forall event :: event in a <==> event in multiset(a);
    assert forall event :: event in b <==> event in multiset(b);
    var first, other := FirstRequests(a), FirstRequests(b);
    forall run ensures run in first <==> run in other
      ensures run in first && run in other ==> first[run] == other[run]
    {
      assert forall at :: Requested(a, run, at) <==> Requested(b, run, at);
      FirstRequestIsEarliest(a, run);
      FirstRequestIsEarliest(b, run);
    }
  }

  // ----- one window for each retained event

  lemma {:induction false} InBucket(plan: Plan, events: seq<Event>, window: Window, event: Event)
    requires plan.width > 0
    ensures multiset(Bucket(plan, events, window))[event]
            == if Falls(plan, event, window) then multiset(events)[event] else 0
  {
    hide Falls;
    if events != [] {
      InBucket(plan, Init(events), window, event);
      assert multiset(events) == multiset(Init(events)) + multiset{Last(events)};
    }
  }

  lemma {:induction false} WindowHolds(plan: Plan, events: seq<Event>, window: Window)
    requires plan.width > 0
    ensures window in Windows(plan, events) <==> exists event :: event in events && Falls(plan, event, window)
  {
    hide WindowOf, Retained;
    if events != [] {
      var init, last := Init(events), Last(events);
      WindowHolds(plan, init, window);
      if window in Windows(plan, init) {
        var event :| event in init && Falls(plan, event, window);
        assert event in events;
      } else if Falls(plan, last, window) {
        assert last in events;
      }
    }
  }

  /** A retained event is in the bucket of exactly one window, as often as it was given, and that window spans its
      time; any other event is in no bucket. */
  lemma {:induction false} ExactlyOneWindow(plan: Plan, events: seq<Event>, event: Event)
    requires plan.width > 0 && event in events
    ensures var home := WindowOf(plan, event);
      && home.run == event.run
      && home.start <= event.at < home.start + plan.width && home.start % plan.width == 0
      && (Retained(plan, event) ==> home in Windows(plan, events))
      && forall window :: multiset(Bucket(plan, events, window))[event]
           == if Retained(plan, event) && window == home then multiset(events)[event] else 0
  {
    hide Bucket, Windows, Retained;
    var home := WindowOf(plan, event);
    WindowStarts(event.at, plan.width);
    WindowHolds(plan, events, home);
    forall window ensures multiset(Bucket(plan, events, window))[event]
        == if Retained(plan, event) && window == home then multiset(events)[event] else 0 {
      InBucket(plan, events, window, event);
    }
  }

  lemma {:induction false} WindowStarts(at: int, width: int)
    requires width > 0
    ensures at - at % width <= at < at - at % width + width
    ensures (at - at % width) % width == 0
  {
    var n := at / width;
    assert at - at % width == width * n;
    MultipleOf(width, n);
  }

  lemma {:induction false} MultipleOf(width: int, n: int)
    requires width > 0
    ensures (width * n) % width == 0
  {
    var q, r := (width * n) / width, (width * n) % width;
    assert width * (n - q) == r;
    assert n - q >= 1 ==> width * (n - q) >= width;
    assert n - q <= -1 ==> width * (n - q) <= -width;
  }

  // ----- rows

  function RowOf(plan: Plan, events: seq<Event>, window: Window, seconds: int): (rows: seq<Row>)
    requires plan.width > 0 && seconds > 0
  {
    RowsOfBucket(Bucket(plan, events, window), window, seconds)
  }

  ghost predicate HasRow(rows: seq<Row>, window: Window) {
    exists i :: 0 <= i < |rows| && rows[i].window == window
  }

  ghost predicate IncreasingRows(rows: seq<Row>) {
    forall i, j | 0 <= i < j < |rows| :: Before(rows[i].window, rows[j].window)
  }

  /** Row by row, the row of its window. */
  ghost predicate RowsOfTheirWindows(rows: seq<Row>, plan: Plan, events: seq<Event>, seconds: int)
    requires plan.width > 0 && seconds > 0
  {
    forall i | 0 <= i < |rows| :: RowOf(plan, events, rows[i].window, seconds) == [rows[i]]
  }

  lemma {:induction false} RowsAreOfWindows(plan: Plan, events: seq<Event>, windows: seq<Window>, seconds: int)
    requires plan.width > 0 && seconds > 0 && InOrder(windows)
    ensures IncreasingRows(RowsOf(plan, events, windows, seconds))
    ensures RowsOfTheirWindows(RowsOf(plan, events, windows, seconds), plan, events, seconds)
    ensures forall window :: HasRow(RowsOf(plan, events, windows, seconds), window) <==>
      window in windows && RowOf(plan, events, window, seconds) != []
  {
    hide Bucket, Before, RowsOfBucket;
    if windows != [] {
      var shorter, last := windows[..|windows| - 1], windows[|windows| - 1];
      RowsAreOfWindows(plan, events, shorter, seconds);
      var before, more := RowsOf(plan, events, shorter, seconds), RowOf(plan, events, last, seconds);
      BucketRow(Bucket(plan, events, last), last, seconds);
      var rows := before + more;
      forall i | 0 <= i < |before| ensures Before(before[i].window, last) {
        assert HasRow(before, before[i].window);
      }
      forall window ensures HasRow(rows, window) <==> window in windows && RowOf(plan, events, window, seconds) != [] {
        assert window in windows <==> window in shorter || window == last;
        HasRowAppended(before, more, window);
      }
    }
  }

  lemma {:induction false} BucketRow(bucket: seq<Event>, window: Window, seconds: int)
    requires seconds > 0
    ensures var rows := RowsOfBucket(bucket, window, seconds);
      rows != [] ==> |rows| == 1 && rows[0].window == window
  {
    hide RequestFeaturesOf, Mean;
  }

  lemma {:induction false} HasRowAppended(rows: seq<Row>, more: seq<Row>, window: Window)
    requires |more| <= 1
    ensures HasRow(rows + more, window) <==> HasRow(rows, window) || (more != [] && more[0].window == window)
  {
    var all := rows + more;
    if HasRow(rows, window) {
      var i :| 0 <= i < |rows| && rows[i].window == window;
      assert all[i].window == window;
    } else if more != [] && more[0].window == window {
      assert all[|rows|].window == window;
    }
  }

  lemma {:induction false} InKind(events: seq<Event>, kind: Kind, event: Event)
    ensures multiset(OfKind(events, kind))[event] == if event.kind == kind then multiset(events)[event] else 0
  {
    if events != [] {
      InKind(Init(events), kind, event);
      assert multiset(events) == multiset(Init(events)) + multiset{Last(events)};
    }
  }

  ghost predicate HoldsRequest(plan: Plan, events: seq<Event>, window: Window)
    requires plan.width > 0
  {
    exists event :: event in events && event.kind == Request && Falls(plan, event, window)
  }

  /** The rows are those of the windows in which a retained request falls, one each, in order of run and time. */
  lemma {:induction false} RowsExact(events: seq<Event>, seconds: int, warmup: int)
    requires seconds > 0
    ensures IncreasingRows(Aggregate(events, seconds, warmup))
    ensures RowsOfTheirWindows(Aggregate(events, seconds, warmup), PlanFor(events, seconds, warmup), events, seconds)
    ensures forall window :: HasRow(Aggregate(events, seconds, warmup), window) <==>
      HoldsRequest(PlanFor(events, seconds, warmup), events, window)
  {
    hide Bucket, Windows, Before, FirstRequests, RowsOfBucket, Falls, RowsOf;
    var plan := PlanFor(events, seconds, warmup);
    var windows := SortedWindows(Windows(plan, events));
    RowsAreOfWindows(plan, events, windows, seconds);
    forall window ensures HasRow(RowsOf(plan, events, windows, seconds), window) <==> HoldsRequest(plan, events, window) {
      RowIffRequest(plan, events, window, seconds);
      WindowHolds(plan, events, window);
    }
  }

  lemma {:induction false} RowIffRequest(plan: Plan, events: seq<Event>, window: Window, seconds: int)
    requires plan.width > 0 && seconds > 0
    ensures RowOf(plan, events, window, seconds) != [] <==> HoldsRequest(plan, events, window)
  {
    hide Bucket, Falls, OfKind, RequestFeaturesOf;
    var bucket := Bucket(plan, events, window);
    var requests := OfKind(bucket, Request);
    if requests != [] {
      var event := requests[0];
      assert event in multiset(requests);
      InKind(bucket, Request, event);
      InBucket(plan, events, window, event);
      assert event in multiset(events);
    } else if event :| event in events && event.kind == Request && Falls(plan, event, window) {
      InBucket(plan, events, window, event);
      InKind(bucket, Request, event);
    }
  }

  // ----- conservation

  /** The requests a run's rows stand for: rate times width, summed. */
  function RequestsInRows(rows: seq<Row>, run: string, seconds: int): real {
    if rows == [] then 0.0 else
      var last := rows[|rows| - 1];
      RequestsInRows(rows[..|rows| - 1], run, seconds) +
      if last.window.run == run then last.features.requestRate * seconds as real else 0.0
  }

  /** A run's requests from a time on. */
  function RequestsSince(events: seq<Event>, run: string, from: int): nat {
    if events == [] then 0 else
      var last := Last(events);
      RequestsSince(Init(events), run, from) +
      if last.kind == Request && last.run == run && last.at >= from then 1 else 0
  }

  function RequestsInWindows(plan: Plan, events: seq<Event>, windows: seq<Window>, run: string): nat
    requires plan.width > 0
  {
    if windows == [] then 0 else
      var last := windows[|windows| - 1];
      RequestsInWindows(plan, events, windows[..|windows| - 1], run) +
      if last.run == run then |OfKind(Bucket(plan, events, last), Request)| else 0
  }

  lemma {:induction false} RateTimesWidth(count: nat, seconds: int)
    requires seconds > 0
    ensures Divided(count as real, seconds) * seconds as real == count as real
  {
  }

  lemma {:induction false} RateOfRow(plan: Plan, events: seq<Event>, window: Window, seconds: int)
    requires plan.width > 0 && seconds > 0
    ensures var rows, count := RowOf(plan, events, window, seconds), |OfKind(Bucket(plan, events, window), Request)|;
      if count == 0 then rows == []
      else |rows| == 1 && rows[0].window == window && rows[0].features.requestRate == Divided(count as real, seconds)
  {
    hide Bucket, OfKind, Divided, SortedByTime, Mean, Share, Reuse, CvSquared;
  }

  lemma {:induction false} RowsStandForRequests(
    plan: Plan, events: seq<Event>, windows: seq<Window>, run: string, seconds: int)
    requires plan.width > 0 && seconds > 0
    ensures RequestsInRows(RowsOf(plan, events, windows, seconds), run, seconds)
            == RequestsInWindows(plan, events, windows, run) as real
  {
    hide Bucket, OfKind, Divided, RowsOfBucket;
    if windows != [] {
      var shorter, last := windows[..|windows| - 1], windows[|windows| - 1];
      RowsStandForRequests(plan, events, shorter, run, seconds);
      RateOfRow(plan, events, last, seconds);
      RateTimesWidth(|OfKind(Bucket(plan, events, last), Request)|, seconds);
      OneMoreRow(RowsOf(plan, events, shorter, seconds), RowOf(plan, events, last, seconds), run, seconds);
    }
  }

  lemma {:induction false} OneMoreRow(rows: seq<Row>, more: seq<Row>, run: string, seconds: int)
    requires |more| <= 1
    ensures RequestsInRows(rows + more, run, seconds) == RequestsInRows(rows, run, seconds) +
      if more != [] && more[0].window.run == run then more[0].features.requestRate * seconds as real else 0.0
  {
    if more == [] {
      assert rows + more == rows;
    } else {
      assert (rows + more)[..|rows|] == rows;
    }
  }

  /** One more event adds to the windows the request it is, once. */
  lemma {:induction false} OneMoreEvent(plan: Plan, events: seq<Event>, windows: seq<Window>, run: string)
    requires plan.width > 0 && events != [] && InOrder(windows)
    ensures var last := Last(events);
      RequestsInWindows(plan, events, windows, run) == RequestsInWindows(plan, Init(events), windows, run) +
      if last.kind == Request && last.run == run && Retained(plan, last) && WindowOf(plan, last) in windows then 1 else 0
  {
    hide Retained;
    if windows != [] {
      var shorter, window := windows[..|windows| - 1], windows[|windows| - 1];
      OneMoreEvent(plan, events, shorter, run);
      OneMoreInBucket(plan, events, window);
      var home := WindowOf(plan, Last(events));
      assert home in windows <==> home in shorter || home == window;
      BeforeTotal(window, window);
      hide Bucket, OfKind, WindowOf, Before;
    }
  }

  lemma {:induction false} OneMoreInBucket(plan: Plan, events: seq<Event>, window: Window)
    requires plan.width > 0 && events != []
    ensures |OfKind(Bucket(plan, events, window), Request)| == |OfKind(Bucket(plan, Init(events), window), Request)| +
      if Last(events).kind == Request && Falls(plan, Last(events), window) then 1 else 0
  {
    hide Falls;
    var bucket, before := Bucket(plan, events, window), Bucket(plan, Init(events), window);
    if Falls(plan, Last(events), window) {
      assert bucket[..|bucket| - 1] == before;
    } else {
      assert bucket == before;
    }
  }

  lemma {:induction false} NoEventsNoRequests(plan: Plan, windows: seq<Window>, run: string)
    requires plan.width > 0
    ensures RequestsInWindows(plan, [], windows, run) == 0
  {
    if windows != [] {
      NoEventsNoRequests(plan, windows[..|windows| - 1], run);
    }
  }

  lemma {:induction false} WindowsCount(plan: Plan, events: seq<Event>, windows: seq<Window>, run: string)
    requires plan.width > 0 && InOrder(windows) && run in plan.first
    requires forall window | window in Windows(plan, events) :: window in windows
    ensures RequestsInWindows(plan, events, windows, run) == RequestsSince(events, run, plan.first[run] + plan.warmup)
  {
    hide WindowOf, RequestsInWindows;
    if events == [] {
      NoEventsNoRequests(plan, windows, run);
    } else {
      WindowsCount(plan, Init(events), windows, run);
      OneMoreEvent(plan, events, windows, run);
    }
  }

  /** The rows of a run account for exactly its requests at or after its first request plus the warm-up. */
  lemma {:induction false} RequestsAreConserved(events: seq<Event>, seconds: int, warmup: int, run: string)
    requires seconds > 0 && run in FirstRequests(events)
    ensures RequestsInRows(Aggregate(events, seconds, warmup), run, seconds)
            == RequestsSince(events, run, FirstRequests(events)[run] + warmup * SECOND) as real
  {
    hide FirstRequests, Windows, RowsOf, RequestsInRows, RequestsInWindows, RequestsSince, SortedWindows, Before;
    var plan := PlanFor(events, seconds, warmup);
    var windows := SortedWindows(Windows(plan, events));
    SortedCovers(Windows(plan, events));
    RowsStandForRequests(plan, events, windows, run, seconds);
    WindowsCount(plan, events, windows, run);
  }

  // ----- the order of the input

  /** No two requests of a run carry the same time. */
  ghost predicate NoTies(events: seq<Event>) {
    forall i, j | 0 <= i < j < |events| && events[i].kind == events[j].kind == Request && events[i].run == events[j].run ::
      events[i].at != events[j].at
  }

  lemma {:induction false} TiesAreTheSame(events: seq<Event>, e: Event, f: Event)
    requires NoTies(events) && e in events && f in events
    requires e.kind == f.kind == Request && e.run == f.run && e.at == f.at
    ensures e == f && multiset(events)[e] == 1
  {
    var init, last := Init(events), Last(events);
    assert multiset(events) == multiset(init) + multiset{last};
    assert e == last || e in init;
    assert f == last || f in init;
    if last.kind == Request && last.run == e.run && last.at == e.at {
      assert e !in init && f !in init by {
        assert events == init + [last];
      }
      assert e !in multiset(init);
    } else {
      TiesAreTheSame(init, e, f);
    }
  }

  ghost predicate DistinctTimes(events: seq<Event>) {
    forall i, j | 0 <= i < j < |events| :: events[i].at != events[j].at
  }

  lemma {:induction false} TwiceInSequence(events: seq<Event>, i: nat, j: nat)
    requires i < j < |events| && events[i] == events[j]
    ensures multiset(events)[events[i]] >= 2
  {
    var front, back := events[..j], events[j..];
    assert events == front + back;
    assert front[i] in multiset(front) && back[0] in multiset(back);
  }

  lemma {:induction false} WithoutOne(events: seq<Event>, k: nat)
    requires k < |events|
    ensures multiset(events[..k] + events[k + 1..]) == multiset(events) - multiset{events[k]}
  {
    assert events == events[..k] + [events[k]] + events[k + 1..];
  }

  lemma {:induction false} WithoutFirst(events: seq<Event>)
    requires events != []
    ensures multiset(events[1..]) == multiset(events) - multiset{events[0]}
  {
    assert events == [events[0]] + events[1..];
  }

  lemma {:induction false} SameEarliest(a: seq<Event>, b: seq<Event>)
    requires InTimeOrder(a) && InTimeOrder(b) && DistinctTimes(a) && multiset(a) == multiset(b) && a != [] && b != []
    ensures a[0] == b[0]
  {
    assert a[0] in multiset(b) && b[0] in multiset(a);
    var i :| 0 <= i < |a| && a[i] == b[0];
    var j :| 0 <= j < |b| && b[j] == a[0];
    assert a[0].at <= a[i].at && b[0].at <= b[j].at;
  }

  lemma {:induction false} SameOrdered(a: seq<Event>, b: seq<Event>)
    requires InTimeOrder(a) && InTimeOrder(b) && DistinctTimes(a) && multiset(a) == multiset(b)
    ensures a == b
  {
    assert |a| == |multiset(a)| == |multiset(b)| == |b|;
    if a != [] {
      SameEarliest(a, b);
      WithoutFirst(a);
      WithoutFirst(b);
      SameOrdered(a[1..], b[1..]);
      assert a == [a[0]] + a[1..] && b == [b[0]] + b[1..];
    }
  }

  /** The requests of a window in order of time: no two of them tie. */
  lemma {:induction false} BucketHasNoTies(plan: Plan, events: seq<Event>, window: Window)
    requires plan.width > 0 && NoTies(events)
    ensures DistinctTimes(SortedByTime(OfKind(Bucket(plan, events, window), Request)))
  {
    hide Bucket, OfKind, SortedByTime, NoTies;
    var bucket := Bucket(plan, events, window);
    var requests := OfKind(bucket, Request);
    var sorted := SortedByTime(requests);
    SortedByTimeIsSorted(requests);
    forall i, j | 0 <= i < j < |sorted| ensures sorted[i].at != sorted[j].at {
      var e, f := sorted[i], sorted[j];
      assert e in multiset(sorted) && f in multiset(sorted);
      FromEvents(plan, events, window, e);
      FromEvents(plan, events, window, f);
      if e.at == f.at {
        TiesAreTheSame(events, e, f);
        TwiceInSequence(sorted, i, j);
      }
    }
  }

  lemma {:induction false} FromEvents(plan: Plan, events: seq<Event>, window: Window, event: Event)
    requires plan.width > 0 && event in multiset(OfKind(Bucket(plan, events, window), Request))
    ensures event in events && event.kind == Request && event.run == window.run
    ensures multiset(OfKind(Bucket(plan, events, window), Request))[event] == multiset(events)[event]
  {
    InKind(Bucket(plan, events, window), Request, event);
    InBucket(plan, events, window, event);
    assert event in multiset(events);
  }

  lemma {:induction false} SameKind(a: seq<Event>, b: seq<Event>, kind: Kind)
    requires multiset(a) == multiset(b)
    ensures multiset(OfKind(a, kind)) == multiset(OfKind(b, kind))
  {
    hide OfKind;
    forall event ensures multiset(OfKind(a, kind))[event] == multiset(OfKind(b, kind))[event] {
      InKind(a, kind, event);
      InKind(b, kind, event);
    }
  }

  lemma {:induction false} SameBucket(plan: Plan, a: seq<Event>, b: seq<Event>, window: Window)
    requires plan.width > 0 && multiset(a) == multiset(b)
    ensures multiset(Bucket(plan, a, window)) == multiset(Bucket(plan, b, window))
  {
    hide Bucket;
    forall event ensures multiset(Bucket(plan, a, window))[event] == multiset(Bucket(plan, b, window))[event] {
      InBucket(plan, a, window, event);
      InBucket(plan, b, window, event);
    }
  }

  lemma {:induction false} SumStep(field: Event -> real, events: seq<Event>)
    requires events != []
    ensures Sum(Each(field, events)) == field(events[0]) + Sum(Each(field, events[1..]))
  {
    assert Each(field, events)[1..] == Each(field, events[1..]);
  }

  lemma {:induction false} SumOfEach(field: Event -> real, events: seq<Event>, k: nat)
    requires k < |events|
    ensures Sum(Each(field, events)) == field(events[k]) + Sum(Each(field, events[..k] + events[k + 1..]))
  {
    hide Sum, Each;
    var rest := events[..k] + events[k + 1..];
    SumStep(field, events);
    if k == 0 {
      assert rest == events[1..];
    } else {
      SumOfEach(field, events[1..], k - 1);
      SumStep(field, rest);
      assert rest[1..] == events[1..][..k - 1] + events[1..][k..];
    }
  }

  lemma {:induction false} SameSum(field: Event -> real, a: seq<Event>, b: seq<Event>)
    requires multiset(a) == multiset(b)
    ensures |a| == |b| && Sum(Each(field, a)) == Sum(Each(field, b))
  {
    hide Sum, Each;
    assert |a| == |multiset(a)| == |multiset(b)| == |b|;
    if a == [] {
      assert a == b;
    } else {
      assert a[0] in multiset(b);
      var k :| 0 <= k < |b| && b[k] == a[0];
      WithoutFirst(a);
      WithoutOne(b, k);
      SumStep(field, a);
      SumOfEach(field, b, k);
      SameSum(field, a[1..], b[..k] + b[k + 1..]);
    }
  }

  lemma {:induction false} SameRow(plan: Plan, a: seq<Event>, b: seq<Event>, window: Window, seconds: int)
    requires plan.width > 0 && seconds > 0 && multiset(a) == multiset(b) && NoTies(a)
    ensures RowOf(plan, a, window, seconds) == RowOf(plan, b, window, seconds)
  {
    hide Bucket, OfKind, SortedByTime, RequestFeaturesOf, Sum, NoTies;
    var inA, inB := Bucket(plan, a, window), Bucket(plan, b, window);
    SameBucket(plan, a, b, window);
    SameKind(inA, inB, Request);
    SameKind(inA, inB, Resource);
    var requestsA, requestsB := OfKind(inA, Request), OfKind(inB, Request);
    SortedByTimeIsSorted(requestsA);
    SortedByTimeIsSorted(requestsB);
    BucketHasNoTies(plan, a, window);
    SameOrdered(SortedByTime(requestsA), SortedByTime(requestsB));
    SameSum(Cpu, OfKind(inA, Resource), OfKind(inB, Resource));
    SameSum(Rss, OfKind(inA, Resource), OfKind(inB, Resource));
  }

  lemma {:induction false} SameRows(plan: Plan, a: seq<Event>, b: seq<Event>, windows: seq<Window>, seconds: int)
    requires plan.width > 0 && seconds > 0 && multiset(a) == multiset(b) && NoTies(a)
    ensures RowsOf(plan, a, windows, seconds) == RowsOf(plan, b, windows, seconds)
  {
    hide Bucket, RowsOfBucket, NoTies;
    if windows != [] {
      SameRows(plan, a, b, windows[..|windows| - 1], seconds);
      SameRow(plan, a, b, windows[|windows| - 1], seconds);
    }
  }

  /** When no two requests of a run tie, any reordering of the input gives the same rows. */
  lemma {:induction false} OrderDoesNotMatter(a: seq<Event>, b: seq<Event>, seconds: int, warmup: int)
    requires seconds > 0 && multiset(a) == multiset(b) && NoTies(a)
    ensures Aggregate(a, seconds, warmup) == Aggregate(b, seconds, warmup)
  {
    hide FirstRequests, Windows, RowsOf, NoTies, Falls;
    SameFirstRequests(a, b);
    var plan := PlanFor(a, seconds, warmup);
    assert forall event :: event in a <==> event in multiset(a);
    assert forall event :: event in b <==> event in multiset(b);
    forall window ensures window in Windows(plan, a) <==> window in Windows(plan, b) {
      WindowHolds(plan, a, window);
      WindowHolds(plan, b, window);
    }
    assert Windows(plan, a) == Windows(plan, b);
    SameRows(plan, a, b, SortedWindows(Windows(plan, a)), seconds);
  }
}
