/** Grouping telemetry into fixed windows, run by run (cote3mon/features.py). */
module Aggregation {
  import opened Wrappers
  import opened Telemetry
  import opened Features

  const SECOND := 1000000000

  function Last(events: seq<Event>): Event
    requires events != []
  {
    events[|events| - 1]
  }

  function Init(events: seq<Event>): (init: seq<Event>)
    requires events != []
    ensures |init| == |events| - 1 && events == init + [Last(events)]
  {
    events[..|events| - 1]
  }

  /** The time of each run's earliest request. */
  function FirstRequests(events: seq<Event>): map<string, int> {
    if events == [] then map[] else NextFirst(FirstRequests(Init(events)), Last(events))
  }

  function NextFirst(first: map<string, int>, event: Event): map<string, int> {
    if event.kind != Request then first
    else if event.run in first && first[event.run] <= event.at then first
    else first[event.run := event.at]
  }

  /** How events are retained and grouped: times are in nanoseconds. */
  datatype Plan = Plan(first: map<string, int>, warmup: int, width: int)

  predicate Retained(plan: Plan, event: Event) {
    !(event.run in plan.first && event.at < plan.first[event.run] + plan.warmup)
  }

  function WindowOf(plan: Plan, event: Event): Window
    requires plan.width > 0
  {
    Window(event.run, event.at - event.at % plan.width)
  }

  predicate Falls(plan: Plan, event: Event, window: Window)
    requires plan.width > 0
  {
    Retained(plan, event) && WindowOf(plan, event) == window
  }

  /** The windows of the retained events. */
  function Windows(plan: Plan, events: seq<Event>): (windows: set<Window>)
    requires plan.width > 0
  {
    if events == [] then {} else
      var last := Last(events);
      Windows(plan, Init(events)) + if Retained(plan, last) then {WindowOf(plan, last)} else {}
  }

  /** The retained events of one window, in the order given. */
  function Bucket(plan: Plan, events: seq<Event>, window: Window): (bucket: seq<Event>)
    requires plan.width > 0
  {
    if events == [] then [] else
      var last := Last(events);
      Bucket(plan, Init(events), window) + if Falls(plan, last, window) then [last] else []
  }

  function RowsOf(plan: Plan, events: seq<Event>, windows: seq<Window>, seconds: int): seq<Row>
    requires plan.width > 0 && seconds > 0
  {
    if windows == [] then [] else
      var last := windows[|windows| - 1];
      RowsOf(plan, events, windows[..|windows| - 1], seconds) +
      RowsOfBucket(Bucket(plan, events, last), last, seconds)
  }

  function PlanFor(events: seq<Event>, seconds: int, warmup: int): Plan {
    Plan(FirstRequests(events), warmup * SECOND, seconds * SECOND)
  }

  function Aggregate(events: seq<Event>, seconds: int, warmup: int): seq<Row>
    requires seconds > 0
  {
    var plan := PlanFor(events, seconds, warmup);
    RowsOf(plan, events, SortedWindows(Windows(plan, events)), seconds)
  }

  // ----- the loops

  ghost predicate BucketsOf(buckets: map<Window, seq<Event>>, plan: Plan, events: seq<Event>)
    requires plan.width > 0
  {
    && buckets.Keys == Windows(plan, events)
    && forall window | window in buckets :: buckets[window] == Bucket(plan, events, window)
  }

  function AddTo(buckets: map<Window, seq<Event>>, window: Window, event: Event): map<Window, seq<Event>> {
    buckets[window := (if window in buckets then buckets[window] else []) + [event]]
  }

  lemma {:induction false} NoBucket(plan: Plan, events: seq<Event>, window: Window)
    requires plan.width > 0 && window !in Windows(plan, events)
    ensures Bucket(plan, events, window) == []
  {
    if events != [] {
      NoBucket(plan, Init(events), window);
    }
  }

  lemma {:induction false} BucketsGrow(buckets: map<Window, seq<Event>>, plan: Plan, events: seq<Event>, event: Event)
    requires plan.width > 0 && BucketsOf(buckets, plan, events)
    ensures BucketsOf(if Retained(plan, event) then AddTo(buckets, WindowOf(plan, event), event) else buckets,
                      plan, events + [event])
  {
    hide Retained, WindowOf;
    assert Init(events + [event]) == events;
    if Retained(plan, event) && WindowOf(plan, event) !in buckets {
      NoBucket(plan, events, WindowOf(plan, event));
    }
  }

  method AggregateEvents(events: seq<Event>, seconds: int, warmup: int) returns (aggregated: Attempt<seq<Row>>)
    ensures aggregated == if seconds <= 0 || warmup < 0 then Raised else Returned(Aggregate(events, seconds, warmup))
  {
    hide FirstRequests, Windows, Bucket, RowsOfBucket, SortedWindows;
    if seconds <= 0 {
      return Raised;
    }
    if warmup < 0 {
      return Raised;
    }
    NothingGrouped();
    var first: map<string, int> := map[];
    for i := 0 to |events|
      invariant first == FirstRequests(events[..i])
    {
      NextPrefix(events, i);
      var event := events[i];
      if event.kind == Request {
        var earliest := if event.run in first && first[event.run] <= event.at then first[event.run] else event.at;
        assert first[event.run := earliest] == NextFirst(first, event);
        first := first[event.run := earliest];
      }
    }
    assert events[..|events|] == events;
    var plan := Plan(first, warmup * SECOND, seconds * SECOND);
    var buckets: map<Window, seq<Event>> := map[];
    EmptyBuckets(plan);
    for i := 0 to |events|
      invariant BucketsOf(buckets, plan, events[..i])
    {
      NextPrefix(events, i);
      BucketsGrow(buckets, plan, events[..i], events[i]);
      if Retained(plan, events[i]) {
        buckets := AddTo(buckets, WindowOf(plan, events[i]), events[i]);
      }
    }
    var windows := SortedWindows(buckets.Keys);
    SortedCovers(buckets.Keys);
    var rows: seq<Row> := [];
    for i := 0 to |windows|
      invariant rows == RowsOf(plan, events, windows[..i], seconds)
    {
      assert windows[i] in buckets.Keys;
      assert windows[..i + 1][..i] == windows[..i];
      rows := rows + RowsOfBucket(buckets[windows[i]], windows[i], seconds);
    }
    assert windows[..|windows|] == windows;
    aggregated := Returned(rows);
  }

  lemma {:induction false} NextPrefix(events: seq<Event>, i: nat)
    requires i < |events|
    ensures events[..i + 1] == events[..i] + [events[i]]
    ensures FirstRequests(events[..i + 1]) == NextFirst(FirstRequests(events[..i]), events[i])
  {
    assert Init(events[..i + 1]) == events[..i];
  }

  lemma {:induction false} NothingGrouped()
    ensures FirstRequests([]) == map[]
  {
  }

  lemma {:induction false} EmptyBuckets(plan: Plan)
    requires plan.width > 0
    ensures BucketsOf(map[], plan, [])
  {
  }

  lemma {:induction false} SortedCovers(windows: set<Window>)
    ensures forall window :: window in SortedWindows(windows) <==> window in windows
    ensures InOrder(SortedWindows(windows))
  {
  }
}
