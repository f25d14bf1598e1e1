/** When the streaming monitor scores the windows that batch aggregation would have given it. */
module StreamingLaws {
  import opened Wrappers
  import opened Telemetry
  import opened Features
  import opened Aggregation
  import opened OnlineMonitor

  /** The part of a row that comes from requests; the two resource means are left aside. */
  datatype Part = Part(window: Window, features: RequestFeatures)

  function Parts(rows: seq<Row>): (parts: seq<Part>)
    ensures |parts| == |rows|
    ensures forall i | 0 <= i < |rows| :: parts[i] == Part(rows[i].window, rows[i].features)
  {
    seq(|rows|, i requires 0 <= i < |rows| => Part(rows[i].window, rows[i].features))
  }

  function PartsAt(parts: seq<Part>, start: int): seq<Part> {
    if parts == [] then [] else
      var last := parts[|parts| - 1];
      PartsAt(parts[..|parts| - 1], start) + if last.window.start == start then [last] else []
  }

  ghost predicate IncreasingParts(parts: seq<Part>) {
    forall i, j | 0 <= i < j < |parts| :: parts[i].window.start < parts[j].window.start
  }

  lemma {:induction false} PartsAtMore(parts: seq<Part>, more: seq<Part>, start: int)
    requires |more| <= 1
    ensures PartsAt(parts + more, start)
            == PartsAt(parts, start) + if more != [] && more[0].window.start == start then more else []
  {
    if more == [] {
      assert parts + more == parts;
    } else {
      assert (parts + more)[..|parts|] == parts;
    }
  }

  lemma {:induction false} PartsAtHolds(parts: seq<Part>, i: nat)
    requires i < |parts|
    ensures PartsAt(parts, parts[i].window.start) != []
  {
    if i < |parts| - 1 {
      PartsAtHolds(parts[..|parts| - 1], i);
    }
  }

  lemma {:induction false} NoPartsAt(parts: seq<Part>, start: int)
    requires forall i | 0 <= i < |parts| :: parts[i].window.start != start
    ensures PartsAt(parts, start) == []
  {
    if parts != [] {
      NoPartsAt(parts[..|parts| - 1], start);
    }
  }

  ghost predicate AgreeAt(a: seq<Part>, b: seq<Part>, start: int) {
    PartsAt(a, start) == PartsAt(b, start)
  }

  lemma {:induction false} LastAlone(parts: seq<Part>)
    requires IncreasingParts(parts) && parts != []
    ensures PartsAt(parts, parts[|parts| - 1].window.start) == [parts[|parts| - 1]]
  {
    NoPartsAt(parts[..|parts| - 1], parts[|parts| - 1].window.start);
  }

  lemma {:induction false} LastPart(a: seq<Part>, b: seq<Part>)
    requires IncreasingParts(a) && IncreasingParts(b) && a != [] && b != []
    requires AgreeAt(a, b, a[|a| - 1].window.start) && AgreeAt(a, b, b[|b| - 1].window.start)
    ensures a[|a| - 1] == b[|b| - 1]
  {
    var x, y := a[|a| - 1], b[|b| - 1];
    LastAlone(a);
    LastAlone(b);
    if x.window.start < y.window.start {
      NoPartsAt(a, y.window.start);
    } else if y.window.start < x.window.start {
      NoPartsAt(b, x.window.start);
    }
  }

  lemma {:induction false} WithoutTail(a: seq<Part>, b: seq<Part>, tail: seq<Part>)
    requires a + tail == b + tail
    ensures a == b
  {
    assert |a| == |b|;
    assert a == (a + tail)[..|a|] && b == (b + tail)[..|b|];
  }

  lemma {:induction false} BothOrNeither(a: seq<Part>, b: seq<Part>)
    requires forall start :: AgreeAt(a, b, start)
    ensures a == [] <==> b == []
  {
    if a != [] {
      PartsAtHolds(a, 0);
    }
    if b != [] {
      PartsAtHolds(b, 0);
    }
    assert a != [] ==> AgreeAt(a, b, a[0].window.start);
    assert b != [] ==> AgreeAt(a, b, b[0].window.start);
  }

  /** Increasing lists that agree at every start are the same list. */
  lemma {:induction false} PartsAreUnique(a: seq<Part>, b: seq<Part>)
    requires IncreasingParts(a) && IncreasingParts(b)
    requires forall start :: AgreeAt(a, b, start)
    ensures a == b
  {
    BothOrNeither(a, b);
    if a != [] {
      LastPart(a, b);
      var shorterA, shorterB := a[..|a| - 1], b[..|b| - 1];
      forall start ensures AgreeAt(shorterA, shorterB, start) {
        assert AgreeAt(a, b, start);
        var tail := if a[|a| - 1].window.start == start then [a[|a| - 1]] else [];
        assert PartsAt(a, start) == PartsAt(shorterA, start) + tail;
        assert PartsAt(b, start) == PartsAt(shorterB, start) + tail;
        WithoutTail(PartsAt(shorterA, start), PartsAt(shorterB, start), tail);
      }
      PartsAreUnique(shorterA, shorterB);
      assert a == shorterA + [a[|a| - 1]] && b == shorterB + [b[|b| - 1]];
    }
  }

  // ----- the requests of a window

  ghost predicate OneRun(events: seq<Event>, run: string) {
    forall i | 0 <= i < |events| :: events[i].run == run
  }

  function At(settings: Settings, requests: seq<Event>, from: int, start: int): seq<Event>
    requires settings.Valid()
  {
    if requests == [] then [] else
      var last := Last(requests);
      At(settings, Init(requests), from, start) +
      if last.at >= from && settings.StartOf(last.at) == start then [last] else []
  }

  function FirstOf(events: seq<Event>): Option<int> {
    var requests := OfKind(events, Request);
    if requests == [] then None else Some(requests[0].at)
  }

  /** The retained requests of a window, in the order given. */
  function RequestsAt(settings: Settings, events: seq<Event>, start: int): seq<Event>
    requires settings.Valid()
  {
    var requests := OfKind(events, Request);
    if requests == [] then [] else At(settings, requests, requests[0].at + settings.warmup * SECOND, start)
  }

  /** The part of the row that these requests make. */
  function Expected(settings: Settings, run: string, requests: seq<Event>, start: int): seq<Part>
    requires settings.Valid()
  {
    if requests == [] then []
    else [Part(Window(run, start), RequestFeaturesOf(SortedByTime(requests), settings.seconds))]
  }

  lemma {:induction false} RequestsGrow(settings: Settings, events: seq<Event>, event: Event, start: int)
    requires settings.Valid()
    ensures FirstOf(events + [event]) == FirstAfter(FirstOf(events), event)
    ensures RequestsAt(settings, events + [event], start) == RequestsAt(settings, events, start) +
      if event.kind == Request && Kept(settings, FirstOf(events + [event]), event) && settings.StartOf(event.at) == start
      then [event] else []
  {
    var all, requests := events + [event], OfKind(events, Request);
    assert Init(all) == events;
    if event.kind == Request {
      assert OfKind(all, Request) == requests + [event];
      assert Init(requests + [event]) == requests;
      if requests == [] {
        assert At(settings, [], event.at + settings.warmup * SECOND, start) == [];
      }
    } else {
      assert OfKind(all, Request) == requests;
    }
  }

  lemma {:induction false} AtHolds(settings: Settings, requests: seq<Event>, from: int, start: int)
    requires settings.Valid() && At(settings, requests, from, start) != []
    ensures exists i :: 0 <= i < |requests| && settings.StartOf(requests[i].at) == start
  {
    if !(Last(requests).at >= from && settings.StartOf(Last(requests).at) == start) {
      AtHolds(settings, Init(requests), from, start);
      var i :| 0 <= i < |Init(requests)| && settings.StartOf(Init(requests)[i].at) == start;
      assert settings.StartOf(requests[i].at) == start;
    }
  }

  // ----- the row a bucket gives

  lemma {:induction false} BucketGrows(plan: Plan, events: seq<Event>, window: Window)
    requires plan.width > 0 && events != []
    ensures OfKind(Bucket(plan, events, window), Request) == OfKind(Bucket(plan, Init(events), window), Request) +
      if Last(events).kind == Request && Falls(plan, Last(events), window) then [Last(events)] else []
  {
    hide Falls;
    var bucket, before := Bucket(plan, events, window), Bucket(plan, Init(events), window);
    if Falls(plan, Last(events), window) {
      assert Init(bucket) == before;
    } else {
      assert bucket == before;
    }
  }

  lemma {:induction false} AtGrows(settings: Settings, events: seq<Event>, from: int, start: int)
    requires settings.Valid() && events != []
    ensures var last := Last(events);
      At(settings, OfKind(events, Request), from, start) == At(settings, OfKind(Init(events), Request), from, start) +
      if last.kind == Request && last.at >= from && settings.StartOf(last.at) == start then [last] else []
  {
    var requests, before := OfKind(events, Request), OfKind(Init(events), Request);
    if Last(events).kind == Request {
      assert Init(requests) == before;
    } else {
      assert requests == before;
    }
  }

  lemma {:induction false} KeptRequests(
    settings: Settings, plan: Plan, events: seq<Event>, run: string, from: int, start: int)
    requires settings.Valid() && plan.width == settings.seconds * SECOND && OneRun(events, run)
    requires forall i | 0 <= i < |events| && events[i].kind == Request :: Retained(plan, events[i]) <==> events[i].at >= from
    ensures OfKind(Bucket(plan, events, Window(run, start)), Request) == At(settings, OfKind(events, Request), from, start)
  {
    hide Retained, OfKind, At, Bucket;
    if events == [] {
      NothingKept(settings, plan, Window(run, start), from);
    } else {
      KeptRequests(settings, plan, Init(events), run, from, start);
      BucketGrows(plan, events, Window(run, start));
      AtGrows(settings, events, from, start);
      assert events[|events| - 1] == Last(events);
    }
  }

  lemma {:induction false} NothingKept(settings: Settings, plan: Plan, window: Window, from: int)
    requires settings.Valid() && plan.width > 0
    ensures OfKind(Bucket(plan, [], window), Request) == At(settings, OfKind([], Request), from, window.start)
  {
  }

  lemma {:induction false} WindowsOfOneRun(plan: Plan, events: seq<Event>, run: string)
    requires plan.width > 0 && OneRun(events, run)
    ensures forall window | window in Windows(plan, events) :: window.run == run
  {
    if events != [] {
      WindowsOfOneRun(plan, Init(events), run);
    }
  }

  lemma {:induction false} PartOfBucket(settings: Settings, run: string, bucket: seq<Event>, start: int)
    requires settings.Valid()
    ensures Parts(RowsOfBucket(bucket, Window(run, start), settings.seconds))
            == Expected(settings, run, OfKind(bucket, Request), start)
    ensures |RowsOfBucket(bucket, Window(run, start), settings.seconds)| <= 1
  {
    hide RequestFeaturesOf, Mean, OfKind;
  }

  /** The parts of some windows, each made of the requests in its bucket. */
  ghost predicate PartsOf(
    settings: Settings, plan: Plan, events: seq<Event>, windows: seq<Window>, run: string, parts: seq<Part>, start: int)
    requires settings.Valid() && plan.width > 0
  {
    PartsAt(parts, start) ==
      if Window(run, start) in windows
      then Expected(settings, run, OfKind(Bucket(plan, events, Window(run, start)), Request), start) else []
  }

  lemma {:induction false} PartsOfRows(
    settings: Settings, plan: Plan, events: seq<Event>, windows: seq<Window>, run: string)
    requires settings.Valid() && plan.width > 0 && InOrder(windows)
    requires forall window | window in windows :: window.run == run
    ensures var parts := Parts(RowsOf(plan, events, windows, settings.seconds));
      && IncreasingParts(parts)
      && (forall i | 0 <= i < |parts| :: parts[i].window in windows)
      && forall start :: PartsOf(settings, plan, events, windows, run, parts, start)
  {
    hide Bucket, OfKind, RowsOfBucket, Expected, PartsAt;
    if windows != [] {
      var before, window := windows[..|windows| - 1], windows[|windows| - 1];
      PartsOfRows(settings, plan, events, before, run);
      var rows := RowsOf(plan, events, before, settings.seconds);
      var bucket := Bucket(plan, events, window);
      var more := RowsOfBucket(bucket, window, settings.seconds);
      assert Parts(rows + more) == Parts(rows) + Parts(more);
      assert window == Window(run, window.start);
      PartOfBucket(settings, run, bucket, window.start);
      ExpectedStart(settings, run, OfKind(bucket, Request), window.start);
      BeforeTotal(window, window);
      forall start ensures PartsOf(settings, plan, events, windows, run, Parts(rows) + Parts(more), start) {
        assert PartsOf(settings, plan, events, before, run, Parts(rows), start);
        PartsAtMore(Parts(rows), Parts(more), start);
        assert Window(run, start) in windows <==> Window(run, start) in before || start == window.start;
      }
    } else {
      NoParts();
    }
  }

  lemma {:induction false} NoParts()
    ensures forall start :: PartsAt([], start) == []
  {
  }

  lemma {:induction false} ExpectedStart(settings: Settings, run: string, requests: seq<Event>, start: int)
    requires settings.Valid()
    ensures var parts := Expected(settings, run, requests, start);
      |parts| <= 1 && (parts != [] ==> parts[0].window == Window(run, start))
  {
  }

  // ----- what the monitor keeps

  /** Every bucket holds events of the run and of its window, and all retained requests of that window. */
  ghost predicate BucketFollows(settings: Settings, state: State, events: seq<Event>, start: int)
    requires settings.Valid()
  {
    OfKind(BucketAt(state, start), Request) == RequestsAt(settings, events, start)
  }

  ghost predicate BucketIsPure(settings: Settings, run: string, state: State, start: int)
    requires settings.Valid()
  {
    forall i | 0 <= i < |BucketAt(state, start)| ::
      BucketAt(state, start)[i].run == run && settings.StartOf(BucketAt(state, start)[i].at) == start
  }

  /** A processed window was scored on the requests heard by then, a first part of all its requests. */
  ghost predicate ScoredFollows(
    settings: Settings, run: string, state: State, events: seq<Event>, heard: map<int, nat>, start: int)
    requires settings.Valid()
  {
    if start in heard then
      && heard[start] <= |RequestsAt(settings, events, start)|
      && PartsAt(Parts(state.scored), start)
         == Expected(settings, run, RequestsAt(settings, events, start)[..heard[start]], start)
    else PartsAt(Parts(state.scored), start) == []
  }

  /** Every scored window comes before every window still to be scored. */
  ghost predicate ScoredBefore(settings: Settings, state: State, events: seq<Event>, start: int)
    requires settings.Valid()
  {
    start !in state.processed && RequestsAt(settings, events, start) != [] ==>
      forall i | 0 <= i < |state.scored| :: Parts(state.scored)[i].window.start < start
  }

  ghost predicate Follows(settings: Settings, run: string, state: State, events: seq<Event>, heard: map<int, nat>)
    requires settings.Valid()
  {
    && state.first == FirstOf(events)
    && heard.Keys == state.processed
    && IncreasingParts(Parts(state.scored))
    && forall start ::
         && BucketFollows(settings, state, events, start)
         && BucketIsPure(settings, run, state, start)
         && ScoredFollows(settings, run, state, events, heard, start)
         && ScoredBefore(settings, state, events, start)
  }

  ghost predicate AllHeard(settings: Settings, events: seq<Event>, heard: map<int, nat>)
    requires settings.Valid()
  {
    forall start | start in heard :: heard[start] == |RequestsAt(settings, events, start)|
  }

  // ----- late requests

  /** A retained request for a window that is already processed. */
  predicate Late(settings: Settings, state: State, event: Event)
    requires settings.Valid()
  {
    && event.kind == Request
    && Kept(settings, FirstAfter(state.first, event), event)
    && settings.StartOf(event.at) in state.processed
  }

  predicate NoneLate(settings: Settings, state: State, events: seq<Event>)
    requires settings.Valid()
  {
    events != [] ==>
      && NoneLate(settings, state, Init(events))
      && !Late(settings, Read(settings, state, Init(events)), Last(events))
  }

  predicate NeverLate(settings: Settings, polls: seq<Poll>)
    requires settings.Valid()
  {
    polls != [] ==>
      var before, last := polls[..|polls| - 1], polls[|polls| - 1];
      NeverLate(settings, before) && NoneLate(settings, Polled(settings, before), Lines(last))
  }

  function AllRead(polls: seq<Poll>): seq<Event> {
    if polls == [] then [] else AllRead(polls[..|polls| - 1]) + Lines(polls[|polls| - 1])
  }

  // ----- one line read

  lemma {:induction false} ReadFollows(
    settings: Settings, run: string, state: State, events: seq<Event>, heard: map<int, nat>, event: Event, start: int)
    requires settings.Valid() && Follows(settings, run, state, events, heard) && event.run == run
    ensures var read := ReadOne(settings, state, event);
      && BucketFollows(settings, read, events + [event], start)
      && BucketIsPure(settings, run, read, start)
      && ScoredFollows(settings, run, read, events + [event], heard, start)
  {
    hide OfKind, RequestsAt, Settings.StartOf, Expected;
    assert BucketFollows(settings, state, events, start) && BucketIsPure(settings, run, state, start);
    assert ScoredFollows(settings, run, state, events, heard, start);
    RequestsGrow(settings, events, event, start);
    OfKindGrows(BucketAt(state, start), event);
    if start in heard {
      assert RequestsAt(settings, events + [event], start)[..heard[start]]
          == RequestsAt(settings, events, start)[..heard[start]];
    }
  }

  lemma {:induction false} OfKindGrows(events: seq<Event>, event: Event)
    ensures OfKind(events + [event], Request) == OfKind(events, Request) + if event.kind == Request then [event] else []
  {
    assert Init(events + [event]) == events;
    assert OfKind(events, Request) + [] == OfKind(events, Request);
  }

  lemma {:induction false} ReadHeard(
    settings: Settings, run: string, state: State, events: seq<Event>, heard: map<int, nat>, event: Event)
    requires settings.Valid() && Follows(settings, run, state, events, heard)
    ensures AllHeard(settings, events + [event], heard) <==>
      AllHeard(settings, events, heard) && !Late(settings, state, event)
  {
    hide OfKind, RequestsAt, Settings.StartOf, Expected;
    forall start | start in heard
      ensures heard[start] <= |RequestsAt(settings, events, start)|
      ensures |RequestsAt(settings, events + [event], start)| == |RequestsAt(settings, events, start)| +
        if Late(settings, state, event) && settings.StartOf(event.at) == start then 1 else 0 {
      RequestsGrow(settings, events, event, start);
      assert ScoredFollows(settings, run, state, events, heard, start);
    }
  }

  lemma {:induction false} AtLeastOnce(width: int, k: int)
    requires width > 0 && k > 0
    ensures width * k >= width
  {
  }

  lemma {:induction false} MultiplesApart(width: int, m: int, n: int)
    requires width > 0
    ensures m > n ==> width * m >= width * n + width
  {
    if m > n {
      AtLeastOnce(width, m - n);
    }
  }

  lemma {:induction false} FloorsRise(width: int, a: int, b: int)
    requires width > 0 && a <= b
    ensures a - a % width <= b - b % width
  {
    var m, n := a / width, b / width;
    MultiplesApart(width, m, n);
    MultiplesApart(width, n, m);
    assert a == width * m + a % width && b == width * n + b % width;
  }

  lemma {:induction false} StartsRise(settings: Settings, a: int, b: int)
    requires settings.Valid() && a <= b
    ensures settings.StartOf(a) <= settings.StartOf(b)
  {
    FloorsRise(settings.seconds * SECOND, a, b);
  }

  /** A window scored before holds a request no later than the one just read. */
  lemma {:induction false} ReadKeepsOrder(
    settings: Settings, run: string, state: State, events: seq<Event>, heard: map<int, nat>, event: Event, start: int)
    requires settings.Valid() && Follows(settings, run, state, events, heard)
    requires InTimeOrder(OfKind(events + [event], Request))
    ensures ScoredBefore(settings, ReadOne(settings, state, event), events + [event], start)
  {
    hide OfKind, RequestsAt, Settings.StartOf, Expected, At;
    var read := ReadOne(settings, state, event);
    assert ScoredBefore(settings, state, events, start);
    RequestsGrow(settings, events, event, start);
    if start !in state.processed && RequestsAt(settings, events + [event], start) != [] && RequestsAt(settings, events, start) == [] {
      forall i | 0 <= i < |state.scored| ensures Parts(state.scored)[i].window.start < start {
        var earlier := Parts(state.scored)[i].window.start;
        PartsAtHolds(Parts(state.scored), i);
        assert ScoredFollows(settings, run, state, events, heard, earlier);
        EarlierRequest(settings, run, events, heard[earlier], event, earlier);
      }
    }
  }

  lemma {:induction false} EarlierRequest(
    settings: Settings, run: string, events: seq<Event>, n: nat, event: Event, start: int)
    requires settings.Valid() && n <= |RequestsAt(settings, events, start)|
    requires Expected(settings, run, RequestsAt(settings, events, start)[..n], start) != []
    requires event.kind == Request && InTimeOrder(OfKind(events + [event], Request))
    ensures start <= settings.StartOf(event.at)
  {
    hide OfKind, Settings.StartOf, At;
    var requests := OfKind(events, Request);
    AtHolds(settings, requests, requests[0].at + settings.warmup * SECOND, start);
    var i :| 0 <= i < |requests| && settings.StartOf(requests[i].at) == start;
    OfKindGrows(events, event);
    var all := OfKind(events + [event], Request);
    assert all[i] == requests[i] && all[|requests|] == event;
    StartsRise(settings, requests[i].at, event.at);
  }

  lemma {:induction false} ReadOneFollows(
    settings: Settings, run: string, state: State, events: seq<Event>, heard: map<int, nat>, event: Event)
    requires settings.Valid() && Follows(settings, run, state, events, heard)
    requires event.run == run && InTimeOrder(OfKind(events + [event], Request))
    ensures Follows(settings, run, ReadOne(settings, state, event), events + [event], heard)
  {
    hide OfKind, RequestsAt, BucketFollows, BucketIsPure, ScoredFollows, ScoredBefore;
    var read := ReadOne(settings, state, event);
    RequestsGrow(settings, events, event, 0);
    forall start ensures BucketFollows(settings, read, events + [event], start)
      ensures BucketIsPure(settings, run, read, start)
      ensures ScoredFollows(settings, run, read, events + [event], heard, start)
      ensures ScoredBefore(settings, read, events + [event], start)
    {
      ReadFollows(settings, run, state, events, heard, event, start);
      ReadKeepsOrder(settings, run, state, events, heard, event, start);
    }
  }
}
