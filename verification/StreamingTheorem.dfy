/** The streaming monitor and batch aggregation give the same windows exactly when no request comes late. */
module StreamingTheorem {
  import opened Telemetry
  import opened Features
  import opened Aggregation
  import Laws = AggregationLaws
  import opened OnlineMonitor
  import opened StreamingLaws

  // ----- scoring one window

  lemma {:induction false} AtAll(settings: Settings, requests: seq<Event>, from: int, start: int)
    requires settings.Valid()
    requires forall i | 0 <= i < |requests| :: requests[i].at >= from && settings.StartOf(requests[i].at) == start
    ensures At(settings, requests, from, start) == requests
  {
    hide Settings.StartOf;
    if requests != [] {
      AtAll(settings, Init(requests), from, start);
    }
  }

  lemma {:induction false} PureWindows(settings: Settings, plan: Plan, bucket: seq<Event>, run: string, start: int)
    requires settings.Valid() && plan.width == settings.seconds * SECOND
    requires forall i | 0 <= i < |bucket| :: bucket[i].run == run && settings.StartOf(bucket[i].at) == start
    ensures forall window | window in Windows(plan, bucket) :: window == Window(run, start)
  {
    hide Retained;
    if bucket != [] {
      PureWindows(settings, plan, Init(bucket), run, start);
    }
  }

  lemma {:induction false} OfKindFrom(events: seq<Event>, kind: Kind)
    ensures forall i | 0 <= i < |OfKind(events, kind)| :: OfKind(events, kind)[i] in events && OfKind(events, kind)[i].kind == kind
  {
    if events != [] {
      OfKindFrom(Init(events), kind);
      assert forall event | event in Init(events) :: event in events;
      assert Last(events) in events;
    }
  }

  lemma {:induction false} TwoParts(parts: seq<Part>)
    requires IncreasingParts(parts) && |parts| >= 2
    ensures parts[0].window.start < parts[1].window.start
  {
  }

  lemma {:induction false} OnlyPart(parts: seq<Part>, window: Window)
    requires IncreasingParts(parts) && forall i | 0 <= i < |parts| :: parts[i].window == window
    ensures PartsAt(parts, window.start) == parts
  {
    if |parts| >= 2 {
      TwoParts(parts);
    }
    if parts != [] {
      assert parts[..|parts| - 1] == [];
    }
  }

  lemma {:induction false} NoneBeforeFirst(settings: Settings, plan: Plan, bucket: seq<Event>, run: string)
    requires settings.Valid() && plan == PlanFor(bucket, settings.seconds, 0) && OneRun(bucket, run)
    ensures var from := if run in plan.first then plan.first[run] else 0;
      forall i | 0 <= i < |bucket| && bucket[i].kind == Request :: Retained(plan, bucket[i]) && bucket[i].at >= from
  {
    hide FirstRequests;
    forall i | 0 <= i < |bucket| && bucket[i].kind == Request
      ensures run in plan.first && plan.first[run] <= bucket[i].at {
      assert bucket[i] in bucket;
      assert Laws.Requested(bucket, run, bucket[i].at);
      Laws.FirstRequestIsEarliest(bucket, run);
    }
  }

  /** Aggregated on its own, a bucket of one window gives the row of its requests. */
  lemma {:induction false} BucketScored(settings: Settings, run: string, bucket: seq<Event>, start: int)
    requires settings.Valid()
    requires forall i | 0 <= i < |bucket| :: bucket[i].run == run && settings.StartOf(bucket[i].at) == start
    ensures Parts(Aggregate(bucket, settings.seconds, 0)) == Expected(settings, run, OfKind(bucket, Request), start)
    ensures |Aggregate(bucket, settings.seconds, 0)| <= 1
  {
    hide FirstRequests, Windows, Bucket, OfKind, Expected, RowsOf, At, PartsAt, Retained, Settings.StartOf, SortedWindows;
    var plan, window := PlanFor(bucket, settings.seconds, 0), Window(run, start);
    var from := if run in plan.first then plan.first[run] else 0;
    NoneBeforeFirst(settings, plan, bucket, run);
    KeptRequests(settings, plan, bucket, run, from, start);
    OfKindFrom(bucket, Request);
    AtAll(settings, OfKind(bucket, Request), from, start);
    PureWindows(settings, plan, bucket, run, start);
    var windows := SortedWindows(Windows(plan, bucket));
    SortedCovers(Windows(plan, bucket));
    PartsOfRows(settings, plan, bucket, windows, run);
    var parts := Parts(RowsOf(plan, bucket, windows, settings.seconds));
    OnlyPart(parts, window);
    assert PartsOf(settings, plan, bucket, windows, run, parts, start);
    if window !in windows {
      NoBucket(plan, bucket, window);
      NothingExpected(settings, run, start);
    }
    ExpectedStart(settings, run, OfKind(bucket, Request), start);
  }

  lemma {:induction false} NothingExpected(settings: Settings, run: string, start: int)
    requires settings.Valid()
    ensures Expected(settings, run, OfKind([], Request), start) == []
  {
  }

  /** The window is ahead of every other that still has requests to score. */
  ghost predicate IsNext(settings: Settings, state: State, events: seq<Event>, start: int)
    requires settings.Valid()
  {
    forall other | other != start && other !in state.processed && RequestsAt(settings, events, other) != [] ::
      start < other
  }

  lemma {:induction false} ExpectedOnlyOfSome(settings: Settings, run: string, requests: seq<Event>, start: int)
    requires settings.Valid()
    ensures Expected(settings, run, requests, start) != [] <==> requests != []
  {
  }

  /** Scoring a window appends the row of the requests retained there, or nothing when there are none. */
  lemma {:induction false} ScoreOneParts(
    settings: Settings, run: string, state: State, events: seq<Event>, heard: map<int, nat>, start: int)
    requires settings.Valid() && Follows(settings, run, state, events, heard)
    ensures var more := Expected(settings, run, RequestsAt(settings, events, start), start);
      && Parts(ScoreOne(settings, state, start).scored) == Parts(state.scored) + more
      && |more| <= 1 && (more != [] <==> RequestsAt(settings, events, start) != [])
      && (more != [] ==> more[0].window.start == start)
  {
    hide OfKind, RequestsAt, Settings.StartOf, Expected, Aggregate, PartsAt;
    var rows := Aggregate(BucketAt(state, start), settings.seconds, 0);
    assert BucketFollows(settings, state, events, start) && BucketIsPure(settings, run, state, start);
    BucketScored(settings, run, BucketAt(state, start), start);
    ExpectedStart(settings, run, RequestsAt(settings, events, start), start);
    ExpectedOnlyOfSome(settings, run, RequestsAt(settings, events, start), start);
    assert ScoreOne(settings, state, start).scored == state.scored + rows;
    assert Parts(state.scored + rows) == Parts(state.scored) + Parts(rows);
  }

  lemma {:induction false} ScoreOneScored(
    settings: Settings, run: string, state: State, events: seq<Event>, heard: map<int, nat>, start: int, other: int)
    requires settings.Valid() && Follows(settings, run, state, events, heard) && start !in state.processed
    ensures ScoredFollows(
      settings, run, ScoreOne(settings, state, start), events,
      heard[start := |RequestsAt(settings, events, start)|], other)
  {
    hide OfKind, RequestsAt, Settings.StartOf, Expected, Aggregate, PartsAt, ScoreOne;
    var requests := RequestsAt(settings, events, start);
    ScoreOneParts(settings, run, state, events, heard, start);
    assert ScoredFollows(settings, run, state, events, heard, other);
    PartsAtMore(Parts(state.scored), Expected(settings, run, requests, start), other);
    assert requests[..|requests|] == requests;
  }

  lemma {:induction false} ScoreOneBefore(
    settings: Settings, run: string, state: State, events: seq<Event>, heard: map<int, nat>, start: int, other: int)
    requires settings.Valid() && Follows(settings, run, state, events, heard) && start !in state.processed
    requires IsNext(settings, state, events, start)
    ensures ScoredBefore(settings, ScoreOne(settings, state, start), events, other)
  {
    hide OfKind, RequestsAt, Settings.StartOf, Expected, Aggregate, PartsAt, Parts;
    ScoreOneParts(settings, run, state, events, heard, start);
    assert ScoredBefore(settings, state, events, other);
  }

  lemma {:induction false} ScoreOneIncreasing(
    settings: Settings, run: string, state: State, events: seq<Event>, heard: map<int, nat>, start: int)
    requires settings.Valid() && Follows(settings, run, state, events, heard) && start !in state.processed
    ensures IncreasingParts(Parts(ScoreOne(settings, state, start).scored))
  {
    hide OfKind, RequestsAt, Settings.StartOf, Expected, Aggregate, PartsAt, Parts, ScoreOne;
    ScoreOneParts(settings, run, state, events, heard, start);
    assert ScoredBefore(settings, state, events, start);
  }

  lemma {:induction false} ScoreOneBuckets(
    settings: Settings, run: string, state: State, events: seq<Event>, heard: map<int, nat>, start: int, other: int)
    requires settings.Valid() && Follows(settings, run, state, events, heard)
    ensures BucketFollows(settings, ScoreOne(settings, state, start), events, other)
    ensures BucketIsPure(settings, run, ScoreOne(settings, state, start), other)
  {
    hide OfKind, RequestsAt, Settings.StartOf, Aggregate;
    assert BucketFollows(settings, state, events, other) && BucketIsPure(settings, run, state, other);
  }

  lemma {:induction false} ScoreOneFollows(
    settings: Settings, run: string, state: State, events: seq<Event>, heard: map<int, nat>, start: int)
    requires settings.Valid() && Follows(settings, run, state, events, heard)
    requires start !in state.processed && IsNext(settings, state, events, start)
    ensures var more := heard[start := |RequestsAt(settings, events, start)|];
      && Follows(settings, run, ScoreOne(settings, state, start), events, more)
      && (AllHeard(settings, events, more) <==> AllHeard(settings, events, heard))
  {
    hide RequestsAt, Aggregate, BucketFollows, BucketIsPure, ScoredFollows, ScoredBefore, IncreasingParts, IsNext;
    var after, more := ScoreOne(settings, state, start), heard[start := |RequestsAt(settings, events, start)|];
    ScoreOneIncreasing(settings, run, state, events, heard, start);
    forall other ensures BucketFollows(settings, after, events, other)
      ensures BucketIsPure(settings, run, after, other)
      ensures ScoredFollows(settings, run, after, events, more, other)
      ensures ScoredBefore(settings, after, events, other)
    {
      ScoreOneBuckets(settings, run, state, events, heard, start, other);
      ScoreOneScored(settings, run, state, events, heard, start, other);
      ScoreOneBefore(settings, run, state, events, heard, start, other);
    }
  }

  // ----- scoring every window that is ready

  lemma {:induction false} ScoreKeeps(settings: Settings, state: State, starts: seq<int>)
    requires settings.Valid()
    ensures var after := Score(settings, state, starts);
      && after.buckets == state.buckets && after.first == state.first
      && forall start :: start in after.processed <==> start in state.processed || start in starts
  {
    hide Aggregate;
    if starts != [] {
      var init, last := starts[..|starts| - 1], starts[|starts| - 1];
      ScoreKeeps(settings, state, init);
      assert forall start :: start in starts <==> start in init || start == last;
    }
  }

  lemma {:induction false} ReadyIsNext(
    settings: Settings, run: string, state: State, events: seq<Event>, heard: map<int, nat>,
    now: int, force: bool, k: nat)
    requires settings.Valid() && Follows(settings, run, state, events, heard)
    requires k < |SortedStarts(Ready(settings, state, now, force))|
    ensures var starts := SortedStarts(Ready(settings, state, now, force));
      var between := Score(settings, state, starts[..k]);
      starts[k] !in between.processed && IsNext(settings, between, events, starts[k])
  {
    hide OfKind, RequestsAt, Aggregate, Score, SortedStarts;
    var starts := SortedStarts(Ready(settings, state, now, force));
    var between := Score(settings, state, starts[..k]);
    ScoreKeeps(settings, state, starts[..k]);
    assert starts[k] in starts;
    assert forall j | 0 <= j < k :: starts[j] in starts[..k];
    forall other | other != starts[k] && other !in between.processed && RequestsAt(settings, events, other) != []
      ensures starts[k] < other {
      assert BucketFollows(settings, state, events, other);
      NoneOfNothing();
      assert other in state.buckets;
      if IsReady(settings, state, now, force, other) {
        assert other in Ready(settings, state, now, force);
        var j :| 0 <= j < |starts| && starts[j] == other;
      }
    }
  }

  lemma {:induction false} NoneOfNothing()
    ensures OfKind([], Request) == []
  {
  }

  lemma {:induction false} ScoreFollows(
    settings: Settings, run: string, state: State, events: seq<Event>, heard: map<int, nat>,
    now: int, force: bool, k: nat) returns (more: map<int, nat>)
    requires settings.Valid() && Follows(settings, run, state, events, heard)
    requires k <= |SortedStarts(Ready(settings, state, now, force))|
    ensures Follows(settings, run, Score(settings, state, SortedStarts(Ready(settings, state, now, force))[..k]), events, more)
    ensures AllHeard(settings, events, more) <==> AllHeard(settings, events, heard)
  {
    hide Follows, AllHeard, ScoreOne, SortedStarts, IsNext;
    var starts := SortedStarts(Ready(settings, state, now, force));
    if k == 0 {
      more := heard;
    } else {
      var before := ScoreFollows(settings, run, state, events, heard, now, force, k - 1);
      ReadyIsNext(settings, run, state, events, heard, now, force, k - 1);
      ScoreOneFollows(settings, run, Score(settings, state, starts[..k - 1]), events, before, starts[k - 1]);
      ScoreNext(settings, state, starts, k - 1);
      more := before[starts[k - 1] := |RequestsAt(settings, events, starts[k - 1])|];
    }
  }

  lemma {:induction false} ScoreReadyFollows(
    settings: Settings, run: string, state: State, events: seq<Event>, heard: map<int, nat>,
    now: int, force: bool) returns (more: map<int, nat>)
    requires settings.Valid() && Follows(settings, run, state, events, heard)
    ensures Follows(settings, run, ScoreReady(settings, state, now, force), events, more)
    ensures AllHeard(settings, events, more) <==> AllHeard(settings, events, heard)
  {
    hide Follows, AllHeard, Score, SortedStarts;
    var starts := SortedStarts(Ready(settings, state, now, force));
    more := ScoreFollows(settings, run, state, events, heard, now, force, |starts|);
    assert starts[..|starts|] == starts;
  }

  // ----- whole runs

  lemma {:induction false} ReadAllFollows(
    settings: Settings, run: string, state: State, events: seq<Event>, heard: map<int, nat>, lines: seq<Event>)
    requires settings.Valid() && Follows(settings, run, state, events, heard)
    requires OneRun(lines, run) && InTimeOrder(OfKind(events + lines, Request))
    ensures Follows(settings, run, Read(settings, state, lines), events + lines, heard)
    ensures AllHeard(settings, events + lines, heard) <==>
      AllHeard(settings, events, heard) && NoneLate(settings, state, lines)
  {
    hide Follows, AllHeard, ReadOne, Late, OfKind;
    if lines == [] {
      assert events + lines == events;
    } else {
      var init, last := Init(lines), Last(lines);
      assert events + lines == events + init + [last];
      OfKindGrows(events + init, last);
      OrderOfPrefix(OfKind(events + init, Request), OfKind(events + lines, Request));
      ReadAllFollows(settings, run, state, events, heard, init);
      var read := Read(settings, state, init);
      ReadOneFollows(settings, run, read, events + init, heard, last);
      ReadHeard(settings, run, read, events + init, heard, last);
    }
  }

  lemma {:induction false} OrderOfPrefix(shorter: seq<Event>, longer: seq<Event>)
    requires InTimeOrder(longer) && shorter <= longer
    ensures InTimeOrder(shorter)
  {
  }

  lemma {:induction false} OfKindPrefix(events: seq<Event>, lines: seq<Event>)
    ensures OfKind(events, Request) <= OfKind(events + lines, Request)
  {
    if lines == [] {
      assert events + lines == events;
    } else {
      OfKindPrefix(events, Init(lines));
      assert events + lines == events + Init(lines) + [Last(lines)];
      OfKindGrows(events + Init(lines), Last(lines));
    }
  }

  lemma {:induction false} FreshFollows(settings: Settings, run: string)
    requires settings.Valid()
    ensures Follows(settings, run, FRESH, [], map[])
    ensures AllHeard(settings, [], map[])
  {
    forall start ensures BucketFollows(settings, FRESH, [], start) && ScoredFollows(settings, run, FRESH, [], map[], start) {
      assert BucketAt(FRESH, start) == [];
    }
  }

  lemma {:induction false} PollsFollow(settings: Settings, run: string, polls: seq<Poll>) returns (heard: map<int, nat>)
    requires settings.Valid() && OneRun(AllRead(polls), run) && InTimeOrder(OfKind(AllRead(polls), Request))
    ensures Follows(settings, run, Polled(settings, polls), AllRead(polls), heard)
    ensures AllHeard(settings, AllRead(polls), heard) <==> NeverLate(settings, polls)
  {
    hide Follows, AllHeard, Read, ScoreReady, OfKind, NoneLate;
    if polls == [] {
      FreshFollows(settings, run);
      heard := map[];
    } else {
      var before, last := polls[..|polls| - 1], polls[|polls| - 1];
      var events, lines := AllRead(before), Lines(last);
      assert AllRead(polls) == events + lines;
      OfKindPrefix(events, lines);
      OrderOfPrefix(OfKind(events, Request), OfKind(events + lines, Request));
      OneRunOfBoth(events, lines, run);
      var sofar := PollsFollow(settings, run, before);
      ReadAllFollows(settings, run, Polled(settings, before), events, sofar, lines);
      heard := ScoreReadyFollows(
        settings, run, Read(settings, Polled(settings, before), lines), events + lines, sofar, last.now, false);
    }
  }

  lemma {:induction false} OneRunOfBoth(events: seq<Event>, lines: seq<Event>, run: string)
    requires OneRun(events + lines, run)
    ensures OneRun(events, run) && OneRun(lines, run)
  {
    assert (events + lines)[..|events|] == events && (events + lines)[|events|..] == lines;
  }

  // ----- the batch

  lemma {:induction false} BatchFirst(events: seq<Event>, run: string)
    requires OneRun(events, run) && InTimeOrder(OfKind(events, Request))
    ensures run in FirstRequests(events) <==> FirstOf(events).Some?
    ensures run in FirstRequests(events) ==> FirstRequests(events)[run] == FirstOf(events).value
  {
    if events != [] {
      var init, last := Init(events), Last(events);
      OfKindGrows(init, last);
      OrderOfPrefix(OfKind(init, Request), OfKind(events, Request));
      BatchFirst(init, run);
      assert events[|events| - 1] == last;
      var requests := OfKind(events, Request);
      assert requests != [] ==> requests[0].at <= requests[|requests| - 1].at;
    }
  }

  /** The rows of a batch of one run: increasing, and at each start the row of the requests retained there. */
  lemma {:induction false} BatchParts(settings: Settings, events: seq<Event>, run: string)
    requires settings.Valid() && OneRun(events, run) && InTimeOrder(OfKind(events, Request))
    ensures var parts := Parts(Aggregate(events, settings.seconds, settings.warmup));
      && IncreasingParts(parts)
      && forall start :: PartsAt(parts, start) == Expected(settings, run, RequestsAt(settings, events, start), start)
  {
    hide FirstRequests, Windows, Bucket, OfKind, Expected, RowsOf, At, PartsAt, SortedWindows;
    var plan := PlanFor(events, settings.seconds, settings.warmup);
    var windows := SortedWindows(Windows(plan, events));
    SortedCovers(Windows(plan, events));
    WindowsOfOneRun(plan, events, run);
    PartsOfRows(settings, plan, events, windows, run);
    var parts := Parts(RowsOf(plan, events, windows, settings.seconds));
    forall start ensures PartsAt(parts, start) == Expected(settings, run, RequestsAt(settings, events, start), start) {
      assert PartsOf(settings, plan, events, windows, run, parts, start);
      RequestsInBucket(settings, plan, events, run, start);
      if Window(run, start) !in windows {
        NoBucket(plan, events, Window(run, start));
        NothingExpected(settings, run, start);
      }
    }
  }

  lemma {:induction false} RequestsInBucket(settings: Settings, plan: Plan, events: seq<Event>, run: string, start: int)
    requires settings.Valid() && OneRun(events, run) && InTimeOrder(OfKind(events, Request))
    requires plan == PlanFor(events, settings.seconds, settings.warmup)
    ensures OfKind(Bucket(plan, events, Window(run, start)), Request) == RequestsAt(settings, events, start)
  {
    hide FirstRequests, Bucket, OfKind, At;
    BatchFirst(events, run);
    var requests := OfKind(events, Request);
    var from := if requests == [] then 0 else requests[0].at + settings.warmup * SECOND;
    forall i | 0 <= i < |events| && events[i].kind == Request
      ensures Retained(plan, events[i]) <==> events[i].at >= from {
      SomeOfKind(events, i);
    }
    KeptRequests(settings, plan, events, run, from, start);
    if requests == [] {
      assert At(settings, [], from, start) == [] by {
        AtAll(settings, [], from, start);
      }
    }
  }

  lemma {:induction false} SomeOfKind(events: seq<Event>, i: nat)
    requires i < |events| && events[i].kind == Request
    ensures OfKind(events, Request) != []
  {
    if i < |events| - 1 {
      SomeOfKind(Init(events), i);
    }
  }

  // ----- the theorem

  lemma {:induction false} FinishedProcessesAll(settings: Settings, state: State, now: int)
    requires settings.Valid()
    ensures var after := ScoreReady(settings, state, now, true);
      after.buckets == state.buckets && forall start | start in state.buckets :: start in after.processed
  {
    hide Score, SortedStarts;
    ScoreKeeps(settings, state, SortedStarts(Ready(settings, state, now, true)));
  }

  lemma {:induction false} ShorterExpectsLess(settings: Settings, run: string, requests: seq<Event>, n: nat, start: int)
    requires settings.Valid() && n <= |requests|
    ensures Expected(settings, run, requests[..n], start) == Expected(settings, run, requests, start) <==> n == |requests|
  {
    hide Each, Mean, Share, Reuse, CvSquared, SortedByTime;
    assert n == |requests| ==> requests[..n] == requests;
    if 0 < n < |requests| {
      DifferentRates(n, |requests|, settings.seconds);
    }
  }

  lemma {:induction false} DifferentRates(a: nat, b: nat, seconds: int)
    requires a < b && seconds > 0
    ensures Divided(a as real, seconds) != Divided(b as real, seconds)
  {
    Laws.RateTimesWidth(a, seconds);
    Laws.RateTimesWidth(b, seconds);
  }

  /** For one run whose requests are read in order of time: when the monitor has stopped, the rows it scored are, in
      order and in every feature that comes from requests, those of batch aggregation over the same requests with the
      same warm-up, if and only if no retained request was read for a window already processed. */
  lemma {:induction false} StreamingMatchesBatch(
    settings: Settings, run: string, polls: seq<Poll>, now: int, batch: seq<Event>)
    requires settings.Valid() && OneRun(AllRead(polls), run) && OneRun(batch, run)
    requires InTimeOrder(OfKind(batch, Request)) && OfKind(batch, Request) == OfKind(AllRead(polls), Request)
    ensures Parts(Finished(settings, polls, now).scored) == Parts(Aggregate(batch, settings.seconds, settings.warmup))
      <==> NeverLate(settings, polls)
  {
    hide OfKind, Aggregate, Expected, PartsAt, Polled, ScoreReady, NeverLate, At;
    var events, before := AllRead(polls), Polled(settings, polls);
    var sofar := PollsFollow(settings, run, polls);
    var heard := ScoreReadyFollows(settings, run, before, events, sofar, now, true);
    var state := Finished(settings, polls, now);
    FinishedProcessesAll(settings, before, now);
    BatchParts(settings, batch, run);
    var streamed, batched := Parts(state.scored), Parts(Aggregate(batch, settings.seconds, settings.warmup));
    forall start ensures AgreeAt(streamed, batched, start) <==>
        (start in heard ==> heard[start] == |RequestsAt(settings, events, start)|) {
      AgreeIffAllHeard(settings, run, state, events, heard, batched, start);
    }
    if AllHeard(settings, events, heard) {
      PartsAreUnique(streamed, batched);
    }
    if streamed == batched {
      assert forall start :: AgreeAt(streamed, batched, start);
    }
  }

  lemma {:induction false} AgreeIffAllHeard(
    settings: Settings, run: string, state: State, events: seq<Event>, heard: map<int, nat>,
    batched: seq<Part>, start: int)
    requires settings.Valid() && Follows(settings, run, state, events, heard)
    requires start in state.buckets ==> start in state.processed
    requires PartsAt(batched, start) == Expected(settings, run, RequestsAt(settings, events, start), start)
    ensures AgreeAt(Parts(state.scored), batched, start) <==>
      (start in heard ==> heard[start] == |RequestsAt(settings, events, start)|)
  {
    hide OfKind, RequestsAt, PartsAt, Expected;
    assert BucketFollows(settings, state, events, start) && ScoredFollows(settings, run, state, events, heard, start);
    if start in heard {
      ShorterExpectsLess(settings, run, RequestsAt(settings, events, start), heard[start], start);
    } else {
      NothingExpected(settings, run, start);
    }
  }
}
