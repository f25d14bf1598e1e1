/** The guest's streaming monitor, scoring windows as they complete (scripts/guest-online-monitor.py). */
module OnlineMonitor {
  import opened Wrappers
  import opened Orders
  import opened Telemetry
  import opened Features
  import opened Aggregation

  /** The delay after a window's end before it is scored. */
  const GRACE := 250000000

  /** Window and warm-up lengths in seconds. */
  datatype Settings = Settings(seconds: int, warmup: int) {
    predicate Valid() { seconds > 0 }

    function StartOf(at: int): int
      requires Valid()
    {
      at - at % (seconds * SECOND)
    }
  }

  /** What the monitor holds; scored lists the rows given to the model, oldest first. */
  datatype State = State(first: Option<int>, buckets: map<int, seq<Event>>, processed: set<int>, scored: seq<Row>)

  const FRESH := State(None, map[], {}, [])

  function BucketAt(state: State, start: int): seq<Event> {
    if start in state.buckets then state.buckets[start] else []
  }

  // ----- reading lines

  function FirstAfter(first: Option<int>, event: Event): Option<int> {
    if event.kind == Request && first.None? then Some(event.at) else first
  }

  predicate Kept(settings: Settings, first: Option<int>, event: Event) {
    first.Some? && event.at >= first.value + settings.warmup * SECOND
  }

  function ReadOne(settings: Settings, state: State, event: Event): State
    requires settings.Valid()
  {
    var first, start := FirstAfter(state.first, event), settings.StartOf(event.at);
    if Kept(settings, first, event)
    then state.(first := first, buckets := state.buckets[start := BucketAt(state, start) + [event]])
    else state.(first := first)
  }

  function Read(settings: Settings, state: State, events: seq<Event>): State
    requires settings.Valid()
  {
    if events == [] then state else ReadOne(settings, Read(settings, state, Init(events)), Last(events))
  }

  function CountKept(settings: Settings, state: State, events: seq<Event>): nat
    requires settings.Valid()
  {
    if events == [] then 0 else
      var before := Read(settings, state, Init(events));
      CountKept(settings, state, Init(events)) +
      if Kept(settings, FirstAfter(before.first, Last(events)), Last(events)) then 1 else 0
  }

  // ----- scoring windows

  function SortedStarts(starts: set<int>): (sorted: seq<int>)
    ensures forall start :: start in sorted <==> start in starts
    ensures forall i, j | 0 <= i < j < |sorted| :: sorted[i] < sorted[j]
  {
    BelowIsTotal();
    Sorted(Below, starts)
  }

  predicate IsReady(settings: Settings, state: State, now: int, force: bool, start: int) {
    start !in state.processed && (force || start + settings.seconds * SECOND + GRACE <= now)
  }

  function Ready(settings: Settings, state: State, now: int, force: bool): (ready: set<int>)
  {
    set start | start in state.buckets && IsReady(settings, state, now, force, start)
  }

  function ScoreOne(settings: Settings, state: State, start: int): State
    requires settings.Valid()
  {
    var rows := Aggregate(BucketAt(state, start), settings.seconds, 0);
    state.(processed := state.processed + {start}, scored := state.scored + if rows == [] then [] else [rows[0]])
  }

  function Score(settings: Settings, state: State, starts: seq<int>): State
    requires settings.Valid()
  {
    if starts == [] then state
    else ScoreOne(settings, Score(settings, state, starts[..|starts| - 1]), starts[|starts| - 1])
  }

  function ScoreReady(settings: Settings, state: State, now: int, force: bool): State
    requires settings.Valid()
  {
    Score(settings, state, SortedStarts(Ready(settings, state, now, force)))
  }

  // ----- polling

  /** What one turn of the loop finds: new lines of both files, the time, and whether the done file exists. */
  datatype Poll = Poll(requests: seq<Event>, resources: seq<Event>, now: int, done: bool)

  function Lines(poll: Poll): seq<Event> {
    poll.requests + poll.resources
  }

  function Polled(settings: Settings, polls: seq<Poll>): State
    requires settings.Valid()
  {
    if polls == [] then FRESH else
      var last := polls[|polls| - 1];
      ScoreReady(settings, Read(settings, Polled(settings, polls[..|polls| - 1]), Lines(last)), last.now, false)
  }

  /** The turns without a retained line since the done file appeared or the last such line came. */
  function Quiet(settings: Settings, polls: seq<Poll>): nat
    requires settings.Valid()
  {
    if polls == [] then 0 else
      var before, last := polls[..|polls| - 1], polls[|polls| - 1];
      if !last.done then Quiet(settings, before)
      else if CountKept(settings, Polled(settings, before), Lines(last)) == 0 then Quiet(settings, before) + 1
      else 0
  }

  /** The state after the last turn: every window still open is scored. */
  function Finished(settings: Settings, polls: seq<Poll>, now: int): State
    requires settings.Valid()
  {
    ScoreReady(settings, Polled(settings, polls), now, true)
  }

  function Alerts(rows: seq<Row>, score: Row -> real, threshold: real): seq<Row> {
    if rows == [] then [] else
      var last := rows[|rows| - 1];
      Alerts(rows[..|rows| - 1], score, threshold) + if score(last) <= threshold then [] else [last]
  }

  // ----- the program

  lemma {:induction false} NothingRead(settings: Settings, state: State)
    requires settings.Valid()
    ensures Read(settings, state, []) == state && CountKept(settings, state, []) == 0
  {
  }

  lemma {:induction false} ReadNext(settings: Settings, state: State, events: seq<Event>, i: nat)
    requires settings.Valid() && i < |events|
    ensures Read(settings, state, events[..i + 1]) == ReadOne(settings, Read(settings, state, events[..i]), events[i])
    ensures CountKept(settings, state, events[..i + 1]) == CountKept(settings, state, events[..i]) +
      if Kept(settings, FirstAfter(Read(settings, state, events[..i]).first, events[i]), events[i]) then 1 else 0
  {
    assert Init(events[..i + 1]) == events[..i];
  }

  lemma {:induction false} NothingScored(settings: Settings, state: State)
    requires settings.Valid()
    ensures Score(settings, state, []) == state
  {
  }

  lemma {:induction false} ScoreNext(settings: Settings, state: State, starts: seq<int>, i: nat)
    requires settings.Valid() && i < |starts|
    ensures Score(settings, state, starts[..i + 1])
            == ScoreOne(settings, Score(settings, state, starts[..i]), starts[i])
  {
    assert starts[..i + 1][..i] == starts[..i];
  }

  lemma {:induction false} ReadInTwo(settings: Settings, state: State, a: seq<Event>, b: seq<Event>)
    requires settings.Valid()
    ensures Read(settings, state, a + b) == Read(settings, Read(settings, state, a), b)
    ensures CountKept(settings, state, a + b)
            == CountKept(settings, state, a) + CountKept(settings, Read(settings, state, a), b)
  {
    hide ReadOne, Kept;
    if b == [] {
      assert a + b == a;
    } else {
      assert Init(a + b) == a + Init(b);
      ReadInTwo(settings, state, a, Init(b));
    }
  }

  lemma {:induction false} AlertsGrow(rows: seq<Row>, more: seq<Row>, score: Row -> real, threshold: real)
    requires |more| <= 1
    ensures Alerts(rows + more, score, threshold)
            == Alerts(rows, score, threshold) + if more == [] || score(more[0]) <= threshold then [] else more
  {
    if more == [] {
      assert rows + more == rows;
    } else {
      assert (rows + more)[..|rows|] == rows;
    }
  }

  class Monitor {
    const settings: Settings
    const score: Row -> real
    const threshold: real
    var first: Option<int>
    var buckets: map<int, seq<Event>>
    var processed: set<int>
    var scored: seq<Row>
    var records: seq<Row>

    function View(): State
      reads this
    {
      State(first, buckets, processed, scored)
    }

    /** The recorded alerts are the scored rows above the threshold, in order. */
    ghost predicate Valid()
      reads this
    {
      settings.Valid() && records == Alerts(scored, score, threshold)
    }

    constructor (settings: Settings, score: Row -> real, threshold: real)
      requires settings.Valid()
      ensures Valid() && View() == FRESH
      ensures this.settings == settings && this.score == score && this.threshold == threshold
    {
      this.settings, this.score, this.threshold := settings, score, threshold;
      first, buckets, processed, scored, records := None, map[], {}, [], [];
    }

    method Ingest(lines: seq<Event>) returns (count: nat)
      requires Valid()
      modifies this
      ensures Valid()
      ensures View() == Read(settings, old(View()), lines)
      ensures count == CountKept(settings, old(View()), lines)
    {
      hide Read, CountKept, Alerts, Settings.StartOf;
      NothingRead(settings, View());
      count := 0;
      for i := 0 to |lines|
        invariant Valid()
        invariant View() == Read(settings, old(View()), lines[..i])
        invariant count == CountKept(settings, old(View()), lines[..i])
      {
        ReadNext(settings, old(View()), lines, i);
        var event := lines[i];
        if event.kind == Request && first.None? {
          first := Some(event.at);
        }
        if first.Some? && event.at >= first.value + settings.warmup * SECOND {
          var start := settings.StartOf(event.at);
          buckets := buckets[start := (if start in buckets then buckets[start] else []) + [event]];
          count := count + 1;
        }
      }
      assert lines[..|lines|] == lines;
    }

    method ScoreReadyWindows(now: int, force: bool)
      requires Valid()
      modifies this
      ensures Valid()
      ensures View() == ScoreReady(settings, old(View()), now, force)
    {
      hide Aggregate, Alerts, Score, SortedStarts;
      NothingScored(settings, View());
      var ready := SortedStarts(set start | start in buckets && IsReady(settings, View(), now, force, start));
      for i := 0 to |ready|
        invariant Valid()
        invariant View() == Score(settings, old(View()), ready[..i])
        invariant buckets == old(buckets)
      {
        ScoreNext(settings, old(View()), ready, i);
        assert ready[i] in ready;
        var rows := Aggregate(buckets[ready[i]], settings.seconds, 0);
        processed := processed + {ready[i]};
        AlertsGrow(scored, if rows == [] then [] else [rows[0]], score, threshold);
        if rows != [] {
          scored := scored + [rows[0]];
          if !(score(rows[0]) <= threshold) {
            records := records + [rows[0]];
          }
        }
      }
      assert ready[..|ready|] == ready;
    }

    /** Polls until the done file has been there for three quiet turns, then scores what is left at time end. */
    method Watch(polls: seq<Poll>, end: int) returns (turns: nat, stopped: bool)
      requires Valid() && View() == FRESH
      modifies this
      ensures Valid() && turns <= |polls|
      ensures forall k | 0 <= k < turns :: Quiet(settings, polls[..k]) < 3
      ensures if stopped then Quiet(settings, polls[..turns]) >= 3 && View() == Finished(settings, polls[..turns], end)
              else turns == |polls| && View() == Polled(settings, polls)
    {
      hide Read, CountKept, ScoreReady;
      turns := 0;
      var quiet := 0;
      while turns < |polls|
        invariant turns <= |polls|
        invariant Valid()
        invariant View() == Polled(settings, polls[..turns])
        invariant quiet == Quiet(settings, polls[..turns]) < 3
        invariant forall k | 0 <= k < turns :: Quiet(settings, polls[..k]) < 3
      {
        var poll := polls[turns];
        assert polls[..turns + 1][..turns] == polls[..turns];
        ReadInTwo(settings, View(), poll.requests, poll.resources);
        var fromRequests := Ingest(poll.requests);
        var fromResources := Ingest(poll.resources);
        var added := fromRequests + fromResources;
        ScoreReadyWindows(poll.now, false);
        turns := turns + 1;
        if poll.done {
          quiet := if added == 0 then quiet + 1 else 0;
          if quiet >= 3 {
            ScoreReadyWindows(end, true);
            return turns, true;
          }
        }
      }
      assert polls[..turns] == polls;
      stopped := false;
    }
  }
}
