/** When windows are scored, and how early lines have to be read for none to be late. */
module StreamingReadiness {
  import opened Telemetry
  import opened Features
  import opened Aggregation
  import opened OnlineMonitor
  import opened StreamingLaws
  import opened StreamingTheorem

  /** The window's end and a quarter of a second have passed. */
  predicate DueBy(settings: Settings, start: int, now: int) {
    start + settings.seconds * 1000000000 + 250000000 <= now
  }

  /** One scoring processes, beside what was processed, exactly the windows with a bucket that are due, or all. */
  lemma {:induction false} ScoringProcessesTheDue(settings: Settings, state: State, now: int, force: bool, start: int)
    requires settings.Valid()
    ensures ScoreReady(settings, state, now, force).buckets == state.buckets
    ensures start in ScoreReady(settings, state, now, force).processed <==>
      start in state.processed || (start in state.buckets && (force || DueBy(settings, start, now)))
  {
    hide Score, SortedStarts;
    ScoreKeeps(settings, state, SortedStarts(Ready(settings, state, now, force)));
    assert start in SortedStarts(Ready(settings, state, now, force)) <==> start in Ready(settings, state, now, force);
  }

  lemma {:induction false} ReadingProcessesNothing(settings: Settings, state: State, events: seq<Event>)
    requires settings.Valid()
    ensures Read(settings, state, events).processed == state.processed
  {
    hide Settings.StartOf;
    if events != [] {
      ReadingProcessesNothing(settings, state, Init(events));
    }
  }

  /** A window is processed only if it was due at the time of some turn. */
  lemma {:induction false} ProcessedWasDue(settings: Settings, polls: seq<Poll>, start: int)
    requires settings.Valid() && start in Polled(settings, polls).processed
    ensures exists k :: 0 <= k < |polls| && DueBy(settings, start, polls[k].now)
  {
    hide DueBy, Read, ScoreReady;
    if polls != [] {
      var before, last := polls[..|polls| - 1], polls[|polls| - 1];
      var read := Read(settings, Polled(settings, before), Lines(last));
      ReadingProcessesNothing(settings, Polled(settings, before), Lines(last));
      ScoringProcessesTheDue(settings, read, last.now, false, start);
      if start in Polled(settings, before).processed {
        ProcessedWasDue(settings, before, start);
        var k :| 0 <= k < |before| && DueBy(settings, start, before[k].now);
        assert polls[k] == before[k];
      } else {
        assert DueBy(settings, start, polls[|polls| - 1].now);
      }
    }
  }

  /** After a turn, every window with a bucket that was due at its time is processed. */
  lemma {:induction false} DueIsProcessed(settings: Settings, polls: seq<Poll>, start: int)
    requires settings.Valid() && polls != [] && start in Polled(settings, polls).buckets
    requires DueBy(settings, start, polls[|polls| - 1].now)
    ensures start in Polled(settings, polls).processed
  {
    hide DueBy, Read, ScoreReady;
    var before, last := polls[..|polls| - 1], polls[|polls| - 1];
    ScoringProcessesTheDue(settings, Read(settings, Polled(settings, before), Lines(last)), last.now, false, start);
  }

  /** Every request is read before any turn at whose time its window is due. */
  ghost predicate ReadInTime(settings: Settings, polls: seq<Poll>)
    requires settings.Valid()
  {
    forall j, k, event | 0 <= j < k < |polls| && event in Lines(polls[k]) && event.kind == Request ::
      !DueBy(settings, event.at - event.at % (settings.seconds * 1000000000), polls[j].now)
  }

  lemma {:induction false} NoneLateAmong(settings: Settings, state: State, lines: seq<Event>)
    requires settings.Valid()
    requires forall event | event in lines && event.kind == Request :: settings.StartOf(event.at) !in state.processed
    ensures NoneLate(settings, state, lines)
  {
    if lines != [] {
      var init, last := Init(lines), Last(lines);
      assert forall event | event in init :: event in lines;
      assert last in lines;
      hide Settings.StartOf, ReadOne, Kept;
      NoneLateAmong(settings, state, init);
      ReadingProcessesNothing(settings, state, init);
    }
  }

  /** Requests read in time are never late. */
  lemma {:induction false} InTimeIsNeverLate(settings: Settings, polls: seq<Poll>)
    requires settings.Valid() && ReadInTime(settings, polls)
    ensures NeverLate(settings, polls)
  {
    hide DueBy, NoneLate, Polled;
    if polls != [] {
      var before, last := polls[..|polls| - 1], polls[|polls| - 1];
      InTimeIsNeverLate(settings, before);
      var state := Polled(settings, before);
      forall event | event in Lines(last) && event.kind == Request
        ensures settings.StartOf(event.at) !in state.processed {
        if settings.StartOf(event.at) in state.processed {
          ProcessedWasDue(settings, before, settings.StartOf(event.at));
        }
      }
      NoneLateAmong(settings, state, Lines(last));
    }
  }

  /** So for one run whose requests are read in order of time, and each before a turn at which its window is due, the
      stopped monitor has scored what the batch gives. */
  lemma {:induction false} InTimeMatchesBatch(
    settings: Settings, run: string, polls: seq<Poll>, now: int, batch: seq<Event>)
    requires settings.Valid() && OneRun(AllRead(polls), run) && OneRun(batch, run)
    requires InTimeOrder(OfKind(batch, Request)) && OfKind(batch, Request) == OfKind(AllRead(polls), Request)
    requires ReadInTime(settings, polls)
    ensures Parts(Finished(settings, polls, now).scored) == Parts(Aggregate(batch, settings.seconds, settings.warmup))
  {
    hide OfKind, Aggregate, Finished, Parts, NeverLate;
    InTimeIsNeverLate(settings, polls);
    StreamingMatchesBatch(settings, run, polls, now, batch);
  }

  // ----- when the monitor stops, and what it reports

  /** No line of this turn is retained. */
  ghost predicate KeepsNothing(settings: Settings, polls: seq<Poll>, k: nat)
    requires settings.Valid() && k < |polls|
  {
    CountKept(settings, Polled(settings, polls[..k]), Lines(polls[k])) == 0
  }

  /** Once the done file is there, m turns are counted as quiet exactly when the last m turns kept no line. */
  lemma {:induction false} QuietTurns(settings: Settings, polls: seq<Poll>, m: nat)
    requires settings.Valid() && m <= |polls| && forall k | |polls| - m <= k < |polls| :: polls[k].done
    ensures Quiet(settings, polls) >= m <==> forall k | |polls| - m <= k < |polls| :: KeepsNothing(settings, polls, k)
  {
    hide CountKept, Polled;
    if m > 0 {
      var n := |polls| - 1;
      var before := polls[..n];
      QuietTurns(settings, before, m - 1);
      forall k: nat | k < n ensures KeepsNothing(settings, polls, k) == KeepsNothing(settings, before, k) {
        assert polls[..k] == before[..k];
      }
      assert KeepsNothing(settings, polls, n) <==> Quiet(settings, polls) == Quiet(settings, before) + 1;
    }
  }

  /** The alerts are the scored rows whose score exceeds the threshold, each as often as scored. */
  lemma {:induction false} AlertsAreAboveThreshold(rows: seq<Row>, score: Row -> real, threshold: real, row: Row)
    ensures multiset(Alerts(rows, score, threshold))[row] == if score(row) > threshold then multiset(rows)[row] else 0
  {
    if rows != [] {
      var before, last := rows[..|rows| - 1], rows[|rows| - 1];
      AlertsAreAboveThreshold(before, score, threshold, row);
      assert rows == before + [last];
    }
  }
}
