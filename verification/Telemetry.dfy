/** Telemetry events, the windows they fall in, and the two orders used to sort them (cote3mon/features.py). */
module Telemetry {
  import opened Orders
  import opened Sorting

  datatype Kind = Request | Resource | Other

  /** A telemetry line with its defaults filled in; names are in upper case and "" stands for an absent fingerprint. */
  datatype Event = Event(
    kind: Kind, run: string, at: int, scenario: string, attack: bool,
    operation: string, result: string, latency: real, bytes: real,
    keyFingerprint: string, requestFingerprint: string,
    cpu: real, rss: real)

  /** A window of one run, named by the time it starts. */
  datatype Window = Window(run: string, start: int)

  // ----- tuple order of windows

  predicate Before(a: Window, b: Window) {
    TextLess(a.run, b.run) || (a.run == b.run && a.start < b.start)
  }

  lemma {:induction false} BeforeTotal(a: Window, b: Window)
    ensures !(Before(a, b) && Before(b, a))
    ensures Before(a, b) || Before(b, a) <==> a != b
  {
    TextLessTotal(a.run, b.run);
  }

  lemma {:induction false} BeforeTransitive(a: Window, b: Window, c: Window)
    requires Before(a, b) && Before(b, c)
    ensures Before(a, c)
  {
    hide TextLess;
    if TextLess(a.run, b.run) && TextLess(b.run, c.run) {
      TextLessTransitive(a.run, b.run, c.run);
    }
  }

  lemma {:induction false} BeforeIsTotal()
    ensures TotalOrder(Before)
  {
    hide Before;
    forall a, b ensures !(Before(a, b) && Before(b, a)) && (Before(a, b) || Before(b, a) <==> a != b) {
      BeforeTotal(a, b);
    }
    forall a, b, c | Before(a, b) && Before(b, c) ensures Before(a, c) {
      BeforeTransitive(a, b, c);
    }
  }

  ghost predicate InOrder(windows: seq<Window>) {
    Increasing(Before, windows)
  }

  /** sorted() over the keys of a dictionary */
  function SortedWindows(windows: set<Window>): (sorted: seq<Window>)
    ensures forall window :: window in sorted <==> window in windows
    ensures InOrder(sorted)
  {
    BeforeIsTotal();
    Sorted(Before, windows)
  }

  // ----- order of time

  predicate Earlier(a: Event, b: Event) {
    a.at < b.at
  }

  /** sort(key=ts_unix_ns), which keeps events of equal time in their order */
  function SortedByTime(events: seq<Event>): (r: seq<Event>)
    ensures |r| == |events|
  {
    StableSorted(Earlier, events)
  }

  ghost predicate InTimeOrder(events: seq<Event>) {
    forall i, j | 0 <= i <= j < |events| :: events[i].at <= events[j].at
  }

  lemma {:induction false} SortedByTimeIsSorted(events: seq<Event>)
    ensures InTimeOrder(SortedByTime(events))
    ensures multiset(SortedByTime(events)) == multiset(events)
  {
    hide StableSorted;
    StableSortedIsSort(Earlier, events);
    assert Ordered(Earlier, SortedByTime(events));
  }
}
