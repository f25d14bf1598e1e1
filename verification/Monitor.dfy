/** Scoring windows and recording alerts with the local audit store (cote3mon/monitor.py, monitor_batch). */
module Monitor {
  import opened Wrappers
  import opened Audit
  import opened AuditStore
  import opened AuditStoreExactness
  import opened AuditSessions

  /** A loaded detector: a score for every row, and the threshold above which a row is an alert. */
  datatype Detector<!Row> = Detector(score: Row -> real, threshold: real)

  function Flagged<Row>(detector: Detector<Row>, rows: seq<Row>): seq<Row> {
    if rows == [] then [] else
    var last := |rows| - 1;
    Flagged(detector, rows[..last]) + if detector.score(rows[last]) <= detector.threshold then [] else [rows[last]]
  }

  /** The places of the rows that score above the threshold. */
  ghost function Above<Row>(detector: Detector<Row>, rows: seq<Row>): set<int> {
    set i | 0 <= i < |rows| && detector.score(rows[i]) > detector.threshold
  }

  lemma {:induction false} FlaggedAreAbove<Row>(detector: Detector<Row>, rows: seq<Row>)
    ensures |Flagged(detector, rows)| == |Above(detector, rows)|
  {
    if rows == [] {
      assert Above(detector, rows) == {};
    } else {
      var last := |rows| - 1;
      FlaggedAreAbove(detector, rows[..last]);
      assert Above(detector, rows) == Above(detector, rows[..last]) +
        if detector.score(rows[last]) > detector.threshold then {last} else {};
    }
  }

  /** Rows above the threshold are flagged in order: each stands at the number of such rows before it. */
  lemma {:induction false} FlaggedInOrder<Row>(detector: Detector<Row>, rows: seq<Row>, i: nat)
    requires i < |rows| && detector.score(rows[i]) > detector.threshold
    ensures var k := |Above(detector, rows[..i])|;
      k < |Flagged(detector, rows)| && Flagged(detector, rows)[k] == rows[i]
  {
    hide Above;
    var last := |rows| - 1;
    FlaggedAreAbove(detector, rows[..i]);
    if i < last {
      FlaggedInOrder(detector, rows[..last], i);
      assert rows[..last][..i] == rows[..i];
    }
  }

  /** The canonical text of the alerts for these rows, in row order. */
  function AlertTexts<Row>(describe: (Row, Digest) -> Octets, rows: seq<Row>, model: Digest): (alerts: seq<Octets>)
    ensures |alerts| == |rows| && forall i | 0 <= i < |rows| :: alerts[i] == describe(rows[i], model)
  {
    seq(|rows|, i requires 0 <= i < |rows| => describe(rows[i], model))
  }

  function Saved(alerts: seq<Octets>): (calls: seq<Call>)
    ensures |calls| == |alerts| && forall i | 0 <= i < |alerts| :: calls[i] == Add(alerts[i], true)
  {
    seq(|alerts|, i requires 0 <= i < |alerts| => Add(alerts[i], true))
  }

  /** One batch as a change of the store's state; what it issues is also what its alerts file holds. */
  function Batch(crypto: Crypto, s: State, payload: Octets, alerts: seq<Octets>): Attempt<(State, seq<Issued>)> {
    match Registered(crypto, s, payload)
    case Raised => Raised
    case Returned(registered) =>
      var done := RunSession(crypto, registered, Saved(alerts));
      if |done.log| == |alerts| then Returned((done.state, done.log)) else Raised
  }

  /** What every receipt list issued along a session looks like. */
  lemma {:induction false} SessionExtends(crypto: Crypto, start: State, log: seq<Issued>, alerts: seq<Octets>)
    requires Matches(crypto, start, log)
    ensures var done := RunSession(crypto, start, Saved(alerts));
      && Matches(crypto, done.state, log + done.log) && done.received == done.log
      && |done.log| <= |alerts|
      && (|done.log| == |alerts| ==> forall i | 0 <= i < |alerts| :: done.log[i].alert == alerts[i])
  {
    hide Message, Matches, NextReceipt;
    if alerts == [] {
      assert log + [] == log;
    } else {
      var last := |alerts| - 1;
      SessionExtends(crypto, start, log, alerts[..last]);
      assert Saved(alerts)[..last] == Saved(alerts[..last]);
      var before := RunSession(crypto, start, Saved(alerts[..last]));
      var next := NextReceipt(crypto, before.state, alerts[last]);
      if next.Returned? {
        MatchesAppend(crypto, before.state, log + before.log, alerts[last]);
        assert log + (before.log + [Issued(alerts[last], next.value)]) == (log + before.log) + [Issued(alerts[last], next.value)];
      }
    }
  }

  lemma {:induction false} SessionStep(crypto: Crypto, start: State, alerts: seq<Octets>, alert: Octets)
    ensures var before, after := RunSession(crypto, start, Saved(alerts)), RunSession(crypto, start, Saved(alerts + [alert]));
      match NextReceipt(crypto, before.state, alert)
      case Raised => after == before
      case Returned(r) => after.state == Advanced(before.state, r) && after.log == before.log + [Issued(alert, r)]
  {
    hide NextReceipt;
    assert Saved(alerts + [alert])[..|alerts|] == Saved(alerts);
  }

  lemma {:induction false} SessionLength(crypto: Crypto, start: State, alerts: seq<Octets>, n: nat)
    requires n <= |alerts|
    ensures |RunSession(crypto, start, Saved(alerts)).log| <=
      |RunSession(crypto, start, Saved(alerts[..n])).log| + |alerts| - n
  {
    hide NextReceipt;
    if n == |alerts| {
      assert alerts[..n] == alerts;
    } else {
      var last := |alerts| - 1;
      assert alerts[..last][..n] == alerts[..n] && alerts == alerts[..last] + [alerts[last]];
      SessionLength(crypto, start, alerts[..last], n);
      SessionStep(crypto, start, alerts[..last], alerts[last]);
    }
  }

  lemma {:induction false} SameLogAppended(crypto: Crypto, s: State, log: seq<Issued>, payload: Octets)
    requires Matches(crypto, s, log) && Registered(crypto, s, payload).Returned?
    ensures Matches(crypto, Registered(crypto, s, payload).value, log)
  {
    hide Message, Authentic;
  }

  /** A row becomes a record exactly when it scores above the threshold; any exception ends the batch. */
  method MonitorBatch<Row>(rows: seq<Row>, detector: Detector<Row>, describe: (Row, Digest) -> Octets, payload: Octets,
                           store: Store, savings: nat -> Saving) returns (file: Attempt<seq<Record>>)
    requires store.Valid()
    modifies store
    ensures store.Valid()
    ensures file.Returned? ==>
      var alerts := AlertTexts(describe, Flagged(detector, rows), store.crypto.sha(payload));
      var batch := Batch(store.crypto, old(store.state), payload, alerts);
      && batch.Returned? && store.state == batch.value.0 && store.log == old(store.log) + batch.value.1
      && file.value == RecordsOf(batch.value.1)
    ensures (forall n :: savings(n).Saves?) ==>
      var alerts := AlertTexts(describe, Flagged(detector, rows), store.crypto.sha(payload));
      (file.Returned? <==> Batch(store.crypto, old(store.state), payload, alerts).Returned?)
  {
    hide Message, NextReceipt, Store.Valid, RunSession, AlertTexts, Flagged, Saved;
    var registered := store.RegisterModel(payload, savings(0));
    if registered.Raised? {
      return Raised;
    }
    ghost var crypto, start, before := store.crypto, store.state, store.log;
    ghost var wanted := AlertTexts(describe, Flagged(detector, rows), registered.value);
    ghost var alerts: seq<Octets> := [];
    var records: seq<Record> := [];
    NothingYet(crypto, start, detector);
    for n := 0 to |rows|
      invariant store.Valid() && store.crypto == crypto
      invariant alerts == AlertTexts(describe, Flagged(detector, rows[..n]), registered.value)
      invariant var done := RunSession(crypto, start, Saved(alerts));
        && store.state == done.state && store.log == before + done.log && |done.log| == |alerts|
        && records == RecordsOf(done.log)
    {
      var row := rows[n];
      FlaggedStep(detector, describe, rows, n, registered.value);
      if detector.score(row) > detector.threshold {
        var alert := describe(row, registered.value);
        var receipt := store.Append(alert, savings(n + 1));
        SessionStep(crypto, start, alerts, alert);
        if receipt.Raised? {
          if forall n :: savings(n).Saves? {
            FlaggedPrefix(detector, describe, rows, n + 1, registered.value);
            assert wanted[..|alerts| + 1] == alerts + [alert];
            SessionLength(crypto, start, wanted, |alerts| + 1);
          }
          return Raised;
        }
        records := records + [Record(Some(alert), receipt.value, map[])];
        alerts := alerts + [alert];
      }
    }
    assert rows[..|rows|] == rows;
    file := Returned(records);
  }

  lemma {:induction false} NothingYet<Row>(crypto: Crypto, start: State, detector: Detector<Row>)
    ensures RunSession(crypto, start, Saved([])) == Session(start, [], start, [], [])
    ensures Flagged(detector, []) == []
  {
  }

  lemma {:induction false} FlaggedStep<Row>(
    detector: Detector<Row>, describe: (Row, Digest) -> Octets, rows: seq<Row>, n: nat, model: Digest)
    requires n < |rows|
    ensures AlertTexts(describe, Flagged(detector, rows[..n + 1]), model) ==
      AlertTexts(describe, Flagged(detector, rows[..n]), model) +
        if detector.score(rows[n]) <= detector.threshold then [] else [describe(rows[n], model)]
  {
    assert rows[..n + 1][..n] == rows[..n];
  }

  lemma {:induction false} FlaggedPrefix<Row>(detector: Detector<Row>, describe: (Row, Digest) -> Octets, rows: seq<Row>,
                                              n: nat, model: Digest)
    requires n <= |rows|
    ensures AlertTexts(describe, Flagged(detector, rows[..n]), model) <= AlertTexts(describe, Flagged(detector, rows), model)
    decreases |rows| - n
  {
    if n == |rows| {
      assert rows[..n] == rows;
    } else {
      FlaggedStep(detector, describe, rows, n, model);
      FlaggedPrefix(detector, describe, rows, n + 1, model);
    }
  }

  // ----- any number of batches

  datatype Batches = Batches(state: State, log: seq<Issued>, files: seq<seq<Record>>)

  /** Successful batches one after another with the same model; a failing one ends the story. */
  function RunBatches(crypto: Crypto, key: Digest, payload: Octets, batches: seq<seq<Octets>>): Attempt<Batches> {
    if batches == [] then Returned(Batches(FreshState(key), [], [])) else
    match RunBatches(crypto, key, payload, batches[..|batches| - 1])
    case Raised => Raised
    case Returned(before) =>
      match Batch(crypto, before.state, payload, batches[|batches| - 1])
      case Raised => Raised
      case Returned((state, issued)) => Returned(Batches(state, before.log + issued, before.files + [RecordsOf(issued)]))
  }

  function Concat(files: seq<seq<Record>>): seq<Record> {
    if files == [] then [] else Concat(files[..|files| - 1]) + files[|files| - 1]
  }

  lemma {:induction false} BatchMatches(crypto: Crypto, s: State, log: seq<Issued>, payload: Octets, alerts: seq<Octets>)
    requires Matches(crypto, s, log) && Batch(crypto, s, payload, alerts).Returned?
    ensures var (state, issued) := Batch(crypto, s, payload, alerts).value;
      && Matches(crypto, state, log + issued) && FileOf(RecordsOf(issued), alerts)
  {
    hide Message, Matches, RunSession, Registered;
    SameLogAppended(crypto, s, log, payload);
    SessionExtends(crypto, Registered(crypto, s, payload).value, log, alerts);
  }

  /** One record for each of these alerts, in their order. */
  ghost predicate FileOf(file: seq<Record>, alerts: seq<Octets>) {
    |file| == |alerts| && forall i | 0 <= i < |alerts| :: file[i].alert == Some(alerts[i])
  }

  lemma {:induction false} BatchesMatch(crypto: Crypto, key: Digest, payload: Octets, batches: seq<seq<Octets>>)
    requires RunBatches(crypto, key, payload, batches).Returned?
    ensures var done := RunBatches(crypto, key, payload, batches).value;
      && Matches(crypto, done.state, done.log) && Concat(done.files) == RecordsOf(done.log)
      && |done.files| == |batches| && forall b | 0 <= b < |batches| :: FileOf(done.files[b], batches[b])
  {
    hide Message, Matches, Batch, FileOf, RecordOf, RecordsOf;
    if batches == [] {
      FreshMatches(crypto, key);
    } else {
      var last := |batches| - 1;
      BatchesMatch(crypto, key, payload, batches[..last]);
      var before := RunBatches(crypto, key, payload, batches[..last]).value;
      var done := RunBatches(crypto, key, payload, batches).value;
      BatchMatches(crypto, before.state, before.log, payload, batches[last]);
      RecordsAppend(before.log, Batch(crypto, before.state, payload, batches[last]).value.1);
      assert done.files[..last] == before.files;
    }
  }

  lemma {:induction false} RecordsAppend(a: seq<Issued>, b: seq<Issued>)
    ensures RecordsOf(a + b) == RecordsOf(a) + RecordsOf(b)
  {
    hide RecordOf;
  }

  lemma {:induction false} FreshMatches(crypto: Crypto, key: Digest)
    ensures Matches(crypto, FreshState(key), [])
  {
  }

  /** The alert files of all the batches, put end to end, verify against the store's current head. */
  lemma {:induction false} ConcatenatedFilesVerify(
    crypto: Crypto, key: Digest, payload: Octets, batches: seq<seq<Octets>>)
    requires RunBatches(crypto, key, payload, batches).Returned?
    ensures var done := RunBatches(crypto, key, payload, batches).value;
      Accepts(crypto, done.state, Concat(done.files), true)
  {
    hide Message, Matches, RunBatches, LinkHolds;
    BatchesMatch(crypto, key, payload, batches);
    var done := RunBatches(crypto, key, payload, batches).value;
    LogRespellsItself(crypto, done.state, done.log);
    RespelledIsAccepted(crypto, done.state, done.log, RecordsOf(done.log));
  }
}
