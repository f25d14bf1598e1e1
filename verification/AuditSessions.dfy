/** Processes that append to an audit store one after another, some of their saves failing (cote3mon/audit_store.py). */
module AuditSessions {
  import opened Bytes
  import opened Audit
  import opened AuditStore
  import opened AuditStoreExactness

  /** An alert is appended and its save succeeds or fails, or the process ends and another reads the state file. */
  datatype Call = Add(alert: Octets, saved: bool) | Restart

  /** The state in memory and in the file, what each has signed since the start, and what the callers received. */
  datatype Session = Session(state: State, log: seq<Issued>, disk: State, diskLog: seq<Issued>, received: seq<Issued>)

  function RunSession(crypto: Crypto, start: State, calls: seq<Call>): Session {
    if calls == [] then Session(start, [], start, [], []) else
    var before := RunSession(crypto, start, calls[..|calls| - 1]);
    match calls[|calls| - 1]
    case Restart => before.(state := before.disk, log := before.diskLog)
    case Add(alert, saved) =>
      match NextReceipt(crypto, before.state, alert)
      case Raised => before
      case Returned(r) =>
        var state, log := Advanced(before.state, r), before.log + [Issued(alert, r)];
        if saved then Session(state, log, state, log, before.received + [Issued(alert, r)])
        else before.(state := state, log := log)
  }

  // ----- which failures matter

  predicate Failed(call: Call) {
    call.Add? && !call.saved
  }

  predicate EndsInFailure(calls: seq<Call>) {
    calls != [] && Failed(calls[|calls| - 1])
  }

  /** A failed save is followed by more failures or by the end of its process, as far as the calls go. */
  ghost predicate ForgottenSoFar(calls: seq<Call>) {
    forall i | 0 <= i < |calls| - 1 :: Failed(calls[i]) ==> calls[i + 1].Restart? || Failed(calls[i + 1])
  }

  /** No failed save is followed, in the same process, by a save that succeeds or by the end of the calls. */
  ghost predicate FailuresForgotten(calls: seq<Call>) {
    ForgottenSoFar(calls) && !EndsInFailure(calls)
  }

  lemma {:induction false} ForgottenStep(calls: seq<Call>)
    requires calls != []
    ensures var before, last := calls[..|calls| - 1], calls[|calls| - 1];
      ForgottenSoFar(calls) <==>
        ForgottenSoFar(before) && (EndsInFailure(before) ==> last.Restart? || Failed(last))
  {
    var before := calls[..|calls| - 1];
    assert forall i | 0 <= i < |before| :: before[i] == calls[i];
    if ForgottenSoFar(calls) {
      forall i | 0 <= i < |before| - 1 ensures Failed(before[i]) ==> before[i + 1].Restart? || Failed(before[i + 1]) {
        assert before[i] == calls[i];
      }
    }
  }

  // ----- what every session keeps

  /** The file lags behind the memory exactly while the last save failed; once a save that failed has been followed by
      one that did not, the file holds a receipt that nobody received. */
  ghost predicate Keeps(crypto: Crypto, start: State, base: seq<Issued>, calls: seq<Call>, done: Session) {
    && Matches(crypto, done.state, base + done.log) && Matches(crypto, done.disk, base + done.diskLog)
    && done.state.modelHash == done.disk.modelHash == start.modelHash
    && |done.diskLog| <= |done.log| <= |calls|
    && (EndsInFailure(calls) ==> |done.diskLog| < |done.log|)
    && if ForgottenSoFar(calls)
       then done.received == done.diskLog && (!EndsInFailure(calls) ==> done.log == done.diskLog)
       else |done.received| < |done.diskLog|
  }

  lemma {:induction false} SessionKeeps(crypto: Crypto, start: State, base: seq<Issued>, calls: seq<Call>)
    requires Matches(crypto, start, base) && start.modelHash.Some? && |base| + |calls| + 1 < TWO_TO_THE_64
    ensures Keeps(crypto, start, base, calls, RunSession(crypto, start, calls))
  {
    hide Message, Matches;
    if calls == [] {
      assert base + [] == base;
    } else {
      var last := calls[|calls| - 1];
      SessionKeeps(crypto, start, base, calls[..|calls| - 1]);
      var before := RunSession(crypto, start, calls[..|calls| - 1]);
      ForgottenStep(calls);
      if last.Add? {
        SequenceOf(crypto, before.state, base + before.log);
        MatchesAppend(crypto, before.state, base + before.log, last.alert);
        var entry := Issued(last.alert, NextReceipt(crypto, before.state, last.alert).value);
        assert base + (before.log + [entry]) == base + before.log + [entry];
      }
    }
  }

  lemma {:induction false} SequenceOf(crypto: Crypto, s: State, log: seq<Issued>)
    requires Matches(crypto, s, log)
    ensures s.sequence == |log|
  {
    hide Message;
  }

  /** From a store with any log on, through any number of processes: the records of that log and those the callers
      received since verify against the store, in the process that runs last, exactly when no failed save was followed in
      its own process by a save or by the verification. */
  lemma {:induction false} ReceivedVerifyIffFailuresForgotten(
    crypto: Crypto, start: State, base: seq<Issued>, calls: seq<Call>)
    requires Matches(crypto, start, base) && start.modelHash.Some? && |base| + |calls| + 1 < TWO_TO_THE_64
    ensures var done := RunSession(crypto, start, calls);
      Accepts(crypto, done.state, RecordsOf(base + done.received), true) <==> FailuresForgotten(calls)
  {
    hide Message, Matches, RunSession, LinkHolds, ForgottenSoFar;
    SessionKeeps(crypto, start, base, calls);
    var done := RunSession(crypto, start, calls);
    SequenceOf(crypto, done.state, base + done.log);
    if FailuresForgotten(calls) {
      LogRespellsItself(crypto, done.state, base + done.log);
      RespelledIsAccepted(crypto, done.state, base + done.log, RecordsOf(base + done.log));
    }
  }

  /** In one process: exactly when no save failed. */
  lemma {:induction false} WithinOneProcess(crypto: Crypto, start: State, base: seq<Issued>, calls: seq<Call>)
    requires Matches(crypto, start, base) && start.modelHash.Some? && |base| + |calls| + 1 < TWO_TO_THE_64
    requires forall i | 0 <= i < |calls| :: calls[i].Add?
    ensures var done := RunSession(crypto, start, calls);
      Accepts(crypto, done.state, RecordsOf(base + done.received), true) <==>
        forall i | 0 <= i < |calls| :: calls[i].saved
  {
    hide Matches, Accepts, RunSession;
    ReceivedVerifyIffFailuresForgotten(crypto, start, base, calls);
    if FailuresForgotten(calls) {
      forall i | 0 <= i < |calls| ensures calls[i].saved {
        NoneFailed(calls, i);
      }
    }
  }

  lemma {:induction false} NoneFailed(calls: seq<Call>, i: nat)
    requires FailuresForgotten(calls) && i < |calls| && forall j | 0 <= j < |calls| :: calls[j].Add?
    ensures !Failed(calls[i])
    decreases |calls| - i
  {
    if i + 1 < |calls| {
      NoneFailed(calls, i + 1);
    }
  }
}
