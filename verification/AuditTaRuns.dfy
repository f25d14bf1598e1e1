/** What holds over every run of the trusted application, and how the Python store relates to it. */
module AuditTaRuns {
  import opened Bytes
  import opened Wrappers
  import opened Audit
  import opened AuditTa
  import opened AuditStore

  // ----- numbering and linking

  /** The receipts handed out are numbered 1 to n, linked from the zero hash on, all of one model and all genuine. */
  lemma {:induction false} EveryRunIsOneChain(crypto: Crypto, commands: seq<(Command, Env)>)
    requires |RunTa(crypto, commands).log| < TWO_TO_THE_64
    ensures var h := RunTa(crypto, commands);
      && (h.stored.None? ==> h.log == [])
      && (h.stored.Some? ==>
            && Chain(crypto, h.stored.value.key, h.log)
            && h.stored.value.sequence == |h.log| && h.stored.value.head == HeadOf(h.log)
            && forall r <- h.log :: r.model == h.stored.value.model)
  {
    hide Message, Authentic, RunTa;
    EveryRunMatches(crypto, commands);
    var h := RunTa(crypto, commands);
    if h.stored.Some? {
      forall i: nat | i < |h.log| ensures Linked(crypto, h.stored.value.key, h.log, i) {
        assert TaLinked(crypto, h.stored.value.key, h.log, i);
      }
    }
  }

  /** A command that is refused hands out no receipt; at most it has created the initial object. */
  lemma {:induction false} RefusedChangesNothing(crypto: Crypto, stored: Option<TaState>, command: Command, env: Env)
    requires Perform(crypto, stored, command, env).1.result != Success
    ensures var (now, reply) := Perform(crypto, stored, command, env);
      && reply.receipt.None? && reply.head.None?
      && (now == stored || (stored.None? && now == Some(InitialState(env.freshKey))))
  {
    hide Message;
  }

  // ----- what never changes again

  lemma {:induction false} LogOnlyGrows(crypto: Crypto, commands: seq<(Command, Env)>, n: nat)
    requires n <= |commands|
    ensures var (early, late) := (RunTa(crypto, commands[..n]), RunTa(crypto, commands));
      && early.log <= late.log
      && (early.stored.Some? ==> late.stored.Some? && late.stored.value.key == early.stored.value.key)
  {
    hide Message;
    if n == |commands| {
      assert commands[..n] == commands;
    } else {
      var before := commands[..|commands| - 1];
      assert before[..n] == commands[..n];
      LogOnlyGrows(crypto, before, n);
      var (command, env) := commands[|commands| - 1];
      if RunTa(crypto, before).stored.Some? {
        KeyStays(crypto, RunTa(crypto, before).stored, command, env);
      }
      hide Perform;
    }
  }

  lemma {:induction false} KeyStays(crypto: Crypto, stored: Option<TaState>, command: Command, env: Env)
    requires stored.Some?
    ensures var now := Perform(crypto, stored, command, env).0; now.Some? && now.value.key == stored.value.key
  {
    hide Message;
  }

  /** Once a receipt has been handed out the model and the key are fixed for good. */
  lemma {:induction false} ModelNeverChanges(crypto: Crypto, commands: seq<(Command, Env)>, n: nat)
    requires n <= |commands| && |RunTa(crypto, commands).log| < TWO_TO_THE_64
    requires RunTa(crypto, commands[..n]).stored.Some? && RunTa(crypto, commands[..n]).stored.value.sequence > 0
    ensures var (early, late) := (RunTa(crypto, commands[..n]), RunTa(crypto, commands));
      && late.stored.Some? && late.stored.value.sequence >= early.stored.value.sequence
      && late.stored.value.model == early.stored.value.model && late.stored.value.key == early.stored.value.key
  {
    hide RunTa, Message;
    LogOnlyGrows(crypto, commands, n);
    EveryRunIsOneChain(crypto, commands[..n]);
    EveryRunIsOneChain(crypto, commands);
    var (early, late) := (RunTa(crypto, commands[..n]), RunTa(crypto, commands));
    assert early.log[0] in early.log && late.log[0] in late.log && early.log[0] == late.log[0];
  }

  // ----- the Python store and the application, from equal states

  /** The application's object seen as the Python store's state. */
  function AsStoreState(s: TaState): State {
    State(s.key, if s.registered then Some(s.model) else None, s.sequence, s.head)
  }

  const CALM := Env(true, true, true, true, true, true, ZERO_HASH)

  lemma {:induction false} RegisterAgrees(crypto: Crypto, s: TaState, payload: Octets)
    requires s.magic == STATE_MAGIC && s.version == STATE_VERSION && (s.sequence > 0 ==> s.registered)
    ensures var (now, reply) := Perform(crypto, Some(s), Register(true, crypto.sha(payload)), CALM);
      var python := Registered(crypto, AsStoreState(s), payload);
      && (reply.result == Success <==> python.Returned?)
      && (python.Returned? ==> now.Some? && python.value == AsStoreState(now.value))
      && (python.Raised? ==> now == Some(s))
  {
  }

  /** Both reject, or both issue the same receipt and move to the same state. */
  ghost predicate AppendAgrees(crypto: Crypto, s: TaState, alert: Octets) {
    var (now, reply) := Perform(crypto, Some(s), Append(true, crypto.sha(alert), RECEIPT_SIZE), CALM);
    match NextReceipt(crypto, AsStoreState(s), alert)
    case Returned(r) =>
      && reply == Reply(Success, Some(r), None)
      && now.Some? && AsStoreState(now.value) == Advanced(AsStoreState(s), r)
    case Raised => reply.result != Success && now == Some(s)
  }

  /** The two part ways only at the last sequence number: Python raises, the application wraps to zero. */
  lemma {:induction false} AppendAgreesExactly(crypto: Crypto, s: TaState, alert: Octets)
    requires s.magic == STATE_MAGIC && s.version == STATE_VERSION && s.sequence < TWO_TO_THE_64
    ensures AppendAgrees(crypto, s, alert) <==> !s.registered || s.sequence < TWO_TO_THE_64 - 1
  {
    hide Message;
  }
}
