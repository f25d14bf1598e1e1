/** The audit trusted application (optee/audit_ta/ta/entry.c): four commands over one persistent object. */
module AuditTa {
  import opened Bytes
  import opened Wrappers
  import opened Audit

  const STATE_MAGIC := 0x43334131
  const STATE_VERSION := 1
  const RECEIPT_SIZE := 136
  const HEAD_SIZE := 72

  datatype TeeResult =
    | Success | BadParameters | ShortBuffer | AccessConflict | BadState | MacInvalid | CorruptObject
    | NotSupported | StorageFault | MacFault

  /** struct audit_state */
  datatype TaState = TaState(
    magic: nat, version: nat, sequence: nat, registered: bool, key: Digest, model: Digest, head: Digest)

  /** What the platform does during one command: which calls succeed, and the key it would generate. The save that
      creates the object and the command's own save fail or succeed on their own. */
  datatype Env = Env(open: bool, read: bool, complete: bool, create: bool, save: bool, mac: bool, freshKey: Digest)

  datatype HeadInfo = HeadInfo(sequence: nat, model: Digest, head: Digest)

  /** A command with its parameters; `types` says whether the parameter types are the expected ones. */
  datatype Command =
    | Register(types: bool, hash: Octets)
    | Append(types: bool, hash: Octets, capacity: nat)
    | GetHead(types: bool, capacity: nat)
    | Verify(types: bool, receipt: Option<Receipt>)
    | Unknown

  datatype Reply = Reply(result: TeeResult, receipt: Option<Receipt>, head: Option<HeadInfo>)

  function Refusal(result: TeeResult): Reply {
    Reply(result, None, None)
  }

  function InitialState(key: Digest): TaState {
    TaState(STATE_MAGIC, STATE_VERSION, 0, false, key, ZERO_HASH, ZERO_HASH)
  }

  // ----- the commands as functions of the stored object

  /** The stored object afterwards and, on success, the state read. */
  function Loaded(stored: Option<TaState>, env: Env): (Option<TaState>, TeeResult) {
    if !env.open then (stored, StorageFault)
    else if stored.None? then
      if env.create then (Some(InitialState(env.freshKey)), Success) else (None, StorageFault)
    else if !env.read then (stored, StorageFault)
    else if !env.complete || stored.value.magic != STATE_MAGIC || stored.value.version != STATE_VERSION then
      (stored, CorruptObject)
    else (stored, Success)
  }

  function NextTaReceipt(crypto: Crypto, s: TaState, alertHash: Digest): Receipt {
    var sequence := (s.sequence + 1) % TWO_TO_THE_64;
    Receipt(sequence, s.head, alertHash, s.model, crypto.mac(s.key, Message(sequence, s.head, alertHash, s.model)))
  }

  function Perform(crypto: Crypto, stored: Option<TaState>, command: Command, env: Env): (Option<TaState>, Reply) {
    match command
    case Unknown => (stored, Refusal(NotSupported))
    case Register(types, hash) =>
      if !types || |hash| != HASH_SIZE then (stored, Refusal(BadParameters)) else
      var (now, result) := Loaded(stored, env);
      if result != Success || now.None? then (now, Refusal(result))
      else if now.value.sequence > 0 && now.value.model != hash then (now, Refusal(AccessConflict))
      else if !env.save then (now, Refusal(StorageFault))
      else (Some(now.value.(model := hash, registered := true)), Refusal(Success))
    case Append(types, hash, capacity) =>
      if !types || |hash| != HASH_SIZE then (stored, Refusal(BadParameters))
      else if capacity < RECEIPT_SIZE then (stored, Refusal(ShortBuffer)) else
      var (now, result) := Loaded(stored, env);
      if result != Success || now.None? then (now, Refusal(result))
      else if !now.value.registered then (now, Refusal(BadState))
      else if !env.mac then (now, Refusal(MacFault))
      else if !env.save then (now, Refusal(StorageFault))
      else
        var r := NextTaReceipt(crypto, now.value, hash);
        (Some(now.value.(sequence := r.sequence, head := r.head)), Reply(Success, Some(r), None))
    case GetHead(types, capacity) =>
      if !types then (stored, Refusal(BadParameters))
      else if capacity < HEAD_SIZE then (stored, Refusal(ShortBuffer)) else
      var (now, result) := Loaded(stored, env);
      if result != Success || now.None? then (now, Refusal(result))
      else (now, Reply(Success, None, Some(HeadInfo(now.value.sequence, now.value.model, now.value.head))))
    case Verify(types, receipt) =>
      if !types || receipt.None? then (stored, Refusal(BadParameters)) else
      var (now, result) := Loaded(stored, env);
      if result != Success || now.None? then (now, Refusal(result))
      else if !env.mac then (now, Refusal(MacFault))
      else (now, Refusal(if Authentic(crypto, now.value.key, receipt.value) then Success else MacInvalid))
  }

  // ----- the application itself

  /** encode_u64_be: the shift loop fills the array from its end. */
  method EncodeU64Be(output: array<byte>, value: nat)
    requires output.Length == 8 && value < TWO_TO_THE_64
    modifies output
    ensures output[..] == BigEndian(value, 8)
  {
    for index := 0 to 8
      invariant forall j: nat {:trigger Pow256(j)} | j < index :: output[7 - j] == value / Pow256(j) % 256
    {
      output[7 - index] := value / Pow256(index) % 256;
    }
    forall i | 0 <= i < 8 ensures output[i] == BigEndian(value, 8)[i] {
      BigEndianAt(value, 8, 7 - i);
      assert output[7 - (7 - i)] == value / Pow256(7 - i) % 256;
    }
  }

  class AuditTa {
    const crypto: Crypto
    var stored: Option<TaState>

    constructor (crypto: Crypto)
      ensures this.crypto == crypto && stored == None
    {
      this.crypto := crypto;
      stored := None;
    }

    method SaveState(state: TaState, succeeds: bool) returns (result: TeeResult)
      modifies this
      ensures if succeeds then result == Success && stored == Some(state)
        else result == StorageFault && stored == old(stored)
    {
      if !succeeds {
        return StorageFault;
      }
      stored := Some(state);
      result := Success;
    }

    method LoadState(env: Env) returns (result: TeeResult, state: TaState)
      modifies this
      ensures (stored, result) == Loaded(old(stored), env)
      ensures result == Success ==> stored == Some(state)
    {
      state := InitialState(env.freshKey);
      if !env.open {
        return StorageFault, state;
      }
      if stored.None? {
        result := SaveState(state, env.create);
        return;
      }
      if !env.read {
        return StorageFault, state;
      }
      state := stored.value;
      if !env.complete || state.magic != STATE_MAGIC || state.version != STATE_VERSION {
        return CorruptObject, state;
      }
      result := Success;
    }

    /** The message buffer is filled by offset; the MAC itself is the platform's. */
    method ComputeHmac(state: TaState, sequence: nat, previous: Digest, alert: Digest, model: Digest, env: Env)
      returns (result: TeeResult, output: Digest)
      requires sequence < TWO_TO_THE_64
      ensures result == if env.mac then Success else MacFault
      ensures result == Success ==> output == crypto.mac(state.key, Message(sequence, previous, alert, model))
    {
      var message := new byte[113];
      FillMessage(message, sequence, previous, alert, model);
      if !env.mac {
        return MacFault, ZERO_HASH;
      }
      result, output := Success, crypto.mac(state.key, message[..]);
    }

    method FillMessage(message: array<byte>, sequence: nat, previous: Digest, alert: Digest, model: Digest)
      requires message.Length == 113 && sequence < TWO_TO_THE_64
      modifies message
      ensures message[..] == Message(sequence, previous, alert, model)
    {
      var sequenceBytes := new byte[8];
      EncodeU64Be(sequenceBytes, sequence);
      hide BigEndian;
      ghost var m1 := DOMAIN + BigEndian(sequence, 8);
      var offset := 0;
      Memcpy(message, offset, DOMAIN);
      offset := offset + |DOMAIN|;
      Memcpy(message, offset, sequenceBytes[..]);
      offset := offset + 8;
      assert message[..offset] == m1;
      Memcpy(message, offset, previous);
      offset := offset + 32;
      assert message[..offset] == m1 + previous;
      Memcpy(message, offset, alert);
      offset := offset + 32;
      assert message[..offset] == m1 + previous + alert;
      Memcpy(message, offset, model);
      assert message[..] == message[..113];
    }

    method RegisterModel(types: bool, hash: Octets, env: Env) returns (result: TeeResult)
      modifies this
      ensures (stored, Refusal(result)) == Perform(crypto, old(stored), Register(types, hash), env)
    {
      if !types || |hash| != HASH_SIZE {
        return BadParameters;
      }
      var state;
      result, state := LoadState(env);
      if result != Success {
        return;
      }
      if state.sequence > 0 && state.model != hash {
        return AccessConflict;
      }
      state := state.(model := hash);
      state := state.(registered := true);
      result := SaveState(state, env.save);
    }

    method AppendAlert(types: bool, hash: Octets, capacity: nat, env: Env) returns (reply: Reply)
      modifies this
      ensures (stored, reply) == Perform(crypto, old(stored), Append(types, hash, capacity), env)
    {
      hide Message;
      if !types || |hash| != HASH_SIZE {
        return Refusal(BadParameters);
      }
      if capacity < RECEIPT_SIZE {
        return Refusal(ShortBuffer);
      }
      var result, state := LoadState(env);
      if result != Success {
        return Refusal(result);
      }
      if !state.registered {
        return Refusal(BadState);
      }
      var sequence := (state.sequence + 1) % TWO_TO_THE_64;
      var head;
      result, head := ComputeHmac(state, sequence, state.head, hash, state.model, env);
      if result != Success {
        return Refusal(result);
      }
      var receipt := Receipt(sequence, state.head, hash, state.model, head);
      state := state.(sequence := receipt.sequence, head := receipt.head);
      result := SaveState(state, env.save);
      if result != Success {
        return Refusal(result);
      }
      reply := Reply(Success, Some(receipt), None);
    }

    method GetHead(types: bool, capacity: nat, env: Env) returns (reply: Reply)
      modifies this
      ensures (stored, reply) == Perform(crypto, old(stored), Command.GetHead(types, capacity), env)
    {
      if !types {
        return Refusal(BadParameters);
      }
      if capacity < HEAD_SIZE {
        return Refusal(ShortBuffer);
      }
      var result, state := LoadState(env);
      if result != Success {
        return Refusal(result);
      }
      reply := Reply(Success, None, Some(HeadInfo(state.sequence, state.model, state.head)));
    }

    method VerifyReceipt(types: bool, receipt: Option<Receipt>, env: Env) returns (result: TeeResult)
      requires receipt.Some? ==> receipt.value.sequence < TWO_TO_THE_64
      modifies this
      ensures (stored, Refusal(result)) == Perform(crypto, old(stored), Verify(types, receipt), env)
    {
      hide Message;
      if !types || receipt.None? {
        return BadParameters;
      }
      var state, expected;
      result, state := LoadState(env);
      if result != Success {
        return;
      }
      var r := receipt.value;
      result, expected := ComputeHmac(state, r.sequence, r.previous, r.alertHash, r.model, env);
      if result != Success {
        return;
      }
      result := if expected == r.head then Success else MacInvalid;
    }

    /** TA_InvokeCommandEntryPoint */
    method Invoke(command: Command, env: Env) returns (reply: Reply)
      requires command.Verify? && command.receipt.Some? ==> command.receipt.value.sequence < TWO_TO_THE_64
      modifies this
      ensures (stored, reply) == Perform(crypto, old(stored), command, env)
    {
      match command
      case Register(types, hash) =>
        var result := RegisterModel(types, hash, env);
        reply := Refusal(result);
      case Append(types, hash, capacity) =>
        reply := AppendAlert(types, hash, capacity, env);
      case GetHead(types, capacity) =>
        reply := GetHead(types, capacity, env);
      case Verify(types, receipt) =>
        var result := VerifyReceipt(types, receipt, env);
        reply := Refusal(result);
      case Unknown =>
        reply := Refusal(NotSupported);
    }
  }

  // ----- every run: what was signed, and what is stored

  /** A run of commands: the stored object and the receipts handed out so far. */
  datatype History = History(stored: Option<TaState>, log: seq<Receipt>)

  function RunTa(crypto: Crypto, commands: seq<(Command, Env)>): History {
    if commands == [] then History(None, []) else
    var before := RunTa(crypto, commands[..|commands| - 1]);
    var (command, env) := commands[|commands| - 1];
    var (stored, reply) := Perform(crypto, before.stored, command, env);
    History(stored, before.log + if reply.receipt.Some? then [reply.receipt.value] else [])
  }

  /** Like Audit.Linked, with the counter's wrap at 2^64. */
  predicate TaLinked(crypto: Crypto, key: Digest, rs: seq<Receipt>, i: nat)
    requires i < |rs|
  {
    rs[i].sequence == (i + 1) % TWO_TO_THE_64 && rs[i].previous == HeadBefore(rs, i) && Authentic(crypto, key, rs[i])
  }

  /** What every reachable stored object says about the receipts handed out. */
  ghost predicate TaMatches(crypto: Crypto, h: History) {
    match h.stored
    case None => h.log == []
    case Some(s) =>
      && s.magic == STATE_MAGIC && s.version == STATE_VERSION
      && (forall i: nat | i < |h.log| :: TaLinked(crypto, s.key, h.log, i))
      && s.sequence == |h.log| % TWO_TO_THE_64
      && s.head == HeadOf(h.log)
      && (h.log != [] ==> s.registered)
      && (|h.log| < TWO_TO_THE_64 ==> forall r <- h.log :: r.model == s.model)
  }

  lemma {:induction false} LoadMatches(crypto: Crypto, h: History, env: Env)
    requires TaMatches(crypto, h)
    ensures TaMatches(crypto, History(Loaded(h.stored, env).0, h.log))
    ensures Loaded(h.stored, env).1 == Success ==> Loaded(h.stored, env).0.Some?
  {
  }

  lemma {:induction false} AppendMatches(crypto: Crypto, h: History, alertHash: Digest)
    requires TaMatches(crypto, h) && h.stored.Some? && h.stored.value.registered
    ensures var r := NextTaReceipt(crypto, h.stored.value, alertHash);
      TaMatches(crypto, History(Some(h.stored.value.(sequence := r.sequence, head := r.head)), h.log + [r]))
  {
    hide Message;
    var s := h.stored.value;
    var r := NextTaReceipt(crypto, s, alertHash);
    forall i: nat | i <= |h.log| ensures TaLinked(crypto, s.key, h.log + [r], i) {
      if i < |h.log| {
        assert TaLinked(crypto, s.key, h.log, i);
      }
    }
  }

  lemma {:induction false} EveryRunMatches(crypto: Crypto, commands: seq<(Command, Env)>)
    ensures TaMatches(crypto, RunTa(crypto, commands))
  {
    hide Message, TaMatches;
    if commands == [] {
      EmptyMatches(crypto);
    } else {
      var before := RunTa(crypto, commands[..|commands| - 1]);
      var (command, env) := commands[|commands| - 1];
      EveryRunMatches(crypto, commands[..|commands| - 1]);
      StepMatches(crypto, before, command, env);
    }
  }

  lemma {:induction false} EmptyMatches(crypto: Crypto)
    ensures TaMatches(crypto, History(None, []))
  {
  }

  /** Whatever the command and whatever fails, the invariant survives it. */
  lemma {:induction false} StepMatches(crypto: Crypto, h: History, command: Command, env: Env)
    requires TaMatches(crypto, h)
    ensures var (stored, reply) := Perform(crypto, h.stored, command, env);
      TaMatches(crypto, History(stored, h.log + if reply.receipt.Some? then [reply.receipt.value] else []))
  {
    hide Message, Authentic, TaLinked;
    LoadMatches(crypto, h, env);
    assert h.log + [] == h.log;
    var now := Loaded(h.stored, env).0;
    if command.Append? && now.Some? && now.value.registered && |command.hash| == HASH_SIZE {
      AppendMatches(crypto, History(now, h.log), command.hash);
    }
  }
}
