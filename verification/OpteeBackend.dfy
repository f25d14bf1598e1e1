/** The monitor's verifier against the trusted application (cote3mon/monitor.py, OpteeAuditBackend). */
module OpteeBackend {
  import opened Bytes
  import opened Wrappers
  import opened Hex
  import opened Json
  import opened Audit
  import opened AuditStore
  import opened AuditStoreExactness
  import opened AuditTa

  // ----- the command line client, which turns text into command parameters

  /** strtoull: a minus sign negates modulo 2^64, and a number out of range is refused. */
  function ClientSequence(n: int): Option<nat> {
    if 0 <= n < TWO_TO_THE_64 then Some(n)
    else if -TWO_TO_THE_64 < n < 0 then Some(n + TWO_TO_THE_64)
    else None
  }

  predicate HexDigits(text: string) {
    forall i | 0 <= i < |text| :: DigitValue(text[i]).Some?
  }

  lemma {:induction false} HexDigitsDecode(text: string)
    requires HexDigits(text) && |text| % 2 == 0
    ensures FromHex(text).Some? && 2 * |FromHex(text).value| == |text|
  {
    if text != "" {
      HexDigitsDecode(text[2..]);
      hide FromHex;
      FromHexStep(text);
    }
  }

  function ClientDigest(text: string): Option<Digest> {
    if |text| == 2 * HASH_SIZE && HexDigits(text) then
      HexDigitsDecode(text);
      Some(FromHex(text).value)
    else None
  }

  /** The receipt in the arguments str(int(…)), str(…), …; none when a key is missing or the client refuses one. */
  function ClientReceipt(crypto: Crypto, doc: ReceiptDoc): Option<Receipt> {
    var number := IntOf(doc.sequence, crypto.numeral);
    if !number.Number? then None else
    var sequence, previous := ClientSequence(number.n), ClientHash(doc.previousHead);
    var alert, model, head := ClientHash(doc.alertHash), ClientHash(doc.modelHash), ClientHash(doc.head);
    if sequence.None? || previous.None? || alert.None? || model.None? || head.None? then None
    else Some(Receipt(sequence.value, previous.value, alert.value, model.value, head.value))
  }

  function ClientHash(value: Option<Json>): Option<Digest> {
    if TextOf(value).None? then None else ClientDigest(TextOf(value).value)
  }

  // ----- what the chain verifier checks of each record

  predicate PlainDigest(value: Option<Json>) {
    TextOf(value).Some? && IsPlainDigest(TextOf(value).value)
  }

  predicate PlainDoc(doc: ReceiptDoc) {
    PlainDigest(doc.previousHead) && PlainDigest(doc.alertHash) && PlainDigest(doc.modelHash) && PlainDigest(doc.head)
  }

  predicate LinkText(crypto: Crypto, records: seq<Record>, i: nat)
    requires i < |records|
  {
    var doc := records[i].receipt;
    && records[i].alert.Some? && PlainDoc(doc)
    && IntOf(doc.sequence, crypto.numeral) == Number(i + 1)
    && TextOf(doc.previousHead) == Some(HeadText(records, i))
    && TextOf(doc.alertHash) == Some(ToHex(crypto.sha(records[i].alert.value)))
    && TextOf(doc.modelHash) == TextOf(records[0].receipt.modelHash)
  }

  predicate LinkGenuine(crypto: Crypto, key: Digest, doc: ReceiptDoc) {
    ClientReceipt(crypto, doc).Some? && Authentic(crypto, key, ClientReceipt(crypto, doc).value)
  }

  predicate LinkVerified(crypto: Crypto, s: TaState, records: seq<Record>, i: nat)
    requires i < |records|
  {
    LinkText(crypto, records, i) && LinkGenuine(crypto, s.key, records[i].receipt)
  }

  predicate HeadAgrees(s: TaState, records: seq<Record>) {
    && s.sequence == |records|
    && ToHex(s.head) == HeadText(records, |records|)
    && (records != [] ==> Some(ToHex(s.model)) == TextOf(records[0].receipt.modelHash))
  }

  /** Acceptance, said of the object stored when the verifier is done. */
  ghost predicate OpteeAccepts(crypto: Crypto, stored: Option<TaState>, records: seq<Record>, requireCurrentHead: bool) {
    && (records != [] || requireCurrentHead ==> stored.Some?)
    && (stored.Some? ==>
          && (forall i: nat | i < |records| :: LinkVerified(crypto, stored.value, records, i))
          && (requireCurrentHead ==> HeadAgrees(stored.value, records)))
  }

  ghost predicate Calm(envs: nat -> Env) {
    forall n :: envs(n).open && envs(n).read && envs(n).complete && envs(n).create && envs(n).mac
  }

  ghost predicate Sound(stored: Option<TaState>) {
    stored.Some? ==> stored.value.magic == STATE_MAGIC && stored.value.version == STATE_VERSION
  }

  /** Verifying only ever creates the initial object. */
  ghost predicate OnlyCreated(before: Option<TaState>, after: Option<TaState>) {
    after == before || (before.None? && after.Some? && after.value == InitialState(after.value.key))
  }

  class OpteeAuditBackend {
    const ta: AuditTa

    constructor (ta: AuditTa)
      ensures this.ta == ta
    {
      this.ta := ta;
    }

    /** Infinity as the sequence number raises; every other failure is caught. */
    method VerifyReceipt(doc: ReceiptDoc, env: Env) returns (valid: Attempt<bool>)
      requires Sound(ta.stored)
      modifies ta
      ensures Sound(ta.stored) && OnlyCreated(old(ta.stored), ta.stored)
      ensures valid.Raised? <==> IntOf(doc.sequence, ta.crypto.numeral).Uncaught?
      ensures valid == Returned(true) ==> ta.stored.Some? && LinkGenuine(ta.crypto, ta.stored.value.key, doc)
      ensures env.open && env.read && env.complete && env.create && env.mac && ClientReceipt(ta.crypto, doc).Some? ==>
        ta.stored.Some? && (valid == Returned(true) <==> LinkGenuine(ta.crypto, ta.stored.value.key, doc))
    {
      hide FromHex, Message;
      if IntOf(doc.sequence, ta.crypto.numeral).Uncaught? {
        return Raised;
      }
      var receipt := ClientReceipt(ta.crypto, doc);
      if receipt.None? {
        return Returned(false);
      }
      var reply := ta.Invoke(Verify(true, receipt), env);
      valid := Returned(reply.result == Success);
    }

    /** None stands for a failed client call. */
    method GetHead(env: Env) returns (head: Option<HeadInfo>)
      requires Sound(ta.stored)
      modifies ta
      ensures Sound(ta.stored) && OnlyCreated(old(ta.stored), ta.stored)
      ensures head.Some? ==>
        && ta.stored.Some?
        && head.value == HeadInfo(ta.stored.value.sequence, ta.stored.value.model, ta.stored.value.head)
      ensures env.open && env.read && env.complete && env.create ==> head.Some?
    {
      var reply := ta.Invoke(Command.GetHead(true, HEAD_SIZE), env);
      head := if reply.result == Success then reply.head else None;
    }

    /** Accepted under any faults implies acceptable; when no call fails the two coincide. */
    method VerifyChain(records: seq<Record>, requireCurrentHead: bool, envs: nat -> Env)
      returns (accepted: Attempt<bool>)
      requires Sound(ta.stored)
      modifies ta
      ensures Sound(ta.stored) && OnlyCreated(old(ta.stored), ta.stored)
      ensures accepted == Returned(true) ==> OpteeAccepts(ta.crypto, ta.stored, records, requireCurrentHead)
      ensures Calm(envs) && |records| < TWO_TO_THE_64 ==>
        (accepted == Returned(true) <==> OpteeAccepts(ta.crypto, ta.stored, records, requireCurrentHead))
      ensures accepted.Raised? ==> exists i :: 0 <= i < |records| && records[i].receipt.sequence == Some(Infinite)
    {
      hide FromHex, ToHex, Message, Authentic, LinkGenuine;
      var previous, sequence: nat := ToHex(ZERO_HASH), 0;
      var modelHash: Option<string> := None;
      for n := 0 to |records|
        invariant sequence == n && previous == HeadText(records, n)
        invariant modelHash == if n == 0 then None else TextOf(records[0].receipt.modelHash)
        invariant n > 0 ==> modelHash.Some? && ta.stored.Some?
        invariant Sound(ta.stored) && OnlyCreated(old(ta.stored), ta.stored)
        invariant n > 0 ==> forall i: nat | i < n :: LinkVerified(ta.crypto, ta.stored.value, records, i)
      {
        var record := records[n];
        var receipt := record.receipt;
        sequence := sequence + 1;
        if record.alert.None? || !PlainDoc(receipt) {
          Broken(ta.crypto, ta.stored, records, requireCurrentHead, n);
          return Returned(false);
        }
        var alertHash := ToHex(ta.crypto.sha(record.alert.value));
        var number := IntOf(receipt.sequence, ta.crypto.numeral);
        if number != Number(sequence) {
          Broken(ta.crypto, ta.stored, records, requireCurrentHead, n);
          return if number.Uncaught? then Raised else Returned(false);
        }
        if TextOf(receipt.previousHead) != Some(previous) || TextOf(receipt.alertHash) != Some(alertHash) {
          Broken(ta.crypto, ta.stored, records, requireCurrentHead, n);
          return Returned(false);
        }
        if modelHash.None? {
          modelHash := TextOf(receipt.modelHash);
        } else if TextOf(receipt.modelHash) != modelHash {
          Broken(ta.crypto, ta.stored, records, requireCurrentHead, n);
          return Returned(false);
        }
        PlainDocDecodes(ta.crypto, receipt);
        var valid := VerifyReceipt(receipt, envs(n));
        if valid != Returned(true) {
          if Calm(envs) && |records| < TWO_TO_THE_64 {
            Broken(ta.crypto, ta.stored, records, requireCurrentHead, n);
          }
          return valid;
        }
        previous := TextOf(receipt.head).value;
      }
      if !requireCurrentHead {
        return Returned(true);
      }
      var current := GetHead(envs(|records|));
      if current.None? {
        return Returned(false);
      }
      accepted := Returned(
        && current.value.sequence == sequence
        && ToHex(current.value.head) == previous
        && (sequence == 0 || Some(ToHex(current.value.model)) == modelHash));
    }
  }

  lemma {:induction false} Broken(
    crypto: Crypto, stored: Option<TaState>, records: seq<Record>, requireCurrentHead: bool, n: nat)
    requires n < |records|
    requires !LinkText(crypto, records, n) || (stored.Some? ==> !LinkGenuine(crypto, stored.value.key, records[n].receipt))
    ensures !OpteeAccepts(crypto, stored, records, requireCurrentHead)
  {
    assert stored.Some? ==> !LinkVerified(crypto, stored.value, records, n);
  }

  /** The client can always read what the verifier has checked to be plain. */
  lemma {:induction false} PlainDocDecodes(crypto: Crypto, doc: ReceiptDoc)
    requires PlainDoc(doc) && IntOf(doc.sequence, crypto.numeral).Number? && IntOf(doc.sequence, crypto.numeral).n >= 0
    ensures Readable(crypto, doc)
    ensures IntOf(doc.sequence, crypto.numeral).n < TWO_TO_THE_64 ==>
      ClientReceipt(crypto, doc) == Some(ReceiptIn(crypto, doc))
  {
    hide FromHex;
    PlainIsDigits(TextOf(doc.previousHead).value);
    PlainIsDigits(TextOf(doc.alertHash).value);
    PlainIsDigits(TextOf(doc.modelHash).value);
    PlainIsDigits(TextOf(doc.head).value);
  }

  lemma {:induction false} PlainIsDigits(text: string)
    requires IsPlainDigest(text)
    ensures HexDigits(text) && FromHex(text).Some? && |FromHex(text).value| == HASH_SIZE
  {
    HexDigitsDecode(text);
  }
}
