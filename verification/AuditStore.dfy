/** The Python reference implementation of the receipt chain (cote3mon/audit_store.py). */
module AuditStore {
  import opened Bytes
  import opened Wrappers
  import opened Hex
  import opened Json
  import opened Audit

  /** A receipt as read back from JSON: any field may be missing or of another type, and other keys may be there. */
  datatype ReceiptDoc = ReceiptDoc(
    sequence: Option<Json>, previousHead: Option<Json>, alertHash: Option<Json>, modelHash: Option<Json>,
    head: Option<Json>, others: map<string, Json>)

  /** A line of the alerts file. An alert is identified with its canonical JSON text. */
  datatype Record = Record(alert: Option<Octets>, receipt: ReceiptDoc, others: map<string, Json>)

  /** What record.get("alert", {}) yields for a record without an alert: the text "{}". */
  const NO_ALERT: Octets := [123, 125]

  function AlertOf(record: Record): Octets {
    if record.alert.Some? then record.alert.value else NO_ALERT
  }

  datatype State = State(key: Digest, modelHash: Option<Digest>, sequence: nat, head: Digest)

  function FreshState(key: Digest): State {
    State(key, None, 0, ZERO_HASH)
  }

  /** What the store has signed, with the alerts it signed. */
  datatype Issued = Issued(alert: Octets, receipt: Receipt)

  function HexText(d: Digest): Option<Json> {
    Some(Text(ToHex(d)))
  }

  function DocOf(r: Receipt): ReceiptDoc {
    ReceiptDoc(
      Some(Int(r.sequence)), HexText(r.previous), HexText(r.alertHash), HexText(r.model), HexText(r.head), map[])
  }

  function RecordOf(entry: Issued): Record {
    Record(Some(entry.alert), DocOf(entry.receipt), map[])
  }

  function RecordsOf(log: seq<Issued>): (records: seq<Record>)
    ensures |records| == |log| && forall i | 0 <= i < |log| :: records[i] == RecordOf(log[i])
  {
    seq(|log|, i requires 0 <= i < |log| => RecordOf(log[i]))
  }

  function ReceiptsOf(log: seq<Issued>): (rs: seq<Receipt>)
    ensures |rs| == |log| && forall i | 0 <= i < |log| :: rs[i] == log[i].receipt
  {
    seq(|log|, i requires 0 <= i < |log| => log[i].receipt)
  }

  // ----- the operations on a state

  function Registered(crypto: Crypto, s: State, payload: Octets): Attempt<State> {
    var digest := crypto.sha(payload);
    if s.sequence > 0 && s.modelHash != Some(digest) then Raised
    else Returned(s.(modelHash := Some(digest)))
  }

  /** The receipt for the next sequence number. */
  function Signed(crypto: Crypto, s: State, alert: Octets, model: Digest): Receipt {
    var alertHash := crypto.sha(alert);
    var head := crypto.mac(s.key, Message(s.sequence + 1, s.head, alertHash, model));
    Receipt(s.sequence + 1, s.head, alertHash, model, head)
  }

  /** No model, or a sequence number that does not fit eight octets, raises. */
  function NextReceipt(crypto: Crypto, s: State, alert: Octets): Attempt<Receipt> {
    if s.modelHash.None? || s.sequence + 1 >= TWO_TO_THE_64 then Raised
    else Returned(Signed(crypto, s, alert, s.modelHash.value))
  }

  function Advanced(s: State, r: Receipt): State {
    s.(sequence := r.sequence, head := r.head)
  }

  /** bytes.fromhex(str(receipt[key])) */
  function OctetsOf(value: Option<Json>): Option<Octets> {
    if TextOf(value).None? then None else FromHex(TextOf(value).value)
  }

  /** Infinity as the sequence number, and one that does not fit eight octets, raise; all else is caught. */
  function VerifyReceipt(crypto: Crypto, key: Digest, alert: Octets, doc: ReceiptDoc): Attempt<bool> {
    match IntOf(doc.sequence, crypto.numeral)
    case Uncaught => Raised
    case Caught => Returned(false)
    case Number(n) =>
      var previous, model, claimed := OctetsOf(doc.previousHead), OctetsOf(doc.modelHash), OctetsOf(doc.head);
      var alertHash := crypto.sha(alert);
      if previous.None? || model.None? || claimed.None? then Returned(false)
      else if doc.alertHash != HexText(alertHash) then Returned(false)
      else if n < 0 || n >= TWO_TO_THE_64 then Raised
      else
        var message := DOMAIN + BigEndian(n, 8) + previous.value + alertHash + model.value;
        Returned(crypto.mac(key, message) == claimed.value)
  }

  /** receipt.get("model_hash") == state["model_hash"], where null stands for no model */
  predicate NamesModel(value: Option<Json>, model: Option<Digest>) {
    if model.Some? then value == HexText(model.value) else value.None? || value == Some(Null)
  }

  /** The text that record i must name as its previous head: str() of the head before it. */
  function HeadText(records: seq<Record>, i: nat): string
    requires i <= |records|
  {
    if i == 0 || TextOf(records[i - 1].receipt.head).None? then ToHex(ZERO_HASH)
    else TextOf(records[i - 1].receipt.head).value
  }

  /** What verify_chain checks of record i. */
  predicate LinkHolds(crypto: Crypto, s: State, records: seq<Record>, i: nat)
    requires i < |records|
  {
    var doc := records[i].receipt;
    && EqualsInt(doc.sequence, i + 1)
    && doc.previousHead == Some(Text(HeadText(records, i)))
    && NamesModel(doc.modelHash, s.modelHash)
    && VerifyReceipt(crypto, s.key, AlertOf(records[i]), doc) == Returned(true)
  }

  predicate Accepts(crypto: Crypto, s: State, records: seq<Record>, requireCurrentHead: bool) {
    && (forall i: nat | i < |records| :: LinkHolds(crypto, s, records, i))
    && (requireCurrentHead ==> |records| == s.sequence && HeadText(records, |records|) == ToHex(s.head))
  }

  // ----- the state and the log it stands for

  ghost predicate Matches(crypto: Crypto, s: State, log: seq<Issued>) {
    && Chain(crypto, s.key, ReceiptsOf(log))
    && s.sequence == |log| < TWO_TO_THE_64
    && s.head == HeadOf(ReceiptsOf(log))
    && forall i | 0 <= i < |log| ::
         log[i].receipt.alertHash == crypto.sha(log[i].alert) && s.modelHash == Some(log[i].receipt.model)
  }

  lemma {:induction false} MatchesAppend(crypto: Crypto, s: State, log: seq<Issued>, alert: Octets)
    requires Matches(crypto, s, log) && NextReceipt(crypto, s, alert).Returned?
    ensures var r := NextReceipt(crypto, s, alert).value;
      Matches(crypto, Advanced(s, r), log + [Issued(alert, r)])
  {
    hide Message;
    var r := NextReceipt(crypto, s, alert).value;
    assert ReceiptsOf(log + [Issued(alert, r)]) == ReceiptsOf(log) + [r];
    ChainExtend(crypto, s.key, ReceiptsOf(log), r);
  }

  /** How far a save gets: the temporary file may be left torn, or left behind unrenamed. */
  datatype Saving = WriteFails | ReplaceFails | Saves

  class Store {
    const crypto: Crypto
    var state: State
    var disk: State
    /** The temporary file beside the state file, when there is one and it is not torn. */
    var temporary: Option<State>
    ghost var log: seq<Issued>
    ghost var diskLog: seq<Issued>

    /** The state in memory and the state on disk each stand for a log of receipts. */
    ghost predicate Valid()
      reads this
    {
      Matches(crypto, state, log) && Matches(crypto, disk, diskLog)
    }

    /** A new state file with a fresh key. */
    constructor (crypto: Crypto, key: Digest)
      ensures Valid() && this.crypto == crypto
      ensures state == disk == FreshState(key) && log == diskLog == []
    {
      this.crypto := crypto;
      state, disk, temporary := FreshState(key), FreshState(key), None;
      log, diskLog := [], [];
    }

    /** A restart: the state file is read back, whatever lies beside it. */
    constructor Reopen(store: Store)
      requires store.Valid()
      ensures Valid() && crypto == store.crypto
      ensures state == disk == store.disk && log == diskLog == store.diskLog
    {
      crypto := store.crypto;
      state, disk, temporary := store.disk, store.disk, store.temporary;
      log, diskLog := store.diskLog, store.diskLog;
    }

    /** The new state goes to a temporary file, which then takes the place of the state file. */
    method Persist(saving: Saving) returns (done: Attempt<()>)
      modifies this`disk, this`diskLog, this`temporary
      ensures done == if saving.Saves? then Returned(()) else Raised
      ensures if saving.Saves? then disk == state && diskLog == log
        else disk == old(disk) && diskLog == old(diskLog)
      ensures temporary == if saving.ReplaceFails? then Some(state) else None
    {
      temporary := None;
      if saving.WriteFails? {
        return Raised;
      }
      temporary := Some(state);
      if saving.ReplaceFails? {
        return Raised;
      }
      disk := temporary.value;
      diskLog := log;
      temporary := None;
      done := Returned(());
    }

    method RegisterModel(payload: Octets, saving: Saving) returns (digest: Attempt<Digest>)
      requires Valid()
      modifies this
      ensures Valid() && log == old(log)
      ensures state == match Registered(crypto, old(state), payload)
        case Returned(next) => next
        case Raised => old(state)
      ensures digest == if Registered(crypto, old(state), payload).Returned? && saving.Saves?
        then Returned(crypto.sha(payload)) else Raised
      ensures digest.Returned? ==> disk == state && diskLog == log
      ensures digest.Raised? ==> disk == old(disk) && diskLog == old(diskLog)
    {
      var hash := crypto.sha(payload);
      if state.sequence > 0 && state.modelHash != Some(hash) {
        return Raised;
      }
      state := state.(modelHash := Some(hash));
      var done := Persist(saving);
      digest := if done.Returned? then Returned(hash) else Raised;
    }

    /** When saving fails no receipt is returned, but the state in memory has moved on. */
    method Append(alert: Octets, saving: Saving) returns (doc: Attempt<ReceiptDoc>)
      requires Valid()
      modifies this
      ensures Valid()
      ensures match NextReceipt(crypto, old(state), alert)
        case Raised => doc == Raised && state == old(state) && log == old(log)
        case Returned(r) =>
          && state == Advanced(old(state), r) && log == old(log) + [Issued(alert, r)]
          && doc == if saving.Saves? then Returned(DocOf(r)) else Raised
      ensures doc.Returned? ==> disk == state && diskLog == log
      ensures doc.Raised? ==> disk == old(disk) && diskLog == old(diskLog)
    {
      if state.modelHash.None? || state.sequence + 1 >= TWO_TO_THE_64 {
        return Raised;
      }
      hide Signed, Matches;
      MatchesAppend(crypto, state, log, alert);
      var receipt := Signed(crypto, state, alert, state.modelHash.value);
      state := Advanced(state, receipt);
      log := log + [Issued(alert, receipt)];
      var done := Persist(saving);
      doc := if done.Returned? then Returned(DocOf(receipt)) else Raised;
    }

    method VerifyChain(records: seq<Record>, requireCurrentHead: bool) returns (verdict: Attempt<bool>)
      ensures verdict == Returned(true) <==> Accepts(crypto, state, records, requireCurrentHead)
      ensures verdict.Raised? ==> |records| >= TWO_TO_THE_64
    {
      hide VerifyReceipt, ToHex;
      var previous, sequence, lastHead := ToHex(ZERO_HASH), 0, ToHex(ZERO_HASH);
      for n := 0 to |records|
        invariant sequence == n && previous == lastHead == HeadText(records, n)
        invariant forall i: nat | i < n :: LinkHolds(crypto, state, records, i)
      {
        var receipt := records[n].receipt;
        sequence := sequence + 1;
        if !EqualsInt(receipt.sequence, sequence) || receipt.previousHead != Some(Text(previous)) {
          assert !LinkHolds(crypto, state, records, n);
          return Returned(false);
        }
        if !NamesModel(receipt.modelHash, state.modelHash) {
          assert !LinkHolds(crypto, state, records, n);
          return Returned(false);
        }
        var genuine := VerifyReceipt(crypto, state.key, AlertOf(records[n]), receipt);
        EqualConverts(receipt.sequence, sequence, crypto.numeral);
        VerifyOutcomes(crypto, state.key, AlertOf(records[n]), receipt);
        if genuine != Returned(true) {
          assert !LinkHolds(crypto, state, records, n);
          return genuine;
        }
        previous := TextOf(receipt.head).value;
        lastHead := previous;
      }
      if requireCurrentHead {
        return Returned(sequence == state.sequence && lastHead == ToHex(state.head));
      }
      verdict := Returned(true);
    }
  }

  lemma {:induction false} VerifyOutcomes(crypto: Crypto, key: Digest, alert: Octets, doc: ReceiptDoc)
    ensures var verdict := VerifyReceipt(crypto, key, alert, doc);
      && (verdict == Returned(true) ==> TextOf(doc.head).Some?)
      && (verdict.Raised? ==>
            match IntOf(doc.sequence, crypto.numeral)
            case Number(n) => !(0 <= n < TWO_TO_THE_64)
            case Uncaught => true
            case Caught => false)
  {
    hide Message, BigEndian;
  }
}
