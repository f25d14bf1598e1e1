/** Which record lists AuditStore.verify_chain accepts. */
module AuditStoreExactness {
  import opened Bytes
  import opened Wrappers
  import opened Hex
  import opened Json
  import opened Audit
  import opened AuditStore

  // ----- reading a receipt

  predicate Readable(crypto: Crypto, doc: ReceiptDoc) {
    && IntOf(doc.sequence, crypto.numeral).Number? && IntOf(doc.sequence, crypto.numeral).n >= 0
    && ReadsAsDigest(doc.previousHead) && ReadsAsDigest(doc.alertHash)
    && ReadsAsDigest(doc.modelHash) && ReadsAsDigest(doc.head)
  }

  predicate ReadsAsDigest(value: Option<Json>) {
    OctetsOf(value).Some? && |OctetsOf(value).value| == HASH_SIZE
  }

  function ReceiptIn(crypto: Crypto, doc: ReceiptDoc): Receipt
    requires Readable(crypto, doc)
  {
    Receipt(IntOf(doc.sequence, crypto.numeral).n, OctetsOf(doc.previousHead).value, OctetsOf(doc.alertHash).value,
            OctetsOf(doc.modelHash).value, OctetsOf(doc.head).value)
  }

  ghost predicate AllReadable(crypto: Crypto, records: seq<Record>) {
    forall i | 0 <= i < |records| :: Readable(crypto, records[i].receipt)
  }

  ghost function ReceiptsIn(crypto: Crypto, records: seq<Record>): (rs: seq<Receipt>)
    requires AllReadable(crypto, records)
    ensures |rs| == |records| && forall i | 0 <= i < |records| :: rs[i] == ReceiptIn(crypto, records[i].receipt)
  {
    seq(|records|, i requires 0 <= i < |records| => ReceiptIn(crypto, records[i].receipt))
  }

  /** The same log in another spelling. What may differ: the text of heads, a sequence number written as a float or a
      boolean of its value, an absent empty alert, and keys that the verifier does not read. */
  ghost predicate Respells(records: seq<Record>, log: seq<Issued>) {
    && |records| == |log| && RespellsPrefix(records, log)
    && HeadText(records, |records|) == ToHex(HeadOf(ReceiptsOf(log)))
  }

  /** The first records of the log in another spelling. */
  ghost predicate RespellsPrefix(records: seq<Record>, log: seq<Issued>) {
    |records| <= |log| && forall i: nat | i < |records| :: RespelledAt(records, log, i)
  }

  predicate RespelledAt(records: seq<Record>, log: seq<Issued>, i: nat)
    requires i < |records| && i < |log|
  {
    var doc, r := records[i].receipt, log[i].receipt;
    && AlertOf(records[i]) == log[i].alert
    && EqualsInt(doc.sequence, r.sequence) && doc.alertHash == HexText(r.alertHash)
    && doc.modelHash == HexText(r.model)
    && doc.previousHead == Some(Text(HeadText(records, i)))
    && OctetsOf(doc.head) == Some(r.head)
  }

  /** The messages whose MACs are compared, and the alerts whose hashes are compared. */
  ghost predicate NoCollisions(crypto: Crypto, s: State, records: seq<Record>, log: seq<Issued>) {
    && (AllReadable(crypto, records) ==>
          CollisionFree(Macs(crypto, s.key), Messages(ReceiptsIn(crypto, records)) + Messages(ReceiptsOf(log))))
    && CollisionFree(crypto.sha, AlertsOf(records, log))
  }

  ghost function AlertsOf(records: seq<Record>, log: seq<Issued>): set<Octets> {
    (set i | 0 <= i < |records| :: AlertOf(records[i])) + (set i | 0 <= i < |log| :: log[i].alert)
  }

  // ----- accepted implies issued

  lemma {:induction false} LinkReadable(crypto: Crypto, s: State, records: seq<Record>, i: nat)
    requires i < |records| && LinkHolds(crypto, s, records, i)
    requires s.modelHash.Some? && ReadsAsDigest(records[i].receipt.previousHead)
    ensures Readable(crypto, records[i].receipt) && Authentic(crypto, s.key, ReceiptIn(crypto, records[i].receipt))
    ensures ReceiptIn(crypto, records[i].receipt).alertHash == crypto.sha(AlertOf(records[i]))
    ensures ReceiptIn(crypto, records[i].receipt).model == s.modelHash.value
  {
    hide FromHex, ToHex, BigEndian;
    EqualConverts(records[i].receipt.sequence, i + 1, crypto.numeral);
    HexRoundTrip(crypto.sha(AlertOf(records[i])));
    HexRoundTrip(s.modelHash.value);
  }

  lemma {:induction false} AllLinksReadable(crypto: Crypto, s: State, records: seq<Record>, n: nat)
    requires n <= |records| && s.modelHash.Some?
    requires forall i: nat | i < |records| :: LinkHolds(crypto, s, records, i)
    ensures forall i: nat | i < n ::
      && Readable(crypto, records[i].receipt)
      && Authentic(crypto, s.key, ReceiptIn(crypto, records[i].receipt))
      && ReceiptIn(crypto, records[i].receipt).alertHash == crypto.sha(AlertOf(records[i]))
      && ReceiptIn(crypto, records[i].receipt).model == s.modelHash.value
  {
    hide FromHex, ToHex, VerifyReceipt, Message;
    if n > 0 {
      AllLinksReadable(crypto, s, records, n - 1);
      HexRoundTrip(ZERO_HASH);
      assert LinkHolds(crypto, s, records, n - 1);
      if n > 1 {
        assert Readable(crypto, records[n - 2].receipt);
      }
      LinkReadable(crypto, s, records, n - 1);
    }
  }

  lemma {:induction false} ModelRegistered(crypto: Crypto, s: State, records: seq<Record>)
    requires records != [] && LinkHolds(crypto, s, records, 0)
    ensures s.modelHash.Some?
  {
    hide FromHex, ToHex, BigEndian;
  }

  /** What the accepted records say is a chain that ends where the store's chain ends. */
  lemma {:induction false} AcceptedIsChain(crypto: Crypto, s: State, records: seq<Record>)
    requires Accepts(crypto, s, records, true)
    ensures AllReadable(crypto, records) && Chain(crypto, s.key, ReceiptsIn(crypto, records))
    ensures HeadOf(ReceiptsIn(crypto, records)) == s.head
    ensures forall i | 0 <= i < |records| ::
      var r := ReceiptsIn(crypto, records)[i];
      r.alertHash == crypto.sha(AlertOf(records[i])) && s.modelHash == Some(r.model)
  {
    hide FromHex, ToHex, VerifyReceipt, Message, Authentic;
    HexRoundTrip(ZERO_HASH);
    HexRoundTrip(s.head);
    if records != [] {
      assert LinkHolds(crypto, s, records, 0);
      ModelRegistered(crypto, s, records);
      AllLinksReadable(crypto, s, records, |records|);
      var rs := ReceiptsIn(crypto, records);
      forall i: nat | i < |rs| ensures Linked(crypto, s.key, rs, i) {
        assert LinkHolds(crypto, s, records, i);
        assert i > 0 ==> rs[i - 1] == ReceiptIn(crypto, records[i - 1].receipt);
      }
    } else {
      HexInjective(ZERO_HASH, s.head);
    }
  }

  lemma {:induction false} SameReceiptRespells(crypto: Crypto, s: State, log: seq<Issued>, records: seq<Record>, i: nat)
    requires i < |records| && i < |log| && LinkHolds(crypto, s, records, i) && Readable(crypto, records[i].receipt)
    requires ReceiptIn(crypto, records[i].receipt) == log[i].receipt
    requires AlertOf(records[i]) == log[i].alert && log[i].receipt.alertHash == crypto.sha(log[i].alert)
    requires s.modelHash == Some(log[i].receipt.model) && log[i].receipt.sequence == i + 1
    ensures RespelledAt(records, log, i)
  {
    hide FromHex, ToHex, VerifyReceipt;
    AcceptedAlertText(crypto, s, records, i);
  }

  lemma {:induction false} AcceptedIsIssued(crypto: Crypto, s: State, log: seq<Issued>, records: seq<Record>)
    requires Matches(crypto, s, log) && NoCollisions(crypto, s, records, log)
    requires Accepts(crypto, s, records, true)
    ensures Respells(records, log)
  {
    hide FromHex, ToHex, VerifyReceipt, Message, Authentic, LinkHolds, RespelledAt, Readable, ReceiptIn;
    AcceptedIsChain(crypto, s, records);
    ChainDetermined(crypto, s.key, ReceiptsIn(crypto, records), ReceiptsOf(log));
    forall i: nat | i < |log| ensures RespelledAt(records, log, i) {
      assert ReceiptsIn(crypto, records)[i] == ReceiptsOf(log)[i] == log[i].receipt;
      assert AlertOf(records[i]) in AlertsOf(records, log) && log[i].alert in AlertsOf(records, log);
      assert Linked(crypto, s.key, ReceiptsOf(log), i);
      SameReceiptRespells(crypto, s, log, records, i);
    }
  }

  lemma {:induction false} AcceptedAlertText(crypto: Crypto, s: State, records: seq<Record>, i: nat)
    requires i < |records| && LinkHolds(crypto, s, records, i)
    ensures records[i].receipt.alertHash == HexText(crypto.sha(AlertOf(records[i])))
  {
    hide FromHex, ToHex, BigEndian;
  }

  // ----- issued implies accepted

  lemma {:induction false} RespelledLinkHolds(crypto: Crypto, s: State, log: seq<Issued>, records: seq<Record>, i: nat)
    requires Matches(crypto, s, log) && RespellsPrefix(records, log) && i < |records|
    ensures LinkHolds(crypto, s, records, i)
  {
    hide FromHex, ToHex, VerifyReceipt, Message, Authentic;
    PreviousHeadReads(crypto, s, log, records, i);
    assert RespelledAt(records, log, i) && Linked(crypto, s.key, ReceiptsOf(log), i);
    EqualConverts(records[i].receipt.sequence, i + 1, crypto.numeral);
    HexRoundTrip(log[i].receipt.model);
    GenuineIsVerified(crypto, s.key, log[i], records[i]);
  }

  lemma {:induction false} RespelledIsAccepted(crypto: Crypto, s: State, log: seq<Issued>, records: seq<Record>)
    requires Matches(crypto, s, log) && Respells(records, log)
    ensures Accepts(crypto, s, records, true)
  {
    hide FromHex, ToHex, Message, Authentic, LinkHolds;
    forall i: nat | i < |records| ensures LinkHolds(crypto, s, records, i) {
      RespelledLinkHolds(crypto, s, log, records, i);
    }
  }

  lemma {:induction false} PreviousHeadReads(crypto: Crypto, s: State, log: seq<Issued>, records: seq<Record>, i: nat)
    requires Matches(crypto, s, log) && RespellsPrefix(records, log) && i < |records|
    ensures FromHex(HeadText(records, i)) == Some(log[i].receipt.previous)
  {
    hide FromHex, ToHex, Message, Authentic;
    HexRoundTrip(ZERO_HASH);
    assert Linked(crypto, s.key, ReceiptsOf(log), i);
    if i > 0 {
      assert RespelledAt(records, log, i - 1);
    }
  }

  lemma {:induction false} GenuineIsVerified(crypto: Crypto, key: Digest, entry: Issued, record: Record)
    requires Authentic(crypto, key, entry.receipt) && entry.receipt.sequence < TWO_TO_THE_64
    requires entry.receipt.alertHash == crypto.sha(entry.alert) && AlertOf(record) == entry.alert
    requires var doc, r := record.receipt, entry.receipt;
      && IntOf(doc.sequence, crypto.numeral) == Number(r.sequence) && doc.alertHash == HexText(r.alertHash)
      && OctetsOf(doc.modelHash) == Some(r.model) && OctetsOf(doc.previousHead) == Some(r.previous)
      && OctetsOf(doc.head) == Some(r.head)
    ensures VerifyReceipt(crypto, key, AlertOf(record), record.receipt) == Returned(true)
  {
    hide FromHex, ToHex, BigEndian;
  }

  // ----- the exact statement

  /** With the current head required, the verifier accepts the complete issued log, respelled or not, and nothing else. */
  lemma {:induction false} AcceptsExactly(crypto: Crypto, s: State, log: seq<Issued>, records: seq<Record>)
    requires Matches(crypto, s, log) && NoCollisions(crypto, s, records, log)
    ensures Accepts(crypto, s, records, true) <==> Respells(records, log)
  {
    hide Accepts, Respells, NoCollisions, Matches;
    if Accepts(crypto, s, records, true) {
      AcceptedIsIssued(crypto, s, log, records);
    }
    if Respells(records, log) {
      RespelledIsAccepted(crypto, s, log, records);
    }
  }

  /** Checkable on the record alone: every field is there in the type that is issued, and no other key. */
  predicate PlainlyTyped(record: Record) {
    var doc := record.receipt;
    && record.alert.Some? && record.others == map[] && doc.others == map[]
    && doc.sequence.Some? && doc.sequence.value.Int?
    && IsText(doc.previousHead) && IsText(doc.alertHash) && IsText(doc.modelHash) && IsText(doc.head)
  }

  predicate IsText(value: Option<Json>) {
    value.Some? && value.value.Text?
  }

  predicate AllPlainlyTyped(records: seq<Record>) {
    forall i | 0 <= i < |records| :: PlainlyTyped(records[i])
  }

  /** Besides, every head is 64 lower-case hexadecimal digits. */
  predicate PlainlySpelled(records: seq<Record>) {
    forall i | 0 <= i < |records| :: PlainlyTyped(records[i]) && PlainHead(records[i])
  }

  predicate PlainHead(record: Record) {
    IsText(record.receipt.head) && IsPlainDigest(record.receipt.head.value.text)
  }

  predicate IsPlainDigest(text: string) {
    |text| == 2 * HASH_SIZE && LowerHex(text)
  }

  /** On plainly spelled records the verifier accepts one list only: the log as it was issued. */
  lemma {:induction false} PlainAcceptsOnlyTheLog(crypto: Crypto, s: State, log: seq<Issued>, records: seq<Record>)
    requires Matches(crypto, s, log) && NoCollisions(crypto, s, records, log) && PlainlySpelled(records)
    ensures Accepts(crypto, s, records, true) <==> records == RecordsOf(log)
  {
    hide Accepts, NoCollisions, FromHex, ToHex, Message, Authentic, RespellsPrefix;
    AcceptsExactly(crypto, s, log, records);
    if Respells(records, log) {
      PlainRespellingIsTheLog(crypto, s, log, records);
    }
    if records == RecordsOf(log) {
      LogRespellsItself(crypto, s, log);
    }
  }

  lemma {:induction false} PlainHeadIsWritten(record: Record, head: Digest)
    requires PlainHead(record) && OctetsOf(record.receipt.head) == Some(head)
    ensures record.receipt.head == HexText(head)
  {
    hide FromHex, ToHex;
    LowerHexIsCanonical(record.receipt.head.value.text);
  }

  lemma {:induction false} PlainRespellingIsTheLog(crypto: Crypto, s: State, log: seq<Issued>, records: seq<Record>)
    requires Matches(crypto, s, log) && RespellsPrefix(records, log) && PlainlySpelled(records)
    ensures records == RecordsOf(log)[..|records|]
  {
    hide FromHex, ToHex, Message, Authentic;
    forall i: nat | i < |records| ensures records[i].receipt.head == HexText(log[i].receipt.head) {
      assert RespelledAt(records, log, i);
      PlainHeadIsWritten(records[i], log[i].receipt.head);
    }
    forall i: nat | i < |records| ensures records[i] == RecordOf(log[i]) {
      assert RespelledAt(records, log, i) && Linked(crypto, s.key, ReceiptsOf(log), i);
      assert i > 0 ==> records[i - 1].receipt.head == HexText(log[i - 1].receipt.head);
    }
  }

  lemma {:induction false} LogRespellsItself(crypto: Crypto, s: State, log: seq<Issued>)
    requires Matches(crypto, s, log)
    ensures Respells(RecordsOf(log), log) && PlainlySpelled(RecordsOf(log))
  {
    hide FromHex, ToHex, Message, Authentic;
    var records := RecordsOf(log);
    forall i: nat | i < |log| ensures RespelledAt(records, log, i) && PlainlyTyped(records[i]) && PlainHead(records[i]) {
      HexRoundTrip(log[i].receipt.head);
      assert Linked(crypto, s.key, ReceiptsOf(log), i);
    }
  }

  // ----- without the current head: exactly the prefixes

  /** Every receipt that passes verification was issued. */
  ghost predicate Unforged(crypto: Crypto, s: State, log: seq<Issued>, records: seq<Record>) {
    forall i: nat | i < |records| ::
      LinkHolds(crypto, s, records, i) && Readable(crypto, records[i].receipt) ==>
        ReceiptIn(crypto, records[i].receipt) in ReceiptsOf(log)
  }

  /** Without the current head, and if no receipt is forged, the verifier accepts the respelled prefixes of the log. */
  lemma {:induction false} AcceptsPrefixes(crypto: Crypto, s: State, log: seq<Issued>, records: seq<Record>)
    requires Matches(crypto, s, log) && Unforged(crypto, s, log, records)
    requires CollisionFree(crypto.sha, AlertsOf(records, log))
    ensures Accepts(crypto, s, records, false) <==> RespellsPrefix(records, log)
  {
    hide FromHex, ToHex, Message, Authentic, LinkHolds, RespelledAt, AlertsOf, Matches;
    if Accepts(crypto, s, records, false) {
      if records != [] {
        ModelRegistered(crypto, s, records);
        AllLinksReadable(crypto, s, records, |records|);
      }
      forall i: nat | i < |records| ensures i < |log| && RespelledAt(records, log, i) {
        UnforgedLinkIsIssued(crypto, s, log, records, i);
      }
      if |records| > |log| {
        UnforgedLinkIsIssued(crypto, s, log, records, |log|);
      }
    }
    if RespellsPrefix(records, log) {
      forall i: nat | i < |records| ensures LinkHolds(crypto, s, records, i) {
        RespelledLinkHolds(crypto, s, log, records, i);
      }
    }
  }

  lemma {:induction false} UnforgedLinkIsIssued(crypto: Crypto, s: State, log: seq<Issued>, records: seq<Record>, i: nat)
    requires Matches(crypto, s, log) && Unforged(crypto, s, log, records)
    requires CollisionFree(crypto.sha, AlertsOf(records, log))
    requires i < |records| && LinkHolds(crypto, s, records, i) && Readable(crypto, records[i].receipt)
    requires ReceiptIn(crypto, records[i].receipt).alertHash == crypto.sha(AlertOf(records[i]))
    ensures i < |log| && RespelledAt(records, log, i)
  {
    hide FromHex, ToHex, Message, Authentic, VerifyReceipt;
    var r := ReceiptIn(crypto, records[i].receipt);
    assert r in ReceiptsOf(log);
    var j :| 0 <= j < |log| && ReceiptsOf(log)[j] == r;
    assert Linked(crypto, s.key, ReceiptsOf(log), j);
    EqualConverts(records[i].receipt.sequence, i + 1, crypto.numeral);
    assert AlertOf(records[i]) in AlertsOf(records, log) && log[j].alert in AlertsOf(records, log);
    SameReceiptRespells(crypto, s, log, records, i);
  }

  // ----- the spelling matters: lists other than the issued one that are accepted

  /** The issued records, except that a blank precedes the first head wherever that head is written. */
  function WithBlank(log: seq<Issued>): (altered: seq<Record>)
    requires |log| >= 2
    ensures |altered| == |log|
  {
    var head := Some(Text(" " + ToHex(log[0].receipt.head)));
    seq(|log|, i requires 0 <= i < |log| =>
      var record := RecordOf(log[i]);
      record.(receipt := record.receipt.(
        head := if i == 0 then head else record.receipt.head,
        previousHead := if i == 1 then head else record.receipt.previousHead)))
  }

  /** Every issued log of two or more receipts has an altered copy that the verifier accepts. */
  lemma {:induction false} AlteredCopyAccepted(crypto: Crypto, s: State, log: seq<Issued>)
    requires Matches(crypto, s, log) && |log| >= 2
    ensures WithBlank(log) != RecordsOf(log)
    ensures Accepts(crypto, s, WithBlank(log), true) && !PlainlySpelled(WithBlank(log))
  {
    var altered, text := WithBlank(log), ToHex(log[0].receipt.head);
    HexRoundTrip(log[0].receipt.head);
    assert (" " + text)[1..] == text;
    assert FromHex(" " + text) == FromHex(text);
    hide FromHex, ToHex, Message, Authentic, Accepts;
    assert |altered[0].receipt.head.value.text| == 1 + 2 * HASH_SIZE;
    LogRespellsItself(crypto, s, log);
    BlankRespells(crypto, s, log);
    RespelledIsAccepted(crypto, s, log, altered);
  }

  lemma {:induction false} BlankRespells(crypto: Crypto, s: State, log: seq<Issued>)
    requires Matches(crypto, s, log) && |log| >= 2 && Respells(RecordsOf(log), log)
    requires FromHex(" " + ToHex(log[0].receipt.head)) == Some(log[0].receipt.head)
    ensures Respells(WithBlank(log), log)
  {
    hide FromHex, ToHex, Message, Authentic, Matches;
    var records, altered := RecordsOf(log), WithBlank(log);
    forall i: nat | i < |log| ensures RespelledAt(altered, log, i) {
      assert RespelledAt(records, log, i);
    }
  }

  /** The issued records with the sequence number of the first written another way. */
  function WithSequence(log: seq<Issued>, sequence: Json): seq<Record>
    requires log != []
  {
    var first := RecordOf(log[0]);
    RecordsOf(log)[0 := first.(receipt := first.receipt.(sequence := Some(sequence)))]
  }

  /** The issued records with further keys in the first record and in its receipt. */
  function WithKeys(log: seq<Issued>, inRecord: map<string, Json>, inReceipt: map<string, Json>): seq<Record>
    requires log != []
  {
    var first := RecordOf(log[0]);
    RecordsOf(log)[0 := first.(others := inRecord, receipt := first.receipt.(others := inReceipt))]
  }

  /** The first sequence number as 1.0 or as true, and any further keys, are accepted; as the text "1" it is not. */
  lemma {:induction false} RetypedCopyAccepted(
    crypto: Crypto, s: State, log: seq<Issued>, inRecord: map<string, Json>, inReceipt: map<string, Json>)
    requires Matches(crypto, s, log) && log != []
    ensures Accepts(crypto, s, WithSequence(log, Real(1.0)), true)
    ensures Accepts(crypto, s, WithSequence(log, Bool(true)), true)
    ensures !Accepts(crypto, s, WithSequence(log, Text("1")), true)
    ensures Accepts(crypto, s, WithKeys(log, inRecord, inReceipt), true)
    ensures WithSequence(log, Real(1.0)) != RecordsOf(log) && WithSequence(log, Bool(true)) != RecordsOf(log)
    ensures WithKeys(log, inRecord, inReceipt) == RecordsOf(log) <==> inRecord == map[] && inReceipt == map[]
  {
    hide FromHex, ToHex, Message, Authentic, Matches, VerifyReceipt;
    LogRespellsItself(crypto, s, log);
    SequenceOfFirst(crypto, s, log);
    FirstRespells(log, WithSequence(log, Real(1.0)));
    FirstRespells(log, WithSequence(log, Bool(true)));
    FirstRespells(log, WithKeys(log, inRecord, inReceipt));
    RespelledIsAccepted(crypto, s, log, WithSequence(log, Real(1.0)));
    RespelledIsAccepted(crypto, s, log, WithSequence(log, Bool(true)));
    RespelledIsAccepted(crypto, s, log, WithKeys(log, inRecord, inReceipt));
    assert !LinkHolds(crypto, s, WithSequence(log, Text("1")), 0);
    assert WithSequence(log, Real(1.0))[0] != RecordOf(log[0]) && WithSequence(log, Bool(true))[0] != RecordOf(log[0]);
    assert WithKeys(log, inRecord, inReceipt)[0].receipt.others == inReceipt;
    assert RecordsOf(log)[0] == RecordOf(log[0]);
  }

  lemma {:induction false} SequenceOfFirst(crypto: Crypto, s: State, log: seq<Issued>)
    requires Matches(crypto, s, log) && log != []
    ensures log[0].receipt.sequence == 1
  {
    hide Message, Authentic;
    assert Linked(crypto, s.key, ReceiptsOf(log), 0);
  }

  /** A change of the first record's sequence number or unread keys leaves every other check as it was. */
  lemma {:induction false} FirstRespells(log: seq<Issued>, altered: seq<Record>)
    requires log != [] && Respells(RecordsOf(log), log)
    requires |altered| == |log| && altered[1..] == RecordsOf(log)[1..] && altered[0].alert == Some(log[0].alert)
    requires var doc := altered[0].receipt;
      && doc == DocOf(log[0].receipt).(sequence := doc.sequence, others := doc.others)
      && EqualsInt(doc.sequence, log[0].receipt.sequence)
    ensures Respells(altered, log)
  {
    hide FromHex, ToHex;
    var records := RecordsOf(log);
    assert forall i | 0 < i < |log| :: altered[i] == altered[1..][i - 1] == records[1..][i - 1] == records[i];
    forall i: nat | i < |log| ensures RespelledAt(altered, log, i) {
      assert RespelledAt(records, log, i);
    }
  }
}
