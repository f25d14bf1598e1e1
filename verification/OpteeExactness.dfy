/** Which record lists the monitor's verifier accepts against the trusted application. */
module OpteeExactness {
  import opened Bytes
  import opened Wrappers
  import opened Hex
  import opened Json
  import opened Audit
  import opened AuditStore
  import opened AuditStoreExactness
  import opened AuditTa
  import opened AuditTaRuns
  import opened OpteeBackend

  // ----- the same log, as this verifier reads it

  /** What may differ from the log: the sequence number in any form that int() reads as the same number, a digest of
      decimal digits written as a JSON integer, and keys that the verifier does not read. */
  predicate OpteeRespelledAt(crypto: Crypto, records: seq<Record>, log: seq<Issued>, i: nat)
    requires i < |records| && i < |log|
  {
    var doc, r := records[i].receipt, log[i].receipt;
    && records[i].alert == Some(log[i].alert)
    && IntOf(doc.sequence, crypto.numeral) == Number(r.sequence)
    && Writes(doc.previousHead, r.previous) && Writes(doc.alertHash, r.alertHash)
    && Writes(doc.modelHash, r.model) && Writes(doc.head, r.head)
  }

  /** str() of the value is the digest in lower-case hexadecimal. */
  predicate Writes(value: Option<Json>, digest: Digest) {
    TextOf(value) == Some(ToHex(digest))
  }

  ghost predicate OpteeRespellsPrefix(crypto: Crypto, records: seq<Record>, log: seq<Issued>) {
    |records| <= |log| && forall i: nat | i < |records| :: OpteeRespelledAt(crypto, records, log, i)
  }

  ghost predicate OpteeRespells(crypto: Crypto, records: seq<Record>, log: seq<Issued>) {
    |records| == |log| && OpteeRespellsPrefix(crypto, records, log)
  }

  /** Records in the types that are issued are respelled in no other way than the issued one. */
  lemma {:induction false} PlainlyTypedIsTheLog(crypto: Crypto, records: seq<Record>, log: seq<Issued>)
    requires AllPlainlyTyped(records)
    ensures OpteeRespellsPrefix(crypto, records, log) <==> |records| <= |log| && records == RecordsOf(log)[..|records|]
  {
    hide ToHex;
    if OpteeRespellsPrefix(crypto, records, log) {
      forall i: nat | i < |records| ensures records[i] == RecordOf(log[i]) {
        assert OpteeRespelledAt(crypto, records, log, i) && PlainlyTyped(records[i]);
      }
    }
    if |records| <= |log| && records == RecordsOf(log)[..|records|] {
      forall i: nat | i < |records| ensures OpteeRespelledAt(crypto, records, log, i) {
        assert records[i] == RecordOf(log[i]);
      }
    }
  }

  // ----- one link

  lemma {:induction false} PlainDigestIsWritten(value: Option<Json>)
    requires PlainDigest(value)
    ensures ReadsAsDigest(value) && Writes(value, OctetsOf(value).value)
  {
    hide FromHex, ToHex;
    PlainIsDigits(TextOf(value).value);
    LowerHexIsCanonical(TextOf(value).value);
  }

  lemma {:induction false} LinkMeans(crypto: Crypto, s: TaState, records: seq<Record>, i: nat)
    requires i < |records| && LinkVerified(crypto, s, records, i)
    ensures Readable(crypto, records[i].receipt) && records[i].alert.Some?
    ensures var doc, r := records[i].receipt, ReceiptIn(crypto, records[i].receipt);
      && r.sequence == i + 1 < TWO_TO_THE_64 && Authentic(crypto, s.key, r)
      && r.alertHash == crypto.sha(records[i].alert.value)
      && Writes(doc.previousHead, r.previous) && Writes(doc.alertHash, r.alertHash)
      && Writes(doc.modelHash, r.model) && Writes(doc.head, r.head)
  {
    hide FromHex, ToHex, Message, Authentic, TextOf, IntOf;
    var doc := records[i].receipt;
    PlainDocDecodes(crypto, doc);
    PlainDigestIsWritten(doc.previousHead);
    PlainDigestIsWritten(doc.alertHash);
    PlainDigestIsWritten(doc.modelHash);
    PlainDigestIsWritten(doc.head);
    HexRoundTrip(crypto.sha(records[i].alert.value));
  }

  lemma {:induction false} WrittenIsPlain(value: Option<Json>, digest: Digest)
    requires Writes(value, digest)
    ensures PlainDigest(value) && OctetsOf(value) == Some(digest)
  {
    hide FromHex, ToHex;
    HexRoundTrip(digest);
  }

  lemma {:induction false} RespelledLinkVerified(
    crypto: Crypto, s: TaState, log: seq<Issued>, records: seq<Record>, i: nat)
    requires Matches(crypto, AsStoreState(s), log) && OpteeRespellsPrefix(crypto, records, log) && i < |records|
    ensures LinkVerified(crypto, s, records, i)
  {
    hide FromHex, ToHex, Message, Authentic, TextOf, IntOf;
    var doc, r := records[i].receipt, log[i].receipt;
    assert OpteeRespelledAt(crypto, records, log, i) && OpteeRespelledAt(crypto, records, log, 0);
    assert i > 0 ==> OpteeRespelledAt(crypto, records, log, i - 1);
    assert Linked(crypto, s.key, ReceiptsOf(log), i);
    WrittenIsPlain(doc.previousHead, r.previous);
    WrittenIsPlain(doc.alertHash, r.alertHash);
    WrittenIsPlain(doc.modelHash, r.model);
    WrittenIsPlain(doc.head, r.head);
    PlainDocDecodes(crypto, doc);
    assert ReceiptIn(crypto, doc) == r;
  }

  // ----- with the current head: exactly the issued log

  /** What the accepted records say is a chain that ends where the stored one ends. */
  lemma {:induction false} OpteeAcceptedIsChain(crypto: Crypto, s: TaState, records: seq<Record>)
    requires OpteeAccepts(crypto, Some(s), records, true)
    ensures AllReadable(crypto, records) && Chain(crypto, s.key, ReceiptsIn(crypto, records))
    ensures HeadOf(ReceiptsIn(crypto, records)) == s.head && |records| == s.sequence
  {
    hide FromHex, ToHex, Message, Authentic, LinkVerified, TextOf, IntOf, Readable, ReceiptIn;
    forall i: nat | i < |records| ensures Readable(crypto, records[i].receipt) {
      LinkMeans(crypto, s, records, i);
    }
    var rs := ReceiptsIn(crypto, records);
    forall i: nat | i < |records| ensures Linked(crypto, s.key, rs, i) {
      LinkMeans(crypto, s, records, i);
      PreviousIsHeadBefore(crypto, s, records, i);
    }
    if records == [] {
      HexInjective(ZERO_HASH, s.head);
    } else {
      LinkMeans(crypto, s, records, |records| - 1);
      HexInjective(rs[|rs| - 1].head, s.head);
    }
  }

  lemma {:induction false} PreviousIsHeadBefore(crypto: Crypto, s: TaState, records: seq<Record>, i: nat)
    requires AllReadable(crypto, records) && i < |records|
    requires forall j: nat | j < |records| :: LinkVerified(crypto, s, records, j)
    ensures ReceiptIn(crypto, records[i].receipt).previous == HeadBefore(ReceiptsIn(crypto, records), i)
  {
    hide FromHex, ToHex, Message, Authentic, Readable, ReceiptIn;
    var r := ReceiptIn(crypto, records[i].receipt);
    assert LinkVerified(crypto, s, records, i);
    LinkMeans(crypto, s, records, i);
    if i == 0 {
      HexInjective(r.previous, ZERO_HASH);
    } else {
      LinkMeans(crypto, s, records, i - 1);
      HexInjective(r.previous, ReceiptIn(crypto, records[i - 1].receipt).head);
    }
  }

  lemma {:induction false} OpteeAcceptedIsIssued(crypto: Crypto, s: TaState, log: seq<Issued>, records: seq<Record>)
    requires Matches(crypto, AsStoreState(s), log) && NoCollisions(crypto, AsStoreState(s), records, log)
    requires OpteeAccepts(crypto, Some(s), records, true)
    ensures OpteeRespells(crypto, records, log)
  {
    hide FromHex, ToHex, Message, Authentic, LinkVerified, TextOf, IntOf, Readable, ReceiptIn, OpteeRespelledAt;
    OpteeAcceptedIsChain(crypto, s, records);
    ChainDetermined(crypto, s.key, ReceiptsIn(crypto, records), ReceiptsOf(log));
    forall i: nat | i < |records| ensures OpteeRespelledAt(crypto, records, log, i) {
      assert ReceiptsIn(crypto, records)[i] == ReceiptsOf(log)[i] == log[i].receipt;
      IssuedReceiptRespells(crypto, s, log, records, i);
    }
  }

  lemma {:induction false} IssuedReceiptRespells(
    crypto: Crypto, s: TaState, log: seq<Issued>, records: seq<Record>, i: nat)
    requires Matches(crypto, AsStoreState(s), log) && CollisionFree(crypto.sha, AlertsOf(records, log))
    requires i < |records| && i < |log| && LinkVerified(crypto, s, records, i)
    requires Readable(crypto, records[i].receipt) && ReceiptIn(crypto, records[i].receipt) == log[i].receipt
    ensures OpteeRespelledAt(crypto, records, log, i)
  {
    LinkMeans(crypto, s, records, i);
    hide FromHex, ToHex, Message, Authentic, LinkVerified, TextOf, IntOf;
    assert AlertOf(records[i]) in AlertsOf(records, log) && log[i].alert in AlertsOf(records, log);
  }

  lemma {:induction false} RespelledIsOpteeAccepted(crypto: Crypto, s: TaState, log: seq<Issued>, records: seq<Record>)
    requires Matches(crypto, AsStoreState(s), log) && OpteeRespells(crypto, records, log)
    ensures OpteeAccepts(crypto, Some(s), records, true)
  {
    hide FromHex, ToHex, Message, Authentic, LinkVerified, TextOf, IntOf;
    forall i: nat | i < |records| ensures LinkVerified(crypto, s, records, i) {
      RespelledLinkVerified(crypto, s, log, records, i);
    }
    if records != [] {
      assert OpteeRespelledAt(crypto, records, log, 0) && OpteeRespelledAt(crypto, records, log, |records| - 1);
    }
  }

  /** With the current head, this verifier accepts the complete issued log as it reads it, and nothing else. */
  lemma {:induction false} OpteeAcceptsExactly(crypto: Crypto, s: TaState, log: seq<Issued>, records: seq<Record>)
    requires Matches(crypto, AsStoreState(s), log) && NoCollisions(crypto, AsStoreState(s), records, log)
    ensures OpteeAccepts(crypto, Some(s), records, true) <==> OpteeRespells(crypto, records, log)
    ensures AllPlainlyTyped(records) ==> (OpteeAccepts(crypto, Some(s), records, true) <==> records == RecordsOf(log))
  {
    hide Matches, NoCollisions, OpteeAccepts, AllPlainlyTyped, OpteeRespellsPrefix;
    if OpteeAccepts(crypto, Some(s), records, true) {
      OpteeAcceptedIsIssued(crypto, s, log, records);
    }
    if OpteeRespells(crypto, records, log) {
      RespelledIsOpteeAccepted(crypto, s, log, records);
    }
    if AllPlainlyTyped(records) {
      PlainlyTypedIsTheLog(crypto, records, log);
    }
    assert RecordsOf(log)[..|log|] == RecordsOf(log);
  }

  /** The log with its first sequence number as the text "1", as 1.9 or as true, or with further keys, is accepted. */
  lemma {:induction false} OpteeRetypedCopyAccepted(
    crypto: Crypto, s: TaState, log: seq<Issued>, inRecord: map<string, Json>, inReceipt: map<string, Json>)
    requires Matches(crypto, AsStoreState(s), log) && log != [] && crypto.numeral("1") == Some(1)
    ensures forall sequence | sequence in [Text("1"), Real(1.9), Bool(true)] ::
      && OpteeAccepts(crypto, Some(s), WithSequence(log, sequence), true)
      && WithSequence(log, sequence) != RecordsOf(log)
    ensures OpteeAccepts(crypto, Some(s), WithKeys(log, inRecord, inReceipt), true)
  {
    hide FromHex, ToHex, Message, Authentic, Matches, OpteeAccepts;
    SequenceOfFirst(crypto, AsStoreState(s), log);
    forall sequence | sequence in [Text("1"), Real(1.9), Bool(true)]
      ensures OpteeAccepts(crypto, Some(s), WithSequence(log, sequence), true)
      ensures WithSequence(log, sequence) != RecordsOf(log) {
      assert Truncated(1.9) == 1;
      assert WithSequence(log, sequence)[0] != RecordOf(log[0]) == RecordsOf(log)[0];
      FirstOpteeRespells(crypto, log, WithSequence(log, sequence));
      RespelledIsOpteeAccepted(crypto, s, log, WithSequence(log, sequence));
    }
    FirstOpteeRespells(crypto, log, WithKeys(log, inRecord, inReceipt));
    RespelledIsOpteeAccepted(crypto, s, log, WithKeys(log, inRecord, inReceipt));
  }

  lemma {:induction false} FirstOpteeRespells(crypto: Crypto, log: seq<Issued>, altered: seq<Record>)
    requires log != [] && |altered| == |log| && altered[1..] == RecordsOf(log)[1..]
    requires altered[0].alert == Some(log[0].alert)
    requires var doc := altered[0].receipt;
      && doc == DocOf(log[0].receipt).(sequence := doc.sequence, others := doc.others)
      && IntOf(doc.sequence, crypto.numeral) == Number(log[0].receipt.sequence)
    ensures OpteeRespells(crypto, altered, log)
  {
    hide ToHex;
    var records := RecordsOf(log);
    assert forall i | 0 < i < |log| :: altered[i] == altered[1..][i - 1] == records[1..][i - 1] == records[i];
    forall i: nat | i < |log| ensures OpteeRespelledAt(crypto, altered, log, i) {
      if i > 0 {
        assert altered[i] == records[i] == RecordOf(log[i]);
      }
    }
  }

  /** The application sees digests only; the alerts are those whose digests were appended. */
  ghost predicate AlertsBehind(crypto: Crypto, log: seq<Receipt>, alerts: seq<Octets>) {
    |alerts| == |log| && forall i | 0 <= i < |log| :: log[i].alertHash == crypto.sha(alerts[i])
  }

  ghost function IssuedLog(log: seq<Receipt>, alerts: seq<Octets>): (issued: seq<Issued>)
    requires |log| == |alerts|
    ensures |issued| == |log| && forall i | 0 <= i < |log| :: issued[i] == Issued(alerts[i], log[i])
  {
    seq(|log|, i requires 0 <= i < |log| => Issued(alerts[i], log[i]))
  }

  lemma {:induction false} RunMatches(crypto: Crypto, commands: seq<(Command, Env)>, alerts: seq<Octets>)
    requires var h := RunTa(crypto, commands);
      |h.log| < TWO_TO_THE_64 && h.stored.Some? && AlertsBehind(crypto, h.log, alerts)
    ensures var h := RunTa(crypto, commands);
      Matches(crypto, AsStoreState(h.stored.value), IssuedLog(h.log, alerts))
  {
    hide RunTa, Message, Authentic;
    EveryRunIsOneChain(crypto, commands);
    EveryRunMatches(crypto, commands);
    var h := RunTa(crypto, commands);
    assert ReceiptsOf(IssuedLog(h.log, alerts)) == h.log;
    forall i | 0 <= i < |h.log| ensures h.log[i].model == h.stored.value.model {
      assert h.log[i] in h.log;
    }
  }

  /** After every run, whatever failed on the way: accepted with the current head means the complete issued log. */
  lemma {:induction false} EveryRunVerifiesExactly(
    crypto: Crypto, commands: seq<(Command, Env)>, alerts: seq<Octets>, records: seq<Record>)
    requires var h := RunTa(crypto, commands);
      && |h.log| < TWO_TO_THE_64 && h.stored.Some? && AlertsBehind(crypto, h.log, alerts)
      && NoCollisions(crypto, AsStoreState(h.stored.value), records, IssuedLog(h.log, alerts))
    ensures var h := RunTa(crypto, commands);
      && (OpteeAccepts(crypto, h.stored, records, true) <==> OpteeRespells(crypto, records, IssuedLog(h.log, alerts)))
      && (AllPlainlyTyped(records) ==>
            (OpteeAccepts(crypto, h.stored, records, true) <==> records == RecordsOf(IssuedLog(h.log, alerts))))
  {
    hide RunTa, Matches, NoCollisions, OpteeAccepts, OpteeRespells, AllPlainlyTyped;
    RunMatches(crypto, commands, alerts);
    var h := RunTa(crypto, commands);
    OpteeAcceptsExactly(crypto, h.stored.value, IssuedLog(h.log, alerts), records);
  }

  // ----- without the current head: exactly the prefixes of the issued log

  /** Every receipt that passes verification was handed out by the application. */
  ghost predicate OpteeUnforged(crypto: Crypto, s: TaState, log: seq<Issued>, records: seq<Record>) {
    forall i: nat | i < |records| ::
      LinkVerified(crypto, s, records, i) && Readable(crypto, records[i].receipt) ==>
        ReceiptIn(crypto, records[i].receipt) in ReceiptsOf(log)
  }

  /** Without the current head, and if no receipt is forged, exactly the prefixes of the log as the verifier reads it. */
  lemma {:induction false} OpteeAcceptsPrefixes(crypto: Crypto, s: TaState, log: seq<Issued>, records: seq<Record>)
    requires Matches(crypto, AsStoreState(s), log) && OpteeUnforged(crypto, s, log, records)
    requires CollisionFree(crypto.sha, AlertsOf(records, log))
    ensures OpteeAccepts(crypto, Some(s), records, false) <==> OpteeRespellsPrefix(crypto, records, log)
    ensures AllPlainlyTyped(records) ==>
      (OpteeAccepts(crypto, Some(s), records, false) <==> |records| <= |log| && records == RecordsOf(log)[..|records|])
  {
    hide FromHex, ToHex, Message, Authentic, LinkVerified, OpteeRespelledAt, Matches, AlertsOf, AllPlainlyTyped;
    if OpteeAccepts(crypto, Some(s), records, false) {
      forall i: nat | i < |records| ensures i < |log| && OpteeRespelledAt(crypto, records, log, i) {
        VerifiedLinkIsIssued(crypto, s, log, records, i);
      }
      if |records| > |log| {
        VerifiedLinkIsIssued(crypto, s, log, records, |log|);
      }
    }
    if OpteeRespellsPrefix(crypto, records, log) {
      forall i: nat | i < |records| ensures LinkVerified(crypto, s, records, i) {
        RespelledLinkVerified(crypto, s, log, records, i);
      }
    }
    if AllPlainlyTyped(records) {
      PlainlyTypedIsTheLog(crypto, records, log);
    }
  }

  lemma {:induction false} VerifiedLinkIsIssued(
    crypto: Crypto, s: TaState, log: seq<Issued>, records: seq<Record>, i: nat)
    requires Matches(crypto, AsStoreState(s), log) && OpteeUnforged(crypto, s, log, records)
    requires CollisionFree(crypto.sha, AlertsOf(records, log))
    requires i < |records| && LinkVerified(crypto, s, records, i)
    ensures i < |log| && OpteeRespelledAt(crypto, records, log, i)
  {
    LinkMeans(crypto, s, records, i);
    hide FromHex, ToHex, Message, Authentic, LinkVerified, TextOf, IntOf, Readable, ReceiptIn, OpteeRespelledAt;
    var r := ReceiptIn(crypto, records[i].receipt);
    assert r in ReceiptsOf(log);
    var j :| 0 <= j < |log| && ReceiptsOf(log)[j] == r;
    assert Linked(crypto, s.key, ReceiptsOf(log), j);
    IssuedReceiptRespells(crypto, s, log, records, i);
  }
}
