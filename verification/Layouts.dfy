/** The octets and names that leave the programs, written out number by number. */
module Layouts {
  import opened Bytes
  import opened Wrappers
  import opened Protocol
  import Backend
  import opened Audit
  import Ta = AuditTa
  import G = Gateway

  /** Octets from a place on spell a number, the most significant first. */
  ghost predicate Spells(octets: seq<byte>, at: nat, width: nat, number: nat) {
    && at + width <= |octets|
    && forall k | at <= k < at + width :: octets[k] == number / Pow256(at + width - 1 - k) % 256
  }

  lemma {:induction false} BigEndianSpells(octets: seq<byte>, at: nat, width: nat, number: nat)
    requires at + width <= |octets| && octets[at..at + width] == BigEndian(number, width)
    ensures Spells(octets, at, width, number)
  {
    hide BigEndian, Pow256;
    forall k | at <= k < at + width ensures octets[k] == number / Pow256(at + width - 1 - k) % 256 {
      BigEndianAt(number, width, at + width - 1 - k);
      assert octets[k] == octets[at..at + width][k - at];
    }
  }

  // ----- the socket protocol

  /** Magic, version, operation, number, the two lengths, key and value, each at its place. */
  lemma {:induction false} RequestLayout(r: Request)
    ensures var octets := EncodeRequest(r);
      && |octets| == 24 + |r.key| + |r.value|
      && Spells(octets, 0, 4, 0x43334d31) && Spells(octets, 4, 2, 1) && Spells(octets, 6, 2, r.operation)
      && Spells(octets, 8, 8, r.id) && Spells(octets, 16, 4, |r.key|) && Spells(octets, 20, 4, |r.value|)
      && octets[24..24 + |r.key|] == r.key && octets[24 + |r.key|..] == r.value
  {
    hide BigEndian, Spells;
    var octets := EncodeRequest(r);
    BigEndianSpells(octets, 0, 4, 0x43334d31);
    BigEndianSpells(octets, 4, 2, 1);
    BigEndianSpells(octets, 6, 2, r.operation);
    BigEndianSpells(octets, 8, 8, r.id);
    BigEndianSpells(octets, 16, 4, |r.key|);
    BigEndianSpells(octets, 20, 4, |r.value|);
  }

  lemma {:induction false} ResponseLayout(r: Response)
    ensures var octets := EncodeResponse(r);
      && |octets| == 20 + |r.value|
      && Spells(octets, 0, 4, 0x43334d31) && Spells(octets, 4, 2, 1) && Spells(octets, 6, 2, r.status)
      && Spells(octets, 8, 8, r.id) && Spells(octets, 16, 4, |r.value|) && octets[20..] == r.value
  {
    hide BigEndian, Spells;
    var octets := EncodeResponse(r);
    BigEndianSpells(octets, 0, 4, 0x43334d31);
    BigEndianSpells(octets, 4, 2, 1);
    BigEndianSpells(octets, 6, 2, r.status);
    BigEndianSpells(octets, 8, 8, r.id);
    BigEndianSpells(octets, 16, 4, |r.value|);
  }

  /** The protocol's limits in numbers. */
  predicate WithinLimits(r: Request) {
    && r.id < 0x1_0000_0000_0000_0000 && 1 <= r.operation <= 3
    && 1 <= |r.key| <= 64 && |r.value| <= 4096 && (r.value != [] ==> r.operation == 1)
  }

  /** Requests within the limits are read back from their octets, and no others are ever read. */
  lemma {:induction false} RequestLimits(input: seq<byte>, r: Request, rest: seq<byte>)
    ensures WithinLimits(r) ==> ParseRequestC(EncodeRequest(r) + rest) == Some((r, rest))
    ensures ParseRequestC(input) == Some((r, rest)) ==> WithinLimits(r)
  {
    hide ParseRequestC, EncodeRequest;
    if WithinLimits(r) {
      RequestRoundTrip(r, rest);
    }
    if ParseRequestC(input) == Some((r, rest)) {
      OnlyEncodingsParse(input);
    }
  }

  // ----- telemetry

  predicate Called(operation: nat, name: string) {
    && (operation == 1 ==> name == "PUT") && (operation == 2 ==> name == "GET") && (operation == 3 ==> name == "DELETE")
    && 1 <= operation <= 3
  }

  /** The event of a request that was read has its fields, and the name of the status octet in the reply. */
  lemma {:induction false} EventTells(
    store: map<seq<byte>, seq<byte>>, input: seq<byte>, r: Request, rest: seq<byte>, grants: Backend.Grants)
    requires ParseRequestC(input) == Some((r, rest))
    ensures var answer := G.StepC(store, input, grants);
      && answer.event.requestId == r.id && answer.event.inputBytes == |r.key| + |r.value|
      && Called(r.operation, answer.event.operation)
      && |answer.reply| >= 20 && answer.reply[6] == 0 && answer.reply[7] <= 5
      && answer.event.result
         == ["OK", "INVALID", "NOT_FOUND", "BACKEND_ERROR", "TOO_LARGE", "PROTOCOL_ERROR"][answer.reply[7]]
  {
    hide ParseRequestC, BigEndian, EncodeResponse, Spells;
    OnlyEncodingsParse(input);
    var (_, response) := G.DispatchC(store, r, grants);
    ResponseLayout(response);
    StatusOctets(EncodeResponse(response), response.status);
  }

  lemma {:induction false} StatusOctets(octets: seq<byte>, status: nat)
    requires Spells(octets, 6, 2, status) && status < 256
    ensures octets[6] == 0 && octets[7] == status
  {
    assert octets[6] == status / Pow256(1) % 256;
    assert octets[7] == status / Pow256(0) % 256;
  }

  /** Anything else is answered with silence, changes nothing and is a protocol error of no operation. */
  lemma {:induction false} RejectionTells(store: map<seq<byte>, seq<byte>>, input: seq<byte>, grants: Backend.Grants)
    requires ParseRequestC(input) == None
    ensures G.StepC(store, input, grants) == G.Answer(store, [], G.Event("REJECT", 0, 0, "PROTOCOL_ERROR"))
    ensures G.StepPython(store, input) == G.Answer(store, [], G.Event("REJECT", 0, 0, "PROTOCOL_ERROR"))
  {
    hide ParseRequestC, ParseRequestPython;
    ParsersAgree(input);
  }

  // ----- audit receipts

  /** The 113 octets: "C3MAUDIT1", the number, previous head, alert hash, model. */
  lemma {:induction false} MessageLayout(r: Receipt)
    ensures var octets := MessageOf(r);
      && octets[..9] == [0x43, 0x33, 0x4d, 0x41, 0x55, 0x44, 0x49, 0x54, 0x31]
      && Spells(octets, 9, 8, r.sequence)
      && octets[17..49] == r.previous && octets[49..81] == r.alertHash && octets[81..] == r.model
  {
    hide BigEndian, Spells;
    MessageFields(r);
    BigEndianSpells(MessageOf(r), 9, 8, r.sequence);
  }

  /** A chain starts with number 1 over 32 zero octets. */
  lemma {:induction false} ChainStartsWithZeros(crypto: Crypto, key: Digest, rs: seq<Receipt>)
    requires Chain(crypto, key, rs) && rs != []
    ensures rs[0].sequence == 1 && forall i | 0 <= i < 32 :: rs[0].previous[i] == 0
  {
    assert Linked(crypto, key, rs, 0);
  }

  /** struct cote3_audit_receipt in memory */
  function ReceiptImage(r: Receipt): seq<byte> {
    LittleEndian(r.sequence, 8) + r.previous + r.alertHash + r.model + r.head
  }

  /** struct cote3_audit_head in memory */
  function HeadImage(h: Ta.HeadInfo): seq<byte> {
    LittleEndian(h.sequence, 8) + h.model + h.head
  }

  /** The buffer is refused as short, before anything is read, exactly when the reply's image does not fit in it. */
  lemma {:induction false} ShortBufferExactly(
    crypto: Crypto, stored: Option<Ta.TaState>, hash: Octets, capacity: nat, env: Ta.Env, r: Receipt, h: Ta.HeadInfo)
    requires |hash| == 32
    ensures Ta.Perform(crypto, stored, Ta.Append(true, hash, capacity), env).1.result == Ta.ShortBuffer <==>
      capacity < |ReceiptImage(r)|
    ensures Ta.Perform(crypto, stored, Ta.GetHead(true, capacity), env).1.result == Ta.ShortBuffer <==>
      capacity < |HeadImage(h)|
    ensures capacity < 72 ==>
      Ta.Perform(crypto, stored, Ta.GetHead(true, capacity), env) == (stored, Ta.Refusal(Ta.ShortBuffer))
  {
    hide Message;
  }
}
