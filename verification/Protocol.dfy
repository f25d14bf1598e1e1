/** The versioned socket protocol: what its octets mean, and the C and Python code that reads and writes them. */
module Protocol {
  import opened Bytes
  import opened Wrappers

  const MAGIC := 0x43334d31
  const VERSION := 1
  const REQUEST_HEADER_SIZE := 24
  const RESPONSE_HEADER_SIZE := 20
  const MAX_KEY_BYTES := 64
  const MAX_VALUE_BYTES := 4096

  const OP_PUT := 1
  const OP_GET := 2
  const OP_DELETE := 3

  const STATUS_OK := 0
  const STATUS_INVALID := 1
  const STATUS_NOT_FOUND := 2
  const STATUS_BACKEND_ERROR := 3
  const STATUS_TOO_LARGE := 4
  const STATUS_PROTOCOL_ERROR := 5

  datatype Request = Request(id: nat, operation: nat, key: seq<byte>, value: seq<byte>)

  datatype Response = Response(id: nat, status: nat, value: seq<byte>)

  /** What a peer may send: the fields fit their widths and the lengths are within the protocol's limits. */
  predicate ValidRequest(r: Request) {
    && r.id < TWO_TO_THE_64
    && OP_PUT <= r.operation <= OP_DELETE
    && 1 <= |r.key| <= MAX_KEY_BYTES
    && |r.value| <= MAX_VALUE_BYTES
    && (r.operation != OP_PUT ==> r.value == [])
  }

  predicate ValidResponse(r: Response) {
    r.id < TWO_TO_THE_64 && r.status <= STATUS_PROTOCOL_ERROR && |r.value| <= MAX_VALUE_BYTES
  }

  // ----- the encodings

  function RequestHeader(operation: nat, id: nat, keyLen: nat, valueLen: nat): (h: seq<byte>)
    ensures |h| == REQUEST_HEADER_SIZE
  {
    BigEndian(MAGIC, 4) + BigEndian(VERSION, 2) + BigEndian(operation, 2) + BigEndian(id, 8)
    + BigEndian(keyLen, 4) + BigEndian(valueLen, 4)
  }

  function EncodeRequest(r: Request): seq<byte> {
    RequestHeader(r.operation, r.id, |r.key|, |r.value|) + r.key + r.value
  }

  function ResponseHeader(status: nat, id: nat, valueLen: nat): (h: seq<byte>)
    ensures |h| == RESPONSE_HEADER_SIZE
  {
    BigEndian(MAGIC, 4) + BigEndian(VERSION, 2) + BigEndian(status, 2) + BigEndian(id, 8) + BigEndian(valueLen, 4)
  }

  function EncodeResponse(r: Response): seq<byte> {
    ResponseHeader(r.status, r.id, |r.value|) + r.value
  }

  function Field(s: seq<byte>, at: nat, width: nat): nat
    requires at + width <= |s|
  {
    BigEndianValue(s[at..at + width])
  }

  // ----- the two request parsers; the result is the request and the octets left unread

  /** c3m_recv_request: every check on the header precedes the reads of key and value. */
  function ParseRequestC(s: seq<byte>): Option<(Request, seq<byte>)> {
    if |s| < REQUEST_HEADER_SIZE then None else
    var operation, id, keyLen, valueLen := Field(s, 6, 2), Field(s, 8, 8), Field(s, 16, 4), Field(s, 20, 4);
    if Field(s, 0, 4) != MAGIC || Field(s, 4, 2) != VERSION then None
    else if operation < OP_PUT || operation > OP_DELETE then None
    else if keyLen == 0 || keyLen > MAX_KEY_BYTES || valueLen > MAX_VALUE_BYTES then None
    else if operation != OP_PUT && valueLen != 0 then None
    else if |s| - REQUEST_HEADER_SIZE < keyLen then None
    else if |s| - REQUEST_HEADER_SIZE - keyLen < valueLen then None
    else
      var value := REQUEST_HEADER_SIZE + keyLen;
      Some((Request(id, operation, s[REQUEST_HEADER_SIZE..value], s[value..value + valueLen]), s[value + valueLen..]))
  }

  /** recv_request: the payload is read in one piece, and only then is a GET or DELETE value refused. */
  function ParseRequestPython(s: seq<byte>): Option<(Request, seq<byte>)> {
    if |s| < REQUEST_HEADER_SIZE then None else
    var operation, id, keyLen, valueLen := Field(s, 6, 2), Field(s, 8, 8), Field(s, 16, 4), Field(s, 20, 4);
    if Field(s, 0, 4) != MAGIC || Field(s, 4, 2) != VERSION then None
    else if operation !in {OP_PUT, OP_GET, OP_DELETE} then None
    else if keyLen == 0 || keyLen > MAX_KEY_BYTES || valueLen > MAX_VALUE_BYTES then None
    else
      var rest := s[REQUEST_HEADER_SIZE..];
      if |rest| < keyLen + valueLen then None else
      var payload := rest[..keyLen + valueLen];
      var request := Request(id, operation, payload[..keyLen], payload[keyLen..]);
      if ValidateRequest(request) then Some((request, rest[keyLen + valueLen..])) else None
  }

  /** validate_request raises exactly when this is false. */
  predicate ValidateRequest(r: Request) {
    && 1 <= |r.key| <= MAX_KEY_BYTES
    && |r.value| <= MAX_VALUE_BYTES
    && !(r.operation in {OP_GET, OP_DELETE} && r.value != [])
  }

  function ParseResponse(s: seq<byte>): Option<(Response, seq<byte>)> {
    if |s| < RESPONSE_HEADER_SIZE then None else
    var status, id, valueLen := Field(s, 6, 2), Field(s, 8, 8), Field(s, 16, 4);
    if Field(s, 0, 4) != MAGIC || Field(s, 4, 2) != VERSION then None
    else if status > STATUS_PROTOCOL_ERROR || valueLen > MAX_VALUE_BYTES then None
    else if |s| - RESPONSE_HEADER_SIZE < valueLen then None
    else
      var value := s[RESPONSE_HEADER_SIZE..];
      Some((Response(id, status, value[..valueLen]), value[valueLen..]))
  }

  // ----- what the parsers accept

  /** Reading back a number that was written big-endian at this place. */
  lemma {:induction false} FieldOf(s: seq<byte>, at: nat, width: nat, v: nat)
    requires v < Pow256(width) && at + width <= |s| && s[at..at + width] == BigEndian(v, width)
    ensures Field(s, at, width) == v
  {
    BigEndianRoundTrip(v, width);
  }

  /** The octets at this place are the big-endian form of the number read there. */
  lemma {:induction false} FieldOctets(s: seq<byte>, at: nat, width: nat)
    requires at + width <= |s|
    ensures s[at..at + width] == BigEndian(Field(s, at, width), width)
    ensures Field(s, at, width) < Pow256(width)
  {
    BigEndianOfValue(s[at..at + width]);
    BigEndianBound(s[at..at + width]);
  }

  lemma {:induction false} RequestHeaderFields(operation: nat, id: nat, keyLen: nat, valueLen: nat, rest: seq<byte>)
    requires operation < 0x1_0000 && id < TWO_TO_THE_64 && keyLen < TWO_TO_THE_32 && valueLen < TWO_TO_THE_32
    ensures var s := RequestHeader(operation, id, keyLen, valueLen) + rest;
      && Field(s, 0, 4) == MAGIC && Field(s, 4, 2) == VERSION && Field(s, 6, 2) == operation
      && Field(s, 8, 8) == id && Field(s, 16, 4) == keyLen && Field(s, 20, 4) == valueLen
  {
    Widths();
    hide BigEndian, BigEndianValue, Pow256, Field;
    var s := RequestHeader(operation, id, keyLen, valueLen) + rest;
    FieldOf(s, 0, 4, MAGIC);
    FieldOf(s, 4, 2, VERSION);
    FieldOf(s, 6, 2, operation);
    FieldOf(s, 8, 8, id);
    FieldOf(s, 16, 4, keyLen);
    FieldOf(s, 20, 4, valueLen);
  }

  lemma {:induction false} ResponseHeaderFields(status: nat, id: nat, valueLen: nat, rest: seq<byte>)
    requires status < 0x1_0000 && id < TWO_TO_THE_64 && valueLen < TWO_TO_THE_32
    ensures var s := ResponseHeader(status, id, valueLen) + rest;
      && Field(s, 0, 4) == MAGIC && Field(s, 4, 2) == VERSION && Field(s, 6, 2) == status
      && Field(s, 8, 8) == id && Field(s, 16, 4) == valueLen
  {
    Widths();
    hide BigEndian, BigEndianValue, Pow256, Field;
    var s := ResponseHeader(status, id, valueLen) + rest;
    FieldOf(s, 0, 4, MAGIC);
    FieldOf(s, 4, 2, VERSION);
    FieldOf(s, 6, 2, status);
    FieldOf(s, 8, 8, id);
    FieldOf(s, 16, 4, valueLen);
  }

  /** A valid request arrives unchanged, whatever follows it on the connection. */
  lemma {:induction false} RequestRoundTrip(r: Request, rest: seq<byte>)
    requires ValidRequest(r)
    ensures ParseRequestC(EncodeRequest(r) + rest) == Some((r, rest))
  {
    hide RequestHeader, Field;
    var header := RequestHeader(r.operation, r.id, |r.key|, |r.value|);
    RequestHeaderFields(r.operation, r.id, |r.key|, |r.value|, r.key + r.value + rest);
    var s := EncodeRequest(r) + rest;
    assert s == header + (r.key + r.value + rest);
    var value := REQUEST_HEADER_SIZE + |r.key|;
    assert s[REQUEST_HEADER_SIZE..value] == r.key;
    assert s[value..value + |r.value|] == r.value;
    assert s[value + |r.value|..] == rest;
  }

  lemma {:induction false} ResponseRoundTrip(r: Response, rest: seq<byte>)
    requires ValidResponse(r)
    ensures ParseResponse(EncodeResponse(r) + rest) == Some((r, rest))
  {
    hide ResponseHeader, Field;
    ResponseHeaderFields(r.status, r.id, |r.value|, r.value + rest);
    assert EncodeResponse(r) + rest == ResponseHeader(r.status, r.id, |r.value|) + (r.value + rest);
  }

  lemma {:induction false} RequestHeaderOctets(s: seq<byte>)
    requires |s| >= REQUEST_HEADER_SIZE && Field(s, 0, 4) == MAGIC && Field(s, 4, 2) == VERSION
    ensures s[..REQUEST_HEADER_SIZE] ==
      RequestHeader(Field(s, 6, 2), Field(s, 8, 8), Field(s, 16, 4), Field(s, 20, 4))
    ensures Field(s, 8, 8) < TWO_TO_THE_64
  {
    Widths();
    hide BigEndian, BigEndianValue, Pow256, Field;
    FieldOctets(s, 0, 4);
    FieldOctets(s, 4, 2);
    FieldOctets(s, 6, 2);
    FieldOctets(s, 8, 8);
    FieldOctets(s, 16, 4);
    FieldOctets(s, 20, 4);
    assert s[..REQUEST_HEADER_SIZE] ==
      s[0..0 + 4] + s[4..4 + 2] + s[6..6 + 2] + s[8..8 + 8] + s[16..16 + 4] + s[20..20 + 4];
  }

  /** Nothing but the encoding of a valid request is accepted. */
  lemma {:induction false} OnlyEncodingsParse(s: seq<byte>)
    requires ParseRequestC(s).Some?
    ensures var (r, rest) := ParseRequestC(s).value; ValidRequest(r) && s == EncodeRequest(r) + rest
  {
    ParsedIsEncoded(s, ParseRequestC(s).value.0, ParseRequestC(s).value.1);
  }

  lemma {:induction false} ParsedIsEncoded(s: seq<byte>, r: Request, rest: seq<byte>)
    requires ParseRequestC(s) == Some((r, rest))
    ensures ValidRequest(r) && s == EncodeRequest(r) + rest
  {
    hide ParseRequestC, RequestHeader, Field, EncodeRequest, ValidRequest;
    ParsedIsValid(s, r, rest);
    ParsedHeader(s, r, rest);
    var value := REQUEST_HEADER_SIZE + |r.key|;
    Reassemble(s, value, value + |r.value|, r);
  }

  lemma {:induction false} ParsedIsValid(s: seq<byte>, r: Request, rest: seq<byte>)
    requires ParseRequestC(s) == Some((r, rest))
    ensures ValidRequest(r)
  {
    hide ParseRequestC, RequestHeader, Field;
    ParsedFields(s, r, rest);
    RequestHeaderOctets(s);
  }

  lemma {:induction false} ParsedHeader(s: seq<byte>, r: Request, rest: seq<byte>)
    requires ParseRequestC(s) == Some((r, rest))
    ensures var value := REQUEST_HEADER_SIZE + |r.key|;
      && value + |r.value| <= |s|
      && s[..REQUEST_HEADER_SIZE] == RequestHeader(r.operation, r.id, |r.key|, |r.value|)
      && r.key == s[REQUEST_HEADER_SIZE..value] && r.value == s[value..value + |r.value|]
      && rest == s[value + |r.value|..]
  {
    hide ParseRequestC, RequestHeader, Field;
    ParsedFields(s, r, rest);
    RequestHeaderOctets(s);
  }

  /** Where an accepted request's parts lie in the stream, and the checks they passed. */
  lemma {:induction false} ParsedFields(s: seq<byte>, r: Request, rest: seq<byte>)
    requires ParseRequestC(s) == Some((r, rest))
    ensures var value := REQUEST_HEADER_SIZE + |r.key|;
      && value + |r.value| <= |s|
      && Field(s, 0, 4) == MAGIC && Field(s, 4, 2) == VERSION
      && r.operation == Field(s, 6, 2) && r.id == Field(s, 8, 8)
      && |r.key| == Field(s, 16, 4) && |r.value| == Field(s, 20, 4)
      && r.key == s[REQUEST_HEADER_SIZE..value] && r.value == s[value..value + |r.value|]
      && rest == s[value + |r.value|..]
      && OP_PUT <= r.operation <= OP_DELETE && 1 <= |r.key| <= MAX_KEY_BYTES && |r.value| <= MAX_VALUE_BYTES
      && (r.operation != OP_PUT ==> r.value == [])
  {
    hide Field;
  }

  lemma {:induction false} Reassemble(s: seq<byte>, j: nat, k: nat, r: Request)
    requires REQUEST_HEADER_SIZE <= j <= k <= |s|
    requires s[..REQUEST_HEADER_SIZE] == RequestHeader(r.operation, r.id, |r.key|, |r.value|)
    requires r.key == s[REQUEST_HEADER_SIZE..j] && r.value == s[j..k]
    ensures s == EncodeRequest(r) + s[k..]
  {
    hide RequestHeader;
    CutInFour(s, REQUEST_HEADER_SIZE, j, k);
  }

  lemma {:induction false} CutInFour(s: seq<byte>, i: nat, j: nat, k: nat)
    requires i <= j <= k <= |s|
    ensures s == s[..i] + s[i..j] + s[j..k] + s[k..]
  {
  }

  /** The server accepts exactly the streams that begin with a valid request, and reads exactly that request. */
  lemma {:induction false} AcceptedExactly(s: seq<byte>, r: Request, rest: seq<byte>)
    ensures ParseRequestC(s) == Some((r, rest)) <==> ValidRequest(r) && s == EncodeRequest(r) + rest
  {
    if ParseRequestC(s) == Some((r, rest)) {
      OnlyEncodingsParse(s);
    }
    if ValidRequest(r) && s == EncodeRequest(r) + rest {
      RequestRoundTrip(r, rest);
    }
  }

  /** The encoding is prefix-free, so it can be cut out of a stream in one way only. */
  lemma {:induction false} PrefixFree(r: Request, rest: seq<byte>, r': Request, rest': seq<byte>)
    requires ValidRequest(r) && ValidRequest(r')
    requires EncodeRequest(r) + rest == EncodeRequest(r') + rest'
    ensures r == r' && rest == rest'
  {
    RequestRoundTrip(r, rest);
    RequestRoundTrip(r', rest');
  }

  /** So are the encodings of responses. */
  lemma {:induction false} ResponsesPrefixFree(r: Response, rest: seq<byte>, r': Response, rest': seq<byte>)
    requires ValidResponse(r) && ValidResponse(r')
    requires EncodeResponse(r) + rest == EncodeResponse(r') + rest'
    ensures r == r' && rest == rest'
  {
    ResponseRoundTrip(r, rest);
    ResponseRoundTrip(r', rest');
  }

  /** The C and the Python server accept the same streams with the same result. */
  lemma {:induction false} ParsersAgree(s: seq<byte>)
    ensures ParseRequestPython(s) == ParseRequestC(s)
  {
    hide Field;
    var c := ParseRequestC(s);
    if |s| >= REQUEST_HEADER_SIZE {
      var keyLen, valueLen := Field(s, 16, 4), Field(s, 20, 4);
      var rest := s[REQUEST_HEADER_SIZE..];
      if keyLen + valueLen <= |rest| {
        var payload := rest[..keyLen + valueLen];
        var value := REQUEST_HEADER_SIZE + keyLen;
        assert payload[..keyLen] == s[REQUEST_HEADER_SIZE..value];
        assert payload[keyLen..] == s[value..value + valueLen];
        assert rest[keyLen + valueLen..] == s[value + valueLen..];
      }
    }
  }
}
