/** The C and Python code that moves protocol messages over a stream socket. */
module Sockets {
  import opened Bytes
  import opened Wrappers
  import opened Protocol

  /** One end of a stream socket: what the peer has sent and nobody has read, and what was written to it. */
  class Connection {
    var incoming: seq<byte>
    var outgoing: seq<byte>

    constructor (incoming: seq<byte>)
      ensures this.incoming == incoming && outgoing == []
    {
      this.incoming, outgoing := incoming, [];
    }

    /** read or recv: at least one octet unless the peer has closed, never more than asked for. */
    method Read(limit: nat) returns (chunk: seq<byte>)
      requires limit > 0
      modifies this`incoming
      ensures chunk + incoming == old(incoming)
      ensures |chunk| <= limit
      ensures chunk == [] <==> old(incoming) == []
    {
      if incoming == [] {
        return [];
      }
      var count: nat :| 1 <= count <= limit && count <= |incoming|;
      chunk, incoming := incoming[..count], incoming[count..];
    }

    /** write: takes some of the octets offered. */
    method Write(octets: seq<byte>) returns (count: nat)
      requires octets != []
      modifies this`outgoing
      ensures 1 <= count <= |octets|
      ensures outgoing == old(outgoing) + octets[..count]
    {
      count :| 1 <= count <= |octets|;
      outgoing := outgoing + octets[..count];
    }
  }

  // ----- src/common/protocol.c

  method ReadFull(connection: Connection, buffer: array<byte>, length: nat) returns (ok: bool)
    requires length <= buffer.Length
    modifies connection`incoming, buffer
    ensures ok <==> length <= |old(connection.incoming)|
    ensures ok ==> buffer[..length] == old(connection.incoming)[..length]
    ensures ok ==> connection.incoming == old(connection.incoming)[length..]
    ensures buffer[length..] == old(buffer[length..])
  {
    ghost var stream := connection.incoming;
    var cursor: nat, remaining: nat := 0, length;
    while remaining > 0
      invariant cursor + remaining == length && cursor <= |stream|
      invariant connection.incoming == stream[cursor..]
      invariant buffer[..cursor] == stream[..cursor]
      invariant buffer[length..] == old(buffer[length..])
    {
      var chunk := connection.Read(remaining);
      if chunk == [] {
        return false;
      }
      assert chunk == stream[cursor..cursor + |chunk|];
      Memcpy(buffer, cursor, chunk);
      cursor, remaining := cursor + |chunk|, remaining - |chunk|;
    }
    ok := true;
  }

  method WriteFull(connection: Connection, buffer: array<byte>, length: nat)
    requires length <= buffer.Length
    modifies connection`outgoing
    ensures connection.outgoing == old(connection.outgoing) + buffer[..length]
  {
    var cursor, remaining := 0, length;
    while remaining > 0
      invariant cursor + remaining == length
      invariant connection.outgoing == old(connection.outgoing) + buffer[..cursor]
    {
      var count := connection.Write(buffer[cursor..cursor + remaining]);
      assert buffer[..cursor + count] == buffer[..cursor] + buffer[cursor..cursor + remaining][..count];
      cursor, remaining := cursor + count, remaining - count;
    }
  }

  /** htons on a little-endian machine. */
  function Htons(v: nat): nat {
    v % 0x100 * 0x100 + v / 0x100
  }

  /** htonl on a little-endian machine. */
  function Htonl(v: nat): nat {
    var v1 := v / 0x100;
    var v2 := v1 / 0x100;
    v % 0x100 * 0x100_0000 + v1 % 0x100 * 0x1_0000 + v2 % 0x100 * 0x100 + v2 / 0x100
  }

  /** The halves are swapped octet-wise and exchanged; their bits do not overlap. */
  function HostToNetworkU64(v: nat): nat {
    Htonl(v / TWO_TO_THE_32) + Htonl(v % TWO_TO_THE_32) * TWO_TO_THE_32
  }

  lemma {:induction false} Digit(q: nat, r: nat, n: nat)
    requires r < 256 && n > 0
    ensures (q * 256 + r) / 256 == q && (q * 256 + r) % 256 == r
    ensures LittleEndian(q * 256 + r, n) == [r as byte] + LittleEndian(q, n - 1)
    ensures BigEndian(q * 256 + r, n) == BigEndian(q, n - 1) + [r as byte]
  {
  }

  /** The memory image of the converted number is the big-endian form of the original. */
  lemma {:induction false} MemoryOfHtons(v: nat)
    requires v < 0x1_0000
    ensures Htons(v) < 0x1_0000 && LittleEndian(Htons(v), 2) == BigEndian(v, 2)
  {
    var a, b := v % 0x100, v / 0x100;
    Digit(a, b, 2);
    Digit(0, a, 1);
    Digit(b, a, 2);
    Digit(0, b, 1);
  }

  lemma {:induction false} MemoryOfHtonl(v: nat)
    requires v < TWO_TO_THE_32
    ensures Htonl(v) < TWO_TO_THE_32 && LittleEndian(Htonl(v), 4) == BigEndian(v, 4)
  {
    var v1 := v / 0x100;
    var v2 := v1 / 0x100;
    var a, b, c, d := v % 0x100, v1 % 0x100, v2 % 0x100, v2 / 0x100;
    hide LittleEndian, BigEndian;
    assert v == ((d * 256 + c) * 256 + b) * 256 + a;
    assert Htonl(v) == ((a * 256 + b) * 256 + c) * 256 + d;
    hide Htonl;
    Digits(a, b, c, d);
    Digits(d, c, b, a);
  }

  lemma {:induction false} Digits(a: nat, b: nat, c: nat, d: nat)
    requires a < 256 && b < 256 && c < 256 && d < 256
    ensures LittleEndian(((a * 256 + b) * 256 + c) * 256 + d, 4) == [d as byte, c as byte, b as byte, a as byte]
    ensures BigEndian(((a * 256 + b) * 256 + c) * 256 + d, 4) == [a as byte, b as byte, c as byte, d as byte]
  {
    Digit((a * 256 + b) * 256 + c, d, 4);
    Digit(a * 256 + b, c, 3);
    Digit(a, b, 2);
    Digit(0, a, 1);
  }

  lemma {:induction false} MemoryOfU64(v: nat)
    requires v < TWO_TO_THE_64
    ensures HostToNetworkU64(v) < TWO_TO_THE_64
    ensures LittleEndian(HostToNetworkU64(v), 8) == BigEndian(v, 8)
  {
    Widths();
    hide LittleEndian, BigEndian, Htonl, Pow256;
    var high, low := v / TWO_TO_THE_32, v % TWO_TO_THE_32;
    MemoryOfHtonl(high);
    MemoryOfHtonl(low);
    LittleEndianHalves(HostToNetworkU64(v), Htonl(low), Htonl(high), 4, 4);
    BigEndianHalves(v, high, low, 4, 4);
  }

  /** The lowest octet of a number is that of its lower part. */
  lemma {:induction false} LowestOctet(whole: nat, high: nat, low: nat, n: nat)
    requires n > 0 && low < Pow256(n) && whole == high * Pow256(n) + low
    ensures whole / 256 == high * Pow256(n - 1) + low / 256 && whole % 256 == low % 256
    ensures low / 256 < Pow256(n - 1)
  {
    var weight := Pow256(n - 1);
    hide Pow256;
    assert high * (256 * weight) == (high * weight) * 256;
  }

  lemma {:induction false} NoLowerPart(whole: nat, high: nat, low: nat)
    requires low < Pow256(0) && whole == high * Pow256(0) + low
    ensures whole == high
  {
  }

  lemma {:induction false} LittleEndianHalves(whole: nat, high: nat, low: nat, m: nat, n: nat)
    requires low < Pow256(m) && whole == high * Pow256(m) + low
    ensures LittleEndian(whole, m + n) == LittleEndian(low, m) + LittleEndian(high, n)
    decreases m
  {
    hide Pow256;
    if m == 0 {
      NoLowerPart(whole, high, low);
    } else {
      LowestOctet(whole, high, low, m);
      LittleEndianHalves(whole / 256, high, low / 256, m - 1, n);
    }
  }

  lemma {:induction false} BigEndianHalves(whole: nat, high: nat, low: nat, m: nat, n: nat)
    requires low < Pow256(n) && whole == high * Pow256(n) + low
    ensures BigEndian(whole, m + n) == BigEndian(high, m) + BigEndian(low, n)
    decreases n
  {
    hide Pow256;
    if n == 0 {
      NoLowerPart(whole, high, low);
    } else {
      LowestOctet(whole, high, low, n);
      BigEndianHalves(whole / 256, high, low / 256, m, n - 1);
    }
  }

  function LittleEndianValue(s: seq<byte>): nat {
    if s == [] then 0 else s[0] + 256 * LittleEndianValue(s[1..])
  }

  lemma {:induction false} LittleEndianRoundTrip(v: nat, n: nat)
    requires v < Pow256(n)
    ensures LittleEndianValue(LittleEndian(v, n)) == v
    decreases n
  {
    if n > 0 {
      LittleEndianRoundTrip(v / 256, n - 1);
      assert LittleEndian(v, n)[1..] == LittleEndian(v / 256, n - 1);
    }
  }

  lemma {:induction false} LittleEndianOfValue(s: seq<byte>)
    ensures LittleEndian(LittleEndianValue(s), |s|) == s && LittleEndianValue(s) < Pow256(|s|)
  {
    if s != [] {
      LittleEndianOfValue(s[1..]);
      assert s == [s[0]] + s[1..];
    }
  }

  lemma {:induction false} OrdersReverse(v: nat, n: nat)
    ensures forall i | 0 <= i < n :: BigEndian(v, n)[i] == LittleEndian(v, n)[n - 1 - i]
    decreases n
  {
    if n > 0 {
      OrdersReverse(v / 256, n - 1);
    }
  }

  /** A conversion that is right when writing is right when reading. */
  lemma {:induction false} ReadBack(s: seq<byte>, converted: nat)
    requires converted < Pow256(|s|)
    requires LittleEndian(converted, |s|) == BigEndian(LittleEndianValue(s), |s|)
    ensures converted == BigEndianValue(s)
  {
    hide BigEndian, LittleEndian;
    LittleEndianOfValue(s);
    BigEndianOfValue(s);
    BigEndianBound(s);
    OrdersReverse(LittleEndianValue(s), |s|);
    OrdersReverse(BigEndianValue(s), |s|);
    assert forall i | 0 <= i < |s| ::
      LittleEndian(BigEndianValue(s), |s|)[i] == BigEndian(BigEndianValue(s), |s|)[|s| - 1 - i];
    assert LittleEndian(BigEndianValue(s), |s|) == LittleEndian(converted, |s|);
    LittleEndianRoundTrip(converted, |s|);
    LittleEndianRoundTrip(BigEndianValue(s), |s|);
  }

  method PutU16(buffer: array<byte>, at: nat, value: nat)
    requires at + 2 <= buffer.Length && value < 0x1_0000
    modifies buffer
    ensures buffer[..at + 2] == old(buffer[..at]) + BigEndian(value, 2)
  {
    MemoryOfHtons(value);
    Memcpy(buffer, at, LittleEndian(Htons(value), 2));
  }

  method PutU32(buffer: array<byte>, at: nat, value: nat)
    requires at + 4 <= buffer.Length && value < TWO_TO_THE_32
    modifies buffer
    ensures buffer[..at + 4] == old(buffer[..at]) + BigEndian(value, 4)
  {
    MemoryOfHtonl(value);
    Memcpy(buffer, at, LittleEndian(Htonl(value), 4));
  }

  method PutU64(buffer: array<byte>, at: nat, value: nat)
    requires at + 8 <= buffer.Length && value < TWO_TO_THE_64
    modifies buffer
    ensures buffer[..at + 8] == old(buffer[..at]) + BigEndian(value, 8)
  {
    MemoryOfU64(value);
    Memcpy(buffer, at, LittleEndian(HostToNetworkU64(value), 8));
  }

  method GetU16(buffer: array<byte>, at: nat) returns (value: nat)
    requires at + 2 <= buffer.Length
    ensures value == Field(buffer[..], at, 2) < 0x1_0000
  {
    Widths();
    var memory := buffer[at..at + 2];
    value := LittleEndianValue(memory);
    LittleEndianOfValue(memory);
    MemoryOfHtons(value);
    value := Htons(value);
    ReadBack(memory, value);
    assert buffer[..][at..at + 2] == memory;
  }

  method GetU32(buffer: array<byte>, at: nat) returns (value: nat)
    requires at + 4 <= buffer.Length
    ensures value == Field(buffer[..], at, 4) < TWO_TO_THE_32
  {
    Widths();
    var memory := buffer[at..at + 4];
    value := LittleEndianValue(memory);
    LittleEndianOfValue(memory);
    MemoryOfHtonl(value);
    value := Htonl(value);
    ReadBack(memory, value);
    assert buffer[..][at..at + 4] == memory;
  }

  method GetU64(buffer: array<byte>, at: nat) returns (value: nat)
    requires at + 8 <= buffer.Length
    ensures value == Field(buffer[..], at, 8) < TWO_TO_THE_64
  {
    Widths();
    var memory := buffer[at..at + 8];
    value := LittleEndianValue(memory);
    LittleEndianOfValue(memory);
    MemoryOfU64(value);
    value := HostToNetworkU64(value);
    ReadBack(memory, value);
    assert buffer[..][at..at + 8] == memory;
  }

  /** struct c3m_request */
  class RequestStruct {
    var id: nat
    var operation: nat
    var keyLen: nat
    var valueLen: nat
    const key: array<byte>
    const value: array<byte>

    constructor ()
      ensures fresh(key) && fresh(value) && Sized()
    {
      id, operation, keyLen, valueLen := 0, 0, 0, 0;
      key := new byte[MAX_KEY_BYTES];
      value := new byte[MAX_VALUE_BYTES];
    }

    predicate Sized() {
      key.Length == MAX_KEY_BYTES && value.Length == MAX_VALUE_BYTES && key != value
    }

    function View(): Request
      requires keyLen <= key.Length && valueLen <= value.Length
      reads this, key, value
    {
      Request(id, operation, key[..keyLen], value[..valueLen])
    }
  }

  /** struct c3m_response */
  class ResponseStruct {
    var id: nat
    var status: nat
    var valueLen: nat
    const value: array<byte>

    constructor ()
      ensures fresh(value) && value.Length == MAX_VALUE_BYTES
      ensures id == status == valueLen == 0
    {
      id, status, valueLen := 0, 0, 0;
      value := new byte[MAX_VALUE_BYTES];
    }

    function View(): Response
      requires valueLen <= value.Length
      reads this, value
    {
      Response(id, status, value[..valueLen])
    }
  }

  lemma {:induction false} Associate(a: seq<byte>, b: seq<byte>, c: seq<byte>, d: seq<byte>)
    ensures a + b + c + d == a + (b + c + d) && a + b + c == a + (b + c)
    ensures d == [] ==> a + b + c == a + (b + c + d)
  {
  }

  method FillRequestHeader(header: array<byte>, request: RequestStruct)
    requires header.Length == REQUEST_HEADER_SIZE
    requires request.id < TWO_TO_THE_64 && request.operation < 0x1_0000
    requires request.keyLen <= MAX_KEY_BYTES && request.valueLen <= MAX_VALUE_BYTES
    modifies header
    ensures header[..] == RequestHeader(request.operation, request.id, request.keyLen, request.valueLen)
  {
    hide BigEndian;
    PutU32(header, 0, MAGIC);
    PutU16(header, 4, VERSION);
    PutU16(header, 6, request.operation);
    PutU64(header, 8, request.id);
    PutU32(header, 16, request.keyLen);
    PutU32(header, 20, request.valueLen);
    assert header[..REQUEST_HEADER_SIZE] == header[..];
  }

  method SendRequest(connection: Connection, request: RequestStruct) returns (ok: bool)
    requires request.Sized()
    requires request.id < TWO_TO_THE_64 && request.operation < 0x1_0000
    modifies connection`outgoing
    ensures ok <==> 1 <= request.keyLen <= MAX_KEY_BYTES && request.valueLen <= MAX_VALUE_BYTES
    ensures ok ==> connection.outgoing == old(connection.outgoing) + EncodeRequest(request.View())
    ensures !ok ==> connection.outgoing == old(connection.outgoing)
  {
    if request.keyLen == 0 || request.keyLen > MAX_KEY_BYTES || request.valueLen > MAX_VALUE_BYTES {
      return false;
    }
    var header := new byte[REQUEST_HEADER_SIZE];
    FillRequestHeader(header, request);
    hide RequestHeader;
    ghost var r := request.View();
    ghost var before := connection.outgoing;
    WriteFull(connection, header, REQUEST_HEADER_SIZE);
    assert connection.outgoing == before + RequestHeader(r.operation, r.id, |r.key|, |r.value|);
    WriteFull(connection, request.key, request.keyLen);
    if request.valueLen > 0 {
      WriteFull(connection, request.value, request.valueLen);
    }
    Associate(before, RequestHeader(r.operation, r.id, |r.key|, |r.value|), r.key, r.value);
    ok := true;
  }

  /** The header fields go into the struct; the result is the check of magic number and version. */
  method ReadRequestHeader(header: array<byte>, request: RequestStruct, ghost s: seq<byte>) returns (known: bool)
    requires header.Length == REQUEST_HEADER_SIZE <= |s| && header[..] == s[..REQUEST_HEADER_SIZE]
    modifies request
    ensures request.operation == Field(s, 6, 2) && request.id == Field(s, 8, 8)
    ensures request.keyLen == Field(s, 16, 4) && request.valueLen == Field(s, 20, 4)
    ensures known <==> Field(s, 0, 4) == MAGIC && Field(s, 4, 2) == VERSION
  {
    hide Field;
    HeaderField(s, REQUEST_HEADER_SIZE, 0, 4);
    HeaderField(s, REQUEST_HEADER_SIZE, 4, 2);
    HeaderField(s, REQUEST_HEADER_SIZE, 6, 2);
    HeaderField(s, REQUEST_HEADER_SIZE, 8, 8);
    HeaderField(s, REQUEST_HEADER_SIZE, 16, 4);
    HeaderField(s, REQUEST_HEADER_SIZE, 20, 4);
    var magic := GetU32(header, 0);
    var version := GetU16(header, 4);
    request.operation := GetU16(header, 6);
    request.id := GetU64(header, 8);
    request.keyLen := GetU32(header, 16);
    request.valueLen := GetU32(header, 20);
    known := magic == MAGIC && version == VERSION;
  }

  method RecvRequest(connection: Connection, request: RequestStruct) returns (ok: bool)
    requires request.Sized()
    modifies connection`incoming, request, request.key, request.value
    ensures ok <==> ParseRequestC(old(connection.incoming)).Some?
    ensures ok ==>
      && request.keyLen <= MAX_KEY_BYTES && request.valueLen <= MAX_VALUE_BYTES
      && ParseRequestC(old(connection.incoming)) == Some((request.View(), connection.incoming))
  {
    hide Field, BigEndianValue;
    request.id, request.operation, request.keyLen, request.valueLen := 0, 0, 0, 0;
    var header := new byte[REQUEST_HEADER_SIZE];
    ok := ReadFull(connection, header, REQUEST_HEADER_SIZE);
    if !ok {
      return false;
    }
    ghost var s := old(connection.incoming);
    assert header[..] == s[..REQUEST_HEADER_SIZE];
    var known := ReadRequestHeader(header, request, s);
    if !known {
      return false;
    }
    if request.operation < OP_PUT || request.operation > OP_DELETE {
      return false;
    }
    if request.keyLen == 0 || request.keyLen > MAX_KEY_BYTES || request.valueLen > MAX_VALUE_BYTES {
      return false;
    }
    if request.operation != OP_PUT && request.valueLen > 0 {
      return false;
    }
    ok := ReadFull(connection, request.key, request.keyLen);
    if !ok {
      return false;
    }
    if request.valueLen > 0 {
      ok := ReadFull(connection, request.value, request.valueLen);
    }
    if ok {
      var value := REQUEST_HEADER_SIZE + request.keyLen;
      assert request.key[..request.keyLen] == s[REQUEST_HEADER_SIZE..value];
      assert request.value[..request.valueLen] == s[value..value + request.valueLen];
      assert connection.incoming == s[value + request.valueLen..];
    }
  }

  lemma {:induction false} HeaderField(s: seq<byte>, size: nat, at: nat, width: nat)
    requires at + width <= size <= |s|
    ensures Field(s[..size], at, width) == Field(s, at, width)
  {
    assert s[..size][at..at + width] == s[at..at + width];
  }

  method FillResponseHeader(header: array<byte>, response: ResponseStruct)
    requires header.Length == RESPONSE_HEADER_SIZE
    requires response.id < TWO_TO_THE_64 && response.status < 0x1_0000 && response.valueLen <= MAX_VALUE_BYTES
    modifies header
    ensures header[..] == ResponseHeader(response.status, response.id, response.valueLen)
  {
    hide BigEndian;
    PutU32(header, 0, MAGIC);
    PutU16(header, 4, VERSION);
    PutU16(header, 6, response.status);
    PutU64(header, 8, response.id);
    PutU32(header, 16, response.valueLen);
    assert header[..RESPONSE_HEADER_SIZE] == header[..];
  }

  method SendResponse(connection: Connection, response: ResponseStruct) returns (ok: bool)
    requires response.value.Length == MAX_VALUE_BYTES
    requires response.id < TWO_TO_THE_64 && response.status < 0x1_0000
    modifies connection`outgoing
    ensures ok <==> response.valueLen <= MAX_VALUE_BYTES
    ensures ok ==> connection.outgoing == old(connection.outgoing) + EncodeResponse(response.View())
    ensures !ok ==> connection.outgoing == old(connection.outgoing)
  {
    if response.valueLen > MAX_VALUE_BYTES {
      return false;
    }
    var header := new byte[RESPONSE_HEADER_SIZE];
    FillResponseHeader(header, response);
    hide ResponseHeader;
    ghost var r := response.View();
    ghost var before := connection.outgoing;
    WriteFull(connection, header, RESPONSE_HEADER_SIZE);
    assert connection.outgoing == before + ResponseHeader(r.status, r.id, |r.value|);
    if response.valueLen > 0 {
      WriteFull(connection, response.value, response.valueLen);
    }
    Associate(before, ResponseHeader(r.status, r.id, |r.value|), r.value, []);
    ok := true;
  }

  method RecvResponse(connection: Connection, response: ResponseStruct) returns (ok: bool)
    requires response.value.Length == MAX_VALUE_BYTES
    modifies connection`incoming, response, response.value
    ensures ok <==> ParseResponse(old(connection.incoming)).Some?
    ensures ok ==>
      && response.valueLen <= MAX_VALUE_BYTES
      && ParseResponse(old(connection.incoming)) == Some((response.View(), connection.incoming))
  {
    hide Field, BigEndianValue;
    response.id, response.status, response.valueLen := 0, 0, 0;
    var header := new byte[RESPONSE_HEADER_SIZE];
    ok := ReadFull(connection, header, RESPONSE_HEADER_SIZE);
    if !ok {
      return false;
    }
    ghost var s := old(connection.incoming);
    assert header[..] == s[..RESPONSE_HEADER_SIZE];
    HeaderField(s, RESPONSE_HEADER_SIZE, 0, 4);
    HeaderField(s, RESPONSE_HEADER_SIZE, 4, 2);
    HeaderField(s, RESPONSE_HEADER_SIZE, 6, 2);
    HeaderField(s, RESPONSE_HEADER_SIZE, 8, 8);
    HeaderField(s, RESPONSE_HEADER_SIZE, 16, 4);
    var magic := GetU32(header, 0);
    var version := GetU16(header, 4);
    if magic != MAGIC || version != VERSION {
      return false;
    }
    response.status := GetU16(header, 6);
    response.id := GetU64(header, 8);
    response.valueLen := GetU32(header, 16);
    if response.status > STATUS_PROTOCOL_ERROR || response.valueLen > MAX_VALUE_BYTES {
      return false;
    }
    if response.valueLen > 0 {
      ok := ReadFull(connection, response.value, response.valueLen);
    }
    if ok {
      assert response.value[..response.valueLen] == s[RESPONSE_HEADER_SIZE..][..response.valueLen];
      assert connection.incoming == s[RESPONSE_HEADER_SIZE..][response.valueLen..];
    }
  }

  // ----- cote3mon/protocol.py; None stands for EOFError or ValueError

  function JoinChunks(chunks: seq<seq<byte>>): seq<byte> {
    if chunks == [] then [] else JoinChunks(chunks[..|chunks| - 1]) + chunks[|chunks| - 1]
  }

  method RecvExact(connection: Connection, size: nat) returns (octets: Option<seq<byte>>)
    modifies connection`incoming
    ensures octets == if |old(connection.incoming)| < size then None else Some(old(connection.incoming)[..size])
    ensures octets.Some? ==> connection.incoming == old(connection.incoming)[size..]
  {
    ghost var stream := connection.incoming;
    var chunks, remaining: nat := [], size;
    while remaining > 0
      invariant remaining <= size && size - remaining <= |stream|
      invariant JoinChunks(chunks) == stream[..size - remaining]
      invariant connection.incoming == stream[size - remaining..]
    {
      var chunk := connection.Read(remaining);
      if chunk == [] {
        return None;
      }
      assert (chunks + [chunk])[..|chunks|] == chunks;
      assert stream[..size - remaining + |chunk|] == stream[..size - remaining] + chunk;
      chunks, remaining := chunks + [chunk], remaining - |chunk|;
    }
    octets := Some(JoinChunks(chunks));
  }

  method RecvRequestPython(connection: Connection) returns (request: Option<Request>)
    modifies connection`incoming
    ensures request.Some? <==> ParseRequestPython(old(connection.incoming)).Some?
    ensures request.Some? ==>
      ParseRequestPython(old(connection.incoming)) == Some((request.value, connection.incoming))
  {
    hide Field, BigEndianValue;
    ghost var s := connection.incoming;
    var raw := RecvExact(connection, REQUEST_HEADER_SIZE);
    if raw.None? {
      return None;
    }
    HeaderField(s, REQUEST_HEADER_SIZE, 0, 4);
    HeaderField(s, REQUEST_HEADER_SIZE, 4, 2);
    HeaderField(s, REQUEST_HEADER_SIZE, 6, 2);
    HeaderField(s, REQUEST_HEADER_SIZE, 8, 8);
    HeaderField(s, REQUEST_HEADER_SIZE, 16, 4);
    HeaderField(s, REQUEST_HEADER_SIZE, 20, 4);
    var header := raw.value;
    var operation, keyLen, valueLen := Field(header, 6, 2), Field(header, 16, 4), Field(header, 20, 4);
    if Field(header, 0, 4) != MAGIC || Field(header, 4, 2) != VERSION {
      return None;
    }
    if operation !in {OP_PUT, OP_GET, OP_DELETE} {
      return None;
    }
    if keyLen == 0 || keyLen > MAX_KEY_BYTES || valueLen > MAX_VALUE_BYTES {
      return None;
    }
    var payload := RecvExact(connection, keyLen + valueLen);
    if payload.None? {
      return None;
    }
    var received := Request(Field(header, 8, 8), operation, payload.value[..keyLen], payload.value[keyLen..]);
    if !ValidateRequest(received) {
      return None;
    }
    request := Some(received);
  }
}
