/** A client's call through the gateway: sent, received, dispatched, answered and read back. */
module Exchange {
  import opened Bytes
  import opened Backend
  import opened Protocol
  import opened Sockets
  import opened Gateway
  import opened GatewayServer

  /** A valid request arrives as it was sent, however the writes and the reads are cut, whatever comes after it. */
  method DeliverRequest(
    client: Connection, server: Connection, sent: RequestStruct, received: RequestStruct, rest: seq<byte>)
    requires client != server && client.outgoing == []
    requires sent.Sized() && sent.keyLen <= MAX_KEY_BYTES && sent.valueLen <= MAX_VALUE_BYTES
    requires ValidRequest(sent.View())
    requires received.Sized() && sent != received && {sent.key, sent.value} !! {received.key, received.value}
    modifies client`outgoing, server`incoming, received, received.key, received.value
    ensures received.keyLen <= MAX_KEY_BYTES && received.valueLen <= MAX_VALUE_BYTES
    ensures received.View() == old(sent.View()) && server.incoming == rest
  {
    hide EncodeRequest, ParseRequestC;
    ghost var request := sent.View();
    var ok := SendRequest(client, sent);
    server.incoming := client.outgoing + rest;
    assert client.outgoing == EncodeRequest(request);
    RequestRoundTrip(request, rest);
    ok := RecvRequest(server, received);
  }

  /** A valid response likewise. */
  method DeliverResponse(
    server: Connection, client: Connection, sent: ResponseStruct, received: ResponseStruct, rest: seq<byte>)
    requires server != client && server.outgoing == []
    requires sent.value.Length == MAX_VALUE_BYTES && sent.valueLen <= MAX_VALUE_BYTES && ValidResponse(sent.View())
    requires received.value.Length == MAX_VALUE_BYTES && sent != received && sent.value != received.value
    modifies server`outgoing, client`incoming, received, received.value
    ensures received.valueLen <= MAX_VALUE_BYTES
    ensures received.View() == old(sent.View()) && client.incoming == rest
  {
    hide EncodeResponse, ParseResponse;
    ghost var response := sent.View();
    var ok := SendResponse(server, sent);
    client.incoming := server.outgoing + rest;
    assert server.outgoing == EncodeResponse(response);
    ResponseRoundTrip(response, rest);
    ok := RecvResponse(client, received);
  }

  /** What the store answers is a valid response, and the gateway's reply is its encoding. */
  lemma {:induction false} ReplyIsEncoded(m: Store, r: Request)
    requires Bounded(m) && ValidRequest(r)
    ensures var (store, response) := Perform(m, r);
      && ValidResponse(response)
      && StepC(m, EncodeRequest(r), Grants(true, true, true)) == Served(r, store, response)
  {
    hide EncodeRequest, EncodeResponse, ParseRequestC;
    RequestRoundTrip(r, []);
    assert EncodeRequest(r) + [] == EncodeRequest(r);
    DispatchIsPerform(m, r);
  }

  /** From the client's side, a call with a valid request is one operation on the map. */
  method Call(backend: MockBackend, request: RequestStruct, response: ResponseStruct)
    requires backend.Valid() && Bounded(backend.Contents())
    requires request.Sized() && request.keyLen <= MAX_KEY_BYTES && request.valueLen <= MAX_VALUE_BYTES
    requires ValidRequest(request.View()) && response.value.Length == MAX_VALUE_BYTES
    requires {request, request.key, request.value, response, response.value} !! backend.Repr
    modifies backend.Repr, response, response.value
    ensures backend.Valid() && response.valueLen <= MAX_VALUE_BYTES
    ensures (backend.Contents(), response.View()) == Perform(old(backend.Contents()), old(request.View()))
  {
    hide EncodeRequest, EncodeResponse, ParseResponse, StepC, Perform, MockBackend.Valid, MockBackend.Contents, Bounded;
    ghost var m, r := backend.Contents(), request.View();
    ReplyIsEncoded(m, r);
    var client := new Connection([]);
    var ok := SendRequest(client, request);
    assert client.outgoing == EncodeRequest(r);
    var accepted := new Connection(client.outgoing);
    var event, status := ServeOne(backend, accepted, Grants(true, true, true));
    var reply := new Connection(accepted.outgoing);
    ghost var answer := Perform(m, r).1;
    assert reply.incoming == EncodeResponse(answer) + [];
    ResponseRoundTrip(answer, []);
    ok := RecvResponse(reply, response);
  }
}
