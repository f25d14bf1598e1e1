/** The two servers: the C gateway over the mock backend, and the Python development gateway. */
module GatewayServer {
  import opened Bytes
  import opened Backend
  import opened Protocol
  import opened Sockets
  import opened Gateway

  // ----- src/gateway/gateway.c: latency recording

  /** struct request_metrics; the latency array grows by doubling and growth may be refused. */
  class RequestMetrics {
    var latencies: array<real>
    var count: nat
    var errors: nat
    var firstStart: nat
    var lastEnd: nat
    var allocationFailed: bool

    ghost predicate Valid()
      reads this
    {
      count <= latencies.Length
    }

    ghost function Recorded(): seq<real>
      requires Valid()
      reads this, latencies
    {
      latencies[..count]
    }

    constructor ()
      ensures Valid() && fresh(latencies) && Recorded() == [] && errors == 0 && !allocationFailed
    {
      latencies, count, errors, firstStart, lastEnd, allocationFailed := new real[0], 0, 0, 0, 0, false;
    }

    /** A full buffer grows to twice its size, at first to 1024; a refused growth loses this latency, raises the flag
        and nothing else. */
    method Record(start: nat, end: nat, status: nat, resizeGranted: bool)
      requires Valid() && start <= end
      modifies this, latencies
      ensures Valid() && (latencies == old(latencies) || fresh(latencies))
      ensures latencies.Length == if old(count) < old(latencies.Length) || !resizeGranted then old(latencies.Length)
        else if old(count) > 0 then 2 * old(count) else 1024
      ensures errors == old(errors) + (if status == STATUS_OK then 0 else 1)
      ensures lastEnd == end && firstStart == if old(count) == 0 then start else old(firstStart)
      ensures var lost := old(count) == old(latencies.Length) && !resizeGranted;
        && allocationFailed == (old(allocationFailed) || lost)
        && Recorded() == old(Recorded()) + (if lost then [] else [(end - start) as real / 1000.0])
    {
      if count == 0 {
        firstStart := start;
      }
      lastEnd := end;
      if status != STATUS_OK {
        errors := errors + 1;
      }
      if count == latencies.Length {
        var capacity := if count > 0 then count * 2 else 1024;
        if !resizeGranted {
          allocationFailed := true;
          return;
        }
        var resized := new real[capacity];
        forall i | 0 <= i < count {
          resized[i] := latencies[i];
        }
        latencies := resized;
      }
      latencies[count] := (end - start) as real / 1000.0;
      count := count + 1;
    }
  }

  // ----- src/gateway/gateway.c: one request, and the accept loop

  method Dispatch(backend: MockBackend, request: RequestStruct, response: ResponseStruct, grants: Grants)
    returns (status: nat)
    requires backend.Valid()
    requires request.Sized() && request.keyLen <= MAX_KEY_BYTES && request.valueLen <= MAX_VALUE_BYTES
    requires response.value.Length == MAX_VALUE_BYTES && response.valueLen == 0
    requires {response.value, request.key, request.value} !! backend.Repr
    requires response.value != request.key && response.value != request.value
    requires response !in backend.Repr && request !in backend.Repr
    modifies backend.Repr, response, response.value
    ensures backend.Valid() && fresh(backend.Repr - old(backend.Repr))
    ensures response.valueLen <= MAX_VALUE_BYTES && response.id == old(response.id)
    ensures status <= STATUS_PROTOCOL_ERROR
    ensures DispatchC(old(backend.Contents()), old(request.View()), grants) ==
      (backend.Contents(), Response(request.id, status, response.value[..response.valueLen]))
  {
    hide MockBackend.Valid, MockBackend.Contents;
    var key := request.key[..request.keyLen];
    var result;
    if request.operation == OP_PUT {
      result := backend.Put(key, request.value[..request.valueLen], grants);
    } else if request.operation == OP_GET {
      var outputSize;
      result, outputSize := backend.Get(key, response.value, MAX_VALUE_BYTES);
      if result == Ok {
        response.valueLen := outputSize;
      }
    } else if request.operation == OP_DELETE {
      result := backend.Delete(key);
    } else {
      return STATUS_INVALID;
    }
    status := StatusOf(result);
  }

  /** What the environment decides for one connection: its allocations and the clock around it. */
  datatype Round = Round(grants: Grants, resize: bool, start: nat, end: nat)

  function GrantsOf(rounds: seq<Round>): (plan: seq<Grants>)
    ensures |plan| == |rounds|
    ensures forall i | 0 <= i < |rounds| :: plan[i] == rounds[i].grants
  {
    seq(|rounds|, i requires 0 <= i < |rounds| => rounds[i].grants)
  }

  ghost function Inputs(connections: seq<Connection>): (inputs: seq<seq<byte>>)
    reads connections
    ensures |inputs| == |connections|
    ensures forall i | 0 <= i < |connections| :: inputs[i] == connections[i].incoming
  {
    seq(|connections|, i requires 0 <= i < |connections| reads connections => connections[i].incoming)
  }

  method LogEvent(request: RequestStruct, status: nat, parsed: bool) returns (event: Event)
    requires request.Sized() && request.keyLen <= MAX_KEY_BYTES && request.valueLen <= MAX_VALUE_BYTES
    ensures event ==
      if parsed then
        Event(OperationName(request.operation), request.id, request.keyLen + request.valueLen, StatusName(status))
      else Event("REJECT", 0, 0, StatusName(status))
  {
    if parsed {
      event := Event(OperationName(request.operation), request.id, request.keyLen + request.valueLen, StatusName(status));
    } else {
      event := Event("REJECT", 0, 0, StatusName(status));
    }
  }

  /** The body of the accept loop. */
  method ServeOne(backend: MockBackend, connection: Connection, grants: Grants)
    returns (event: Event, status: nat)
    requires backend.Valid() && connection !in backend.Repr
    modifies backend.Repr, connection
    ensures backend.Valid() && fresh(backend.Repr - old(backend.Repr))
    ensures event.result == "OK" <==> status == STATUS_OK
    ensures var answer := StepC(old(backend.Contents()), old(connection.incoming), grants);
      && answer.store == backend.Contents() && answer.event == event
      && connection.outgoing == old(connection.outgoing) + answer.reply
  {
    hide ParseRequestC, EncodeRequest, EncodeResponse, DispatchC, MockBackend.Valid, MockBackend.Contents;
    var request := new RequestStruct();
    var response := new ResponseStruct();
    var parsed := RecvRequest(connection, request);
    if parsed {
      OnlyEncodingsParse(old(connection.incoming));
      response.id := request.id;
      response.status := Dispatch(backend, request, response, grants);
      var _ := SendResponse(connection, response);
      status := response.status;
      event := LogEvent(request, status, true);
    } else {
      status := STATUS_PROTOCOL_ERROR;
      request.keyLen, request.valueLen := 0, 0;
      event := LogEvent(request, status, false);
    }
  }

  function Latencies(rounds: seq<Round>): seq<real>
    requires forall i | 0 <= i < |rounds| :: rounds[i].start <= rounds[i].end
  {
    seq(|rounds|, i requires 0 <= i < |rounds| => (rounds[i].end - rounds[i].start) as real / 1000.0)
  }

  lemma {:induction false} NothingServed(start: Store)
    ensures RunC(start, [], []) == Service(start, [], []) && CountErrors([]) == 0 && Latencies([]) == []
  {
  }

  lemma {:induction false} OneMore(
    start: Store, inputs: seq<seq<byte>>, rounds: seq<Round>, n: nat, events: seq<Event>, event: Event)
    requires |inputs| == |rounds| && n < |inputs|
    requires forall i | 0 <= i < |rounds| :: rounds[i].start <= rounds[i].end
    ensures var plan := GrantsOf(rounds);
      var before := RunC(start, inputs[..n], plan[..n]);
      var answer := StepC(before.store, inputs[n], rounds[n].grants);
      RunC(start, inputs[..n + 1], plan[..n + 1]) ==
        Service(answer.store, before.replies + [answer.reply], before.events + [answer.event])
    ensures CountErrors(events + [event]) == CountErrors(events) + (if event.result == "OK" then 0 else 1)
    ensures Latencies(rounds[..n + 1]) ==
      Latencies(rounds[..n]) + [(rounds[n].end - rounds[n].start) as real / 1000.0]
  {
    hide StepC;
    var plan := GrantsOf(rounds);
    assert inputs[..n + 1][..n] == inputs[..n] && plan[..n + 1][..n] == plan[..n];
    assert (events + [event])[..|events|] == events;
  }

  /** Every accepted connection is served in turn, answered on its own socket, counted and logged. */
  method Serve(backend: MockBackend, connections: seq<Connection>, rounds: seq<Round>, metrics: RequestMetrics)
    returns (events: seq<Event>)
    requires backend.Valid() && metrics.Valid()
    requires |rounds| == |connections| && forall i | 0 <= i < |rounds| :: rounds[i].start <= rounds[i].end
    requires forall i, j | 0 <= i < j < |connections| :: connections[i] != connections[j]
    requires forall i | 0 <= i < |connections| :: connections[i] !in backend.Repr
    requires metrics !in backend.Repr && metrics.latencies as object !in backend.Repr
    modifies backend.Repr, connections, metrics, metrics.latencies
    ensures backend.Valid() && metrics.Valid()
    ensures var run := RunC(old(backend.Contents()), old(Inputs(connections)), GrantsOf(rounds));
      && backend.Contents() == run.store && events == run.events
      && forall i | 0 <= i < |connections| ::
           connections[i].outgoing == old(connections[i].outgoing) + run.replies[i]
    ensures |events| == |connections| && metrics.errors == old(metrics.errors) + CountErrors(events)
    ensures (forall i | 0 <= i < |rounds| :: rounds[i].resize) ==>
      metrics.Recorded() == old(metrics.Recorded()) + Latencies(rounds)
  {
    hide MockBackend.Valid, MockBackend.Contents, RequestMetrics.Valid, RequestMetrics.Recorded;
    hide StepC, RunC, Extend, CountErrors, Latencies, GrantsOf, Inputs;
    NothingServed(backend.Contents());
    ghost var inputs, plan := Inputs(connections), GrantsOf(rounds);
    ghost var run := Service(backend.Contents(), [], []);
    events := [];
    for n := 0 to |connections|
      invariant backend.Valid() && metrics.Valid()
      invariant fresh(backend.Repr - old(backend.Repr)) && metrics.latencies as object !in backend.Repr
      invariant metrics.latencies == old(metrics.latencies) || fresh(metrics.latencies)
      invariant run == RunC(old(backend.Contents()), inputs[..n], plan[..n])
      invariant backend.Contents() == run.store && events == run.events
      invariant forall i | 0 <= i < n :: connections[i].outgoing == old(connections[i].outgoing) + run.replies[i]
      invariant forall i | n <= i < |connections| :: unchanged(connections[i])
      invariant metrics.errors == old(metrics.errors) + CountErrors(events)
      invariant (forall i | 0 <= i < n :: rounds[i].resize) ==>
        metrics.Recorded() == old(metrics.Recorded()) + Latencies(rounds[..n])
    {
      var event := Accept(backend, connections[n], rounds[n], metrics);
      OneMore(old(backend.Contents()), inputs, rounds, n, events, event);
      run := RunC(old(backend.Contents()), inputs[..n + 1], plan[..n + 1]);
      events := events + [event];
    }
    assert inputs[..|inputs|] == inputs && plan[..|plan|] == plan && rounds[..|rounds|] == rounds;
  }

  /** One turn of the accept loop, between two readings of the clock. */
  method Accept(backend: MockBackend, connection: Connection, round: Round, metrics: RequestMetrics)
    returns (event: Event)
    requires backend.Valid() && connection !in backend.Repr && metrics.Valid() && round.start <= round.end
    requires metrics !in backend.Repr && metrics.latencies as object !in backend.Repr
    modifies backend.Repr, connection, metrics, metrics.latencies
    ensures backend.Valid() && metrics.Valid()
    ensures fresh(backend.Repr - old(backend.Repr)) && metrics.latencies as object !in backend.Repr
    ensures metrics.latencies == old(metrics.latencies) || fresh(metrics.latencies)
    ensures var answer := StepC(old(backend.Contents()), old(connection.incoming), round.grants);
      && answer.store == backend.Contents() && answer.event == event
      && connection.outgoing == old(connection.outgoing) + answer.reply
    ensures metrics.errors == old(metrics.errors) + (if event.result == "OK" then 0 else 1)
    ensures round.resize ==>
      metrics.Recorded() == old(metrics.Recorded()) + [(round.end - round.start) as real / 1000.0]
  {
    hide MockBackend.Valid, MockBackend.Contents, StepC;
    var status;
    event, status := ServeOne(backend, connection, round.grants);
    metrics.Record(round.start, round.end, status, round.resize);
  }

  // ----- cote3mon/mock_gateway.py

  class MockGateway {
    var storage: Store

    constructor ()
      ensures storage == map[]
    {
      storage := map[];
    }

    method Handle(connection: Connection) returns (event: Event)
      modifies this, connection
      ensures var answer := StepPython(old(storage), old(connection.incoming));
        && storage == answer.store && event == answer.event
        && connection.outgoing == old(connection.outgoing) + answer.reply
    {
      hide ParseRequestPython;
      var operation, inputBytes, requestId, status := "REJECT", 0, 0, STATUS_PROTOCOL_ERROR;
      var responseValue := [];
      var received := RecvRequestPython(connection);
      if received.Some? {
        var request := received.value;
        PythonParses(old(connection.incoming));
        requestId := request.id;
        operation := OperationName(request.operation);
        inputBytes := |request.key| + |request.value|;
        if request.operation == OP_PUT {
          storage := storage[request.key := request.value];
          status := STATUS_OK;
        } else if request.operation == OP_GET {
          if request.key in storage {
            responseValue := storage[request.key];
            status := STATUS_OK;
          } else {
            status := STATUS_NOT_FOUND;
          }
        } else if request.operation == OP_DELETE {
          if request.key in storage {
            storage := storage - {request.key};
            status := STATUS_OK;
          } else {
            status := STATUS_NOT_FOUND;
          }
        }
        SendAll(connection, EncodeResponse(Response(request.id, status, responseValue)));
      }
      event := Event(operation, requestId, inputBytes, StatusName(status));
    }

    /** The accept loop of the development gateway. */
    method ServeAll(connections: seq<Connection>) returns (events: seq<Event>)
      requires forall i, j | 0 <= i < j < |connections| :: connections[i] != connections[j]
      modifies this, connections
      ensures var run := RunPython(old(storage), old(Inputs(connections)));
        && storage == run.store && events == run.events
        && forall i | 0 <= i < |connections| ::
             connections[i].outgoing == old(connections[i].outgoing) + run.replies[i]
    {
      hide StepPython, RunPython;
      NothingServedPython(storage);
      ghost var inputs := Inputs(connections);
      events := [];
      for n := 0 to |connections|
        invariant var run := RunPython(old(storage), inputs[..n]);
          && storage == run.store && events == run.events
          && forall i | 0 <= i < n :: connections[i].outgoing == old(connections[i].outgoing) + run.replies[i]
        invariant forall i | n <= i < |connections| :: unchanged(connections[i])
      {
        var event := Handle(connections[n]);
        OneMorePython(old(storage), inputs, n);
        events := events + [event];
      }
      assert inputs[..|inputs|] == inputs;
    }
  }

  lemma {:induction false} NothingServedPython(start: Store)
    ensures RunPython(start, []) == Service(start, [], [])
  {
  }

  lemma {:induction false} OneMorePython(start: Store, inputs: seq<seq<byte>>, n: nat)
    requires n < |inputs|
    ensures var before := RunPython(start, inputs[..n]);
      RunPython(start, inputs[..n + 1]) == Extend(before, StepPython(before.store, inputs[n]))
  {
    hide StepPython, Extend;
    assert inputs[..n + 1][..n] == inputs[..n];
  }

  lemma {:induction false} PythonParses(s: seq<byte>)
    requires ParseRequestPython(s).Some?
    ensures ValidRequest(ParseRequestPython(s).value.0)
  {
    hide Field;
    ParsersAgree(s);
    OnlyEncodingsParse(s);
  }

  /** socket.sendall: every octet is written, in as many pieces as it takes. */
  method SendAll(connection: Connection, octets: seq<byte>)
    modifies connection`outgoing
    ensures connection.outgoing == old(connection.outgoing) + octets
  {
    var sent := 0;
    while sent < |octets|
      invariant sent <= |octets|
      invariant connection.outgoing == old(connection.outgoing) + octets[..sent]
    {
      var count := connection.Write(octets[sent..]);
      assert octets[..sent + count] == octets[..sent] + octets[sent..][..count];
      sent := sent + count;
    }
  }
}
