/** What a gateway does with its connections: the meaning of one request, of one connection and of a whole run. */
module Gateway {
  import opened Bytes
  import opened Wrappers
  import opened Backend
  import opened Protocol

  datatype Event = Event(operation: string, requestId: nat, inputBytes: nat, result: string)

  function OperationName(operation: nat): string {
    if operation == OP_PUT then "PUT"
    else if operation == OP_GET then "GET"
    else if operation == OP_DELETE then "DELETE"
    else "REJECT"
  }

  function StatusName(status: nat): string {
    if status == STATUS_OK then "OK"
    else if status == STATUS_INVALID then "INVALID"
    else if status == STATUS_NOT_FOUND then "NOT_FOUND"
    else if status == STATUS_BACKEND_ERROR then "BACKEND_ERROR"
    else if status == STATUS_TOO_LARGE then "TOO_LARGE"
    else "PROTOCOL_ERROR"
  }

  /** A gateway's history: its store, the octets written to each connection, and its telemetry. */
  datatype Service = Service(store: Store, replies: seq<seq<byte>>, events: seq<Event>)

  const IDLE := Service(map[], [], [])

  /** What one connection leads to. */
  datatype Answer = Answer(store: Store, reply: seq<byte>, event: Event)

  function Served(r: Request, store: Store, response: Response): Answer {
    Answer(store, EncodeResponse(response),
           Event(OperationName(r.operation), r.id, |r.key| + |r.value|, StatusName(response.status)))
  }

  /** The peer is disconnected without an answer and the store is not touched. */
  function Refused(m: Store): Answer {
    Answer(m, [], Event("REJECT", 0, 0, StatusName(STATUS_PROTOCOL_ERROR)))
  }

  function Extend(s: Service, a: Answer): Service {
    Service(a.store, s.replies + [a.reply], s.events + [a.event])
  }

  // ----- the reference: requests act on a finite map

  function Perform(m: Store, r: Request): (Store, Response) {
    if r.operation == OP_PUT then
      (m[r.key := r.value], Response(r.id, STATUS_OK, []))
    else if r.key !in m then
      (m, Response(r.id, STATUS_NOT_FOUND, []))
    else if r.operation == OP_GET then
      (m, Response(r.id, STATUS_OK, m[r.key]))
    else
      (m - {r.key}, Response(r.id, STATUS_OK, []))
  }

  function Step(m: Store, input: seq<byte>): Answer {
    match ParseRequestC(input)
    case None => Refused(m)
    case Some((r, _)) =>
      var (store, response) := Perform(m, r);
      Served(r, store, response)
  }

  function Run(inputs: seq<seq<byte>>): Service {
    if inputs == [] then IDLE else
    var before := Run(inputs[..|inputs| - 1]);
    Extend(before, Step(before.store, inputs[|inputs| - 1]))
  }

  // ----- src/gateway/gateway.c over the mock backend

  function StatusOf(outcome: Outcome): nat {
    match outcome
    case Ok => STATUS_OK
    case NotFound => STATUS_NOT_FOUND
    case Failure => STATUS_BACKEND_ERROR
  }

  /** dispatch, for any result of the allocations a put makes. */
  function DispatchC(m: Store, r: Request, grants: Grants): (Store, Response) {
    if r.operation == OP_PUT then
      (PutStore(m, r.key, r.value, grants), Response(r.id, StatusOf(PutOutcome(m, r.key, grants)), []))
    else if r.operation == OP_GET then
      var outcome := GetOutcome(m, r.key, MAX_VALUE_BYTES);
      (m, Response(r.id, StatusOf(outcome), if outcome == Ok then m[r.key] else []))
    else if r.operation == OP_DELETE then
      (m - {r.key}, Response(r.id, if r.key in m then STATUS_OK else STATUS_NOT_FOUND, []))
    else
      (m, Response(r.id, STATUS_INVALID, []))
  }

  function StepC(m: Store, input: seq<byte>, grants: Grants): Answer {
    match ParseRequestC(input)
    case None => Refused(m)
    case Some((r, _)) =>
      var (store, response) := DispatchC(m, r, grants);
      Served(r, store, response)
  }

  function RunC(start: Store, inputs: seq<seq<byte>>, plan: seq<Grants>): (s: Service)
    requires |inputs| == |plan|
    ensures |s.replies| == |s.events| == |inputs|
  {
    if inputs == [] then Service(start, [], [])
    else
      var last := |inputs| - 1;
      var before := RunC(start, inputs[..last], plan[..last]);
      Extend(before, StepC(before.store, inputs[last], plan[last]))
  }

  // ----- cote3mon/mock_gateway.py

  function StepPython(m: Store, input: seq<byte>): Answer {
    match ParseRequestPython(input)
    case None => Refused(m)
    case Some((r, _)) =>
      if r.operation == OP_PUT then
        Served(r, m[r.key := r.value], Response(r.id, STATUS_OK, []))
      else if r.operation == OP_GET then
        if r.key in m then Served(r, m, Response(r.id, STATUS_OK, m[r.key]))
        else Served(r, m, Response(r.id, STATUS_NOT_FOUND, []))
      else if r.key in m then
        Served(r, m - {r.key}, Response(r.id, STATUS_OK, []))
      else
        Served(r, m, Response(r.id, STATUS_NOT_FOUND, []))
  }

  function RunPython(start: Store, inputs: seq<seq<byte>>): (s: Service)
    ensures |s.replies| == |s.events| == |inputs|
  {
    if inputs == [] then Service(start, [], [])
    else
      var before := RunPython(start, inputs[..|inputs| - 1]);
      Extend(before, StepPython(before.store, inputs[|inputs| - 1]))
  }

  // ----- the three agree on every run

  ghost predicate AllGranted(plan: seq<Grants>) {
    forall i | 0 <= i < |plan| :: plan[i] == Grants(true, true, true)
  }

  /** What the protocol's limits imply for the store, so that a get buffer is always large enough. */
  ghost predicate Bounded(m: Store) {
    forall key <- m :: 1 <= |key| <= MAX_KEY_BYTES && |m[key]| <= MAX_VALUE_BYTES
  }

  lemma {:induction false} RunBounded(inputs: seq<seq<byte>>)
    ensures Bounded(Run(inputs).store)
  {
    if inputs != [] {
      RunBounded(inputs[..|inputs| - 1]);
      hide Field;
    }
  }

  lemma {:induction false} DispatchIsPerform(m: Store, r: Request)
    requires Bounded(m) && OP_PUT <= r.operation <= OP_DELETE
    ensures DispatchC(m, r, Grants(true, true, true)) == Perform(m, r)
  {
    assert r.key !in m ==> m - {r.key} == m;
  }

  lemma {:induction false} StepsAgree(m: Store, input: seq<byte>)
    requires Bounded(m)
    ensures StepC(m, input, Grants(true, true, true)) == Step(m, input) == StepPython(m, input)
  {
    ParsersAgree(input);
    hide ParseRequestC, ParseRequestPython, EncodeResponse, EncodeRequest, DispatchC;
    if ParseRequestC(input).Some? {
      OnlyEncodingsParse(input);
      DispatchIsPerform(m, ParseRequestC(input).value.0);
    }
  }

  lemma {:induction false} GatewaysAgree(inputs: seq<seq<byte>>, plan: seq<Grants>)
    requires |plan| == |inputs| && AllGranted(plan)
    ensures RunC(map[], inputs, plan) == Run(inputs)
    ensures RunPython(map[], inputs) == Run(inputs)
  {
    hide Step, StepC, StepPython;
    if inputs != [] {
      var last := |inputs| - 1;
      GatewaysAgree(inputs[..last], plan[..last]);
      RunBounded(inputs[..last]);
      StepsAgree(Run(inputs[..last]).store, inputs[last]);
    }
  }

  /** When an allocation fails, only the failing put is affected: its peer is told, the map stays. */
  lemma {:induction false} FailedPutChangesNothing(m: Store, r: Request, rest: seq<byte>, grants: Grants)
    requires ValidRequest(r) && r.operation == OP_PUT && PutOutcome(m, r.key, grants) == Failure
    ensures StepC(m, EncodeRequest(r) + rest, grants) == Served(r, m, Response(r.id, STATUS_BACKEND_ERROR, []))
  {
    RequestRoundTrip(r, rest);
  }

  // ----- a get sees the last put that was not deleted

  function History(inputs: seq<seq<byte>>): seq<Request> {
    if inputs == [] then [] else
    var before := History(inputs[..|inputs| - 1]);
    match ParseRequestC(inputs[|inputs| - 1])
    case None => before
    case Some((r, _)) => before + [r]
  }

  function LastWrite(history: seq<Request>, key: seq<byte>): Option<seq<byte>> {
    if history == [] then None else
    var last := history[|history| - 1];
    if last.key == key && last.operation == OP_PUT then Some(last.value)
    else if last.key == key && last.operation == OP_DELETE then None
    else LastWrite(history[..|history| - 1], key)
  }

  lemma {:induction false} StoreIsLastWrite(inputs: seq<seq<byte>>, key: seq<byte>)
    ensures var m := Run(inputs).store;
      LastWrite(History(inputs), key) == if key in m then Some(m[key]) else None
  {
    hide ParseRequestC, EncodeRequest, EncodeResponse, Perform;
    if inputs != [] {
      var last := |inputs| - 1;
      StoreIsLastWrite(inputs[..last], key);
      if ParseRequestC(inputs[last]).Some? {
        OnlyEncodingsParse(inputs[last]);
        var (r, _) := ParseRequestC(inputs[last]).value;
        assert History(inputs)[..|History(inputs)| - 1] == History(inputs[..last]);
        PerformWrites(Run(inputs[..last]).store, r, key);
      }
    }
  }

  lemma {:induction false} PerformWrites(m: Store, r: Request, key: seq<byte>)
    requires OP_PUT <= r.operation <= OP_DELETE
    ensures var m' := Perform(m, r).0;
      if r.key == key && r.operation == OP_PUT then key in m' && m'[key] == r.value
      else if r.key == key && r.operation == OP_DELETE then key !in m'
      else (key in m' <==> key in m) && (key in m ==> m'[key] == m[key])
  {
  }

  lemma {:induction false} LastAnswer(inputs: seq<seq<byte>>, input: seq<byte>)
    ensures var answer := Step(Run(inputs).store, input);
      var after := Run(inputs + [input]);
      after.store == answer.store && after.replies == Run(inputs).replies + [answer.reply]
  {
    assert (inputs + [input])[..|inputs|] == inputs;
  }

  /** After any traffic at all, a client that sends a get reads back exactly the last write, or NOT_FOUND. */
  lemma {:induction false} GetReturnsLastWrite(inputs: seq<seq<byte>>, r: Request, rest: seq<byte>)
    requires ValidRequest(r) && r.operation == OP_GET
    ensures var after := Run(inputs + [EncodeRequest(r) + rest]);
      && after.store == Run(inputs).store
      && after.replies != []
      && ParseResponse(after.replies[|after.replies| - 1]) == Some((
           match LastWrite(History(inputs), r.key)
           case Some(value) => Response(r.id, STATUS_OK, value)
           case None => Response(r.id, STATUS_NOT_FOUND, []), []))
  {
    hide ParseRequestC, EncodeRequest, EncodeResponse, ParseResponse, Run;
    StoreIsLastWrite(inputs, r.key);
    AnswerParses(inputs, r, rest);
  }

  /** Whatever valid request a client sends, the answer it reads is the map's own, under its own identifier. */
  lemma {:induction false} AnswerParses(inputs: seq<seq<byte>>, r: Request, rest: seq<byte>)
    requires ValidRequest(r)
    ensures var after := Run(inputs + [EncodeRequest(r) + rest]);
      var (store, response) := Perform(Run(inputs).store, r);
      && after.store == store && after.replies != []
      && ParseResponse(after.replies[|after.replies| - 1]) == Some((response, []))
      && response.id == r.id && response.status in {STATUS_OK, STATUS_NOT_FOUND}
  {
    hide ParseRequestC, EncodeRequest, EncodeResponse, ParseResponse, Run;
    RunBounded(inputs);
    RequestRoundTrip(r, rest);
    LastAnswer(inputs, EncodeRequest(r) + rest);
    var (_, response) := Perform(Run(inputs).store, r);
    ResponseRoundTrip(response, []);
    assert EncodeResponse(response) + [] == EncodeResponse(response);
  }

  // ----- whatever allocations are refused

  /** The requests that were answered OK, in order, under any refusals. */
  function Acknowledged(inputs: seq<seq<byte>>, plan: seq<Grants>): seq<Request>
    requires |inputs| == |plan|
  {
    if inputs == [] then [] else
    var last := |inputs| - 1;
    var before := Acknowledged(inputs[..last], plan[..last]);
    match ParseRequestC(inputs[last])
    case None => before
    case Some((r, _)) =>
      var answer := StepC(RunC(map[], inputs[..last], plan[..last]).store, inputs[last], plan[last]);
      if answer.event.result == "OK" then before + [r] else before
  }

  /** Over every run, with any allocations refused: the store holds for each key the last put that was answered OK,
      unless a delete answered OK came after it. */
  lemma {:induction false} StoreIsLastAcknowledgedWrite(inputs: seq<seq<byte>>, plan: seq<Grants>, key: seq<byte>)
    requires |inputs| == |plan|
    ensures var m := RunC(map[], inputs, plan).store;
      LastWrite(Acknowledged(inputs, plan), key) == if key in m then Some(m[key]) else None
  {
    hide ParseRequestC, EncodeRequest, EncodeResponse, DispatchC;
    if inputs != [] {
      var last := |inputs| - 1;
      StoreIsLastAcknowledgedWrite(inputs[..last], plan[..last], key);
      var before := Acknowledged(inputs[..last], plan[..last]);
      if ParseRequestC(inputs[last]).Some? {
        OnlyEncodingsParse(inputs[last]);
        var (r, _) := ParseRequestC(inputs[last]).value;
        DispatchWrites(RunC(map[], inputs[..last], plan[..last]).store, r, plan[last], key);
        assert (before + [r])[..|before|] == before;
      }
    }
  }

  /** A dispatch answered OK is the map's operation; any other leaves the map as it was. */
  lemma {:induction false} DispatchWrites(m: Store, r: Request, grants: Grants, key: seq<byte>)
    requires OP_PUT <= r.operation <= OP_DELETE
    ensures var (m', response) := DispatchC(m, r, grants);
      && (StatusName(response.status) == "OK" <==> response.status == STATUS_OK)
      && if response.status != STATUS_OK then m' == m
         else if r.key == key && r.operation == OP_PUT then key in m' && m'[key] == r.value
         else if r.key == key && r.operation == OP_DELETE then key !in m'
         else (key in m' <==> key in m) && (key in m ==> m'[key] == m[key])
  {
  }

  // ----- counting

  /** Every accepted connection leaves one event, and the errors are the events that are not OK. */
  function CountErrors(events: seq<Event>): nat {
    if events == [] then 0
    else CountErrors(events[..|events| - 1]) + (if events[|events| - 1].result == "OK" then 0 else 1)
  }
}
