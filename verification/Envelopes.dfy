/**
 A service request and its answer: a ServiceRequest whose payload is a packet for a
 task, answered by a ServiceResponse that carries the task's packet, in a frame with
 the next command.
 */
module Envelopes {
  import opened Options
  import opened Wire
  import opened HasBits
  import opened Codec
  import opened Serialize
  import opened Leaves
  import opened Packets
  import opened Schemas
  import opened Handlers

  // ----- The tasks -----

  /** What a task reports: a status, and the packet for the client. */
  datatype Outcome = Outcome(status: int, response: Bytes)

  /** The packet in a request, if there is one of a certain kind. */
  function PacketIn(payload: Bytes): (p: Option<Message>)
    ensures p.Some? ==> WellFormed(SERVICE_PACKET, p.value) && |p.value.fields| == 13
  {
    SchemasFit();
    ParseInitialized(SERVICE_PACKET, payload)
  }

  /** The dispatch by type. A packet of another type leaves the answer blank. */
  method HandlePacket(answer: Packet, packet: Packet, w: World) returns (ok: bool)
    requires Blank(answer) && packet.Valid() && packet.schema == SERVICE_PACKET && answer != packet
    modifies answer`hasBits, answer`type_, answer`children, packet`hasBits, packet`children
    ensures answer.Valid() && answer.schema == SERVICE_PACKET && fresh(answer.Owned())
    ensures |old(packet.View()).fields| == 13
    ensures ok <==> !QueryFailed(w, old(packet.View()))
    ensures Listed(NumberIn(old(packet.View()), 0)) ==> answer.View() == Answered(w, old(packet.View()))
  {
    hide CoherentPacket, PacketViewOf, Has, WellFormed, Known, Leaves.Coherent, Leaves.ViewOf, ValidSchema, LeafSchema;
    hide ReplyAnswer, PostTopicAnswer, PublicServiceAnswer, NearAnswer, CityAnswer, NearFound, CityFound;
    hide Packet.Valid, Packet.View, Packet.ValidChildren, PacketSchema;
    PacketFields();
    packet.TypeIsField();
    var kind := packet.type_;
    ok := true;
    if kind == 21 {
      DoReplyRequest(answer, packet, w);
    } else if kind == 23 {
      DoPostTopicRequest(answer, packet, w);
    } else if kind == 25 {
      DoPublicServiceRequest(answer, packet, w);
    }
    if kind == 27 {
      ok := ParserGroupNearRequest(answer, packet, w);
    } else if kind == 29 {
      ok := ParserGroupCityRequest(answer, packet, w);
    }
  }

  /** service_package_responser::parser. */
  method PackageParser(data: Bytes, w: World) returns (r: Outcome)
    ensures PacketIn(data).None? ==> r == Outcome(0, [])
    ensures PacketIn(data).Some? ==> r.status == if QueryFailed(w, PacketIn(data).value) then -1 else 0
    ensures PacketIn(data).Some? && Listed(NumberIn(PacketIn(data).value, 0)) ==>
              WellFormed(SERVICE_PACKET, Answered(w, PacketIn(data).value)) &&
              r.response == Encode(SERVICE_PACKET, Answered(w, PacketIn(data).value))
  {
    hide CoherentPacket, PacketViewOf, Has, WellFormed, Known, Leaves.Coherent, Leaves.ViewOf, ValidSchema, LeafSchema;
    hide ParseInitialized, Encode, Answered, QueryFailed, Listed;
    SchemasFit();
    var packet := new Packet(SERVICE_PACKET);
    var answer := new Packet(SERVICE_PACKET);
    label built:
    var ok := packet.ParseFromString(data);
    if !ok { return Outcome(0, []); }
    answer.Untouched@built();
    ok := HandlePacket(answer, packet, w);
    var out := answer.SerializeToString();
    return Outcome(if ok then 0 else -1, out);
  }

  /**
   group_responser::parser. The packet's type would have to be 27 and 29 at once to get
   past the guard, so every request is refused.
   */
  method GroupParser(data: Bytes) returns (r: Outcome)
    ensures r == Outcome(-1, [])
  {
    hide CoherentPacket, PacketViewOf, Has, WellFormed, Known, Leaves.Coherent, Leaves.ViewOf, ValidSchema, LeafSchema;
    SchemasFit();
    var packet := new Packet(SERVICE_PACKET);
    var ok := packet.ParseFromString(data);
    if !ok { return Outcome(-1, []); }
    if packet.type_ != 27 || packet.type_ != 29 { return Outcome(-1, []); }
    assert false;
  }

  /** python_func_service_responser::parser. */
  method PythonParser(data: Bytes, w: World) returns (r: Outcome)
    ensures r.status == 0
    ensures PacketIn(data).None? || NumberIn(PacketIn(data).value, 0) != 31 ==> r.response == []
    ensures PacketIn(data).Some? && NumberIn(PacketIn(data).value, 0) == 31 ==>
              WellFormed(SERVICE_PACKET, PythonAnswer(w, PacketIn(data).value)) &&
              r.response == Encode(SERVICE_PACKET, PythonAnswer(w, PacketIn(data).value))
  {
    hide CoherentPacket, PacketViewOf, Has, WellFormed, Known, Leaves.Coherent, Leaves.ViewOf, ValidSchema, LeafSchema;
    hide ParseInitialized, Encode, PythonAnswer;
    SchemasFit();
    var packet := new Packet(SERVICE_PACKET);
    var answer := new Packet(SERVICE_PACKET);
    label built:
    var ok := packet.ParseFromString(data);
    if !ok { return Outcome(0, []); }
    answer.Untouched@built();
    packet.TypeIsField();
    if packet.type_ != 31 { return Outcome(0, []); }
    CallPython(answer, packet, w);
    var out := answer.SerializeToString();
    return Outcome(0, out);
  }

  /** The tasks that the envelope is used with. */
  datatype Task = Package | Group | Python

  /** What a task may report for a payload: nothing is said about packets of other types. */
  ghost predicate TaskReports(task: Task, payload: Bytes, w: World, o: Outcome) {
    var p := PacketIn(payload);
    match task
    case Group => o == Outcome(-1, [])
    case Package =>
      && (p.None? ==> o == Outcome(0, []))
      && (p.Some? ==> o.status == if QueryFailed(w, p.value) then -1 else 0)
      && (p.Some? && Listed(NumberIn(p.value, 0)) ==>
            WellFormed(SERVICE_PACKET, Answered(w, p.value)) && o.response == Encode(SERVICE_PACKET, Answered(w, p.value)))
    case Python =>
      && o.status == 0
      && (p.None? || NumberIn(p.value, 0) != 31 ==> o.response == [])
      && (p.Some? && NumberIn(p.value, 0) == 31 ==>
            WellFormed(SERVICE_PACKET, PythonAnswer(w, p.value)) && o.response == Encode(SERVICE_PACKET, PythonAnswer(w, p.value)))
  }

  method RunTask(task: Task, payload: Bytes, w: World) returns (o: Outcome)
    ensures TaskReports(task, payload, w, o)
  {
    hide WellFormed, Encode, Answered, PythonAnswer, QueryFailed, PacketIn;
    match task {
      case Package => o := PackageParser(payload, w);
      case Group => o := GroupParser(payload);
      case Python => o := PythonParser(payload, w);
    }
  }

  // ----- The envelope -----

  const SERVER: int := 600

  lemma EnvelopeSizes()
    ensures LeafSchema(SERVICE_REQUEST) && |SERVICE_REQUEST.fields| == 4
    ensures LeafSchema(SERVICE_RESPONSE) && |SERVICE_RESPONSE.fields| == 5
  {
    hide LeafSchema;
    EnvelopesFit();
  }

  /** The request in a body, if it parses with all its required fields. */
  function RequestOf(data: Bytes): (m: Option<Message>)
    ensures m.Some? ==> WellFormed(SERVICE_REQUEST, m.value) && |m.value.fields| == 4
  {
    EnvelopeSizes();
    ParseInitialized(SERVICE_REQUEST, data)
  }

  /** Only requests for this kind of service that carry a payload reach a task. */
  predicate Served(data: Bytes) {
    RequestOf(data).Some? && NumberIn(RequestOf(data).value, 1) == SERVER && RequestOf(data).value.fields[3].Some?
  }

  /** The answer to a request, around a packet. */
  function Enveloped(request: Message, packet: Bytes): (m: Message)
    requires WellFormed(SERVICE_REQUEST, request) && |request.fields| == 4
    ensures WellFormed(SERVICE_RESPONSE, m) && |m.fields| == 5
    ensures TextIn(m, 0) == TextIn(request, 0) && NumberIn(m, 1) == NumberIn(request, 1) && TextIn(m, 2) == TextIn(request, 2)
    ensures NumberIn(m, 3) == 0 && m.fields[4] == Some(Str(packet))
    ensures m.unknown == [] && forall i | 0 <= i < 5 :: m.fields[i].Some?
  {
    EnvelopedFits(request);
    Message([Some(Str(TextIn(request, 0))), Some(Num(NumberIn(request, 1))), Some(Str(TextIn(request, 2))),
             Some(Num(0)), Some(Str(packet))], [])
  }

  lemma EnvelopedFits(request: Message)
    requires WellFormed(SERVICE_REQUEST, request) && |request.fields| == 4
    ensures -0x8000_0000 <= NumberIn(request, 1) < 0x8000_0000
  {
    assert SERVICE_REQUEST.fields[1] == FInt32;
    assert request.fields[1].Some? ==> Typed(SERVICE_REQUEST.fields[1], request.fields[1].value);
  }

  /** What the envelope reports: the task's answer in an envelope if the task succeeded, nothing otherwise. */
  ghost predicate EnvelopeReports(task: Task, data: Bytes, w: World, r: Outcome) {
    if !Served(data) then r == Outcome(0, [])
    else
      exists o: Outcome {:trigger TaskReports(task, TextIn(RequestOf(data).value, 3), w, o)} ::
        && TaskReports(task, TextIn(RequestOf(data).value, 3), w, o) && r.status == o.status
        && r.response == if o.status == 0 then Encode(SERVICE_RESPONSE, Enveloped(RequestOf(data).value, o.response)) else []
  }

  method FillEnvelope(answer: Leaf, request: Leaf, packet: Bytes)
    requires request.Valid() && request.schema == SERVICE_REQUEST && |request.View().fields| == 4
    requires answer.Valid() && answer.schema == SERVICE_RESPONSE && answer != request && answer.View() == Empty(SERVICE_RESPONSE)
    modifies answer`hasBits, answer`slots
    ensures answer.Valid() && answer.View() == Enveloped(request.View(), packet)
  {
    hide WellFormed, Known, Leaves.Coherent, Leaves.ViewOf, ValidSchema, LeafSchema;
    answer.SetField(2, Str(request.GetText(2)));
    answer.SetField(0, Str(request.GetText(0)));
    answer.SetField(1, Num(request.GetNumber(1)));
    answer.SetField(3, Num(0));
    answer.SetField(4, Str(packet));
    assert answer.View().fields == Enveloped(request.View(), packet).fields;
  }

  /** The parser of server_service_responser and of group_service_request_responser, whatever the task. */
  method EnvelopeParser(task: Task, data: Bytes, w: World) returns (r: Outcome)
    ensures EnvelopeReports(task, data, w, r)
  {
    hide WellFormed, Known, Leaves.Coherent, Leaves.ViewOf, ValidSchema, LeafSchema;
    hide ParseInitialized, Encode, TaskReports, Enveloped;
    EnvelopeSizes();
    var request := new Leaf(SERVICE_REQUEST);
    var answer := new Leaf(SERVICE_RESPONSE);
    var ok := request.ParseFromString(data);
    if !ok { return Outcome(0, []); }
    if request.GetNumber(1) != SERVER || !request.HasField(3) { return Outcome(0, []); }
    var o := RunTask(task, request.GetText(3), w);
    if o.status != 0 { return Outcome(o.status, []); }
    FillEnvelope(answer, request, o.response);
    var out := answer.SerializeToString();
    return Outcome(0, out);
  }

  // ----- Replies match their requests -----

  lemma EncodeNotEmpty(sch: Schema, m: Message, k: nat)
    requires WellFormed(sch, m) && k < |sch.fields| == |m.fields| && m.fields[k].Some?
    ensures Encode(sch, m) != []
  {
    hide EncodeRecord, EncodeRecords, WellFormed, FieldRecords, FieldPayload;
    var r := Record(k + 1, FieldPayload(sch.fields[k], FieldValue(sch, m, k)));
    FieldRecordIn(sch, m, 0, k);
    assert r in MessageRecords(sch, m);
    RecordWithin(MessageRecords(sch, m), r);
  }

  function FieldValue(sch: Schema, m: Message, k: nat): (v: Value)
    requires WellFormed(sch, m) && k < |sch.fields| == |m.fields| && m.fields[k].Some?
    ensures Typed(sch.fields[k], v) && v == m.fields[k].value
  {
    m.fields[k].value
  }

  /** There is a reply exactly when the request was served and its task succeeded. */
  lemma ReplyNotEmpty(task: Task, data: Bytes, w: World, r: Outcome)
    requires EnvelopeReports(task, data, w, r)
    ensures r.response != [] <==> Served(data) && r.status == 0
  {
    hide WellFormed, Encode, TaskReports, RequestOf;
    EnvelopeSizes();
    if Served(data) {
      var request := RequestOf(data).value;
      var o: Outcome :| TaskReports(task, TextIn(request, 3), w, o) && r.status == o.status
        && r.response == if o.status == 0 then Encode(SERVICE_RESPONSE, Enveloped(request, o.response)) else [];
      EncodeNotEmpty(SERVICE_RESPONSE, Enveloped(request, o.response), 0);
    }
  }

  lemma EnvelopeRead(m: Message)
    requires WellFormed(SERVICE_RESPONSE, m) && |m.fields| == 5 && forall i | 0 <= i < 5 :: m.fields[i].Some?
    requires |Encode(SERVICE_RESPONSE, m)| < TWO_31
    ensures LeafSchema(SERVICE_RESPONSE) && ParseInitialized(SERVICE_RESPONSE, Encode(SERVICE_RESPONSE, m)) == Some(m)
  {
    hide WellFormed, Encode, Parse;
    EnvelopeSizes();
    RoundTrip(SERVICE_RESPONSE, m);
  }

  lemma PacketRead(m: Message)
    requires WellFormed(SERVICE_PACKET, m) && PacketSchema(SERVICE_PACKET) && Initialized(SERVICE_PACKET, m)
    requires |Encode(SERVICE_PACKET, m)| < TWO_31
    ensures PacketIn(Encode(SERVICE_PACKET, m)) == Some(m)
  {
    hide WellFormed, Encode, Parse;
    RoundTrip(SERVICE_PACKET, m);
  }

  /** The reply in a body, if it parses with all its required fields. */
  function ReplyIn(body: Bytes): (m: Option<Message>)
    ensures m.Some? ==> WellFormed(SERVICE_RESPONSE, m.value) && |m.value.fields| == 5
  {
    EnvelopeSizes();
    ParseInitialized(SERVICE_RESPONSE, body)
  }

  /**
   A reply is for its request: the same session, service type and serial number, status
   0, and a payload around whatever the task reported.
   */
  ghost predicate Correlated(request: Message, reply: Message)
    requires |request.fields| == 4 && |reply.fields| == 5
  {
    && TextIn(reply, 0) == TextIn(request, 0) && NumberIn(reply, 1) == NumberIn(request, 1) == SERVER
    && TextIn(reply, 2) == TextIn(request, 2) && NumberIn(reply, 3) == 0
    && reply.fields[4].Some? && reply.unknown == []
  }

  /** The packet answers the packet of the request: one type up, for the same client. */
  ghost predicate PacketCorrelated(task: Task, request: Message, reply: Message)
    requires |request.fields| == 4 && |reply.fields| == 5
  {
    var p, q := PacketIn(TextIn(request, 3)), PacketIn(TextIn(reply, 4));
    && (task == Package && p.Some? && Listed(NumberIn(p.value, 0)) ==>
          q.Some? && var t := NumberIn(p.value, 0); AnswersFor(q.value, t + 1, t - 19, CidIn(p.value, t - 20)))
    && (task == Python && p.Some? && NumberIn(p.value, 0) == 31 ==>
          q.Some? && AnswersFor(q.value, 32, 12, CidIn(p.value, 11)))
  }

  lemma TaskCorrelated(task: Task, payload: Bytes, w: World, o: Outcome)
    requires TaskReports(task, payload, w, o) && |o.response| < TWO_31
    ensures var p, q := PacketIn(payload), PacketIn(o.response);
      && (task == Package && p.Some? && Listed(NumberIn(p.value, 0)) ==>
            q.Some? && var t := NumberIn(p.value, 0); AnswersFor(q.value, t + 1, t - 19, CidIn(p.value, t - 20)))
      && (task == Python && p.Some? && NumberIn(p.value, 0) == 31 ==>
            q.Some? && AnswersFor(q.value, 32, 12, CidIn(p.value, 11)))
  {
    hide WellFormed, Encode, PacketIn, Answered, PythonAnswer, CidIn, QueryFailed, PacketSchema;
    var p := PacketIn(payload);
    if task == Package && p.Some? && Listed(NumberIn(p.value, 0)) {
      AnswerMatches(w, p.value);
      PacketRead(Answered(w, p.value));
    } else if task == Python && p.Some? && NumberIn(p.value, 0) == 31 {
      ServiceMatches(w, p.value);
      PacketRead(PythonAnswer(w, p.value));
    }
  }

  /** Every reply that is not empty is a full ServiceResponse for its request. */
  lemma CorrelatedReply(task: Task, data: Bytes, w: World, r: Outcome)
    requires EnvelopeReports(task, data, w, r) && r.response != [] && |r.response| < TWO_31
    ensures RequestOf(data).Some? && ReplyIn(r.response).Some?
    ensures Correlated(RequestOf(data).value, ReplyIn(r.response).value)
    ensures PacketCorrelated(task, RequestOf(data).value, ReplyIn(r.response).value)
  {
    hide WellFormed, Encode, TaskReports, RequestOf, AnswersFor, CidIn, PacketIn, Listed;
    EnvelopeSizes();
    var request := RequestOf(data).value;
    var o: Outcome :| TaskReports(task, TextIn(request, 3), w, o) && r.status == o.status
      && r.response == if o.status == 0 then Encode(SERVICE_RESPONSE, Enveloped(request, o.response)) else [];
    var reply := Enveloped(request, o.response);
    EnvelopeRead(reply);
    PayloadShorter(reply);
    TaskCorrelated(task, TextIn(request, 3), w, o);
  }

  lemma PayloadShorter(m: Message)
    requires WellFormed(SERVICE_RESPONSE, m) && |m.fields| == 5 && m.fields[4].Some? && m.fields[4].value.Str?
    ensures |m.fields[4].value.s| < |Encode(SERVICE_RESPONSE, m)|
  {
    hide WellFormed, Encode;
    EnvelopeSizes();
    ContentsShorter(SERVICE_RESPONSE, m, 4);
  }

  /**
   A database error is never seen: of the requests that reach the package task, exactly those
   whose query reported an error get an empty body, whatever the handler put in its packet.
   */
  lemma QueryErrorSilent(data: Bytes, w: World, r: Outcome)
    requires EnvelopeReports(Package, data, w, r) && Served(data)
    ensures var p := PacketIn(TextIn(RequestOf(data).value, 3));
            r.response == [] <==> p.Some? && QueryFailed(w, p.value)
  {
    hide WellFormed, Encode, RequestOf, PacketIn, QueryFailed, Answered;
    ReplyNotEmpty(Package, data, w, r);
  }

  /** The answer to a database query that found something. */
  ghost predicate Found(q: Message, k: nat, result: Bytes) {
    && k < |q.fields| && q.fields[k].Some? && q.fields[k].value.Sub?
    && var b := q.fields[k].value.m; |b.fields| == 3 && NumberIn(b, 1) == 0 && TextIn(b, 2) == result
  }

  lemma FoundAnswered(w: World, p: Message)
    requires WellFormed(SERVICE_PACKET, p) && |p.fields| == 13 && !QueryFailed(w, p)
    ensures NumberIn(p, 0) == 27 ==> Found(Answered(w, p), 8, NearFound(w, p).0)
    ensures NumberIn(p, 0) == 29 ==> Found(Answered(w, p), 10, CityFound(w, p).0)
  {
    hide WellFormed, NearFound, CityFound;
    Sizes();
  }

  /** The status -1 of those packets is never in a reply: one that comes back has the query's result and status 0. */
  lemma OnlyResultsShown(data: Bytes, w: World, r: Outcome)
    requires EnvelopeReports(Package, data, w, r) && r.response != [] && |r.response| < TWO_31
    ensures RequestOf(data).Some? && ReplyIn(r.response).Some?
    ensures var p, q := PacketIn(TextIn(RequestOf(data).value, 3)), PacketIn(TextIn(ReplyIn(r.response).value, 4));
            && (p.Some? && NumberIn(p.value, 0) == 27 ==> q.Some? && Found(q.value, 8, NearFound(w, p.value).0))
            && (p.Some? && NumberIn(p.value, 0) == 29 ==> q.Some? && Found(q.value, 10, CityFound(w, p.value).0))
  {
    hide WellFormed, Encode, TaskReports, RequestOf, PacketIn, Found, NearFound, CityFound;
    EnvelopeSizes();
    var request := RequestOf(data).value;
    var o: Outcome :| TaskReports(Package, TextIn(request, 3), w, o) && r.status == o.status
      && r.response == if o.status == 0 then Encode(SERVICE_RESPONSE, Enveloped(request, o.response)) else [];
    var reply := Enveloped(request, o.response);
    EnvelopeRead(reply);
    PayloadShorter(reply);
    TaskFound(TextIn(request, 3), w, o);
  }

  lemma TaskFound(payload: Bytes, w: World, o: Outcome)
    requires TaskReports(Package, payload, w, o) && o.status == 0 && |o.response| < TWO_31
    ensures var p, q := PacketIn(payload), PacketIn(o.response);
            && (p.Some? && NumberIn(p.value, 0) == 27 ==> q.Some? && Found(q.value, 8, NearFound(w, p.value).0))
            && (p.Some? && NumberIn(p.value, 0) == 29 ==> q.Some? && Found(q.value, 10, CityFound(w, p.value).0))
  {
    hide WellFormed, Encode, PacketIn, Answered, CidIn, QueryFailed, PacketSchema, Found, NearFound, CityFound;
    var p := PacketIn(payload);
    if p.Some? && Listed(NumberIn(p.value, 0)) {
      AnswerMatches(w, p.value);
      PacketRead(Answered(w, p.value));
      FoundAnswered(w, p.value);
    }
  }
}
