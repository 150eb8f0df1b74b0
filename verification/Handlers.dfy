/**
 The tasks inside a service request: the five handlers of a ServicePacket and the
 Python call. Each answers a packet of type t by one of type t + 1. What the outside
 world answers (HTTP, the group database, the clock, Python) is a parameter.
 */
module Handlers {
  import opened Options
  import opened Wire
  import opened HasBits
  import opened Codec
  import opened Leaves
  import opened Packets
  import opened Schemas
  import opened Strings

  /** An HTTP call; without data it is a GET, with data a POST. */
  datatype Http = Http(url: Bytes, authorization: Bytes, data: Bytes)

  datatype World = World(
    replyDomain: Bytes,
    postTopicDomain: Bytes,
    robotDomain: Bytes,
    now: Int64,
    curl: Http -> Bytes,
    toServiceRequest: (Bytes, Bytes, Bytes) -> Bytes,
    findNear: (Bytes, Bytes, int, int, int) -> (Bytes, Bytes),
    findByCity: (Bytes, int, int) -> (Bytes, Bytes),
    python: (Bytes, Bytes, Bytes) -> (bool, Bytes))

  function Chars(s: string): (b: Bytes)
    ensures |b| == |s| && forall i | 0 <= i < |s| && s[i] as int < 256 :: b[i] == s[i] as int
  {
    seq(|s|, i requires 0 <= i < |s| => (s[i] as int) % 256)
  }

  // ----- What a handler answers -----

  function With(m: Message, k: nat, v: Value): (x: Message)
    requires k < |m.fields|
    ensures |x.fields| == |m.fields|
  {
    m.(fields := m.fields[k := Some(v)])
  }

  /** The sub-message that an accessor shows. */
  function BodyIn(m: Message, k: nat, sub: Schema): (b: Message)
    requires k < |m.fields|
  {
    if m.fields[k].Some? && m.fields[k].value.Sub? then m.fields[k].value.m else Empty(sub)
  }

  /** The HTTP call for a review or a topic: the two requests hold the same things in the same places. */
  function TopicCall(domain: Bytes, path: Bytes, r: Message): Http
    requires |r.fields| == 10
  {
    var url := domain + Chars("/") + TextIn(r, 3) + path
               + Chars("sign=") + TextIn(r, 4) + Chars("&v=") + TextIn(r, 5)
               + Chars("&platform=") + TextIn(r, 6) + Chars("&device_id=") + TextIn(r, 7);
    Http(url, TextIn(r, 8), TextIn(r, 9))
  }

  function TopicBody(sch: Schema, r: Message, data: Bytes): (b: Message)
    requires |sch.fields| == 3 && |r.fields| == 10
    ensures |b.fields| == 3
  {
    With(With(With(Empty(sch), 0, Str(TextIn(r, 0))), 1, Str(TextIn(r, 1))), 2, Str(data))
  }

  /** The call that a robot service gets: no authorization, a JSON text for data. */
  function RobotCall(w: World, r: Message): Http
    requires |r.fields| == 3
  {
    Http(w.robotDomain, [], w.toServiceRequest(TextIn(r, 0), TextIn(r, 1), TextIn(r, 2)))
  }

  function PublicBody(w: World, r: Message): (b: Message)
    requires |r.fields| == 3
    ensures |b.fields| == 4
  {
    var c := With(With(Empty(PUBLIC_SERVICE_RESPONSE), 0, Str(TextIn(r, 0))), 1, Str(TextIn(r, 1)));
    With(With(c, 3, Num(w.now)), 2, Str(w.curl(RobotCall(w, r))))
  }

  /** The answer of a database query: its result with status 0, or an error text with status -1. */
  function GroupBody(sch: Schema, cid: Bytes, found: (Bytes, Bytes)): (b: Message)
    requires |sch.fields| == 3
    ensures |b.fields| == 3
  {
    var c := With(Empty(sch), 0, Str(cid));
    if found.1 != [] then With(With(c, 1, Num(-1)), 2, Str(found.1))
    else With(With(c, 1, Num(0)), 2, Str(found.0))
  }

  function Near(w: World, r: Message): (Bytes, Bytes)
    requires |r.fields| == 6
  {
    w.findNear(DoubleIn(r, 1), DoubleIn(r, 2), NumberIn(r, 5), NumberIn(r, 3), NumberIn(r, 4))
  }

  function InCity(w: World, r: Message): (Bytes, Bytes)
    requires |r.fields| == 4
  {
    w.findByCity(TextIn(r, 1), NumberIn(r, 2), NumberIn(r, 3))
  }

  /** The text that answers a Python exception: what it says, without line breaks. */
  function ExceptionText(what: Bytes): Bytes {
    Chars("{\"error\":\"service exception!\", \"code\":\"") + Without(what, {CARRIAGE_RETURN, LINE_FEED}) + Chars("\"}")
  }

  function PythonBody(w: World, r: Message): (b: Message)
    requires |r.fields| == 4
    ensures |b.fields| == 3
  {
    var c := With(Empty(PYTHON_CORE_RESPONSE), 0, Str(TextIn(r, 0)));
    var got := w.python(TextIn(r, 2), TextIn(r, 3), TextIn(r, 1));
    if got.0 then With(With(c, 2, Num(1)), 1, Str(got.1))
    else With(With(c, 2, Num(0)), 1, Str(ExceptionText(got.1)))
  }

  /** A packet with a type and one sub-message. */
  function Answering(kind: int, k: nat, body: Message): (m: Message)
    requires k < |SERVICE_PACKET.fields|
    ensures |m.fields| == |SERVICE_PACKET.fields|
  {
    With(With(Empty(SERVICE_PACKET), 0, Num(kind)), k, Sub(body))
  }

  lemma Sizes()
    ensures |SERVICE_PACKET.fields| == 13 && |REPLY_REQUEST.fields| == |POST_TOPIC_REQUEST.fields| == 10
    ensures |REPLY_RESPONSE.fields| == |POST_TOPIC_RESPONSE.fields| == |PUBLIC_SERVICE_REQUEST.fields| == 3
    ensures |PUBLIC_SERVICE_RESPONSE.fields| == 4
    ensures |GROUP_LBS_NEAR_REQUEST.fields| == 6 && |GROUP_CITY_REQUEST.fields| == |PYTHON_CORE_REQUEST.fields| == 4
    ensures |GROUP_LBS_NEAR_RESPONSE.fields| == |GROUP_CITY_RESPONSE.fields| == |PYTHON_CORE_RESPONSE.fields| == 3
  {
  }

  lemma BodyInSize(p: Message, k: nat, sub: Schema)
    requires WellFormed(SERVICE_PACKET, p) && 1 <= k <= 12 && SERVICE_PACKET.fields[k] == FMessage(sub)
    ensures |p.fields| == 13 && WellFormed(sub, BodyIn(p, k, sub)) && |BodyIn(p, k, sub).fields| == |sub.fields|
  {
  }

  /** The requests that a service packet may carry. */
  predicate Listed(kind: int) {
    kind == 21 || kind == 23 || kind == 25 || kind == 27 || kind == 29
  }

  /** The request of a packet, with what its descriptor says. */
  function RequestIn(p: Message, k: nat, sub: Schema): (b: Message)
    requires WellFormed(SERVICE_PACKET, p) && 1 <= k <= 12 && |SERVICE_PACKET.fields| == 13 && SERVICE_PACKET.fields[k] == FMessage(sub)
    ensures WellFormed(sub, b) && |b.fields| == |sub.fields|
  {
    BodyInSize(p, k, sub);
    BodyIn(p, k, sub)
  }

  function ReplyAnswer(w: World, p: Message): (m: Message)
    requires WellFormed(SERVICE_PACKET, p)
    ensures |m.fields| == 13
  {
    PacketFields();
    Sizes();
    var b := RequestIn(p, 1, REPLY_REQUEST);
    Answering(22, 2, TopicBody(REPLY_RESPONSE, b, w.curl(TopicCall(w.replyDomain, Chars("/reviews?"), b))))
  }

  function PostTopicAnswer(w: World, p: Message): (m: Message)
    requires WellFormed(SERVICE_PACKET, p)
    ensures |m.fields| == 13
  {
    PacketFields();
    Sizes();
    var b := RequestIn(p, 3, POST_TOPIC_REQUEST);
    Answering(24, 4, TopicBody(POST_TOPIC_RESPONSE, b, w.curl(TopicCall(w.postTopicDomain, Chars("/topics?"), b))))
  }

  function PublicServiceAnswer(w: World, p: Message): (m: Message)
    requires WellFormed(SERVICE_PACKET, p)
    ensures |m.fields| == 13
  {
    PacketFields();
    Sizes();
    Answering(26, 6, PublicBody(w, RequestIn(p, 5, PUBLIC_SERVICE_REQUEST)))
  }

  function NearFound(w: World, p: Message): (Bytes, Bytes)
    requires WellFormed(SERVICE_PACKET, p)
  {
    PacketFields();
    Sizes();
    Near(w, RequestIn(p, 7, GROUP_LBS_NEAR_REQUEST))
  }

  function NearAnswer(w: World, p: Message): (m: Message)
    requires WellFormed(SERVICE_PACKET, p)
    ensures |m.fields| == 13
  {
    PacketFields();
    Sizes();
    Answering(28, 8, GroupBody(GROUP_LBS_NEAR_RESPONSE, TextIn(RequestIn(p, 7, GROUP_LBS_NEAR_REQUEST), 0), NearFound(w, p)))
  }

  function CityFound(w: World, p: Message): (Bytes, Bytes)
    requires WellFormed(SERVICE_PACKET, p)
  {
    PacketFields();
    Sizes();
    InCity(w, RequestIn(p, 9, GROUP_CITY_REQUEST))
  }

  function CityAnswer(w: World, p: Message): (m: Message)
    requires WellFormed(SERVICE_PACKET, p)
    ensures |m.fields| == 13
  {
    PacketFields();
    Sizes();
    Answering(30, 10, GroupBody(GROUP_CITY_RESPONSE, TextIn(RequestIn(p, 9, GROUP_CITY_REQUEST), 0), CityFound(w, p)))
  }

  function PythonAnswer(w: World, p: Message): (m: Message)
    requires WellFormed(SERVICE_PACKET, p)
    ensures |m.fields| == 13
  {
    PacketFields();
    Sizes();
    Answering(32, 12, PythonBody(w, RequestIn(p, 11, PYTHON_CORE_REQUEST)))
  }

  /** What the handlers make of a listed packet. */
  function Answered(w: World, p: Message): (m: Message)
    requires WellFormed(SERVICE_PACKET, p) && |p.fields| == 13 && Listed(NumberIn(p, 0))
    ensures |m.fields| == 13
  {
    var kind := NumberIn(p, 0);
    if kind == 21 then ReplyAnswer(w, p)
    else if kind == 23 then PostTopicAnswer(w, p)
    else if kind == 25 then PublicServiceAnswer(w, p)
    else if kind == 27 then NearAnswer(w, p)
    else CityAnswer(w, p)
  }

  /** A database query that answers an error text makes the task fail. */
  predicate QueryFailed(w: World, p: Message)
    requires WellFormed(SERVICE_PACKET, p) && |p.fields| == 13
  {
    var kind := NumberIn(p, 0);
    (kind == 27 && NearFound(w, p).1 != []) || (kind == 29 && CityFound(w, p).1 != [])
  }

  lemma WithWellFormed(sch: Schema, m: Message, k: nat, v: Value)
    requires WellFormed(sch, m) && k < |sch.fields| == |m.fields| && Typed(sch.fields[k], v)
    ensures WellFormed(sch, With(m, k, v))
  {
  }

  lemma TextBodyWellFormed(sch: Schema, m: Message, k: nat, s: Bytes)
    requires WellFormed(sch, m) && k < |sch.fields| == |m.fields| && sch.fields[k].FBytes?
    ensures WellFormed(sch, With(m, k, Str(s)))
  {
    WithWellFormed(sch, m, k, Str(s));
  }

  lemma NumberBodyWellFormed(sch: Schema, m: Message, k: nat, n: int)
    requires WellFormed(sch, m) && k < |sch.fields| == |m.fields|
    requires (sch.fields[k].FInt32? && -0x8000_0000 <= n < 0x8000_0000)
             || (sch.fields[k].FInt64? && -0x8000_0000_0000_0000 <= n < 0x8000_0000_0000_0000)
    ensures WellFormed(sch, With(m, k, Num(n)))
  {
    WithWellFormed(sch, m, k, Num(n));
  }

  lemma TopicBodyFits(sch: Schema, r: Message, data: Bytes)
    requires sch == REPLY_RESPONSE || sch == POST_TOPIC_RESPONSE
    requires |r.fields| == 10
    ensures WellFormed(sch, TopicBody(sch, r, data)) && TextIn(TopicBody(sch, r, data), 0) == TextIn(r, 0)
  {
    hide WellFormed;
    var b := With(Empty(sch), 0, Str(TextIn(r, 0)));
    TextBodyWellFormed(sch, Empty(sch), 0, TextIn(r, 0));
    TextBodyWellFormed(sch, b, 1, TextIn(r, 1));
    TextBodyWellFormed(sch, With(b, 1, Str(TextIn(r, 1))), 2, data);
  }

  lemma PublicBodyFits(w: World, r: Message)
    requires |r.fields| == 3
    ensures WellFormed(PUBLIC_SERVICE_RESPONSE, PublicBody(w, r)) && TextIn(PublicBody(w, r), 0) == TextIn(r, 0)
  {
    hide WellFormed;
    var sch := PUBLIC_SERVICE_RESPONSE;
    var b := With(Empty(sch), 0, Str(TextIn(r, 0)));
    var c := With(b, 1, Str(TextIn(r, 1)));
    TextBodyWellFormed(sch, Empty(sch), 0, TextIn(r, 0));
    TextBodyWellFormed(sch, b, 1, TextIn(r, 1));
    NumberBodyWellFormed(sch, c, 3, w.now);
    TextBodyWellFormed(sch, With(c, 3, Num(w.now)), 2, w.curl(RobotCall(w, r)));
  }

  lemma GroupBodyFits(sch: Schema, cid: Bytes, found: (Bytes, Bytes))
    requires sch == GROUP_LBS_NEAR_RESPONSE || sch == GROUP_CITY_RESPONSE
    ensures WellFormed(sch, GroupBody(sch, cid, found)) && TextIn(GroupBody(sch, cid, found), 0) == cid
  {
    hide WellFormed;
    var b := With(Empty(sch), 0, Str(cid));
    TextBodyWellFormed(sch, Empty(sch), 0, cid);
    NumberBodyWellFormed(sch, b, 1, -1);
    NumberBodyWellFormed(sch, b, 1, 0);
    TextBodyWellFormed(sch, With(b, 1, Num(-1)), 2, found.1);
    TextBodyWellFormed(sch, With(b, 1, Num(0)), 2, found.0);
  }

  lemma PythonBodyFits(w: World, r: Message)
    requires |r.fields| == 4
    ensures WellFormed(PYTHON_CORE_RESPONSE, PythonBody(w, r)) && TextIn(PythonBody(w, r), 0) == TextIn(r, 0)
  {
    hide WellFormed, ExceptionText;
    var sch := PYTHON_CORE_RESPONSE;
    var b := With(Empty(sch), 0, Str(TextIn(r, 0)));
    var got := w.python(TextIn(r, 2), TextIn(r, 3), TextIn(r, 1));
    TextBodyWellFormed(sch, Empty(sch), 0, TextIn(r, 0));
    NumberBodyWellFormed(sch, b, 2, 1);
    NumberBodyWellFormed(sch, b, 2, 0);
    TextBodyWellFormed(sch, With(b, 2, Num(1)), 1, got.1);
    TextBodyWellFormed(sch, With(b, 2, Num(0)), 1, ExceptionText(got.1));
  }

  /** A packet of that shape can be sent: it has its type, and nothing but the one sub-message. */
  lemma AnsweringFits(kind: int, k: nat, sub: Schema, body: Message)
    requires 1 <= k <= 12 && |SERVICE_PACKET.fields| == 13 && SERVICE_PACKET.fields[k] == FMessage(sub)
    requires WellFormed(sub, body) && -0x8000_0000 <= kind < 0x8000_0000
    ensures var m := Answering(kind, k, body);
            && WellFormed(SERVICE_PACKET, m) && NumberIn(m, 0) == kind && BodyIn(m, k, sub) == body
            && m.fields[k].Some? && (forall i | 0 < i < 13 && i != k :: m.fields[i].None?)
            && PacketSchema(SERVICE_PACKET) && Initialized(SERVICE_PACKET, m)
  {
    hide WellFormed, LeafSchema, ValidSchema;
    SchemasFit();
    NumberBodyWellFormed(SERVICE_PACKET, Empty(SERVICE_PACKET), 0, kind);
    WithWellFormed(SERVICE_PACKET, With(Empty(SERVICE_PACKET), 0, Num(kind)), k, Sub(body));
  }

  /** The client id of sub-message k: its first field. */
  function CidIn(p: Message, k: nat): Bytes
    requires k < |p.fields|
  {
    if p.fields[k].Some? && p.fields[k].value.Sub? && |p.fields[k].value.m.fields| > 0 then TextIn(p.fields[k].value.m, 0)
    else []
  }

  lemma CidOfBody(p: Message, k: nat, sub: Schema)
    requires WellFormed(SERVICE_PACKET, p) && 1 <= k <= 12 && SERVICE_PACKET.fields[k] == FMessage(sub) && |sub.fields| > 0
    ensures |p.fields| == 13 && |BodyIn(p, k, sub).fields| == |sub.fields| && CidIn(p, k) == TextIn(BodyIn(p, k, sub), 0)
  {
    BodyInSize(p, k, sub);
  }

  /** A packet that answers type `kind` - 1 for client cid. */
  ghost predicate AnswersFor(m: Message, kind: int, k: nat, cid: Bytes)
    requires 1 <= k <= 12
  {
    && WellFormed(SERVICE_PACKET, m) && |m.fields| == 13 && PacketSchema(SERVICE_PACKET) && Initialized(SERVICE_PACKET, m)
    && NumberIn(m, 0) == kind && CidIn(m, k) == cid
    && m.fields[k].Some? && forall i | 0 < i < 13 && i != k :: m.fields[i].None?
  }

  lemma AnsweringMatches(kind: int, k: nat, sub: Schema, body: Message)
    requires 1 <= k <= 12 && |SERVICE_PACKET.fields| == 13 && SERVICE_PACKET.fields[k] == FMessage(sub)
    requires WellFormed(sub, body) && |sub.fields| == |body.fields| > 0 && -0x8000_0000 <= kind < 0x8000_0000
    ensures AnswersFor(Answering(kind, k, body), kind, k, TextIn(body, 0))
  {
    hide WellFormed, LeafSchema, ValidSchema, PacketSchema;
    AnsweringFits(kind, k, sub, body);
  }

  lemma TopicMatches(w: World, p: Message)
    requires WellFormed(SERVICE_PACKET, p) && |p.fields| == 13
    ensures AnswersFor(ReplyAnswer(w, p), 22, 2, CidIn(p, 1))
    ensures AnswersFor(PostTopicAnswer(w, p), 24, 4, CidIn(p, 3))
  {
    hide WellFormed, TopicBody, TextIn, CidIn, BodyIn, AnswersFor, Answering, Empty;
    PacketFields();
    Sizes();
    CidOfBody(p, 1, REPLY_REQUEST);
    CidOfBody(p, 3, POST_TOPIC_REQUEST);
    var b, c := RequestIn(p, 1, REPLY_REQUEST), RequestIn(p, 3, POST_TOPIC_REQUEST);
    var reply := w.curl(TopicCall(w.replyDomain, Chars("/reviews?"), b));
    var topic := w.curl(TopicCall(w.postTopicDomain, Chars("/topics?"), c));
    TopicBodyFits(REPLY_RESPONSE, b, reply);
    AnsweringMatches(22, 2, REPLY_RESPONSE, TopicBody(REPLY_RESPONSE, b, reply));
    TopicBodyFits(POST_TOPIC_RESPONSE, c, topic);
    AnsweringMatches(24, 4, POST_TOPIC_RESPONSE, TopicBody(POST_TOPIC_RESPONSE, c, topic));
  }

  lemma ServiceMatches(w: World, p: Message)
    requires WellFormed(SERVICE_PACKET, p) && |p.fields| == 13
    ensures AnswersFor(PublicServiceAnswer(w, p), 26, 6, CidIn(p, 5))
    ensures AnswersFor(PythonAnswer(w, p), 32, 12, CidIn(p, 11))
  {
    hide WellFormed, PublicBody, PythonBody, TextIn, CidIn, BodyIn, AnswersFor, Answering, Empty;
    PacketFields();
    Sizes();
    CidOfBody(p, 5, PUBLIC_SERVICE_REQUEST);
    CidOfBody(p, 11, PYTHON_CORE_REQUEST);
    var b, c := RequestIn(p, 5, PUBLIC_SERVICE_REQUEST), RequestIn(p, 11, PYTHON_CORE_REQUEST);
    PublicBodyFits(w, b);
    AnsweringMatches(26, 6, PUBLIC_SERVICE_RESPONSE, PublicBody(w, b));
    PythonBodyFits(w, c);
    AnsweringMatches(32, 12, PYTHON_CORE_RESPONSE, PythonBody(w, c));
  }

  lemma GroupMatches(w: World, p: Message)
    requires WellFormed(SERVICE_PACKET, p) && |p.fields| == 13
    ensures AnswersFor(NearAnswer(w, p), 28, 8, CidIn(p, 7))
    ensures AnswersFor(CityAnswer(w, p), 30, 10, CidIn(p, 9))
  {
    hide WellFormed, GroupBody, TextIn, CidIn, BodyIn, AnswersFor, Answering, Empty, NearFound, CityFound;
    PacketFields();
    Sizes();
    CidOfBody(p, 7, GROUP_LBS_NEAR_REQUEST);
    CidOfBody(p, 9, GROUP_CITY_REQUEST);
    var near := GroupBody(GROUP_LBS_NEAR_RESPONSE, CidIn(p, 7), NearFound(w, p));
    var city := GroupBody(GROUP_CITY_RESPONSE, CidIn(p, 9), CityFound(w, p));
    GroupBodyFits(GROUP_LBS_NEAR_RESPONSE, CidIn(p, 7), NearFound(w, p));
    AnsweringMatches(28, 8, GROUP_LBS_NEAR_RESPONSE, near);
    GroupBodyFits(GROUP_CITY_RESPONSE, CidIn(p, 9), CityFound(w, p));
    AnsweringMatches(30, 10, GROUP_CITY_RESPONSE, city);
  }

  /** Type t is answered by type t + 1, about the same client, in the sub-message after the request's. */
  lemma AnswerMatches(w: World, p: Message)
    requires WellFormed(SERVICE_PACKET, p) && |p.fields| == 13 && Listed(NumberIn(p, 0))
    ensures var t := NumberIn(p, 0);
            AnswersFor(Answered(w, p), t + 1, t - 19, CidIn(p, t - 20))
  {
    hide WellFormed, AnswersFor, ReplyAnswer, PostTopicAnswer, PublicServiceAnswer, NearAnswer, CityAnswer, CidIn;
    TopicMatches(w, p);
    ServiceMatches(w, p);
    GroupMatches(w, p);
  }

  // ----- The handlers -----

  /** An answer under construction, as the handlers get it. */
  ghost predicate Blank(response: Packet)
    reads response, response.Owned()
  {
    && response.Valid() && response.schema == SERVICE_PACKET && response.View() == Empty(SERVICE_PACKET)
    && response.Owned() == {} && |SERVICE_PACKET.fields| == 13
  }

  /** An answer with its type and sub-message k, which may still be filled in through its pointer. */
  ghost predicate StartedAt(response: Packet, kind: int, k: nat)
    reads response, response.Owned()
  {
    && |SERVICE_PACKET.fields| == 13 && 1 <= k <= 12 && IsBody(SERVICE_PACKET, k)
    && response.Valid() && response.schema == SERVICE_PACKET && Has(response.hasBits, k)
    && response.children[k] != null && response.children[k].Valid() && response.Owned() == {response.children[k]}
    && response.children[k].schema == SERVICE_PACKET.fields[k].sub
    && response.View() == Answering(kind, k, response.children[k].View())
  }

  method StartAnswer(response: Packet, kind: int, k: nat, ghost sub: Schema) returns (c: Leaf)
    requires Blank(response) && 1 <= k <= 12 && SERVICE_PACKET.fields[k] == FMessage(sub)
    requires -0x8000_0000 <= kind < 0x8000_0000
    modifies response`hasBits, response`type_, response`children
    ensures StartedAt(response, kind, k) && response.children[k] == c
    ensures fresh(c) && c.schema == sub && c.Valid() && c.View() == Empty(sub)
  {
    hide CoherentPacket, PacketViewOf, Has, WellFormed, Known, Leaves.Coherent, Leaves.ViewOf, ValidSchema, LeafSchema;
    PacketFields();
    response.SetType(kind);
    response.BodyIsField(k);
    assert forall d: Leaf? | d in response.children && d != null :: d in response.Owned();
    c := response.MutableChild(k);
    assert forall d: Leaf? | d in old(response.children) && d != null :: d in old(response.Owned());
    assert response.Owned() == {c};
  }

  /** The sub-message was filled in, and nothing else was touched. */
  twostate lemma FinishAnswer(response: Packet, new kind: int, new k: nat)
    requires old(StartedAt(response, kind, k)) && unchanged(response)
    requires k < |response.children| && response.children[k] != null && response.children[k].Valid()
    ensures StartedAt(response, kind, k)
  {
    hide CoherentPacket, PacketViewOf, Has, WellFormed, Known, Leaves.Coherent, Leaves.ViewOf, ValidSchema, LeafSchema;
    response.DistinctChildren(k);
    assert forall j: nat | j < |response.children| && response.children[j] != null :: response.children[j] in response.Owned();
    response.ChildEdited(k);
    PacketFields();
    SameFields(response.View(), Answering(kind, k, response.children[k].View()));
  }

  /** A copy of the sub-message that an accessor shows. */
  method ReadRequest(packet: Packet, k: nat, sub: Schema) returns (request: Leaf)
    requires packet.Valid() && packet.schema == SERVICE_PACKET && 1 <= k <= 12
    requires |SERVICE_PACKET.fields| == 13 && SERVICE_PACKET.fields[k] == FMessage(sub)
    ensures fresh(request) && request.Valid() && request.schema == sub
    ensures request.View() == RequestIn(packet.View(), k, sub)
  {
    hide CoherentPacket, PacketViewOf, Has, WellFormed, Known, Leaves.Coherent, Leaves.ViewOf, ValidSchema, LeafSchema;
    PacketFields();
    packet.BodyIsField(k);
    var shown := packet.GetChild(k);
    request := new Leaf(sub);
    request.CopyFrom(shown);
  }

  /** What the review and topic handlers put into their answers. */
  method FillTopic(reply: Leaf, request: Leaf, domain: Bytes, path: Bytes, w: World)
    requires request.Valid() && (request.schema == REPLY_REQUEST || request.schema == POST_TOPIC_REQUEST)
    requires reply.Valid() && (reply.schema == REPLY_RESPONSE || reply.schema == POST_TOPIC_RESPONSE)
    requires reply != request && reply.View() == Empty(reply.schema)
    modifies reply`hasBits, reply`slots
    ensures reply.Valid() && |request.View().fields| == 10 && |reply.schema.fields| == 3
    ensures reply.View() == TopicBody(reply.schema, request.View(), w.curl(TopicCall(domain, path, request.View())))
  {
    hide WellFormed, Known, Leaves.Coherent, Leaves.ViewOf, ValidSchema, LeafSchema;
    hide Chars;
    var url := domain;
    var topicId, sign, v := request.GetText(3), request.GetText(4), request.GetText(5);
    var platform, deviceId := request.GetText(6), request.GetText(7);
    var authorization := request.GetText(8);
    reply.SetField(0, Str(request.GetText(0)));
    reply.SetField(1, Str(request.GetText(1)));
    var data := request.GetText(9);
    url := url + Chars("/") + topicId + path
           + Chars("sign=") + sign + Chars("&v=") + v + Chars("&platform=") + platform + Chars("&device_id=") + deviceId;
    reply.SetField(2, Str(w.curl(Http(url, authorization, data))));
  }

  /** Type 21: a review, by HTTP. */
  method DoReplyRequest(response: Packet, packet: Packet, w: World)
    requires Blank(response) && packet.Valid() && packet.schema == SERVICE_PACKET && response != packet
    modifies response`hasBits, response`type_, response`children
    ensures packet.Valid() && packet.View() == old(packet.View())
    ensures response.Valid() && response.schema == SERVICE_PACKET && fresh(response.Owned()) && response.View() == ReplyAnswer(w, packet.View())
  {
    hide CoherentPacket, PacketViewOf, Has, WellFormed, Known, Leaves.Coherent, Leaves.ViewOf, ValidSchema, LeafSchema;
    hide Packet.Valid, Packet.View, Packet.ValidChildren, PacketSchema;
    hide TopicBody, TopicCall, Chars;
    var request := ReadRequest(packet, REPLY_REQUEST_FIELD, REPLY_REQUEST);
    var reply := StartAnswer(response, 22, REPLY_RESPONSE_FIELD, REPLY_RESPONSE);
    label started:
    FillTopic(reply, request, w.replyDomain, Chars("/reviews?"), w);
    FinishAnswer@started(response, 22, REPLY_RESPONSE_FIELD);
    packet.Untouched();
  }

  /** Type 23: a topic, by HTTP. */
  method DoPostTopicRequest(response: Packet, packet: Packet, w: World)
    requires Blank(response) && packet.Valid() && packet.schema == SERVICE_PACKET && response != packet
    modifies response`hasBits, response`type_, response`children
    ensures packet.Valid() && packet.View() == old(packet.View())
    ensures response.Valid() && response.schema == SERVICE_PACKET && fresh(response.Owned()) && response.View() == PostTopicAnswer(w, packet.View())
  {
    hide CoherentPacket, PacketViewOf, Has, WellFormed, Known, Leaves.Coherent, Leaves.ViewOf, ValidSchema, LeafSchema;
    hide Packet.Valid, Packet.View, Packet.ValidChildren, PacketSchema;
    hide TopicBody, TopicCall, Chars;
    var request := ReadRequest(packet, POST_TOPIC_REQUEST_FIELD, POST_TOPIC_REQUEST);
    var reply := StartAnswer(response, 24, POST_TOPIC_RESPONSE_FIELD, POST_TOPIC_RESPONSE);
    label started:
    FillTopic(reply, request, w.postTopicDomain, Chars("/topics?"), w);
    FinishAnswer@started(response, 24, POST_TOPIC_RESPONSE_FIELD);
    packet.Untouched();
  }

  /** The sub-message behind a mutable accessor, which an absent one becomes. */
  method TakeRequest(packet: Packet, k: nat, sub: Schema) returns (request: Leaf)
    requires packet.Valid() && packet.schema == SERVICE_PACKET && 1 <= k <= 12
    requires |SERVICE_PACKET.fields| == 13 && SERVICE_PACKET.fields[k] == FMessage(sub)
    modifies packet`hasBits, packet`children
    ensures request.Valid() && request.schema == sub
    ensures request.View() == RequestIn(old(packet.View()), k, sub)
  {
    hide CoherentPacket, PacketViewOf, Has, WellFormed, Known, Leaves.Coherent, Leaves.ViewOf, ValidSchema, LeafSchema;
    PacketFields();
    packet.BodyIsField(k);
    request := packet.MutableChild(k);
  }

  method FillPublicService(reply: Leaf, request: Leaf, w: World)
    requires request.Valid() && request.schema == PUBLIC_SERVICE_REQUEST
    requires reply.Valid() && reply.schema == PUBLIC_SERVICE_RESPONSE && reply != request && reply.View() == Empty(reply.schema)
    modifies reply`hasBits, reply`slots
    ensures reply.Valid() && |request.View().fields| == 3 && reply.View() == PublicBody(w, request.View())
  {
    hide WellFormed, Known, Leaves.Coherent, Leaves.ViewOf, ValidSchema, LeafSchema;
    reply.SetField(0, Str(request.GetText(0)));
    reply.SetField(1, Str(request.GetText(1)));
    reply.SetField(3, Num(w.now));
    var data := w.toServiceRequest(request.GetText(0), request.GetText(1), request.GetText(2));
    var url, authorization: Bytes := w.robotDomain, [];
    reply.SetField(2, Str(w.curl(Http(url, authorization, data))));
  }

  /** Type 25: a message to a robot service, by HTTP, stamped with the time. */
  method DoPublicServiceRequest(response: Packet, packet: Packet, w: World)
    requires Blank(response) && packet.Valid() && packet.schema == SERVICE_PACKET && response != packet
    modifies response`hasBits, response`type_, response`children, packet`hasBits, packet`children
    ensures response.Valid() && response.schema == SERVICE_PACKET && fresh(response.Owned())
    ensures response.View() == PublicServiceAnswer(w, old(packet.View()))
  {
    hide CoherentPacket, PacketViewOf, Has, WellFormed, Known, Leaves.Coherent, Leaves.ViewOf, ValidSchema, LeafSchema;
    hide Packet.Valid, Packet.View, Packet.ValidChildren, PacketSchema;
    hide PublicBody;
    var request := TakeRequest(packet, PUBLIC_SERVICE_REQUEST_FIELD, PUBLIC_SERVICE_REQUEST);
    response.Untouched();
    var reply := StartAnswer(response, 26, PUBLIC_SERVICE_RESPONSE_FIELD, PUBLIC_SERVICE_RESPONSE);
    label started:
    FillPublicService(reply, request, w);
    FinishAnswer@started(response, 26, PUBLIC_SERVICE_RESPONSE_FIELD);
  }

  /** What the database handlers put into their answers. */
  method FillGroup(reply: Leaf, cid: Bytes, json: Bytes, error: Bytes) returns (ok: bool)
    requires reply.Valid() && (reply.schema == GROUP_LBS_NEAR_RESPONSE || reply.schema == GROUP_CITY_RESPONSE)
    requires reply.View() == Empty(reply.schema)
    modifies reply`hasBits, reply`slots
    ensures reply.Valid() && |reply.schema.fields| == 3 && reply.View() == GroupBody(reply.schema, cid, (json, error))
    ensures ok <==> error == []
  {
    hide WellFormed, Known, Leaves.Coherent, Leaves.ViewOf, ValidSchema, LeafSchema;
    reply.SetField(0, Str(cid));
    if error != [] {
      reply.SetField(1, Num(-1));
      reply.SetField(2, Str(error));
      return false;
    }
    reply.SetField(1, Num(0));
    reply.SetField(2, Str(json));
    return true;
  }

  /** Type 27: groups near a place. */
  method ParserGroupNearRequest(response: Packet, packet: Packet, w: World) returns (ok: bool)
    requires Blank(response) && packet.Valid() && packet.schema == SERVICE_PACKET && response != packet
    modifies response`hasBits, response`type_, response`children, packet`hasBits, packet`children
    ensures response.Valid() && response.schema == SERVICE_PACKET && fresh(response.Owned())
    ensures response.View() == NearAnswer(w, old(packet.View()))
    ensures ok <==> NearFound(w, old(packet.View())).1 == []
  {
    hide CoherentPacket, PacketViewOf, Has, WellFormed, Known, Leaves.Coherent, Leaves.ViewOf, ValidSchema, LeafSchema;
    hide Packet.Valid, Packet.View, Packet.ValidChildren, PacketSchema;
    hide GroupBody;
    var request := TakeRequest(packet, GROUP_LBS_NEAR_REQUEST_FIELD, GROUP_LBS_NEAR_REQUEST);
    var lat, long := request.GetDouble(1), request.GetDouble(2);
    var cid := request.GetText(0);
    var start, limit, maxDistance := request.GetNumber(3), request.GetNumber(4), request.GetNumber(5);
    var (json, error) := w.findNear(lat, long, maxDistance, start, limit);
    response.Untouched();
    var reply := StartAnswer(response, 28, GROUP_LBS_NEAR_RESPONSE_FIELD, GROUP_LBS_NEAR_RESPONSE);
    label started:
    ok := FillGroup(reply, cid, json, error);
    FinishAnswer@started(response, 28, GROUP_LBS_NEAR_RESPONSE_FIELD);
  }

  /** Type 29: groups of a city. */
  method ParserGroupCityRequest(response: Packet, packet: Packet, w: World) returns (ok: bool)
    requires Blank(response) && packet.Valid() && packet.schema == SERVICE_PACKET && response != packet
    modifies response`hasBits, response`type_, response`children, packet`hasBits, packet`children
    ensures response.Valid() && response.schema == SERVICE_PACKET && fresh(response.Owned())
    ensures response.View() == CityAnswer(w, old(packet.View()))
    ensures ok <==> CityFound(w, old(packet.View())).1 == []
  {
    hide CoherentPacket, PacketViewOf, Has, WellFormed, Known, Leaves.Coherent, Leaves.ViewOf, ValidSchema, LeafSchema;
    hide Packet.Valid, Packet.View, Packet.ValidChildren, PacketSchema;
    hide GroupBody;
    var request := TakeRequest(packet, GROUP_CITY_REQUEST_FIELD, GROUP_CITY_REQUEST);
    var start, limit := request.GetNumber(2), request.GetNumber(3);
    var city, cid := request.GetText(1), request.GetText(0);
    var (json, error) := w.findByCity(city, start, limit);
    response.Untouched();
    var reply := StartAnswer(response, 30, GROUP_CITY_RESPONSE_FIELD, GROUP_CITY_RESPONSE);
    label started:
    ok := FillGroup(reply, cid, json, error);
    FinishAnswer@started(response, 30, GROUP_CITY_RESPONSE_FIELD);
  }

  method FillPython(reply: Leaf, request: Leaf, w: World)
    requires request.Valid() && request.schema == PYTHON_CORE_REQUEST
    requires reply.Valid() && reply.schema == PYTHON_CORE_RESPONSE && reply != request && reply.View() == Empty(reply.schema)
    modifies reply`hasBits, reply`slots
    ensures reply.Valid() && |request.View().fields| == 4 && reply.View() == PythonBody(w, request.View())
  {
    hide WellFormed, Known, Leaves.Coherent, Leaves.ViewOf, ValidSchema, LeafSchema;
    hide Chars, Subst, Without;
    reply.SetField(0, Str(request.GetText(0)));
    var (ok, text) := w.python(request.GetText(2), request.GetText(3), request.GetText(1));
    if ok {
      reply.SetField(2, Num(1));
      reply.SetField(1, Str(text));
    } else {
      var error := new StringBuffer(text);
      error.ReplaceAll([CARRIAGE_RETURN], []);
      error.ReplaceAll([LINE_FEED], []);
      LineBreaksDeleted(text);
      reply.SetField(2, Num(0));
      reply.SetField(1, Str(Chars("{\"error\":\"service exception!\", \"code\":\"") + error.text + Chars("\"}")));
    }
  }

  /** Type 31: a Python function, its result or the text of its exception. */
  method CallPython(response: Packet, packet: Packet, w: World)
    requires Blank(response) && packet.Valid() && packet.schema == SERVICE_PACKET && response != packet
    modifies response`hasBits, response`type_, response`children, packet`hasBits, packet`children
    ensures response.Valid() && response.schema == SERVICE_PACKET && fresh(response.Owned())
    ensures response.View() == PythonAnswer(w, old(packet.View()))
  {
    hide CoherentPacket, PacketViewOf, Has, WellFormed, Known, Leaves.Coherent, Leaves.ViewOf, ValidSchema, LeafSchema;
    hide Packet.Valid, Packet.View, Packet.ValidChildren, PacketSchema;
    hide PythonBody;
    var request := TakeRequest(packet, PYTHON_CORE_REQUEST_FIELD, PYTHON_CORE_REQUEST);
    response.Untouched();
    var reply := StartAnswer(response, 32, PYTHON_CORE_RESPONSE_FIELD, PYTHON_CORE_RESPONSE);
    label started:
    FillPython(reply, request, w);
    FinishAnswer@started(response, 32, PYTHON_CORE_RESPONSE_FIELD);
  }
}
