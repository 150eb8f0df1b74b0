/**
 The exchange as a peer sees it, in literal numbers: which command and packet type leads
 where, and what every field of an answer holds. The main results do not speak through the
 functions that specify the handlers; a packet is spelled out field by field.
 */
module Protocol {
  import opened Options
  import opened Wire
  import opened Codec
  import opened Serialize
  import opened Leaves
  import opened Packets
  import opened Schemas
  import opened Strings
  import opened Handlers
  import opened Envelopes
  import opened Frames
  import opened FanOut
  import opened Dispatch

  // ----- Requests -----

  /** A body that reaches a task: sessid, type and sn are there, the type is 600, and there is a payload. */
  ghost predicate Carries(data: Bytes, m: Message, payload: Bytes) {
    && Parse(SERVICE_REQUEST, data) == Some(m) && |m.fields| == 4
    && m.fields[0].Some? && m.fields[1] == Some(Num(600)) && m.fields[2].Some? && m.fields[3] == Some(Str(payload))
  }

  /** A payload that is a packet of a type. */
  ghost predicate Holds(payload: Bytes, p: Message, kind: int) {
    Parse(SERVICE_PACKET, payload) == Some(p) && |p.fields| == 13 && p.fields[0] == Some(Num(kind))
  }

  /** The sub-message of a packet, with nothing set when it is absent. */
  ghost predicate Asks(p: Message, k: nat, n: nat, r: Message) {
    && k < |p.fields| && |r.fields| == n
    && (p.fields[k] == Some(Sub(r)) || (p.fields[k] == None && r == Message(seq(n, i => None), [])))
  }

  lemma CarriesServed(data: Bytes, m: Message, payload: Bytes)
    requires Carries(data, m, payload)
    ensures RequestOf(data) == Some(m) && Served(data) && TextIn(m, 3) == payload
  {
    hide Parse, WellFormed;
    EnvelopeSizes();
    RequiredOfRequest();
  }

  lemma RequiredOfRequest()
    ensures SERVICE_REQUEST.required == 3 && SERVICE_REQUEST.fields[3] == FBytes && SERVICE_REQUEST.fields[1] == FInt32
  {
  }

  lemma ServedCarries(data: Bytes)
    requires Served(data)
    ensures Carries(data, RequestOf(data).value, TextIn(RequestOf(data).value, 3))
  {
    hide Parse;
    EnvelopeSizes();
    RequiredOfRequest();
    var m := RequestOf(data).value;
    assert Typed(SERVICE_REQUEST.fields[1], m.fields[1].value) && Typed(SERVICE_REQUEST.fields[3], m.fields[3].value);
  }

  lemma HoldsPacket(payload: Bytes, p: Message, kind: int)
    requires Holds(payload, p, kind)
    ensures PacketIn(payload) == Some(p) && NumberIn(p, 0) == kind && WellFormed(SERVICE_PACKET, p)
  {
    hide Parse, WellFormed, PacketSchema;
    SchemasFit();
  }

  // ----- Replies -----

  /** A packet with a type and one sub-message. */
  function PacketOf(kind: int, k: nat, body: Message): Message {
    Message(seq(13, i => if i == 0 then Some(Num(kind)) else if i == k then Some(Sub(body)) else None), [])
  }

  /** One frame, back to where the job came from, with no body. */
  ghost predicate Silent(job: Job, cmd: int, fs: seq<Addressed>) {
    |fs| == 1 && fs[0].server == job.id && fs[0].frame == Frame(job.head.magic, fs[0].frame.cmd, []) && fs[0].frame.cmd == cmd
  }

  /** One frame, back to where the job came from, around a reply for the request m with that payload. */
  ghost predicate RepliedWith(job: Job, cmd: int, m: Message, payload: Bytes, fs: seq<Addressed>)
    requires |m.fields| == 4
  {
    && |fs| == 1 && fs[0].server == job.id && fs[0].frame.magic == job.head.magic && fs[0].frame.cmd == cmd
    && (|fs[0].frame.body| < 0x8000_0000 ==>
          Parse(SERVICE_RESPONSE, fs[0].frame.body) ==
          Some(Message([m.fields[0], Some(Num(600)), m.fields[2], Some(Num(0)), Some(Str(payload))], [])))
  }

  /** The same, with a payload that is the packet q. */
  ghost predicate Replied(job: Job, cmd: int, m: Message, q: Message, fs: seq<Addressed>)
    requires |m.fields| == 4
  {
    exists payload {:trigger RepliedWith(job, cmd, m, payload, fs)} ::
      && RepliedWith(job, cmd, m, payload, fs)
      && (|fs[0].frame.body| < 0x8000_0000 ==> Parse(SERVICE_PACKET, payload) == Some(q))
  }

  lemma RepliedBy(job: Job, cmd: int, m: Message, payload: Bytes, q: Message, fs: seq<Addressed>)
    requires |m.fields| == 4 && RepliedWith(job, cmd, m, payload, fs)
    requires |fs[0].frame.body| < 0x8000_0000 ==> Parse(SERVICE_PACKET, payload) == Some(q)
    ensures Replied(job, cmd, m, q, fs)
  {
    hide Parse;
  }

  lemma EnvelopedIs(m: Message, payload: Bytes)
    requires WellFormed(SERVICE_REQUEST, m) && |m.fields| == 4
    requires m.fields[0].Some? && m.fields[1] == Some(Num(600)) && m.fields[2].Some?
    ensures Enveloped(m, payload) ==
            Message([m.fields[0], Some(Num(600)), m.fields[2], Some(Num(0)), Some(Str(payload))], [])
  {
    assert SERVICE_REQUEST.fields[0] == FBytes && SERVICE_REQUEST.fields[2] == FBytes;
    assert Typed(SERVICE_REQUEST.fields[0], m.fields[0].value) && Typed(SERVICE_REQUEST.fields[2], m.fields[2].value);
  }

  /** What comes of a request, whatever the task. */
  lemma TaskReplied(task: Task, job: Job, o: Outside, fs: seq<Addressed>, m: Message, payload: Bytes) returns (out: Outcome)
    requires Sends(job, o, fs) && TaskOf(job.head.cmd) == Some(task) && Carries(job.data, m, payload)
    ensures TaskReports(task, payload, o.world, out) && |fs| == 1
    ensures out.status == 0 ==> RepliedWith(job, job.head.cmd + 1, m, out.response, fs)
    ensures out.status == 0 ==> |out.response| < |fs[0].frame.body|
    ensures out.status != 0 ==> Silent(job, job.head.cmd + 1, fs)
  {
    hide WellFormed, Encode, TaskReports, RequestOf, Parse, Enveloped;
    CarriesServed(job.data, m, payload);
    EnvelopeSizes();
    var r :| EnvelopeReports(task, job.data, o.world, r)
      && fs == [Addressed(job.id, Frame(job.head.magic, Wrap32(job.head.cmd + 1), r.response))];
    out :| TaskReports(task, TextIn(m, 3), o.world, out) && r.status == out.status
      && r.response == if out.status == 0 then Encode(SERVICE_RESPONSE, Enveloped(m, out.response)) else [];
    if out.status == 0 {
      EnvelopedIs(m, out.response);
      PayloadShorter(Enveloped(m, out.response));
      if |r.response| < TWO_31 { EnvelopeRead(Enveloped(m, out.response)); }
    }
  }

  // ----- What the answers hold -----

  lemma AskedIn(p: Message, k: nat, sub: Schema, r: Message)
    requires WellFormed(SERVICE_PACKET, p) && 1 <= k <= 12 && |SERVICE_PACKET.fields| == 13 && SERVICE_PACKET.fields[k] == FMessage(sub)
    requires Asks(p, k, |sub.fields|, r)
    ensures RequestIn(p, k, sub) == r
  {
    hide WellFormed;
  }

  lemma AnsweringIs(kind: int, k: nat, body: Message)
    requires 1 <= k <= 12
    ensures |SERVICE_PACKET.fields| == 13 && Answering(kind, k, body) == PacketOf(kind, k, body)
  {
    Sizes();
    assert Answering(kind, k, body).fields == PacketOf(kind, k, body).fields;
  }

  lemma Three(sch: Schema, a: Value, b: Value, c: Value)
    requires |sch.fields| == 3
    ensures With(With(With(Empty(sch), 0, a), 1, b), 2, c) == Message([Some(a), Some(b), Some(c)], [])
    ensures With(With(With(Empty(sch), 0, a), 2, c), 1, b) == Message([Some(a), Some(b), Some(c)], [])
  {
    assert With(With(With(Empty(sch), 0, a), 1, b), 2, c).fields == [Some(a), Some(b), Some(c)];
    assert With(With(With(Empty(sch), 0, a), 2, c), 1, b).fields == [Some(a), Some(b), Some(c)];
  }

  lemma Four(sch: Schema, a: Value, b: Value, c: Value, d: Value)
    requires |sch.fields| == 4
    ensures With(With(With(With(Empty(sch), 0, a), 1, b), 3, d), 2, c) == Message([Some(a), Some(b), Some(c), Some(d)], [])
  {
    assert With(With(With(With(Empty(sch), 0, a), 1, b), 3, d), 2, c).fields == [Some(a), Some(b), Some(c), Some(d)];
  }

  lemma ReviewPacket(w: World, p: Message, r: Message)
    requires WellFormed(SERVICE_PACKET, p) && Asks(p, 1, 10, r)
    ensures ReplyAnswer(w, p) ==
            PacketOf(22, 2, Message(
              [Some(Str(TextIn(r, 0))), Some(Str(TextIn(r, 1))),
               Some(Str(w.curl(Http(
                 w.replyDomain + Chars("/") + TextIn(r, 3) + Chars("/reviews?") + Chars("sign=") + TextIn(r, 4)
                 + Chars("&v=") + TextIn(r, 5) + Chars("&platform=") + TextIn(r, 6) + Chars("&device_id=") + TextIn(r, 7),
                 TextIn(r, 8), TextIn(r, 9)))))], []))
  {
    hide WellFormed, With, Empty, Chars, Answering, PacketOf, RequestIn, Asks, TextIn;
    PacketFields();
    Sizes();
    AskedIn(p, 1, REPLY_REQUEST, r);
    assert |r.fields| == 10;
    var data := w.curl(TopicCall(w.replyDomain, Chars("/reviews?"), r));
    Three(REPLY_RESPONSE, Str(TextIn(r, 0)), Str(TextIn(r, 1)), Str(data));
    AnsweringIs(22, 2, TopicBody(REPLY_RESPONSE, r, data));
  }

  lemma TopicPacket(w: World, p: Message, r: Message)
    requires WellFormed(SERVICE_PACKET, p) && Asks(p, 3, 10, r)
    ensures PostTopicAnswer(w, p) ==
            PacketOf(24, 4, Message(
              [Some(Str(TextIn(r, 0))), Some(Str(TextIn(r, 1))),
               Some(Str(w.curl(Http(
                 w.postTopicDomain + Chars("/") + TextIn(r, 3) + Chars("/topics?") + Chars("sign=") + TextIn(r, 4)
                 + Chars("&v=") + TextIn(r, 5) + Chars("&platform=") + TextIn(r, 6) + Chars("&device_id=") + TextIn(r, 7),
                 TextIn(r, 8), TextIn(r, 9)))))], []))
  {
    hide WellFormed, With, Empty, Chars, Answering, PacketOf, RequestIn, Asks, TextIn;
    PacketFields();
    Sizes();
    AskedIn(p, 3, POST_TOPIC_REQUEST, r);
    assert |r.fields| == 10;
    var data := w.curl(TopicCall(w.postTopicDomain, Chars("/topics?"), r));
    Three(POST_TOPIC_RESPONSE, Str(TextIn(r, 0)), Str(TextIn(r, 1)), Str(data));
    AnsweringIs(24, 4, TopicBody(POST_TOPIC_RESPONSE, r, data));
  }

  lemma RobotPacket(w: World, p: Message, r: Message)
    requires WellFormed(SERVICE_PACKET, p) && Asks(p, 5, 3, r)
    ensures PublicServiceAnswer(w, p) ==
            PacketOf(26, 6, Message(
              [Some(Str(TextIn(r, 0))), Some(Str(TextIn(r, 1))),
               Some(Str(w.curl(Http(w.robotDomain, [], w.toServiceRequest(TextIn(r, 0), TextIn(r, 1), TextIn(r, 2)))))),
               Some(Num(w.now))], []))
  {
    hide WellFormed, With, Empty, Answering, PacketOf, RequestIn, Asks, TextIn;
    PacketFields();
    Sizes();
    AskedIn(p, 5, PUBLIC_SERVICE_REQUEST, r);
    assert |r.fields| == 3;
    Four(PUBLIC_SERVICE_RESPONSE, Str(TextIn(r, 0)), Str(TextIn(r, 1)), Str(w.curl(RobotCall(w, r))), Num(w.now));
    AnsweringIs(26, 6, PublicBody(w, r));
  }

  lemma NearPacket(w: World, p: Message, r: Message)
    requires WellFormed(SERVICE_PACKET, p) && Asks(p, 7, 6, r)
    ensures var found := w.findNear(DoubleIn(r, 1), DoubleIn(r, 2), NumberIn(r, 5), NumberIn(r, 3), NumberIn(r, 4));
            && NearFound(w, p) == found
            && NearAnswer(w, p) ==
               PacketOf(28, 8, Message([Some(Str(TextIn(r, 0))), Some(Num(if found.1 == [] then 0 else -1)),
                                       Some(Str(if found.1 == [] then found.0 else found.1))], []))
  {
    hide WellFormed, With, Empty, Answering, PacketOf, RequestIn, Asks, TextIn, NumberIn, DoubleIn;
    PacketFields();
    Sizes();
    AskedIn(p, 7, GROUP_LBS_NEAR_REQUEST, r);
    assert |r.fields| == 6;
    var found := NearFound(w, p);
    Three(GROUP_LBS_NEAR_RESPONSE, Str(TextIn(r, 0)), Num(0), Str(found.0));
    Three(GROUP_LBS_NEAR_RESPONSE, Str(TextIn(r, 0)), Num(-1), Str(found.1));
    AnsweringIs(28, 8, GroupBody(GROUP_LBS_NEAR_RESPONSE, TextIn(r, 0), found));
  }

  lemma CityPacket(w: World, p: Message, r: Message)
    requires WellFormed(SERVICE_PACKET, p) && Asks(p, 9, 4, r)
    ensures var found := w.findByCity(TextIn(r, 1), NumberIn(r, 2), NumberIn(r, 3));
            && CityFound(w, p) == found
            && CityAnswer(w, p) ==
               PacketOf(30, 10, Message([Some(Str(TextIn(r, 0))), Some(Num(if found.1 == [] then 0 else -1)),
                                       Some(Str(if found.1 == [] then found.0 else found.1))], []))
  {
    hide WellFormed, With, Empty, Answering, PacketOf, RequestIn, Asks, TextIn, NumberIn;
    PacketFields();
    Sizes();
    AskedIn(p, 9, GROUP_CITY_REQUEST, r);
    assert |r.fields| == 4;
    var found := CityFound(w, p);
    Three(GROUP_CITY_RESPONSE, Str(TextIn(r, 0)), Num(0), Str(found.0));
    Three(GROUP_CITY_RESPONSE, Str(TextIn(r, 0)), Num(-1), Str(found.1));
    AnsweringIs(30, 10, GroupBody(GROUP_CITY_RESPONSE, TextIn(r, 0), found));
  }

  lemma PythonPacket(w: World, p: Message, r: Message)
    requires WellFormed(SERVICE_PACKET, p) && Asks(p, 11, 4, r)
    ensures var got := w.python(TextIn(r, 2), TextIn(r, 3), TextIn(r, 1));
            PythonAnswer(w, p) ==
            PacketOf(32, 12,
              if got.0 then Message([Some(Str(TextIn(r, 0))), Some(Str(got.1)), Some(Num(1))], [])
              else Message([Some(Str(TextIn(r, 0))),
                            Some(Str(Chars("{\"error\":\"service exception!\", \"code\":\"") + Without(got.1, {13, 10}) + Chars("\"}"))),
                            Some(Num(0))], []))
  {
    hide WellFormed, With, Empty, Chars, Answering, PacketOf, RequestIn, Asks, TextIn, Without;
    PacketFields();
    Sizes();
    AskedIn(p, 11, PYTHON_CORE_REQUEST, r);
    assert |r.fields| == 4;
    var got := w.python(TextIn(r, 2), TextIn(r, 3), TextIn(r, 1));
    Three(PYTHON_CORE_RESPONSE, Str(TextIn(r, 0)), Str(got.1), Num(1));
    Three(PYTHON_CORE_RESPONSE, Str(TextIn(r, 0)), Str(ExceptionText(got.1)), Num(0));
    AnsweringIs(32, 12, PythonBody(w, r));
  }

  // ----- Commands and types -----

  lemma AnsweredBy(w: World, p: Message)
    requires WellFormed(SERVICE_PACKET, p) && |p.fields| == 13
    ensures NumberIn(p, 0) == 21 ==> Answered(w, p) == ReplyAnswer(w, p)
    ensures NumberIn(p, 0) == 23 ==> Answered(w, p) == PostTopicAnswer(w, p)
    ensures NumberIn(p, 0) == 25 ==> Answered(w, p) == PublicServiceAnswer(w, p)
    ensures NumberIn(p, 0) == 27 ==> Answered(w, p) == NearAnswer(w, p)
    ensures NumberIn(p, 0) == 29 ==> Answered(w, p) == CityAnswer(w, p)
    ensures NumberIn(p, 0) !in {27, 29} ==> !QueryFailed(w, p)
  {
    hide WellFormed, ReplyAnswer, PostTopicAnswer, PublicServiceAnswer, NearAnswer, CityAnswer, NearFound, CityFound;
  }

  lemma PacketParsed(q: Message)
    requires WellFormed(SERVICE_PACKET, q) && PacketSchema(SERVICE_PACKET) && |Encode(SERVICE_PACKET, q)| < 0x8000_0000
    ensures Parse(SERVICE_PACKET, Encode(SERVICE_PACKET, q)) == Some(q)
  {
    hide WellFormed, Encode, Parse;
    RoundTrip(SERVICE_PACKET, q);
  }

  /** Command 200 with a packet of a listed type: the answer's packet comes back, unless a query failed. */
  lemma PacketReplied(job: Job, o: Outside, fs: seq<Addressed>, m: Message, payload: Bytes, p: Message)
    requires Sends(job, o, fs) && job.head.cmd == 200 && Carries(job.data, m, payload)
    requires PacketIn(payload) == Some(p) && |p.fields| == 13 && NumberIn(p, 0) in {21, 23, 25, 27, 29}
    ensures WellFormed(SERVICE_PACKET, p) && |m.fields| == 4
    ensures QueryFailed(o.world, p) ==> Silent(job, 201, fs)
    ensures !QueryFailed(o.world, p) ==> Replied(job, 201, m, Answered(o.world, p), fs)
  {
    hide Sends, Carries, WellFormed, PacketIn, QueryFailed, Answered, Encode, Parse, RepliedWith, Silent, CidIn, PacketSchema;
    assert |m.fields| == 4 by { CarriesServed(job.data, m, payload); }
    var out := TaskReplied(Package, job, o, fs, m, payload);
    AnswerMatches(o.world, p);
    if !QueryFailed(o.world, p) {
      if |fs[0].frame.body| < 0x8000_0000 { PacketParsed(Answered(o.world, p)); }
      RepliedBy(job, 201, m, out.response, Answered(o.world, p), fs);
    }
  }

  /** Command 200, type 21: the review goes to the first domain; its answer comes back in type 22. */
  lemma ReviewAnswered(job: Job, o: Outside, fs: seq<Addressed>, m: Message, payload: Bytes, p: Message, r: Message)
    requires Sends(job, o, fs) && job.head.cmd == 200
    requires Carries(job.data, m, payload) && Holds(payload, p, 21) && Asks(p, 1, 10, r)
    ensures var w := o.world;
            var url := w.replyDomain + Chars("/") + TextIn(r, 3) + Chars("/reviews?") + Chars("sign=") + TextIn(r, 4)
                       + Chars("&v=") + TextIn(r, 5) + Chars("&platform=") + TextIn(r, 6) + Chars("&device_id=") + TextIn(r, 7);
            Replied(job, 201, m,
              PacketOf(22, 2, Message([Some(Str(TextIn(r, 0))), Some(Str(TextIn(r, 1))),
                                      Some(Str(w.curl(Http(url, TextIn(r, 8), TextIn(r, 9)))))], [])), fs)
  {
    hide Sends, Carries, Holds, Asks, PacketOf, Chars, WellFormed, Answered, ReplyAnswer, Replied;
    HoldsPacket(payload, p, 21);
    PacketReplied(job, o, fs, m, payload, p);
    ReviewPacket(o.world, p, r);
    assert Answered(o.world, p) == ReplyAnswer(o.world, p) by { AnsweredBy(o.world, p); }
  }

  /** Command 200, type 23: the topic goes to the second domain; its answer comes back in type 24. */
  lemma TopicAnswered(job: Job, o: Outside, fs: seq<Addressed>, m: Message, payload: Bytes, p: Message, r: Message)
    requires Sends(job, o, fs) && job.head.cmd == 200
    requires Carries(job.data, m, payload) && Holds(payload, p, 23) && Asks(p, 3, 10, r)
    ensures var w := o.world;
            var url := w.postTopicDomain + Chars("/") + TextIn(r, 3) + Chars("/topics?") + Chars("sign=") + TextIn(r, 4)
                       + Chars("&v=") + TextIn(r, 5) + Chars("&platform=") + TextIn(r, 6) + Chars("&device_id=") + TextIn(r, 7);
            Replied(job, 201, m,
              PacketOf(24, 4, Message([Some(Str(TextIn(r, 0))), Some(Str(TextIn(r, 1))),
                                      Some(Str(w.curl(Http(url, TextIn(r, 8), TextIn(r, 9)))))], [])), fs)
  {
    hide Sends, Carries, Holds, Asks, PacketOf, Chars, WellFormed, Answered, PostTopicAnswer, Replied;
    HoldsPacket(payload, p, 23);
    PacketReplied(job, o, fs, m, payload, p);
    TopicPacket(o.world, p, r);
    assert Answered(o.world, p) == PostTopicAnswer(o.world, p) by { AnsweredBy(o.world, p); }
  }

  /** Command 200, type 25: the robot's answer comes back in type 26, with the time. */
  lemma RobotAnswered(job: Job, o: Outside, fs: seq<Addressed>, m: Message, payload: Bytes, p: Message, r: Message)
    requires Sends(job, o, fs) && job.head.cmd == 200
    requires Carries(job.data, m, payload) && Holds(payload, p, 25) && Asks(p, 5, 3, r)
    ensures var w := o.world;
            var data := w.toServiceRequest(TextIn(r, 0), TextIn(r, 1), TextIn(r, 2));
            Replied(job, 201, m,
              PacketOf(26, 6, Message([Some(Str(TextIn(r, 0))), Some(Str(TextIn(r, 1))),
                                      Some(Str(w.curl(Http(w.robotDomain, [], data)))), Some(Num(w.now))], [])), fs)
  {
    hide Sends, Carries, Holds, Asks, PacketOf, WellFormed, Answered, PublicServiceAnswer, Replied;
    HoldsPacket(payload, p, 25);
    PacketReplied(job, o, fs, m, payload, p);
    RobotPacket(o.world, p, r);
    AnsweredBy(o.world, p);
  }

  /** Command 200, type 27: what the database found near the place comes back in type 28; after an error, nothing. */
  lemma NearAnswered(job: Job, o: Outside, fs: seq<Addressed>, m: Message, payload: Bytes, p: Message, r: Message)
    requires Sends(job, o, fs) && job.head.cmd == 200
    requires Carries(job.data, m, payload) && Holds(payload, p, 27) && Asks(p, 7, 6, r)
    ensures var found := o.world.findNear(DoubleIn(r, 1), DoubleIn(r, 2), NumberIn(r, 5), NumberIn(r, 3), NumberIn(r, 4));
            if found.1 != [] then Silent(job, 201, fs)
            else Replied(job, 201, m,
                   PacketOf(28, 8, Message([Some(Str(TextIn(r, 0))), Some(Num(0)), Some(Str(found.0))], [])), fs)
  {
    hide Sends, Carries, Holds, Asks, PacketOf, WellFormed, Answered, NearAnswer, NearFound, Replied, Silent;
    HoldsPacket(payload, p, 27);
    PacketReplied(job, o, fs, m, payload, p);
    NearPacket(o.world, p, r);
    AnsweredBy(o.world, p);
  }

  /** Command 200, type 29: what the database found in the city comes back in type 30; after an error, nothing. */
  lemma CityAnswered(job: Job, o: Outside, fs: seq<Addressed>, m: Message, payload: Bytes, p: Message, r: Message)
    requires Sends(job, o, fs) && job.head.cmd == 200
    requires Carries(job.data, m, payload) && Holds(payload, p, 29) && Asks(p, 9, 4, r)
    ensures var found := o.world.findByCity(TextIn(r, 1), NumberIn(r, 2), NumberIn(r, 3));
            if found.1 != [] then Silent(job, 201, fs)
            else Replied(job, 201, m,
                   PacketOf(30, 10, Message([Some(Str(TextIn(r, 0))), Some(Num(0)), Some(Str(found.0))], [])), fs)
  {
    hide Sends, Carries, Holds, Asks, PacketOf, WellFormed, Answered, CityAnswer, CityFound, Replied, Silent;
    HoldsPacket(payload, p, 29);
    PacketReplied(job, o, fs, m, payload, p);
    CityPacket(o.world, p, r);
    AnsweredBy(o.world, p);
  }

  /** Command 8000, type 31: the function's result comes back in type 32 with status 1, or the text of its exception with status 0. */
  lemma PythonAnswered(job: Job, o: Outside, fs: seq<Addressed>, m: Message, payload: Bytes, p: Message, r: Message)
    requires Sends(job, o, fs) && job.head.cmd == 8000
    requires Carries(job.data, m, payload) && Holds(payload, p, 31) && Asks(p, 11, 4, r)
    ensures var got := o.world.python(TextIn(r, 2), TextIn(r, 3), TextIn(r, 1));
            var failure := Chars("{\"error\":\"service exception!\", \"code\":\"") + Without(got.1, {13, 10}) + Chars("\"}");
            Replied(job, 8001, m,
              PacketOf(32, 12, Message([Some(Str(TextIn(r, 0))), Some(Str(if got.0 then got.1 else failure)),
                                       Some(Num(if got.0 then 1 else 0))], [])), fs)
  {
    hide Sends, Carries, Holds, Asks, PacketOf, WellFormed, Chars, Without, PacketIn, PythonAnswer;
    hide Encode, Parse, RepliedWith, CidIn, PacketSchema;
    HoldsPacket(payload, p, 31);
    assert |m.fields| == 4 by { CarriesServed(job.data, m, payload); }
    var out := TaskReplied(Python, job, o, fs, m, payload);
    ServiceMatches(o.world, p);
    PythonPacket(o.world, p, r);
    if |fs[0].frame.body| < 0x8000_0000 { PacketParsed(PythonAnswer(o.world, p)); }
    RepliedBy(job, 8001, m, out.response, PythonAnswer(o.world, p), fs);
  }

  /** A payload that is no packet with a type, or for command 8000 none of type 31, gets a reply with an empty payload. */
  lemma NoPacketAnswered(job: Job, o: Outside, fs: seq<Addressed>, m: Message, payload: Bytes)
    requires Sends(job, o, fs) && Carries(job.data, m, payload)
    requires forall p, kind | Holds(payload, p, kind) :: job.head.cmd == 8000 && kind != 31
    requires job.head.cmd in {200, 8000}
    ensures |m.fields| == 4 && RepliedWith(job, job.head.cmd + 1, m, [], fs)
  {
    hide Sends, Carries, WellFormed, PacketIn, Encode, Parse, RepliedWith, Silent, QueryFailed;
    CarriesServed(job.data, m, payload);
    var task := if job.head.cmd == 200 then Package else Python;
    var out := TaskReplied(task, job, o, fs, m, payload);
    if PacketIn(payload).Some? { PacketHolds(payload); }
  }

  lemma PacketHolds(payload: Bytes)
    requires PacketIn(payload).Some?
    ensures Holds(payload, PacketIn(payload).value, NumberIn(PacketIn(payload).value, 0))
  {
    hide Parse;
    SchemasFit();
    PacketFields();
    var p := PacketIn(payload).value;
    assert Typed(SERVICE_PACKET.fields[0], p.fields[0].value);
  }

  /** Commands 200 and 8000 with anything else in the body get an empty body back. */
  lemma NotCarriedSilent(job: Job, o: Outside, fs: seq<Addressed>)
    requires Sends(job, o, fs) && job.head.cmd in {200, 8000}
    requires forall m, payload :: !Carries(job.data, m, payload)
    ensures Silent(job, job.head.cmd + 1, fs)
  {
    hide RequestOf, Carries, TaskReports, Enveloped, Encode;
    if Served(job.data) { ServedCarries(job.data); }
  }

  /** Command 7818 always gets an empty body back. */
  lemma GroupSilent(job: Job, o: Outside, fs: seq<Addressed>)
    requires Sends(job, o, fs) && job.head.cmd == 7818
    ensures Silent(job, 7819, fs)
  {
    hide RequestOf, Enveloped, Encode;
  }

  /** Any other command than 200, 6666, 7818 and 8000 sends nothing, the busy notice 1010 included. */
  lemma OtherCommands(job: Job, o: Outside, fs: seq<Addressed>)
    requires Sends(job, o, fs) && job.head.cmd !in {200, 6666, 7818, 8000}
    ensures fs == []
  {
    hide EnvelopeReports, BodyFor, PushPayload;
  }

  // ----- The fan-out -----

  /** What a server gets for a session: the message in the frame's body, around a packet of type 26. */
  ghost predicate Pushed(f: Addressed, p: Push, sn: Bytes, s: Session) {
    && f.server == Chars("server:") + s.address && f.frame.cmd == 6667 && f.frame.magic == 0
    && (|f.frame.body| < 0x8000_0000 ==>
          exists payload {:trigger Parse(SERVICE_PACKET, payload)} ::
            && Parse(SERVICE_RESPONSE, f.frame.body) ==
               Some(Message([Some(Str(s.id)), Some(Num(600)), Some(Str(sn)), None, Some(Str(payload))], []))
            && Parse(SERVICE_PACKET, payload) ==
               Some(PacketOf(26, 6, Message([Some(Str(p.cid)), Some(Str(p.serviceId)), Some(Str(p.data)), None], []))))
  }

  /** Command 6666: one such frame for each session of the client, in their order, if no part of the push is empty; otherwise nothing. */
  lemma PushSent(job: Job, o: Outside, fs: seq<Addressed>)
    requires Sends(job, o, fs) && job.head.cmd == 6666
    ensures var p := o.json(job.data);
            if p.cid == [] || p.serviceId == [] || p.data == [] then fs == []
            else |fs| == |o.sessions(p.cid)| && forall i | 0 <= i < |fs| :: Pushed(fs[i], p, o.sn, o.sessions(p.cid)[i])
  {
    hide Pushed, PushFrame;
    var p := o.json(job.data);
    if p.cid != [] && p.serviceId != [] && p.data != [] {
      forall i | 0 <= i < |fs| ensures Pushed(fs[i], p, o.sn, o.sessions(p.cid)[i]) { SessionPushed(o, p, o.sessions(p.cid)[i]); }
    }
  }

  lemma SessionPushed(o: Outside, p: Push, s: Session)
    ensures Pushed(PushFrame(o, p, s), p, o.sn, s)
  {
    hide Parse, Chars, PushPayload, BodyFor, Encode, WellFormed, PacketOf, PushPacket, AnswersFor;
    var payload := PushPayload(p);
    if |BodyFor(o.sn, payload, s)| < 0x8000_0000 {
      BodyReads(o.sn, payload, s);
      PushPayloadIs(o.sn, p, s);
    }
  }

  lemma PushPayloadIs(sn: Bytes, p: Push, s: Session)
    requires |BodyFor(sn, PushPayload(p), s)| < 0x8000_0000
    ensures Parse(SERVICE_PACKET, PushPayload(p)) ==
            Some(PacketOf(26, 6, Message([Some(Str(p.cid)), Some(Str(p.serviceId)), Some(Str(p.data)), None], [])))
  {
    hide Parse, Encode, WellFormed, PacketOf, Answering, AnswersFor, PacketSchema;
    SchemasFit();
    PushPacketFits(p);
    PayloadShorter(MessageFor(sn, PushPayload(p), s.id));
    PacketParsed(PushPacket(p));
    Sizes();
    assert PushBody(p).fields == [Some(Str(p.cid)), Some(Str(p.serviceId)), Some(Str(p.data)), None];
    AnsweringIs(26, 6, PushBody(p));
  }
}
