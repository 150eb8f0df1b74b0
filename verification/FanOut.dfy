/** Sending a robot service's answer to every session of a client. */
module FanOut {
  import opened Options
  import opened Wire
  import opened HasBits
  import opened Codec
  import opened Serialize
  import opened Leaves
  import opened Packets
  import opened Schemas
  import opened Handlers
  import opened Envelopes
  import opened Frames

  const FAN_OUT: Int32 := 6667

  /** A session of a client: its id, and the address of the server it is on. */
  datatype Session = Session(id: Bytes, address: Bytes)

  /** A frame handed to the connection to a server. */
  datatype Sent = Sent(server: Bytes, bytes: Bytes)

  /** The order in which a map of sessions is walked: by id, so no id comes twice. */
  predicate Before(a: Bytes, b: Bytes) {
    b != [] && (a == [] || a[0] < b[0] || (a[0] == b[0] && Before(a[1..], b[1..])))
  }

  predicate MapOrder(ss: seq<Session>) {
    forall i, j | 0 <= i < j < |ss| :: Before(ss[i].id, ss[j].id)
  }

  lemma {:induction false} BeforeDiffers(a: Bytes, b: Bytes)
    requires Before(a, b)
    ensures a != b
  {
    if a != [] && a[0] == b[0] { BeforeDiffers(a[1..], b[1..]); }
  }

  /** What the message that triggers a fan-out says. */
  datatype Push = Push(cid: Bytes, serviceId: Bytes, data: Bytes)

  function PushBody(p: Push): (m: Message)
    ensures |m.fields| == 4
  {
    With(With(With(Empty(PUBLIC_SERVICE_RESPONSE), 0, Str(p.cid)), 1, Str(p.serviceId)), 2, Str(p.data))
  }

  function PushPacket(p: Push): (m: Message)
    ensures |m.fields| == 13
  {
    PacketFields();
    Answering(26, 6, PushBody(p))
  }

  lemma PushPacketFits(p: Push)
    ensures AnswersFor(PushPacket(p), 26, 6, p.cid)
    ensures WellFormed(SERVICE_PACKET, PushPacket(p))
  {
    hide WellFormed, AnswersFor, Answering;
    PacketFields();
    var sch := PUBLIC_SERVICE_RESPONSE;
    var b := With(Empty(sch), 0, Str(p.cid));
    TextBodyWellFormed(sch, Empty(sch), 0, p.cid);
    TextBodyWellFormed(sch, b, 1, p.serviceId);
    TextBodyWellFormed(sch, With(b, 1, Str(p.serviceId)), 2, p.data);
    AnsweringMatches(26, 6, sch, PushBody(p));
    AnsweringFits(26, 6, sch, PushBody(p));
  }

  /** The common payload of a push. */
  function PushPayload(p: Push): Bytes {
    PushPacketFits(p);
    Encode(SERVICE_PACKET, PushPacket(p))
  }

  /** The message for one session, as if it were built from nothing. */
  function MessageFor(sn: Bytes, payload: Bytes, id: Bytes): (m: Message)
    ensures WellFormed(SERVICE_RESPONSE, m) && |m.fields| == 5
  {
    Message([Some(Str(id)), Some(Num(SERVER)), Some(Str(sn)), None, Some(Str(payload))], [])
  }

  /** The body of a session's frame. */
  function BodyFor(sn: Bytes, payload: Bytes, s: Session): Bytes {
    Encode(SERVICE_RESPONSE, MessageFor(sn, payload, s.id))
  }

  function FrameFor(sn: Bytes, payload: Bytes, s: Session): Sent {
    Sent(Chars("server:") + s.address, FrameBytes(Frame(0, FAN_OUT, BodyFor(sn, payload, s))))
  }

  /** The packet, built like a handler's. */
  method BuildPush(p: Push) returns (out: Bytes)
    ensures out == PushPayload(p)
  {
    hide CoherentPacket, PacketViewOf, Has, WellFormed, Known, Leaves.Coherent, Leaves.ViewOf, ValidSchema, LeafSchema;
    hide Encode, AnswersFor, Packet.Valid, Packet.View, Packet.ValidChildren, PacketSchema;
    SchemasFit();
    PacketFields();
    PushPacketFits(p);
    var packet := new Packet(SERVICE_PACKET);
    var body := StartAnswer(packet, 26, PUBLIC_SERVICE_RESPONSE_FIELD, PUBLIC_SERVICE_RESPONSE);
    label started:
    body.SetField(0, Str(p.cid));
    body.SetField(1, Str(p.serviceId));
    body.SetField(2, Str(p.data));
    FinishAnswer@started(packet, 26, PUBLIC_SERVICE_RESPONSE_FIELD);
    out := packet.SerializeToString();
  }

  /** The answer object between two sessions: everything is set but whose it is. */
  ghost predicate Addressless(answer: Leaf, sn: Bytes, payload: Bytes)
    reads answer`hasBits, answer`slots, answer`unknown
  {
    && answer.Valid() && answer.schema == SERVICE_RESPONSE && answer.View().unknown == []
    && forall i | 0 < i < |answer.View().fields| :: answer.View().fields[i] == MessageFor(sn, payload, []).fields[i]
  }

  /** With a session id it is the message for that session. */
  lemma SessionIdSet(m: Message, x: Message, sn: Bytes, payload: Bytes, id: Bytes)
    requires |m.fields| == 5 && m.unknown == [] && x == m.(fields := m.fields[0 := Some(Str(id))])
    requires forall i | 0 < i < 5 :: m.fields[i] == MessageFor(sn, payload, []).fields[i]
    ensures x == MessageFor(sn, payload, id)
    ensures forall i | 0 < i < 5 :: x.fields[i] == MessageFor(sn, payload, []).fields[i]
  {
    assert x.fields == MessageFor(sn, payload, id).fields;
  }

  /** One round of the loop. */
  method SendTo(answer: Leaf, s: Session, ghost sn: Bytes, ghost payload: Bytes) returns (sent: Sent)
    requires Addressless(answer, sn, payload)
    modifies answer
    ensures Addressless(answer, sn, payload) && sent == FrameFor(sn, payload, s)
  {
    hide WellFormed, Known, Leaves.Coherent, Leaves.ViewOf, ValidSchema, LeafSchema, Encode, Chars, FrameBytes, MessageFor;
    EnvelopeSizes();
    ghost var m := answer.View();
    assert |m.fields| == 5;
    FirstIsText();
    answer.SetField(0, Str(s.id));
    SessionIdSet(m, answer.View(), sn, payload, s.id);
    var out := answer.SerializeToString();
    var mf := BuildFrame(0, FAN_OUT, out);
    sent := Sent(Chars("server:") + s.address, mf.body);
  }

  lemma FirstIsText()
    ensures SERVICE_RESPONSE.fields[0] == FBytes
  {
  }

  /** The parts that are set before the loop. */
  method PrepareAnswer(sn: Bytes, payload: Bytes) returns (answer: Leaf)
    ensures fresh(answer) && Addressless(answer, sn, payload)
  {
    hide WellFormed, Known, Leaves.Coherent, Leaves.ViewOf, ValidSchema, LeafSchema;
    EnvelopeSizes();
    answer := new Leaf(SERVICE_RESPONSE);
    answer.SetField(2, Str(sn));
    answer.SetField(1, Num(SERVER));
    answer.SetField(4, Str(payload));
    answer.SetField(2, Str(sn));
  }

  /**
   server_service_response_responser::parser, after the JSON text was read. One answer
   object serves all sessions; only its session id changes. `sn` is a new unique number.
   */
  method Parser(p: Push, sn: Bytes, sessions: seq<Session>) returns (sent: seq<Sent>)
    ensures p.cid == [] || p.serviceId == [] || p.data == [] ==> sent == []
    ensures p.cid != [] && p.serviceId != [] && p.data != [] ==>
              |sent| == |sessions| && forall i | 0 <= i < |sessions| :: sent[i] == FrameFor(sn, PushPayload(p), sessions[i])
  {
    hide Addressless, FrameFor, PushPayload;
    sent := [];
    if p.cid == [] || p.serviceId == [] || p.data == [] { return; }
    var payload := BuildPush(p);
    var answer := PrepareAnswer(sn, payload);
    for i := 0 to |sessions|
      invariant fresh(answer) && Addressless(answer, sn, payload)
      invariant |sent| == i && forall k | 0 <= k < i :: sent[k] == FrameFor(sn, payload, sessions[k])
    {
      var frame := SendTo(answer, sessions[i], sn, payload);
      sent := sent + [frame];
    }
  }

  /** A body reads, without asking for required fields, as the message for that session; asked for them, it is refused. */
  lemma BodyReads(sn: Bytes, payload: Bytes, s: Session)
    requires |BodyFor(sn, payload, s)| < TWO_31
    ensures Parse(SERVICE_RESPONSE, BodyFor(sn, payload, s)) ==
            Some(Message([Some(Str(s.id)), Some(Num(600)), Some(Str(sn)), None, Some(Str(payload))], []))
    ensures ReplyIn(BodyFor(sn, payload, s)) == None
  {
    hide WellFormed, Encode, Parse;
    EnvelopeSizes();
    RoundTrip(SERVICE_RESPONSE, MessageFor(sn, payload, s.id));
    StatusMissing();
    assert MessageFor(sn, payload, s.id).fields[3].None?;
  }

  lemma StatusMissing()
    ensures SERVICE_RESPONSE.required == 4
  {
  }

  /** What a server sees of the frame it is sent. */
  ghost predicate ArrivesFor(sent: Sent, sn: Bytes, payload: Bytes, s: Session) {
    var (ds, rest) := ReadFrames(sent.bytes);
    && sent.server == Chars("server:") + s.address
    && |ds| == 1 && rest == [] && ds[0].head.cmd == FAN_OUT && ds[0].head.magic == 0
    && ds[0].data == BodyFor(sn, payload, s)
    && Parse(SERVICE_RESPONSE, ds[0].data) ==
       Some(Message([Some(Str(s.id)), Some(Num(600)), Some(Str(sn)), None, Some(Str(payload))], []))
  }

  /** A session's frame arrives exactly when its body is not too large for the reader. */
  lemma FrameArrives(sn: Bytes, payload: Bytes, s: Session)
    requires |BodyFor(sn, payload, s)| < TWO_31
    ensures ArrivesFor(FrameFor(sn, payload, s), sn, payload, s) <==> |BodyFor(sn, payload, s)| <= MAX_BODY
  {
    hide Encode, Parse, ReadFrames, FrameBytes, Chars, BodyFor, MessageFor;
    BodyReads(sn, payload, s);
    var f := Frame(0, FAN_OUT, BodyFor(sn, payload, s));
    OneFrame(f);
    DeliveredSmall(FrameBytes(f));
  }

  /**
   Every session of the client has one frame, for its own server. It reads there as the
   message for that session alone, exactly when its body has at most 2^20 bytes. No two
   frames are for the same session.
   */
  lemma FanOutFaithful(p: Push, sn: Bytes, sessions: seq<Session>, sent: seq<Sent>)
    requires MapOrder(sessions) && |sent| == |sessions|
    requires forall i | 0 <= i < |sessions| ::
               sent[i] == FrameFor(sn, PushPayload(p), sessions[i]) && |BodyFor(sn, PushPayload(p), sessions[i])| < TWO_31
    ensures forall i | 0 <= i < |sessions| ::
              ArrivesFor(sent[i], sn, PushPayload(p), sessions[i]) <==> |BodyFor(sn, PushPayload(p), sessions[i])| <= MAX_BODY
    ensures forall i, j | 0 <= i < j < |sessions| :: sessions[i].id != sessions[j].id && sent[i].bytes != sent[j].bytes
  {
    hide PushPayload, FrameFor, ArrivesFor, BodyFor;
    var payload := PushPayload(p);
    forall i | 0 <= i < |sessions| ensures ArrivesFor(sent[i], sn, payload, sessions[i]) <==> |BodyFor(sn, payload, sessions[i])| <= MAX_BODY {
      FrameArrives(sn, payload, sessions[i]);
    }
    forall i, j | 0 <= i < j < |sessions| ensures sessions[i].id != sessions[j].id && sent[i].bytes != sent[j].bytes {
      BeforeDiffers(sessions[i].id, sessions[j].id);
      BytesTell(sn, payload, sessions[i], sessions[j]);
    }
  }

  lemma BytesTell(sn: Bytes, payload: Bytes, s: Session, t: Session)
    requires s.id != t.id && |BodyFor(sn, payload, s)| < TWO_31 && |BodyFor(sn, payload, t)| < TWO_31
    ensures FrameFor(sn, payload, s).bytes != FrameFor(sn, payload, t).bytes
  {
    hide Parse, Chars, BodyFor, MessageFor, FrameBytes;
    BodyReads(sn, payload, s);
    BodyReads(sn, payload, t);
    var x, y := BodyFor(sn, payload, s), BodyFor(sn, payload, t);
    IdShows(sn, payload, s.id);
    IdShows(sn, payload, t.id);
    BodyOfBytes(Frame(0, FAN_OUT, x));
    BodyOfBytes(Frame(0, FAN_OUT, y));
  }

  lemma IdShows(sn: Bytes, payload: Bytes, id: Bytes)
    ensures MessageFor(sn, payload, id).fields[0] == Some(Str(id))
  {
  }

  lemma BodyOfBytes(f: Frame)
    ensures FrameBytes(f)[HEAD_LENGTH..] == f.body
  {
  }

  /** The common payload is a packet of type 26 for the client. */
  lemma PushReads(p: Push)
    requires |PushPayload(p)| < TWO_31
    ensures PacketIn(PushPayload(p)).Some? && AnswersFor(PacketIn(PushPayload(p)).value, 26, 6, p.cid)
  {
    hide Encode, PacketIn, PushPacket, WellFormed, CidIn, PacketSchema;
    PushPacketFits(p);
    PacketRead(PushPacket(p));
  }
}
