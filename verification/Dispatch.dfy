/**
 What a worker does with a frame: dispatch by command, and what is sent in answer. No
 frame it sends is one that it would answer, so no exchange goes on for ever.
 */
module Dispatch {
  import opened Options
  import opened Wire
  import opened Codec
  import opened Serialize
  import opened Leaves
  import opened Schemas
  import opened Handlers
  import opened Envelopes
  import opened Frames
  import opened FanOut
  import opened Workers

  /** A frame in the task queue: the connection it came from, its header and its data. */
  datatype Job = Job(id: Bytes, head: Head, data: Bytes)

  /** What the outside answers while a job is done. */
  datatype Outside = Outside(
    world: World,
    json: Bytes -> Push,
    sn: Bytes,
    sessions: Bytes -> seq<Session>)

  /** A frame on its way to a server. */
  datatype Addressed = Addressed(server: Bytes, frame: Frame)

  function OnWire(fs: seq<Addressed>): (sent: seq<Sent>)
    ensures |sent| == |fs|
    ensures forall i | 0 <= i < |fs| :: sent[i] == Sent(fs[i].server, FrameBytes(fs[i].frame))
  {
    seq(|fs|, i requires 0 <= i < |fs| => Sent(fs[i].server, FrameBytes(fs[i].frame)))
  }

  const PUSH: Int32 := 6666
  const BUSY: Int32 := 1010

  /** The task behind a command that is answered to its sender. */
  function TaskOf(cmd: Int32): Option<Task> {
    if cmd == 200 then Some(Package)
    else if cmd == 7818 then Some(Task.Group)
    else if cmd == 8000 then Some(Python)
    else None
  }

  function PushFrame(o: Outside, p: Push, s: Session): Addressed {
    Addressed(Chars("server:") + s.address, Frame(0, FAN_OUT, BodyFor(o.sn, PushPayload(p), s)))
  }

  /** The frames that are sent for a job. */
  ghost predicate Sends(job: Job, o: Outside, fs: seq<Addressed>) {
    match TaskOf(job.head.cmd)
    case Some(task) =>
      exists r {:trigger EnvelopeReports(task, job.data, o.world, r)} ::
        && EnvelopeReports(task, job.data, o.world, r)
        && fs == [Addressed(job.id, Frame(job.head.magic, Wrap32(job.head.cmd + 1), r.response))]
    case None =>
      var p := o.json(job.data);
      if job.head.cmd == PUSH && p.cid != [] && p.serviceId != [] && p.data != [] then
        |fs| == |o.sessions(p.cid)| && forall i | 0 <= i < |fs| :: fs[i] == PushFrame(o, p, o.sessions(p.cid)[i])
      else fs == []
  }

  /**
   do_work. The answers of the three request tasks go back to the sender, with the next
   command; a push is answered by none but fanned out; a busy notice and any other
   command send nothing.
   */
  method DoWork(job: Job, o: Outside) returns (sent: seq<Sent>)
    ensures exists fs :: Sends(job, o, fs) && sent == OnWire(fs)
  {
    ghost var fs: seq<Addressed>;
    hide EnvelopeReports, FrameBytes, BodyFor, PushPayload, Chars;
    var task := TaskOf(job.head.cmd);
    if task.Some? {
      var r := EnvelopeParser(task.value, job.data, o.world);
      var cmd := Wrap32(job.head.cmd + 1);
      var mf := BuildFrame(job.head.magic, cmd, r.response);
      sent := [Sent(job.id, mf.body)];
      fs := [Addressed(job.id, Frame(job.head.magic, cmd, r.response))];
    } else if job.head.cmd == PUSH {
      var p := o.json(job.data);
      var sessions := o.sessions(p.cid);
      sent := FanOut.Parser(p, o.sn, sessions);
      fs := if sent == [] then [] else seq(|sessions|, i requires 0 <= i < |sessions| => PushFrame(o, p, sessions[i]));
    } else {
      sent, fs := [], [];
    }
    assert Sends(job, o, fs) && sent == OnWire(fs);
  }

  // ----- Requests and their replies, from stream to stream -----

  /**
   A request is answered by one frame, to the connection it came from, with the next
   command. That frame's stream reads as exactly that frame; and its body, when it is not
   empty, is a ServiceResponse for the request in the job.
   */
  lemma EndToEnd(job: Job, o: Outside, fs: seq<Addressed>)
    requires Sends(job, o, fs) && TaskOf(job.head.cmd).Some?
    ensures |fs| == 1 && fs[0].server == job.id
    ensures fs[0].frame.cmd == job.head.cmd + 1 && fs[0].frame.magic == job.head.magic
    ensures ReadFrames(OnWire(fs)[0].bytes) == ([Received(fs[0].frame)], []) <==> |fs[0].frame.body| <= MAX_BODY
    ensures var body := fs[0].frame.body;
            body != [] && |body| < TWO_31 ==>
              && RequestOf(job.data).Some? && ReplyIn(body).Some?
              && Correlated(RequestOf(job.data).value, ReplyIn(body).value)
              && PacketCorrelated(TaskOf(job.head.cmd).value, RequestOf(job.data).value, ReplyIn(body).value)
  {
    hide EnvelopeReports, FrameBytes, ReadFrames, RequestOf, ReplyIn, Correlated, PacketCorrelated;
    var task := TaskOf(job.head.cmd).value;
    var r :| EnvelopeReports(task, job.data, o.world, r)
      && fs == [Addressed(job.id, Frame(job.head.magic, Wrap32(job.head.cmd + 1), r.response))];
    if r.response != [] && |r.response| < TWO_31 { CorrelatedReply(task, job.data, o.world, r); }
    OneFrame(fs[0].frame);
  }

  /** A frame with a request of a peer: an initialized ServiceRequest, small enough to be read. */
  ghost predicate Requests(f: Frame, m: Message) {
    && TaskOf(f.cmd).Some? && f.body == RequestBytes(m) && |f.body| <= MAX_BODY
    && LeafSchema(SERVICE_REQUEST) && WellFormed(SERVICE_REQUEST, m) && Initialized(SERVICE_REQUEST, m)
  }

  ghost function RequestBytes(m: Message): Bytes {
    if WellFormed(SERVICE_REQUEST, m) then Encode(SERVICE_REQUEST, m) else []
  }

  lemma RequestReads(f: Frame, m: Message)
    requires Requests(f, m)
    ensures RequestOf(f.body) == Some(m) && |m.fields| == 4
  {
    hide WellFormed, Encode, Parse;
    EnvelopeSizes();
    RoundTrip(SERVICE_REQUEST, m);
  }

  lemma {:induction false} AllQueued(ds: seq<Delivery>)
    requires forall d | d in ds :: d.head.cmd != KEEPALIVE_REPLY
    ensures Queued(ds) == ds
  {
    if ds != [] {
      assert ds[0] in ds;
      AllQueued(ds[1..]);
    }
  }

  /** A peer's stream of requests becomes one task per request, with that request in it. */
  lemma RequestsArrive(fs: seq<Frame>, ms: seq<Message>)
    requires |fs| == |ms| && forall k | 0 <= k < |fs| :: Requests(fs[k], ms[k])
    ensures Queued(ReadFrames(StreamOf(fs)).0) == AllReceived(fs)
    ensures forall k | 0 <= k < |fs| :: RequestOf(fs[k].body) == Some(ms[k])
  {
    hide Requests, ReadFrames, StreamOf, RequestOf, Queued;
    forall k | 0 <= k < |fs|
      ensures RequestOf(fs[k].body) == Some(ms[k]) && TaskOf(fs[k].cmd).Some? && |fs[k].body| <= MAX_BODY
    {
      RequestReads(fs[k], ms[k]);
      RequestFits(fs[k], ms[k]);
    }
    forall f | f in fs ensures |f.body| <= MAX_BODY {
      var k :| 0 <= k < |fs| && fs[k] == f;
    }
    StreamFraming(fs);
    AllQueued(AllReceived(fs));
  }

  lemma RequestFits(f: Frame, m: Message)
    requires Requests(f, m)
    ensures TaskOf(f.cmd).Some? && |f.body| <= MAX_BODY
  {
  }

  /** What comes back for a request: the next command, and a body that is empty or answers it. */
  ghost predicate Answers(f: Frame, m: Message, d: Delivery)
    requires TaskOf(f.cmd).Some? && |m.fields| == 4
  {
    && d.head.cmd == f.cmd + 1 && d.head.magic == f.magic
    && (d.data != [] ==>
          && ReplyIn(d.data).Some? && Correlated(m, ReplyIn(d.data).value)
          && PacketCorrelated(TaskOf(f.cmd).value, m, ReplyIn(d.data).value))
  }

  /** The replies in the order in which they were written. */
  function RepliesOf(sent: seq<seq<Addressed>>, order: seq<nat>): (fs: seq<Frame>)
    requires forall j | 0 <= j < |order| :: order[j] < |sent| && |sent[order[j]]| == 1
    ensures |fs| == |order| && forall j | 0 <= j < |order| :: fs[j] == sent[order[j]][0].frame
  {
    seq(|order|, j requires 0 <= j < |order| => sent[order[j]][0].frame)
  }

  /** One request, from the task to the delivery of its reply. */
  lemma RequestAnswered(id: Bytes, f: Frame, m: Message, o: Outside, fs: seq<Addressed>)
    requires Requests(f, m)
    requires var d := Received(f); Sends(Job(id, d.head, d.data), o, fs)
    ensures |m.fields| == 4 && TaskOf(f.cmd).Some?
    ensures |fs| == 1 && fs[0].server == id
    ensures |fs[0].frame.body| <= MAX_BODY ==> Answers(f, m, Received(fs[0].frame))
  {
    hide Sends, RequestOf, ReplyIn, Correlated, PacketCorrelated, OnWire, ReadFrames;
    RequestReads(f, m);
    RequestFits(f, m);
    var d := Received(f);
    EndToEnd(Job(id, d.head, d.data), o, fs);
  }

  /** The header that a worker deals with: an overfull queue makes a busy notice of a task. */
  function Dealt(h: Head, busy: bool): Head {
    if busy then h.(cmd := BUSY) else h
  }

  /**
   What a pool of workers made of a peer's requests: `mine` says which tasks of the pool they
   became, and `sent` what was sent for each.
   */
  ghost predicate Worked(id: Bytes, fs: seq<Frame>, ms: seq<Message>, os: seq<Outside>, sent: seq<seq<Addressed>>,
                         mine: seq<nat>, p: Pool)
  {
    var tasks := Queued(ReadFrames(StreamOf(fs)).0);
    && |fs| == |ms| == |tasks| == |os| == |sent| == |mine| && Increasing(mine)
    && (forall k | 0 <= k < |fs| :: Requests(fs[k], ms[k]))
    && (forall k | 0 <= k < |fs| :: Sends(Job(id, Dealt(tasks[k].head, mine[k] in p.busy), tasks[k].data), os[k], sent[k]))
  }

  lemma RequestWorked(id: Bytes, fs: seq<Frame>, ms: seq<Message>, os: seq<Outside>, sent: seq<seq<Addressed>>,
                      mine: seq<nat>, p: Pool, k: nat)
    requires Worked(id, fs, ms, os, sent, mine, p) && k < |fs|
    ensures TaskOf(fs[k].cmd).Some? && |ms[k].fields| == 4
    ensures mine[k] in p.busy ==> sent[k] == []
    ensures mine[k] !in p.busy ==> |sent[k]| == 1 && sent[k][0].server == id
    ensures mine[k] !in p.busy && |sent[k][0].frame.body| <= MAX_BODY ==> Answers(fs[k], ms[k], Received(sent[k][0].frame))
  {
    hide Requests, Sends, ReadFrames, StreamOf, Queued, Answers;
    RequestsArrive(fs, ms);
    var d := Received(fs[k]);
    assert AllReceived(fs)[k] == d;
    RequestReads(fs[k], ms[k]);
    RequestFits(fs[k], ms[k]);
    if mine[k] in p.busy {
      SentIsFinal(Job(id, Dealt(d.head, true), d.data), os[k], sent[k]);
    } else {
      RequestAnswered(id, fs[k], ms[k], os[k], sent[k]);
    }
  }

  /** The j-th reply answers the request that it is for. */
  ghost predicate AllAnswer(fs: seq<Frame>, ms: seq<Message>, order: seq<nat>, ds: seq<Delivery>) {
    && |ds| == |order|
    && forall j | 0 <= j < |order| ::
         && order[j] < |fs| && order[j] < |ms| && TaskOf(fs[order[j]].cmd).Some? && |ms[order[j]].fields| == 4
         && Answers(fs[order[j]], ms[order[j]], ds[j])
  }

  /**
   From stream to stream. A peer that this server has connected to sends requests; they
   become tasks of the pool, among those of other connections; the workers are done in any
   order; some tasks fall victim to an overfull queue. After any run, the replies written to
   the peer are for distinct requests. It reads exactly them, with nothing left over, if and
   only if no reply is too large; and then the j-th answers the request that it is for: the
   same session, serial number and service type, and the next packet type for the same
   client. Once the pool is idle, each request has its reply, or was taken off an overfull
   queue, for which nothing is sent, or its connection was gone.
   */
  lemma StreamToStream(id: Bytes, fs: seq<Frame>, ms: seq<Message>, os: seq<Outside>, sent: seq<seq<Addressed>>,
                       mine: seq<nat>, steps: seq<Step>, p: Pool, workers: nat, queueMax: nat)
    requires Leads(EMPTY, steps, p, workers, queueMax)
    requires Worked(id, fs, ms, os, sent, mine, p)
    ensures var order := Own(p.replied, mine);
            && Distinct(order)
            && (forall j | 0 <= j < |order| :: order[j] < |sent| && |sent[order[j]]| == 1 && sent[order[j]][0].server == id)
            && var replies := RepliesOf(sent, order);
            && (ReadFrames(StreamOf(replies)) == (AllReceived(replies), []) <==> forall f | f in replies :: |f.body| <= MAX_BODY)
            && ((forall f | f in replies :: |f.body| <= MAX_BODY) ==> AllAnswer(fs, ms, order, AllReceived(replies)))
    ensures p.waiting == [] && p.running == [] ==>
              forall k: nat | k < |fs| && mine[k] < p.arrived ::
                k in Own(p.replied, mine) || (mine[k] in p.busy && sent[k] == []) || mine[k] in p.unlinked
    ensures workers <= 1 ==> Increasing(Own(p.replied, mine))
  {
    hide Leads, ReadFrames, StreamOf, Received, Answers, Worked, Own;
    Shape(id, fs, ms, os, sent, mine, p);
    RepliesOnce(steps, p, workers, queueMax);
    OwnDistinct(p.replied, mine);
    var order := Own(p.replied, mine);
    forall k: nat | k < |fs|
      ensures TaskOf(fs[k].cmd).Some? && |ms[k].fields| == 4 && (mine[k] in p.busy ==> sent[k] == [])
      ensures mine[k] in p.replied ==> |sent[k]| == 1 && sent[k][0].server == id
      ensures mine[k] in p.replied && |sent[k][0].frame.body| <= MAX_BODY ==> Answers(fs[k], ms[k], Received(sent[k][0].frame))
      ensures mine[k] in p.replied ==> k in order
    {
      RequestWorked(id, fs, ms, os, sent, mine, p, k);
      if mine[k] in p.replied { OwnAll(p.replied, mine, k); }
    }
    var replies := RepliesOf(sent, order);
    StreamFraming(replies);
    if forall f | f in replies :: |f.body| <= MAX_BODY {
      forall j | 0 <= j < |order| ensures Answers(fs[order[j]], ms[order[j]], AllReceived(replies)[j]) { assert replies[j] in replies; }
    }
    if workers <= 1 {
      InOrderIffOneWorker(workers, queueMax);
      OwnIncreasing(p.replied, mine);
    }
  }

  lemma Shape(id: Bytes, fs: seq<Frame>, ms: seq<Message>, os: seq<Outside>, sent: seq<seq<Addressed>>,
              mine: seq<nat>, p: Pool)
    requires Worked(id, fs, ms, os, sent, mine, p)
    ensures |fs| == |ms| == |os| == |sent| == |mine| && Increasing(mine) && Distinct(mine)
  {
    hide Requests, Sends, ReadFrames, StreamOf, Queued;
  }

  /**
   What makes any order safe: when the requests of a peer have different serial numbers, the
   serial number of a reply that is not empty is that of the request it answers, and of no other.
   */
  lemma SerialNumberTells(fs: seq<Frame>, ms: seq<Message>, i: nat, k: nat, d: Delivery)
    requires |fs| == |ms| && i < |fs| && k < |fs| && forall a | 0 <= a < |ms| :: |ms[a].fields| == 4
    requires forall a, b | 0 <= a < b < |ms| :: TextIn(ms[a], 2) != TextIn(ms[b], 2)
    requires TaskOf(fs[i].cmd).Some? && Answers(fs[i], ms[i], d) && d.data != []
    ensures ReplyIn(d.data).Some?
    ensures TextIn(ReplyIn(d.data).value, 2) == TextIn(ms[k], 2) <==> k == i
  {
    hide ReplyIn, PacketCorrelated, TextIn;
  }

  // ----- No exchange goes on for ever -----

  predicate Answerable(cmd: Int32) {
    TaskOf(cmd).Some? || cmd == PUSH
  }

  /** Only these four commands are ever sent, and none of them is answered. */
  lemma SentIsFinal(job: Job, o: Outside, fs: seq<Addressed>)
    requires Sends(job, o, fs)
    ensures forall f | f in fs :: f.frame.cmd in {201, 7819, 8001, 6667} && !Answerable(f.frame.cmd)
    ensures !Answerable(job.head.cmd) ==> fs == []
    ensures |fs| <= 1 || |fs| == |o.sessions(o.json(job.data).cid)|
  {
    hide EnvelopeReports, BodyFor, PushPayload;
    if TaskOf(job.head.cmd).Some? {
      var task := TaskOf(job.head.cmd).value;
      var r :| EnvelopeReports(task, job.data, o.world, r)
        && fs == [Addressed(job.id, Frame(job.head.magic, Wrap32(job.head.cmd + 1), r.response))];
    }
  }

  /**
   One frame in flight arrives at a server like this one and is dealt with: where it is,
   what the server made of it, and which of the frames that were sent got through.
   */
  datatype Move = Move(at: nat, id: Bytes, len: Int32, queueFull: bool, outside: Outside, sent: seq<Addressed>, through: seq<Frame>)

  ghost predicate Moves(s: seq<Frame>, m: Move, t: seq<Frame>) {
    && m.at < |s|
    && Sends(Job(m.id, Head(s[m.at].magic, m.len, if m.queueFull then BUSY else s[m.at].cmd), s[m.at].body), m.outside, m.sent)
    && |m.through| <= |m.sent| && (forall f | f in m.through :: exists a :: a in m.sent && a.frame == f)
    && t == s[..m.at] + s[m.at + 1..] + m.through
  }

  function CountAnswerable(s: seq<Frame>): nat {
    if s == [] then 0 else (if Answerable(s[0].cmd) then 1 else 0) + CountAnswerable(s[1..])
  }

  lemma {:induction false} CountConcat(a: seq<Frame>, b: seq<Frame>)
    ensures CountAnswerable(a + b) == CountAnswerable(a) + CountAnswerable(b)
    decreases |a|
  {
    if a == [] {
      assert a + b == b;
    } else {
      assert (a + b)[1..] == a[1..] + b;
      CountConcat(a[1..], b);
    }
  }

  lemma {:induction false} CountNone(s: seq<Frame>)
    requires forall f | f in s :: !Answerable(f.cmd)
    ensures CountAnswerable(s) == 0
  {
    if s != [] {
      assert s[0] in s;
      CountNone(s[1..]);
    }
  }

  lemma CountAt(s: seq<Frame>, i: nat)
    requires i < |s|
    ensures CountAnswerable(s) == CountAnswerable(s[..i] + s[i + 1..]) + (if Answerable(s[i].cmd) then 1 else 0)
  {
    hide Answerable;
    CountConcat(s[..i], s[i + 1..]);
    CountConcat(s[..i], s[i..]);
    assert s == s[..i] + s[i..] && s[i..][1..] == s[i + 1..];
  }

  /** A move uses up an answerable frame, or else the number of frames goes down. */
  lemma MoveCounts(s: seq<Frame>, m: Move, t: seq<Frame>)
    requires Moves(s, m, t)
    ensures |t| == |s| - 1 + |m.through|
    ensures CountAnswerable(t) == CountAnswerable(s) - (if Answerable(s[m.at].cmd) then 1 else 0)
    ensures !Answerable(s[m.at].cmd) ==> m.through == []
  {
    hide Sends, CountAnswerable;
    var job := Job(m.id, Head(s[m.at].magic, m.len, if m.queueFull then BUSY else s[m.at].cmd), s[m.at].body);
    SentIsFinal(job, m.outside, m.sent);
    CountNone(m.through);
    CountConcat(s[..m.at] + s[m.at + 1..], m.through);
    CountAt(s, m.at);
  }

  /** Whatever finite session maps say, no run is infinite: answerable frames run out, then frames do. */
  lemma {:induction false} NoCascade(states: nat -> seq<Frame>, moves: nat -> Move, n: nat)
    requires forall k: nat :: Moves(states(k), moves(k), states(k + 1))
    ensures false
    decreases CountAnswerable(states(n)), |states(n)|
  {
    MoveCounts(states(n), moves(n), states(n + 1));
    NoCascade(states, moves, n + 1);
  }

  /** The work that is left when a client has at most so many sessions. */
  function Work(s: seq<Frame>, sessions: nat): nat {
    |s| + CountAnswerable(s) * (if sessions > 1 then sessions else 1)
  }

  lemma MoveWorks(s: seq<Frame>, m: Move, t: seq<Frame>, sessions: nat)
    requires Moves(s, m, t) && forall cid :: |m.outside.sessions(cid)| <= sessions
    ensures 1 + Work(t, sessions) <= Work(s, sessions)
  {
    hide Sends, CountAnswerable, Answerable;
    MoveCounts(s, m, t);
    var job := Job(m.id, Head(s[m.at].magic, m.len, if m.queueFull then BUSY else s[m.at].cmd), s[m.at].body);
    SentIsFinal(job, m.outside, m.sent);
    var b, c, d := if sessions > 1 then sessions else 1, CountAnswerable(s), CountAnswerable(t);
    assert |m.through| <= b;
    if Answerable(s[m.at].cmd) { assert d * b == c * b - b by { assert d == c - 1; Distribute(c, b); } }
  }

  lemma Distribute(c: int, b: int)
    ensures (c - 1) * b == c * b - b
  {
  }

  /** How long a run can be. */
  lemma {:induction false} RunLength(states: seq<seq<Frame>>, moves: seq<Move>, sessions: nat)
    requires |states| == |moves| + 1
    requires forall k | 0 <= k < |moves| :: Moves(states[k], moves[k], states[k + 1])
    requires forall k, cid | 0 <= k < |moves| :: |moves[k].outside.sessions(cid)| <= sessions
    ensures |moves| + Work(states[|moves|], sessions) <= Work(states[0], sessions)
    decreases |moves|
  {
    hide Moves, Work;
    if moves != [] {
      MoveWorks(states[0], moves[0], states[1], sessions);
      RunLength(states[1..], moves[1..], sessions);
    }
  }
}
