/**
 Frames: a 12-byte big-endian header (magic, length including the header, command)
 and a body. The session's read loop, its write queue, and the stream between them.
 */
module Frames {
  import opened Wire

  type Int32 = n: int | -0x8000_0000 <= n < 0x8000_0000

  const HEAD_LENGTH: nat := 12
  /** The largest body a reader takes. */
  const MAX_BODY: nat := 0x10_0000
  /** Frames with this command are answers to keepalives and stop at the session. */
  const KEEPALIVE_REPLY: Int32 := 1

  datatype Head = Head(magic: Int32, len: Int32, cmd: Int32)

  /** A frame as its sender means it. */
  datatype Frame = Frame(magic: Int32, cmd: Int32, body: Bytes)

  /** What the task queue holds of a frame: its header, and its data. */
  datatype Delivery = Delivery(head: Head, data: Bytes)

  // ----- 32-bit arithmetic -----

  /** The 32-bit integer with the same low 32 bits. */
  function Wrap32(n: int): (w: Int32)
    ensures -0x8000_0000 <= n < 0x8000_0000 ==> w == n
  {
    var u := n % 0x1_0000_0000;
    if u < 0x8000_0000 then u else u - 0x1_0000_0000
  }

  /** A 32-bit integer converted to a 64-bit unsigned one. */
  function ToSize(n: Int32): (size: nat)
    ensures n >= 0 ==> size == n
    ensures n < 0 ==> size >= 0xffff_ffff_8000_0000
  {
    if n >= 0 then n else n + 0x1_0000_0000_0000_0000
  }

  /** Network byte order. */
  function Word(n: Int32): (s: Bytes)
    ensures |s| == 4
  {
    var u := n % 0x1_0000_0000;
    [u / 0x100_0000, u / 0x1_0000 % 256, u / 0x100 % 256, u % 256]
  }

  function ReadWord(s: Bytes): Int32
    requires |s| == 4
  {
    var b0: int, b1: int, b2: int, b3: int := s[0], s[1], s[2], s[3];
    Wrap32(b0 * 0x100_0000 + b1 * 0x1_0000 + b2 * 0x100 + b3)
  }

  lemma BytesOf(u: nat)
    requires u < 0x1_0000_0000
    ensures u / 0x100_0000 * 0x100_0000 + u / 0x1_0000 % 256 * 0x1_0000 + u / 0x100 % 256 * 0x100 + u % 256 == u
  {
    assert u / 0x100 / 256 == u / 0x1_0000;
    assert u / 0x1_0000 / 256 == u / 0x100_0000;
  }

  lemma WrapLow(n: Int32)
    ensures Wrap32(n % 0x1_0000_0000) == n
  {
  }

  lemma WordRoundTrip(n: Int32)
    ensures ReadWord(Word(n)) == n
  {
    hide Wrap32;
    BytesOf(n % 0x1_0000_0000);
    WrapLow(n);
  }

  // ----- The header -----

  /** The length word of a frame: a 32-bit truncation of 12 plus the body's size. */
  function FrameLength(size: nat): (len: Int32) {
    Wrap32(HEAD_LENGTH + size)
  }

  function EncodeHead(magic: Int32, cmd: Int32, size: nat): (s: Bytes)
    ensures |s| == HEAD_LENGTH
  {
    Word(magic) + Word(FrameLength(size)) + Word(cmd)
  }

  function DecodeHead(s: Bytes): (h: Head)
    requires |s| == HEAD_LENGTH
  {
    Head(ReadWord(s[0..4]), ReadWord(s[4..8]), ReadWord(s[8..12]))
  }

  lemma HeadRoundTrip(magic: Int32, cmd: Int32, size: nat)
    ensures DecodeHead(EncodeHead(magic, cmd, size)) == Head(magic, FrameLength(size), cmd)
  {
    var s := EncodeHead(magic, cmd, size);
    assert s[0..4] == Word(magic) && s[4..8] == Word(FrameLength(size)) && s[8..12] == Word(cmd);
    WordRoundTrip(magic);
    WordRoundTrip(FrameLength(size));
    WordRoundTrip(cmd);
  }

  /** What bytes spell in base 256, the highest first. */
  function Number(s: Bytes): nat {
    if s == [] then 0 else 256 * Number(s[..|s| - 1]) + s[|s| - 1]
  }

  /** Network byte order: four bytes are worth 2^24, 2^16, 2^8 and 1. */
  lemma FourBytes(s: Bytes)
    requires |s| == 4
    ensures Number(s) == 0x100_0000 * (s[0] as int) + 0x1_0000 * (s[1] as int) + 0x100 * (s[2] as int) + s[3] as int
  {
    assert s[..3][..2] == s[..2] && s[..3][2] == s[2];
    assert s[..2][..1] == s[..1] && s[..2][1] == s[1];
    assert s[..1][..0] == [] && s[..1][0] == s[0];
    assert Number(s[..1]) == 256 * Number(s[..1][..0]) + s[0];
    assert Number(s[..2]) == 256 * Number(s[..1]) + s[1];
    assert Number(s[..3]) == 256 * Number(s[..2]) + s[2];
  }

  /** The header in numbers: magic, twelve plus the body's size, command, each cut to 32 bits, highest byte first. */
  lemma HeadLayout(magic: Int32, cmd: Int32, size: nat)
    ensures var s := EncodeHead(magic, cmd, size);
            && Number(s[0..4]) == magic % 0x1_0000_0000
            && Number(s[4..8]) == (12 + size) % 0x1_0000_0000
            && Number(s[8..12]) == cmd % 0x1_0000_0000
  {
    hide Word, FrameLength, Number;
    var s := EncodeHead(magic, cmd, size);
    assert s[0..4] == Word(magic) && s[4..8] == Word(FrameLength(size)) && s[8..12] == Word(cmd);
    WordBytes(magic);
    WordBytes(FrameLength(size));
    WordBytes(cmd);
    LengthLow(size);
  }

  lemma WordBytes(n: Int32)
    ensures Number(Word(n)) == n % 0x1_0000_0000
  {
    FourBytes(Word(n));
    BytesOf(n % 0x1_0000_0000);
  }

  lemma LengthLow(size: nat)
    ensures FrameLength(size) % 0x1_0000_0000 == (12 + size) % 0x1_0000_0000
  {
  }

  lemma ReadWordBytes(s: Bytes)
    requires |s| == 4
    ensures ReadWord(s) % 0x1_0000_0000 == Number(s)
  {
    FourBytes(s);
  }

  lemma NumberOfFour(s: Bytes)
    requires |s| == 4
    ensures Number(s) < 0x1_0000_0000
  {
    FourBytes(s);
  }

  /** And what a header says. */
  lemma HeadMeaning(s: Bytes)
    requires |s| == 12
    ensures var h := DecodeHead(s);
            && h.magic % 0x1_0000_0000 == Number(s[0..4])
            && h.len % 0x1_0000_0000 == Number(s[4..8])
            && h.cmd % 0x1_0000_0000 == Number(s[8..12])
  {
    hide ReadWord, Number;
    ReadWordBytes(s[0..4]);
    ReadWordBytes(s[4..8]);
    ReadWordBytes(s[8..12]);
  }

  /** The body size that a length word announces: a 32-bit subtraction, then a conversion to unsigned. */
  function BodySize(len: Int32): (size: nat) {
    ToSize(Wrap32(len - HEAD_LENGTH))
  }

  /** The reader's test of that size. Its first half is about an unsigned number. */
  predicate Refused(size: nat) {
    size < 0 || size > MAX_BODY
  }

  /**
   Exactly the lengths from 12 to 12 + 2^20 pass, although the test for a negative size
   never fires: a negative difference becomes a huge size, and so does one that wraps.
   */
  lemma LengthGate(len: Int32)
    ensures !Refused(BodySize(len)) <==> 12 <= len <= 12 + 0x10_0000
    ensures !Refused(BodySize(len)) ==> BodySize(len) == len - 12
  {
    if len - 12 < -0x8000_0000 { assert Wrap32(len - 12) == len - 12 + 0x1_0000_0000; }
  }

  /** A sender's frame passes exactly when its size, cut to 32 bits, is small enough. */
  lemma FrameGate(size: nat)
    ensures !Refused(BodySize(FrameLength(size))) <==> size % 0x1_0000_0000 <= MAX_BODY
    ensures size < 0x1_0000_0000 ==> (!Refused(BodySize(FrameLength(size))) <==> size <= MAX_BODY)
    ensures size % 0x1_0000_0000 <= MAX_BODY ==> BodySize(FrameLength(size)) == size % 0x1_0000_0000
  {
    hide BodySize;
    LengthGate(FrameLength(size));
    var u := size % 0x1_0000_0000;
    assert (12 + size) % 0x1_0000_0000 == (12 + u) % 0x1_0000_0000;
  }

  // ----- The frame object -----

  /** The object that both sides use; a reader uses one for all the frames of its stream. */
  class MessageFormat {
    var head: Bytes
    var body: Bytes
    var bodyLength: nat
    var magic: Int32
    var len: Int32
    var cmd: Int32

    constructor ()
      ensures |head| == HEAD_LENGTH && bodyLength == 0 && body == []
    {
      head := seq(HEAD_LENGTH, i => 0);
      body, bodyLength := [], 0;
    }

    function Length(): nat
      reads `bodyLength
    {
      HEAD_LENGTH + bodyLength
    }

    /** Resizing a vector keeps what fits and fills the rest with zeros. */
    static function Resized(s: Bytes, n: nat): (r: Bytes)
      ensures |r| == n
    {
      if n <= |s| then s[..n] else s + seq(n - |s|, i => 0)
    }

    /** Sets up header and body for sending; the fields a reader fills stay as they are. */
    method EncodeHeader(magic: Int32, cmd: Int32, data: Bytes)
      modifies `head, `body, `bodyLength
      ensures head == EncodeHead(magic, cmd, |data|)
      ensures Number(head[0..4]) == magic % 0x1_0000_0000
      ensures Number(head[4..8]) == (12 + |data|) % 0x1_0000_0000
      ensures Number(head[8..12]) == cmd % 0x1_0000_0000
      ensures body == data && bodyLength == |data|
    {
      bodyLength := |data|;
      body := Resized(body, HEAD_LENGTH + bodyLength);
      head := EncodeHead(magic, cmd, bodyLength);
      HeadLayout(magic, cmd, bodyLength);
      body := data;
    }

    /** Puts the header in front of the body, so that the body is the whole frame. */
    method BodyCombine()
      modifies `body
      ensures body == head + old(body)
    {
      body := head + body;
    }

    /** Reads the header. The body is only made room for, so older bytes stay behind the new size. */
    method DecodeHeader() returns (ok: bool)
      requires |head| == HEAD_LENGTH
      modifies `body, `bodyLength, `magic, `len, `cmd
      ensures Head(magic, len, cmd) == DecodeHead(head)
      ensures magic % 0x1_0000_0000 == Number(head[0..4])
      ensures len % 0x1_0000_0000 == Number(head[4..8])
      ensures cmd % 0x1_0000_0000 == Number(head[8..12])
      ensures ok <==> 12 <= len <= 12 + 0x10_0000
      ensures bodyLength == BodySize(len) && (ok ==> bodyLength == len - 12)
      ensures body == if ok then Resized(old(body), len) else old(body)
    {
      var h := DecodeHead(head);
      magic, len, cmd := h.magic, h.len, h.cmd;
      bodyLength := BodySize(len);
      LengthGate(len);
      HeadMeaning(head);
      if Refused(bodyLength) { return false; }
      body := Resized(body, HEAD_LENGTH + bodyLength);
      return true;
    }
  }

  /** The bytes of a frame on the stream. */
  function FrameBytes(f: Frame): (s: Bytes)
    ensures |s| == HEAD_LENGTH + |f.body|
  {
    EncodeHead(f.magic, f.cmd, |f.body|) + f.body
  }

  /** What every sender does: a fresh object, the header, the two combined. */
  method BuildFrame(magic: Int32, cmd: Int32, data: Bytes) returns (mf: MessageFormat)
    ensures fresh(mf) && mf.Length() == |mf.body|
    ensures mf.body == FrameBytes(Frame(magic, cmd, data))
  {
    mf := new MessageFormat();
    mf.EncodeHeader(magic, cmd, data);
    mf.BodyCombine();
  }

  // ----- The stream -----

  function StreamOf(fs: seq<Frame>): Bytes {
    if fs == [] then [] else FrameBytes(fs[0]) + StreamOf(fs[1..])
  }

  /** How a stream reads: the frames it holds, and the rest, where it ends or is refused. */
  function ReadFrames(s: Bytes): (r: (seq<Delivery>, Bytes))
    decreases |s|
  {
    if |s| < HEAD_LENGTH then ([], s)
    else
      var h := DecodeHead(s[..HEAD_LENGTH]);
      var size := BodySize(h.len);
      if Refused(size) || |s| < HEAD_LENGTH + size then ([], s)
      else
        var (ds, rest) := ReadFrames(s[HEAD_LENGTH + size..]);
        ([Delivery(h, s[HEAD_LENGTH..HEAD_LENGTH + size])] + ds, rest)
  }

  function Received(f: Frame): Delivery {
    Delivery(Head(f.magic, FrameLength(|f.body|), f.cmd), f.body)
  }

  function AllReceived(fs: seq<Frame>): (ds: seq<Delivery>)
    ensures |ds| == |fs| && forall i | 0 <= i < |fs| :: ds[i] == Received(fs[i])
  {
    seq(|fs|, i requires 0 <= i < |fs| => Received(fs[i]))
  }

  /** The header of a frame in a stream. */
  lemma HeadRead(f: Frame, t: Bytes)
    ensures var s := FrameBytes(f) + t;
            && DecodeHead(s[..HEAD_LENGTH]) == Head(f.magic, FrameLength(|f.body|), f.cmd)
            && s[HEAD_LENGTH..] == f.body + t
  {
    HeadRoundTrip(f.magic, f.cmd, |f.body|);
    assert (FrameBytes(f) + t)[..HEAD_LENGTH] == EncodeHead(f.magic, f.cmd, |f.body|);
  }

  /**
   What a reader makes of a frame of any size: it takes as many bytes for the body as the
   low 32 bits of its size say, when that is small enough, and stops otherwise. So a body of
   2^32 bytes or more is cut, and the rest of it is taken for the next frame.
   */
  lemma AnyFrameRead(f: Frame, t: Bytes)
    ensures var n := |f.body| % 0x1_0000_0000;
            && (n <= MAX_BODY ==>
                  var rest := ReadFrames(f.body[n..] + t);
                  ReadFrames(FrameBytes(f) + t) ==
                    ([Delivery(Head(f.magic, FrameLength(|f.body|), f.cmd), f.body[..n])] + rest.0, rest.1))
            && (n > MAX_BODY ==> ReadFrames(FrameBytes(f) + t) == ([], FrameBytes(f) + t))
  {
    hide DecodeHead, FrameLength, BodySize, FrameBytes;
    var s, n := FrameBytes(f) + t, |f.body| % 0x1_0000_0000;
    HeadRead(f, t);
    FrameGate(|f.body|);
    assert s[HEAD_LENGTH..HEAD_LENGTH + n] == s[HEAD_LENGTH..][..n] == f.body[..n];
    assert s[HEAD_LENGTH + n..] == s[HEAD_LENGTH..][n..] == f.body[n..] + t;
  }

  lemma FrameRead(f: Frame, t: Bytes)
    requires |f.body| <= MAX_BODY
    ensures ReadFrames(FrameBytes(f) + t) == ([Received(f)] + ReadFrames(t).0, ReadFrames(t).1)
  {
    hide ReadFrames, FrameLength, FrameBytes;
    AnyFrameRead(f, t);
    assert f.body[..|f.body|] == f.body && f.body[|f.body|..] + t == t;
  }

  /** Frames written one after the other are read back, in order, and whatever follows is read next. */
  lemma {:induction false} StreamRead(fs: seq<Frame>, t: Bytes)
    requires forall f | f in fs :: |f.body| <= MAX_BODY
    ensures ReadFrames(StreamOf(fs) + t) == (AllReceived(fs) + ReadFrames(t).0, ReadFrames(t).1)
  {
    hide ReadFrames, FrameBytes, Received;
    if fs == [] {
      assert StreamOf(fs) + t == t && AllReceived(fs) + ReadFrames(t).0 == ReadFrames(t).0;
    } else {
      Wire.Assoc(FrameBytes(fs[0]), StreamOf(fs[1..]), t);
      FrameRead(fs[0], StreamOf(fs[1..]) + t);
      StreamRead(fs[1..], t);
      assert [Received(fs[0])] + (AllReceived(fs[1..]) + ReadFrames(t).0) == AllReceived(fs) + ReadFrames(t).0;
    }
  }

  /** What the first twelve bytes decide. */
  lemma FirstFrame(s: Bytes)
    ensures |s| < HEAD_LENGTH ==> ReadFrames(s).0 == []
    ensures |s| >= HEAD_LENGTH ==>
              var h := DecodeHead(s[..HEAD_LENGTH]);
              var (t, size) := (s[HEAD_LENGTH..], BodySize(h.len));
              && (Refused(size) || |t| < size ==> ReadFrames(s).0 == [])
              && (!Refused(size) && |t| >= size ==>
                    && ReadFrames(s).0 == [Delivery(h, t[..size])] + ReadFrames(t[size..]).0
                    && ReadFrames(s).1 == ReadFrames(t[size..]).1
                    && ReadFrames(s).0[..1] == [Delivery(h, t[..size])] && ReadFrames(s).0[1..] == ReadFrames(t[size..]).0)
  {
    hide DecodeHead, BodySize;
    if |s| >= HEAD_LENGTH {
      var t, size := s[HEAD_LENGTH..], BodySize(DecodeHead(s[..HEAD_LENGTH]).len);
      if !Refused(size) && |t| >= size {
        assert s[HEAD_LENGTH..HEAD_LENGTH + size] == t[..size] && s[HEAD_LENGTH + size..] == t[size..];
      }
    }
  }

  /** The bytes of a frame: its header in numbers, and its body. */
  lemma FrameLayout(f: Frame)
    ensures var s := FrameBytes(f);
            && Number(s[0..4]) == f.magic % 0x1_0000_0000
            && Number(s[4..8]) == (12 + |f.body|) % 0x1_0000_0000
            && Number(s[8..12]) == f.cmd % 0x1_0000_0000
            && s[12..] == f.body
  {
    hide EncodeHead, Number;
    HeadLayout(f.magic, f.cmd, |f.body|);
    var s, head := FrameBytes(f), EncodeHead(f.magic, f.cmd, |f.body|);
    assert s[0..4] == head[0..4] && s[4..8] == head[4..8] && s[8..12] == head[8..12];
  }

  lemma LengthInRange(len: Int32, u: nat)
    requires u < 0x1_0000_0000 && len % 0x1_0000_0000 == u
    ensures !Refused(BodySize(len)) <==> 12 <= u <= 12 + 0x10_0000
    ensures 12 <= u <= 12 + 0x10_0000 ==> BodySize(len) == u - 12 && len == u
  {
    hide Refused, BodySize;
    LengthGate(len);
  }

  lemma ReadFramesStep(s: Bytes)
    ensures |s| < 12 ==> ReadFrames(s) == ([], s)
    ensures |s| >= 12 ==>
              var h := DecodeHead(s[..12]);
              var end := 12 + BodySize(h.len);
              && (Refused(BodySize(h.len)) || |s| < end ==> ReadFrames(s) == ([], s))
              && (!Refused(BodySize(h.len)) && |s| >= end ==>
                    ReadFrames(s) == ([Delivery(h, s[12..end])] + ReadFrames(s[end..]).0, ReadFrames(s[end..]).1))
  {
    hide DecodeHead, BodySize, Refused;
  }

  /**
   Any stream in numbers: bytes 4 to 7 are the length of the first frame, header included.
   From 12 to 12 + 2^20, and with that many bytes there, the frame is delivered, with the
   magic number of bytes 0 to 3, the command of bytes 8 to 11 and the bytes from 12 on;
   otherwise the reader stops.
   */
  lemma StreamByBytes(s: Bytes)
    ensures |s| < 12 ==> ReadFrames(s) == ([], s)
    ensures |s| >= 12 ==>
              var size := Number(s[4..8]);
              && (!(12 <= size <= 12 + 0x10_0000 && size <= |s|) ==> ReadFrames(s) == ([], s))
              && (12 <= size <= 12 + 0x10_0000 && size <= |s| ==>
                    var (ds, rest) := ReadFrames(s);
                    && |ds| > 0 && (ds[1..], rest) == ReadFrames(s[size..])
                    && ds[0].head.magic % 0x1_0000_0000 == Number(s[0..4])
                    && ds[0].head.cmd % 0x1_0000_0000 == Number(s[8..12])
                    && ds[0].head.len == size && ds[0].data == s[12..size])
  {
    hide DecodeHead, BodySize, Number, ReadFrames, Refused;
    ReadFramesStep(s);
    if |s| >= 12 {
      var head := s[..12];
      assert s[0..4] == head[0..4] && s[4..8] == head[4..8] && s[8..12] == head[8..12];
      HeadMeaning(head);
      NumberOfFour(head[4..8]);
      LengthInRange(DecodeHead(head).len, Number(head[4..8]));
    }
  }

  lemma NothingToRead()
    ensures ReadFrames([]) == ([], [])
  {
  }

  /** Nothing larger than the gate allows is ever delivered. */
  lemma {:induction false} DeliveredSmall(s: Bytes)
    ensures forall d | d in ReadFrames(s).0 :: |d.data| <= MAX_BODY
    decreases |s|
  {
    if |s| >= HEAD_LENGTH {
      var size := BodySize(DecodeHead(s[..HEAD_LENGTH]).len);
      if !Refused(size) && |s| >= HEAD_LENGTH + size { DeliveredSmall(s[HEAD_LENGTH + size..]); }
    }
  }

  /** A list of frames is recovered from its stream, with nothing left over, exactly when no body exceeds 2^20 bytes. */
  lemma StreamFraming(fs: seq<Frame>)
    ensures ReadFrames(StreamOf(fs)) == (AllReceived(fs), []) <==> forall f | f in fs :: |f.body| <= MAX_BODY
  {
    hide ReadFrames, StreamOf;
    if forall f | f in fs :: |f.body| <= MAX_BODY {
      StreamRead(fs, []);
      NothingToRead();
      assert StreamOf(fs) + [] == StreamOf(fs) && AllReceived(fs) + [] == AllReceived(fs);
    }
    if ReadFrames(StreamOf(fs)) == (AllReceived(fs), []) {
      DeliveredSmall(StreamOf(fs));
      forall f | f in fs ensures |f.body| <= MAX_BODY {
        var i :| 0 <= i < |fs| && fs[i] == f;
        assert AllReceived(fs)[i] in ReadFrames(StreamOf(fs)).0;
      }
    }
  }

  /** One frame on its own. */
  lemma OneFrame(f: Frame)
    ensures ReadFrames(FrameBytes(f)) == ([Received(f)], []) <==> |f.body| <= MAX_BODY
  {
    hide FrameBytes, ReadFrames;
    StreamFraming([f]);
    assert StreamOf([f]) == FrameBytes(f) by { assert [f][1..] == [] && FrameBytes(f) + [] == FrameBytes(f); }
    assert AllReceived([f]) == [Received(f)];
  }

  // ----- The session's read loop -----

  /** The deliveries that reach the task queue. */
  function Queued(ds: seq<Delivery>): seq<Delivery> {
    if ds == [] then []
    else (if ds[0].head.cmd == KEEPALIVE_REPLY then [] else [ds[0]]) + Queued(ds[1..])
  }

  /** The reading half of a session, with the bytes that are still to arrive. */
  class SessionReader {
    const message: MessageFormat
    var incoming: Bytes
    var closed: bool
    var tasks: seq<Delivery>

    constructor (incoming: Bytes)
      ensures Valid() && fresh(message) && !closed && tasks == [] && this.incoming == incoming
    {
      message := new MessageFormat();
      this.incoming, closed, tasks := incoming, false, [];
    }

    ghost predicate Valid()
      reads this, message
    {
      |message.head| == HEAD_LENGTH
    }

    /** Hands the message to the task queue, unless it answers a keepalive. */
    method AfterBodyGet()
      requires Valid() && message.bodyLength <= |message.body|
      modifies `tasks
      ensures tasks == old(tasks) + Queued([Delivery(Head(message.magic, message.len, message.cmd),
                                                     message.body[..message.bodyLength])])
      ensures message.cmd == 1 ==> tasks == old(tasks)
      ensures message.cmd != 1 ==> tasks == old(tasks) + [Delivery(Head(message.magic, message.len, message.cmd),
                                                                   message.body[..message.bodyLength])]
    {
      assert forall d: Delivery :: Queued([d]) == (if d.head.cmd == KEEPALIVE_REPLY then [] else [d]) + Queued([][0..]);
      if message.cmd == KEEPALIVE_REPLY {
        return;
      }
      tasks := tasks + [Delivery(Head(message.magic, message.len, message.cmd), message.body[..message.bodyLength])];
    }

    /** The body, if the header announced one: read over the first bytes of the object's body. */
    method ReadBody() returns (ok: bool)
      requires Valid() && message.bodyLength <= |message.body|
      modifies `incoming, message`body
      ensures Valid() && |message.body| == old(|message.body|)
      ensures ok <==> message.bodyLength <= |old(incoming)|
      ensures ok ==> message.body[..message.bodyLength] == old(incoming)[..message.bodyLength]
                     && incoming == old(incoming)[message.bodyLength..]
    {
      if message.bodyLength == 0 { return true; }
      if |incoming| < message.bodyLength { return false; }
      message.body := incoming[..message.bodyLength] + message.body[message.bodyLength..];
      incoming := incoming[message.bodyLength..];
      return true;
    }

    /** One frame: twelve bytes, the header, then as many bytes as it announces, if any. */
    method ReadFrame()
      requires Valid() && !closed
      modifies this, message
      ensures Valid()
      ensures var r := ReadFrames(old(incoming));
              if closed then r.0 == [] && tasks == old(tasks)
              else r.0 != [] && |incoming| < |old(incoming)| && tasks == old(tasks) + Queued(r.0[..1])
                   && ReadFrames(incoming) == (r.0[1..], r.1)
    {
      hide ReadFrames, Queued, DecodeHead, BodySize;
      FirstFrame(incoming);
      if |incoming| < HEAD_LENGTH {
        closed := true;
        return;
      }
      ghost var rest := incoming[HEAD_LENGTH..];
      message.head := incoming[..HEAD_LENGTH];
      incoming := incoming[HEAD_LENGTH..];
      var ok := message.DecodeHeader();
      LengthGate(message.len);
      if ok { ok := ReadBody(); }
      if !ok {
        closed := true;
        return;
      }
      AfterBodyGet();
    }

    /** The whole stream: every frame before the first refused or incomplete one is delivered once, in order. */
    method Run()
      requires Valid() && !closed
      modifies this, message
      ensures Valid() && closed
      ensures tasks == old(tasks) + Queued(ReadFrames(old(incoming)).0)
    {
      ghost var all := ReadFrames(incoming).0;
      ghost var start := tasks;
      while !closed
        invariant Valid()
        invariant closed ==> tasks == start + Queued(all)
        invariant !closed ==> tasks + Queued(ReadFrames(incoming).0) == start + Queued(all)
        decreases !closed, |incoming|
      {
        ghost var was, ds := tasks, ReadFrames(incoming).0;
        ReadFrame();
        if !closed {
          QueuedStep(ds);
          Wire.Assoc(was, Queued(ds[..1]), Queued(ds[1..]));
        }
      }
    }
  }

  lemma QueuedStep(ds: seq<Delivery>)
    requires ds != []
    ensures Queued(ds) == Queued(ds[..1]) + Queued(ds[1..])
  {
    assert ds[..1] == [ds[0]] && ds[..1][1..] == [];
  }

  // ----- The session's write queue -----

  function Flatten(ms: seq<Bytes>): Bytes {
    if ms == [] then [] else ms[0] + Flatten(ms[1..])
  }

  lemma {:induction false} FlattenAppend(ms: seq<Bytes>, m: Bytes)
    ensures Flatten(ms + [m]) == Flatten(ms) + m
  {
    if ms == [] {
      assert [m][1..] == [] && [] + [m] == [m] && m + [] == m && [] + m == m;
    } else {
      assert (ms + [m])[1..] == ms[1..] + [m];
      FlattenAppend(ms[1..], m);
      Wire.Assoc(ms[0], Flatten(ms[1..]), m);
    }
  }

  /**
   The writing half of a session. A message is written to the socket only when the one
   before it has been; its completion handler starts the next.
   */
  class SessionWriter {
    var queue: seq<Bytes>
    var locked: bool
    var closed: bool
    /** Everything handed to Write so far, and the part of it that the socket has taken. */
    ghost var accepted: seq<Bytes>
    ghost var written: seq<Bytes>
    /** What the socket took of the message whose write failed. */
    ghost var partial: Bytes
    ghost var socket: Bytes
    /** Writes started and not yet completed. */
    ghost var outstanding: nat

    constructor ()
      ensures Valid() && accepted == [] && socket == [] && outstanding == 0 && !closed
    {
      queue, locked, closed := [], false, false;
      accepted, written, partial, socket, outstanding := [], [], [], [], 0;
    }

    ghost predicate Valid()
      reads this
    {
      && accepted == written + queue
      && socket == Flatten(written) + partial
      && (closed ==> locked && outstanding == 0 && queue != [] && partial <= queue[0])
      && (!closed ==> (locked <==> queue != []) && partial == [] && outstanding == if locked then 1 else 0)
    }

    method Write(message: Bytes)
      requires Valid()
      modifies this
      ensures Valid() && accepted == old(accepted) + [message]
      ensures socket == old(socket) && closed == old(closed) && written == old(written) && partial == old(partial)
      ensures !closed ==> outstanding == 1
    {
      queue := queue + [message];
      accepted := accepted + [message];
      if !locked {
        locked := true;
        outstanding := outstanding + 1;
      }
    }

    /**
     Completion of the outstanding write, which was of the front of the queue. When it
     failed, the socket may have taken some of its bytes, or all of them.
     */
    method HandleWrite(error: bool, ghost taken: nat)
      requires Valid() && outstanding == 1 && taken <= |queue[0]|
      modifies this
      ensures Valid() && accepted == old(accepted)
      ensures closed <==> error
      ensures !error ==> written == old(written) + [old(queue)[0]] && socket == old(socket) + old(queue)[0]
      ensures !error ==> (outstanding == 0 <==> written == accepted)
      ensures error ==> written == old(written) && partial == old(queue)[0][..taken] && socket == old(socket) + partial
    {
      hide Flatten;
      outstanding := 0;
      assert Flatten(written) + [] == Flatten(written);
      if error {
        closed := true;
        partial := queue[0][..taken];
        socket := socket + partial;
        return;
      }
      FlattenAppend(written, queue[0]);
      MoveFront(written, queue);
      socket := socket + queue[0];
      written := written + [queue[0]];
      assert Flatten(written) + [] == Flatten(written);
      queue := queue[1..];
      if queue != [] {
        outstanding := 1;
      } else {
        locked := false;
      }
    }
  }

  lemma MoveFront(a: seq<Bytes>, b: seq<Bytes>)
    requires b != []
    ensures (a + [b[0]]) + b[1..] == a + b
  {
  }

  function Encoded(fs: seq<Frame>): (ms: seq<Bytes>)
    ensures |ms| == |fs|
  {
    seq(|fs|, i requires 0 <= i < |fs| => FrameBytes(fs[i]))
  }

  lemma {:induction false} FlattenEncoded(fs: seq<Frame>)
    ensures Flatten(Encoded(fs)) == StreamOf(fs)
  {
    if fs != [] {
      assert Encoded(fs)[1..] == Encoded(fs[1..]);
      FlattenEncoded(fs[1..]);
    }
  }

  /** A frame that is cut off is not delivered: its header is refused or more of it is awaited. */
  lemma CutFrameWaits(f: Frame, t: Bytes)
    requires |f.body| < 0x1_0000_0000 && t <= FrameBytes(f) && t != FrameBytes(f)
    ensures ReadFrames(t) == ([], t)
  {
    hide DecodeHead, FrameLength, BodySize, FrameBytes;
    if |t| >= HEAD_LENGTH {
      HeadRead(f, []);
      FrameGate(|f.body|);
      assert t[..HEAD_LENGTH] == FrameBytes(f)[..HEAD_LENGTH] == (FrameBytes(f) + [])[..HEAD_LENGTH];
    }
  }

  /**
   From one session to the other: when what was queued are frames with bodies of at most
   2^20 bytes, the peer of the socket delivers exactly the frames written so far, and one
   more only when its write failed after its last byte.
   */
  lemma QueueToQueue(w: SessionWriter, fs: seq<Frame>)
    requires w.Valid() && w.accepted == Encoded(fs)
    requires forall f | f in fs :: |f.body| <= MAX_BODY
    ensures var n := |w.written|;
            && n <= |fs|
            && (w.closed ==> n < |fs| && w.partial <= FrameBytes(fs[n]))
            && ReadFrames(w.socket) ==
               if w.closed && w.partial == FrameBytes(fs[n]) then (AllReceived(fs[..n + 1]), []) else (AllReceived(fs[..n]), w.partial)
  {
    hide ReadFrames, FrameBytes, StreamOf, Received;
    var n := |w.written|;
    var sent := fs[..n];
    assert w.written == Encoded(sent) by {
      assert forall i | 0 <= i < n :: w.written[i] == w.accepted[i];
    }
    FlattenEncoded(sent);
    StreamRead(sent, w.partial);
    NothingToRead();
    if w.closed {
      assert w.accepted[n] == w.queue[0] == FrameBytes(fs[n]);
      if w.partial == FrameBytes(fs[n]) {
        OneFrame(fs[n]);
        assert AllReceived(sent) + [Received(fs[n])] == AllReceived(fs[..n + 1]);
      } else {
        CutFrameWaits(fs[n], w.partial);
      }
    }
    assert AllReceived(sent) + [] == AllReceived(sent);
  }
}
