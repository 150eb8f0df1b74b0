/**
 Writing messages, and that parsing inverts it: the round trip of every message,
 the normal form of every accepted input, and the size arithmetic.
 */
module Serialize {
  import opened Options
  import opened Wire
  import opened HasBits
  import opened Codec

  /** The payload a set field is written with. */
  function FieldPayload(t: FieldType, v: Value): (p: Payload)
    requires Typed(t, v)
    ensures WireType(p) == WireOf(t)
    decreases t
  {
    match t
    case FInt32 => Varint(FromInt(v.v))
    case FInt64 => Varint(FromInt(v.v))
    case FDouble => Fixed64(v.b)
    case FBytes => Len(v.s)
    case FMessage(sub) => Len(Encode(sub, v.m))
  }

  /** The records of the set fields from number k + 1 on. */
  function FieldRecords(sch: Schema, m: Message, k: nat): (rs: seq<Record>)
    requires WellFormed(sch, m) && k <= |sch.fields|
    decreases sch, 0, |sch.fields| - k
  {
    if k == |sch.fields| then []
    else
      (if m.fields[k].Some? then [Record(k + 1, FieldPayload(sch.fields[k], m.fields[k].value))] else [])
      + FieldRecords(sch, m, k + 1)
  }

  /** Set fields in field-number order, then the unknown records as they came. */
  function MessageRecords(sch: Schema, m: Message): seq<Record>
    requires WellFormed(sch, m)
    decreases sch, 1, 0
  {
    FieldRecords(sch, m, 0) + m.unknown
  }

  function Encode(sch: Schema, m: Message): Bytes
    requires WellFormed(sch, m)
    decreases sch, 2, 0
  {
    EncodeRecords(MessageRecords(sch, m))
  }

  // ----- Sizes stay below those of the whole -----

  lemma {:induction false} RecordWithin(rs: seq<Record>, r: Record)
    requires r in rs
    ensures |EncodeRecord(r)| <= |EncodeRecords(rs)|
  {
    if r != rs[0] { RecordWithin(rs[1..], r); }
  }

  lemma {:induction false} FieldRecordIn(sch: Schema, m: Message, k: nat, i: nat)
    requires WellFormed(sch, m) && k <= i < |sch.fields| && m.fields[i].Some?
    ensures Record(i + 1, FieldPayload(sch.fields[i], m.fields[i].value)) in FieldRecords(sch, m, k)
    decreases i - k
  {
    if k < i { FieldRecordIn(sch, m, k + 1, i); }
  }

  /** A string or sub-message is shorter than the message it is in. */
  lemma ContentsShorter(sch: Schema, m: Message, i: nat)
    requires WellFormed(sch, m) && i < |sch.fields| && m.fields[i].Some?
    ensures Typed(sch.fields[i], m.fields[i].value)
    ensures var p := FieldPayload(sch.fields[i], m.fields[i].value);
            p.Len? ==> |p.data| < |Encode(sch, m)|
  {
    var r := Record(i + 1, FieldPayload(sch.fields[i], m.fields[i].value));
    FieldRecordIn(sch, m, 0, i);
    assert r in MessageRecords(sch, m);
    RecordWithin(MessageRecords(sch, m), r);
  }

  lemma FieldRecordValid(sch: Schema, m: Message, i: nat)
    requires ValidSchema(sch) && WellFormed(sch, m) && |Encode(sch, m)| < TWO_31
    requires i < |sch.fields| && m.fields[i].Some?
    ensures ValidRecord(Record(i + 1, FieldPayload(sch.fields[i], m.fields[i].value)))
  {
    ContentsShorter(sch, m, i);
  }

  lemma {:induction false} FieldRecordsValid(sch: Schema, m: Message, k: nat)
    requires ValidSchema(sch) && WellFormed(sch, m) && |Encode(sch, m)| < TWO_31
    requires k <= |sch.fields|
    ensures ValidRecords(FieldRecords(sch, m, k))
    decreases |sch.fields| - k
  {
    if k < |sch.fields| {
      if m.fields[k].Some? { FieldRecordValid(sch, m, k); }
      FieldRecordsValid(sch, m, k + 1);
    }
  }

  // ----- The round trip -----

  lemma {:induction false} FieldRoundTrip(t: FieldType, v: Value)
    requires Typed(t, v)
    requires t.FMessage? ==> ValidSchema(t.sub)
    requires ValidPayload(FieldPayload(t, v))
    ensures ReadField(t, None, FieldPayload(t, v)) == Some(v)
    decreases t
  {
    match t
    case FInt32 => IntRoundTrip(v.v);
    case FInt64 => IntRoundTrip(v.v);
    case FDouble =>
    case FBytes =>
    case FMessage(sub) => RoundTrip(sub, v.m);
  }

  /** The first k fields of m, nothing else. */
  function Upto(sch: Schema, m: Message, k: nat): (p: Message)
    requires WellFormed(sch, m) && k <= |sch.fields|
    ensures WellFormed(sch, p)
  {
    Message(seq(|m.fields|, i requires 0 <= i < |m.fields| => if i < k then m.fields[i] else None), [])
  }

  lemma {:induction false} ApplyFieldRecord(sch: Schema, m: Message, k: nat)
    requires ValidSchema(sch) && WellFormed(sch, m) && |Encode(sch, m)| < TWO_31
    requires k < |sch.fields| && m.fields[k].Some?
    ensures var r := Record(k + 1, FieldPayload(sch.fields[k], m.fields[k].value));
            ValidRecord(r) && Apply(sch, Upto(sch, m, k), r) == Some(Upto(sch, m, k + 1))
    decreases sch, 0
  {
    FieldRecordValid(sch, m, k);
    FieldRoundTrip(sch.fields[k], m.fields[k].value);
    assert Upto(sch, m, k).fields[k := m.fields[k]] == Upto(sch, m, k + 1).fields;
  }

  lemma {:induction false} ApplyFieldRecords(sch: Schema, m: Message, k: nat)
    requires ValidSchema(sch) && WellFormed(sch, m) && |Encode(sch, m)| < TWO_31
    requires k <= |sch.fields|
    ensures ValidRecords(FieldRecords(sch, m, k))
    ensures ApplyAll(sch, Upto(sch, m, k), FieldRecords(sch, m, k)) == Some(m.(unknown := []))
    decreases sch, |sch.fields| - k
  {
    FieldRecordsValid(sch, m, k);
    if k == |sch.fields| {
      assert Upto(sch, m, k).fields == m.fields;
    } else {
      ApplyFieldRecords(sch, m, k + 1);
      var rest := FieldRecords(sch, m, k + 1);
      if m.fields[k].Some? {
        ApplyFieldRecord(sch, m, k);
        var r := Record(k + 1, FieldPayload(sch.fields[k], m.fields[k].value));
        assert FieldRecords(sch, m, k) == [r] + rest && ([r] + rest)[1..] == rest;
      } else {
        assert Upto(sch, m, k).fields == Upto(sch, m, k + 1).fields;
        assert FieldRecords(sch, m, k) == rest;
      }
    }
  }

  lemma {:induction false} ApplyUnknown(sch: Schema, m: Message, us: seq<Record>)
    requires WellFormed(sch, m) && ValidRecords(us) && forall r | r in us :: !Known(sch, r)
    ensures ApplyAll(sch, m, us) == Some(m.(unknown := m.unknown + us))
    decreases |us|
  {
    if us == [] {
      assert m.unknown + [] == m.unknown;
    } else {
      assert us[0] in us;
      ApplyUnknown(sch, m.(unknown := m.unknown + [us[0]]), us[1..]);
      Wire.Assoc(m.unknown, [us[0]], us[1..]);
      assert [us[0]] + us[1..] == us;
    }
  }

  /** Parsing the encoding of any message gives that message back, presence bits and unknown records included. */
  lemma {:induction false} RoundTrip(sch: Schema, m: Message)
    requires ValidSchema(sch) && WellFormed(sch, m) && |Encode(sch, m)| < TWO_31
    ensures Parse(sch, Encode(sch, m)) == Some(m)
    decreases sch, |sch.fields| + 1
  {
    var known := FieldRecords(sch, m, 0);
    ApplyFieldRecords(sch, m, 0);
    assert Upto(sch, m, 0).fields == Empty(sch).fields;
    ApplyAllConcat(sch, Empty(sch), known, m.unknown);
    ApplyUnknown(sch, m.(unknown := []), m.unknown);
    assert [] + m.unknown == m.unknown;
    TokenizeInvertsEncode(MessageRecords(sch, m));
  }

  /** Different messages never share an encoding. */
  lemma EncodeInjective(sch: Schema, m: Message, n: Message)
    requires ValidSchema(sch) && WellFormed(sch, m) && WellFormed(sch, n) && |Encode(sch, m)| < TWO_31
    requires Encode(sch, m) == Encode(sch, n)
    ensures m == n
  {
    RoundTrip(sch, m);
    RoundTrip(sch, n);
  }

  /**
   Whatever was accepted, written out and read again is the same message, and writing
   that one changes no byte.
   */
  lemma NormalFormOf(sch: Schema, s: Bytes)
    requires ValidSchema(sch) && Parse(sch, s).Some?
    requires |Encode(sch, Parse(sch, s).value)| < TWO_31
    ensures var out := Encode(sch, Parse(sch, s).value);
            && Parse(sch, out) == Parse(sch, s)
            && Encode(sch, Parse(sch, out).value) == out
  {
    RoundTrip(sch, Parse(sch, s).value);
  }

  /** Serializing one message after another is serializing their merge, as far as a parser can tell. */
  lemma EncodingsMerge(sch: Schema, a: Message, b: Message)
    requires ValidSchema(sch) && WellFormed(sch, a) && WellFormed(sch, b)
    requires |Encode(sch, a)| < TWO_31 && |Encode(sch, b)| < TWO_31
    ensures Parse(sch, Encode(sch, a) + Encode(sch, b)) == Some(Merge(sch, a, b))
  {
    RoundTrip(sch, a);
    RoundTrip(sch, b);
    ConcatenationIsMerge(sch, Encode(sch, a), Encode(sch, b));
  }

  // ----- The arithmetic of ByteSize -----

  lemma {:induction false} VarintLong(n: nat, k: nat)
    requires n >= Pow128(k)
    ensures |EncodeVarint(n)| > k
    decreases k
  {
    if k > 0 {
      assert Pow128(k) == 128 * Pow128(k - 1);
      VarintLong(n / 128, k - 1);
    }
  }

  /** A negative number always takes ten bytes. */
  lemma NegativeTakesTen(n: int)
    requires -TWO_63 <= n < 0
    ensures |EncodeVarint(FromInt(n))| == 10
  {
    Pow128Five();
    assert Pow128(6) == 128 * Pow128(5);
    assert Pow128(7) == 128 * Pow128(6);
    assert Pow128(8) == 128 * Pow128(7);
    assert Pow128(9) == 128 * Pow128(8);
    VarintLong(FromInt(n), 9);
    VarintFits(FromInt(n));
  }

  function IntSize(n: int): nat
    requires -TWO_63 <= n < TWO_63
  {
    if n < 0 then 10 else VarintSize(n)
  }

  /** What ByteSize adds for one field: a constant one for the tag, then the value. */
  function FieldSize(t: FieldType, v: Value): nat
    requires Typed(t, v)
  {
    match t
    case FInt32 => 1 + IntSize(v.v)
    case FInt64 => 1 + IntSize(v.v)
    case FDouble => 1 + 8
    case FBytes => 1 + VarintSize(|v.s|) + |v.s|
    case FMessage(sub) => var n := |Encode(sub, v.m)|; 1 + VarintSize(n) + n
  }

  lemma FieldSizeExact(k: nat, t: FieldType, v: Value)
    requires Typed(t, v) && k < MAX_FIELDS
    ensures |EncodeRecord(Record(k + 1, FieldPayload(t, v)))| == FieldSize(t, v)
  {
    OneByteTag(k + 1, WireOf(t));
    if (t.FInt32? || t.FInt64?) && v.v < 0 { NegativeTakesTen(v.v); }
  }

  function SizeFrom(sch: Schema, m: Message, k: nat): nat
    requires WellFormed(sch, m) && k <= |sch.fields|
  {
    |EncodeRecords(FieldRecords(sch, m, k))|
  }

  /** The bytes that a set field is written as. */
  function FieldBytes(sch: Schema, m: Message, k: nat): Bytes
    requires WellFormed(sch, m) && k < |sch.fields| && m.fields[k].Some?
  {
    EncodeRecord(Record(k + 1, FieldPayload(sch.fields[k], m.fields[k].value)))
  }

  lemma FieldRecordsStep(sch: Schema, m: Message, k: nat)
    requires ValidSchema(sch) && WellFormed(sch, m) && k < |sch.fields|
    ensures m.fields[k].None? ==> FieldRecords(sch, m, k) == FieldRecords(sch, m, k + 1)
    ensures m.fields[k].Some? ==>
              EncodeRecords(FieldRecords(sch, m, k)) == FieldBytes(sch, m, k) + EncodeRecords(FieldRecords(sch, m, k + 1))
  {
    var rest := FieldRecords(sch, m, k + 1);
    if m.fields[k].Some? {
      var r := Record(k + 1, FieldPayload(sch.fields[k], m.fields[k].value));
      assert FieldRecords(sch, m, k) == [r] + rest && ([r] + rest)[1..] == rest;
    }
  }

  lemma SizeStep(sch: Schema, m: Message, k: nat)
    requires ValidSchema(sch) && WellFormed(sch, m) && k < |sch.fields|
    ensures SizeFrom(sch, m, k) ==
            (if m.fields[k].Some? then FieldSize(sch.fields[k], m.fields[k].value) else 0) + SizeFrom(sch, m, k + 1)
  {
    FieldRecordsStep(sch, m, k);
    if m.fields[k].Some? { FieldSizeExact(k, sch.fields[k], m.fields[k].value); }
  }

  /** A run of absent fields contributes nothing, which is what skipping a whole group relies on. */
  lemma {:induction false} AbsentRun(sch: Schema, m: Message, lo: nat, hi: nat)
    requires ValidSchema(sch) && WellFormed(sch, m) && lo <= hi <= |sch.fields|
    requires forall i | lo <= i < hi :: m.fields[i].None?
    ensures FieldRecords(sch, m, lo) == FieldRecords(sch, m, hi)
    decreases hi - lo
  {
    if lo < hi {
      FieldRecordsStep(sch, m, lo);
      AbsentRun(sch, m, lo + 1, hi);
    }
  }

  lemma EncodeParts(sch: Schema, m: Message)
    requires WellFormed(sch, m)
    ensures Encode(sch, m) == EncodeRecords(FieldRecords(sch, m, 0)) + EncodeRecords(m.unknown)
  {
    EncodeRecordsConcat(FieldRecords(sch, m, 0), m.unknown);
  }

  // ----- The format of a message in numbers -----

  /** A field of a message: its tag, then its value. A negative number is written as its 64-bit two's complement. */
  lemma FieldLayout(sch: Schema, m: Message, k: nat)
    requires ValidSchema(sch) && WellFormed(sch, m) && k < |sch.fields| && m.fields[k].Some?
    ensures var v := m.fields[k].value;
            Typed(sch.fields[k], v) && FieldBytes(sch, m, k) ==
            match sch.fields[k]
            case FInt32 => [8 * k + 8] + EncodeVarint(if v.v >= 0 then v.v else 0x1_0000_0000_0000_0000 + v.v)
            case FInt64 => [8 * k + 8] + EncodeVarint(if v.v >= 0 then v.v else 0x1_0000_0000_0000_0000 + v.v)
            case FDouble => [8 * k + 9] + v.b
            case FBytes => [8 * k + 10] + (EncodeVarint(|v.s|) + v.s)
            case FMessage(sub) => [8 * k + 10] + (EncodeVarint(|Encode(sub, v.m)|) + Encode(sub, v.m))
  {
    hide EncodeRecord, Encode;
    RecordLayout(k + 1, FieldPayload(sch.fields[k], m.fields[k].value));
    assert EncodeVarint(8 * (k + 1)) == [8 * k + 8] && EncodeVarint(8 * (k + 1) + 1) == [8 * k + 9] && EncodeVarint(8 * (k + 1) + 2) == [8 * k + 10];
  }

  /** The set fields from number k + 1 on, one after the other, and then the unknown records. */
  function Spelled(sch: Schema, m: Message, k: nat): Bytes
    requires WellFormed(sch, m) && k <= |sch.fields|
    decreases |sch.fields| - k
  {
    if k == |sch.fields| then EncodeRecords(m.unknown)
    else (if m.fields[k].Some? then FieldBytes(sch, m, k) else []) + Spelled(sch, m, k + 1)
  }

  lemma NothingMore(sch: Schema, m: Message)
    requires WellFormed(sch, m)
    ensures |m.fields| == |sch.fields| && EncodeRecords(FieldRecords(sch, m, |sch.fields|)) + EncodeRecords(m.unknown) == EncodeRecords(m.unknown)
  {
  }

  lemma {:induction false} RestLayout(sch: Schema, m: Message, k: nat)
    requires ValidSchema(sch) && WellFormed(sch, m) && k <= |sch.fields|
    ensures EncodeRecords(FieldRecords(sch, m, k)) + EncodeRecords(m.unknown) == Spelled(sch, m, k)
    decreases |sch.fields| - k
  {
    hide FieldBytes, ValidSchema, WellFormed, EncodeRecords, FieldRecords;
    NothingMore(sch, m);
    if k < |sch.fields| {
      var now, rest := EncodeRecords(FieldRecords(sch, m, k)), EncodeRecords(FieldRecords(sch, m, k + 1));
      RestLayout(sch, m, k + 1);
      FieldRecordsStep(sch, m, k);
      if m.fields[k].Some? {
        Wire.Assoc(FieldBytes(sch, m, k), rest, EncodeRecords(m.unknown));
      } else {
        assert now == rest && Spelled(sch, m, k) == [] + Spelled(sch, m, k + 1);
      }
    }
  }

  /** A message is its set fields in the order of their numbers, then the unknown records. */
  lemma MessageLayout(sch: Schema, m: Message)
    requires ValidSchema(sch) && WellFormed(sch, m)
    ensures Encode(sch, m) == Spelled(sch, m, 0)
  {
    EncodeParts(sch, m);
    RestLayout(sch, m, 0);
  }
}
