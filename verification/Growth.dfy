/** How long a message that was read can be when it is written: at most twice the input. */
module Growth {
  import opened Options
  import opened Wire
  import opened Codec
  import opened Serialize

  // ----- Records are never longer than the bytes they were read from -----

  lemma {:induction false} LongerNumber(a: nat, b: nat)
    requires a <= b
    ensures |EncodeVarint(a)| <= |EncodeVarint(b)|
    decreases b
  {
    if a >= 128 { LongerNumber(a / 128, b / 128); }
  }

  lemma {:induction false} DecodedShort(s: Bytes, budget: nat)
    requires DecodeVarint(s, budget).Some?
    ensures |EncodeVarint(DecodeVarint(s, budget).value.0)| <= DecodeVarint(s, budget).value.1
    decreases budget
  {
    if s[0] >= 128 {
      DecodedShort(s[1..], budget - 1);
      var v, w := DecodeVarint(s, budget).value.0, DecodeVarint(s[1..], budget - 1).value.0;
      assert v == s[0] - 128 + 128 * w && v / 128 == w;
    }
  }

  lemma ReadVarintShort(s: Bytes)
    requires ReadVarint(s).Some?
    ensures |EncodeVarint(ReadVarint(s).value.0)| + |ReadVarint(s).value.1| <= |s|
    ensures |EncodeVarint(Low32(ReadVarint(s).value.0))| + |ReadVarint(s).value.1| <= |s|
  {
    DecodedShort(s, MAX_VARINT);
    var v := DecodeVarint(s, MAX_VARINT).value.0;
    LongerNumber(Low64(v), v);
    LongerNumber(Low32(Low64(v)), Low64(v));
  }

  lemma ReadLenShort(s: Bytes)
    requires ReadLen(s).Some?
    ensures var (data, t) := ReadLen(s).value;
            |EncodeVarint(|data|)| + |data| + |t| <= |s|
  {
    ReadVarintShort(s);
  }

  lemma {:induction false} PayloadShort(num: nat, wire: nat, s: Bytes)
    requires ReadPayload(num, wire, s).Some?
    ensures var (p, t) := ReadPayload(num, wire, s).value;
            |EncodeBody(num, p)| + |t| <= |s|
    decreases |s|, 1
  {
    match wire
    case 0 => ReadVarintShort(s);
    case 2 => ReadLenShort(s);
    case 3 => GroupShort(num, s);
    case _ =>
  }

  /** A tag that was read, and the record it starts. */
  lemma TagShort(s: Bytes)
    requires ReadTag(s).Some?
    ensures var (tag, t) := ReadTag(s).value;
            MakeTag(TagNumber(tag), TagWire(tag)) == tag && |EncodeVarint(tag)| + |t| <= |s|
  {
    ReadVarintShort(s);
  }

  lemma {:induction false} GroupShort(num: nat, s: Bytes)
    requires ReadGroup(num, s).Some?
    ensures var (rs, t) := ReadGroup(num, s).value;
            |EncodeRecords(rs)| + |EncodeVarint(MakeTag(num, END_GROUP))| + |t| <= |s|
    decreases |s|, 0
  {
    var (tag, t) := ReadTag(s).value;
    TagShort(s);
    if TagWire(tag) != END_GROUP {
      var (p, u) := ReadPayload(TagNumber(tag), TagWire(tag), t).value;
      PayloadShort(TagNumber(tag), TagWire(tag), t);
      GroupShort(num, u);
      FirstRecord(Record(TagNumber(tag), p), ReadGroup(num, u).value.0);
    }
  }

  lemma FirstRecord(r: Record, rs: seq<Record>)
    ensures EncodeRecords([r] + rs) == EncodeRecord(r) + EncodeRecords(rs)
  {
    assert ([r] + rs)[1..] == rs;
  }

  lemma {:induction false} TokenizeShort(s: Bytes)
    requires Tokenize(s).Some?
    ensures |EncodeRecords(Tokenize(s).value)| <= |s|
    decreases |s|
  {
    if s != [] {
      var (tag, t) := ReadTag(s).value;
      var (r, u) := ReadRecord(s).value;
      TagShort(s);
      PayloadShort(TagNumber(tag), TagWire(tag), t);
      TokenizeStep(s);
      TokenizeShort(u);
      FirstRecord(r, Tokenize(u).value);
    }
  }

  // ----- A record adds at most twice its length -----

  lemma {:induction false} VarintSum(a: nat, b: nat)
    ensures |EncodeVarint(a + b)| <= |EncodeVarint(a)| + |EncodeVarint(b)|
    decreases a + b
  {
    if a + b >= 128 {
      if b < 128 {
        if a >= 128 {
          LongerNumber((a + b) / 128, a / 128 + 1);
          VarintSum(a / 128, 1);
        } else {
          LongerNumber((a + b) / 128, 1);
        }
      } else if a < 128 {
        LongerNumber((a + b) / 128, 1 + b / 128);
        VarintSum(1, b / 128);
      } else {
        LongerNumber((a + b) / 128, a / 128 + (b / 128 + 1));
        VarintSum(a / 128, b / 128 + 1);
        VarintSum(b / 128, 1);
      }
    }
  }

  function FieldLength(t: FieldType, x: Option<Value>): nat
    requires x.Some? ==> Typed(t, x.value)
  {
    if x.Some? then FieldSize(t, x.value) else 0
  }

  /** A number of 32 bits or more takes five bytes. */
  lemma FiveBytes(v: nat)
    requires v >= TWO_31
    ensures |EncodeVarint(v)| >= 5
  {
    hide EncodeVarint;
    Pow128Five();
    Pow128Four();
    VarintLong(v, 4);
  }

  lemma Pow128Four()
    ensures Pow128(4) == 0x1000_0000
  {
    Pow128Five();
  }

  /** An int32 can grow from five bytes to ten. */
  lemma {:induction false} NumberGrows(v: nat)
    requires v < TWO_64
    ensures IntSize(ToInt32(v)) <= 2 * |EncodeVarint(v)| + 1
    ensures IntSize(ToInt64(v)) <= 2 * |EncodeVarint(v)| + 1
  {
    hide EncodeVarint;
    if ToInt32(v) >= 0 {
      LongerNumber(ToInt32(v), v);
    } else {
      FiveBytes(v);
    }
    if ToInt64(v) < 0 { NegativeTakesTen(ToInt64(v)); }
  }

  lemma {:induction false} FieldGrows(num: nat, t: FieldType, x: Option<Value>, p: Payload)
    requires WireType(p) == WireOf(t) && ValidPayload(p) && (x.Some? ==> Typed(t, x.value))
    requires t.FMessage? ==> ValidSchema(t.sub)
    requires ReadField(t, x, p).Some?
    ensures FieldSize(t, ReadField(t, x, p).value) <= FieldLength(t, x) + 2 * (1 + |EncodeBody(num, p)|)
    decreases t, 3, 0
  {
    match t
    case FInt32 => NumberGrows(p.v);
    case FInt64 => NumberGrows(p.v);
    case FDouble =>
    case FBytes =>
    case FMessage(sub) =>
      var old_ := ChildOrEmpty(sub, x);
      var new_ := MergeBytes(sub, old_, p.data).value;
      MergeBytesGrows(sub, old_, p.data);
      LengthGrows(|Encode(sub, old_)|, |p.data|, |Encode(sub, new_)|);
      if x.None? { EmptyShort(sub); }
  }

  /** A length prefix grows no faster than what it counts. */
  lemma {:induction false} LengthGrows(before: nat, added: nat, now: nat)
    requires now <= before + 2 * added
    ensures |EncodeVarint(now)| <= |EncodeVarint(before)| + 2 * |EncodeVarint(added)|
    ensures before == 0 ==> |EncodeVarint(now)| <= 2 * |EncodeVarint(added)|
  {
    hide EncodeVarint;
    LongerNumber(now, before + 2 * added);
    VarintSum(added, added);
    VarintSum(before, added + added);
  }

  lemma EmptyShort(sch: Schema)
    ensures Encode(sch, Empty(sch)) == []
  {
    NoneRecorded(sch, 0);
    EncodeParts(sch, Empty(sch));
  }

  lemma {:induction false} NoneRecorded(sch: Schema, k: nat)
    requires k <= |sch.fields|
    ensures FieldRecords(sch, Empty(sch), k) == []
    decreases |sch.fields| - k
  {
    if k < |sch.fields| { NoneRecorded(sch, k + 1); }
  }

  /** Changing one field changes the length by that field's. */
  lemma {:induction false} FieldChanged(sch: Schema, m: Message, k: nat, v: Value, j: nat)
    requires ValidSchema(sch) && WellFormed(sch, m) && k < |sch.fields| == |m.fields| && j <= |sch.fields|
    requires Typed(sch.fields[k], v) && (m.fields[k].Some? ==> Typed(sch.fields[k], m.fields[k].value))
    requires WellFormed(sch, m.(fields := m.fields[k := Some(v)]))
    ensures var x := m.(fields := m.fields[k := Some(v)]);
            SizeFrom(sch, x, j) + (if j <= k then FieldLength(sch.fields[k], m.fields[k]) else 0)
            == SizeFrom(sch, m, j) + (if j <= k then FieldSize(sch.fields[k], v) else 0)
    decreases |sch.fields| - j
  {
    hide SizeFrom, FieldSize, WellFormed, Typed;
    var x := m.(fields := m.fields[k := Some(v)]);
    if j < |sch.fields| {
      SizeStep(sch, m, j);
      SizeStep(sch, x, j);
      FieldChanged(sch, m, k, v, j + 1);
    } else {
      SizeEnd(sch, m);
      SizeEnd(sch, x);
    }
  }

  lemma {:induction false} FieldsOnly(sch: Schema, m: Message, x: Message, k: nat)
    requires WellFormed(sch, m) && WellFormed(sch, x) && m.fields == x.fields && k <= |sch.fields|
    ensures SizeFrom(sch, m, k) == SizeFrom(sch, x, k) && FieldRecords(sch, m, k) == FieldRecords(sch, x, k)
    decreases |sch.fields| - k
  {
    if k < |sch.fields| { FieldsOnly(sch, m, x, k + 1); }
  }

  lemma SizeEnd(sch: Schema, m: Message)
    requires WellFormed(sch, m)
    ensures SizeFrom(sch, m, |sch.fields|) == 0
  {
  }

  lemma Parts(sch: Schema, m: Message)
    requires WellFormed(sch, m)
    ensures |Encode(sch, m)| == SizeFrom(sch, m, 0) + |EncodeRecords(m.unknown)|
    ensures |m.fields| == |sch.fields|
    ensures forall i | 0 <= i < |m.fields| :: m.fields[i].Some? ==> Typed(sch.fields[i], m.fields[i].value)
  {
    EncodeParts(sch, m);
  }

  lemma {:induction false} ApplyGrows(sch: Schema, m: Message, r: Record)
    requires ValidSchema(sch) && WellFormed(sch, m) && ValidRecord(r) && Apply(sch, m, r).Some?
    ensures |Encode(sch, Apply(sch, m, r).value)| <= |Encode(sch, m)| + 2 * |EncodeRecord(r)|
    decreases sch, 0, 0
  {
    hide WellFormed, Encode, SizeFrom, FieldSize, ReadField, FieldLength;
    var x := Apply(sch, m, r).value;
    Parts(sch, m);
    Parts(sch, x);
    if Known(sch, r) {
      var k := r.num - 1;
      KnownRecord(sch, r);
      FieldGrows(r.num, sch.fields[k], m.fields[k], r.payload);
      FieldChanged(sch, m, k, ReadField(sch.fields[k], m.fields[k], r.payload).value, 0);
    } else {
      FieldsOnly(sch, m, x, 0);
      EncodeRecordsConcat(m.unknown, [r]);
      FirstRecord(r, []);
      assert [r] + [] == [r];
    }
  }

  lemma KnownRecord(sch: Schema, r: Record)
    requires ValidSchema(sch) && ValidRecord(r) && Known(sch, r)
    ensures ValidPayload(r.payload) && (sch.fields[r.num - 1].FMessage? ==> ValidSchema(sch.fields[r.num - 1].sub))
    ensures |EncodeRecord(r)| == 1 + |EncodeBody(r.num, r.payload)|
  {
    OneByteTag(r.num, WireType(r.payload));
  }

  lemma {:induction false} ApplyAllGrows(sch: Schema, m: Message, rs: seq<Record>)
    requires ValidSchema(sch) && WellFormed(sch, m) && ValidRecords(rs) && ApplyAll(sch, m, rs).Some?
    ensures |Encode(sch, ApplyAll(sch, m, rs).value)| <= |Encode(sch, m)| + 2 * |EncodeRecords(rs)|
    decreases sch, 1, |rs|
  {
    hide WellFormed, Encode, Apply, EncodeRecord, ValidRecord, ValidSchema;
    if rs != [] {
      assert rs[0] in rs;
      ApplyGrows(sch, m, rs[0]);
      ApplyAllGrows(sch, Apply(sch, m, rs[0]).value, rs[1..]);
    }
  }

  /** Reading s into a message makes its encoding longer by at most twice the length of s. */
  lemma {:induction false} MergeBytesGrows(sch: Schema, m: Message, s: Bytes)
    requires ValidSchema(sch) && WellFormed(sch, m) && MergeBytes(sch, m, s).Some?
    ensures |Encode(sch, MergeBytes(sch, m, s).value)| <= |Encode(sch, m)| + 2 * |s|
    decreases sch, 2, 0
  {
    hide WellFormed, Encode, ApplyAll, ValidSchema;
    TokenizeValid(s);
    TokenizeShort(s);
    ApplyAllGrows(sch, m, Tokenize(s).value);
  }

  /** What was parsed is at most twice as long when written. */
  lemma ReencodingBound(sch: Schema, s: Bytes)
    requires ValidSchema(sch) && Parse(sch, s).Some?
    ensures |Encode(sch, Parse(sch, s).value)| <= 2 * |s|
  {
    MergeBytesGrows(sch, Empty(sch), s);
    EmptyShort(sch);
  }

  /**
   Every accepted input below a gigabyte: written out and read again it is the same message,
   and writing that one changes no byte.
   */
  lemma NormalForm(sch: Schema, s: Bytes)
    requires ValidSchema(sch) && Parse(sch, s).Some? && |s| < 0x4000_0000
    ensures var out := Encode(sch, Parse(sch, s).value);
            && Parse(sch, out) == Parse(sch, s)
            && Encode(sch, Parse(sch, out).value) == out
  {
    ReencodingBound(sch, s);
    NormalFormOf(sch, s);
  }
}
