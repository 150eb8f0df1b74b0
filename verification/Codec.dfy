/**
 The meaning of a message, independent of how the generated classes store it.

 Every message class of the server is generated from a descriptor: field k of n
 has number k + 1, presence bit k, and a type. A schema is such a descriptor, and
 a message value is one optional value per field plus the unknown records. Parsing
 is a fold of the records a byte string spells.
 */
module Codec {
  import opened Options
  import opened Wire
  import opened HasBits

  datatype FieldType = FInt32 | FInt64 | FDouble | FBytes | FMessage(sub: Schema)

  /** Field types in field-number order; the first `required` of them are the required fields. */
  datatype Schema = Schema(fields: seq<FieldType>, required: nat)

  datatype Value = Num(v: int) | Fix(b: Bytes) | Str(s: Bytes) | Sub(m: Message)

  datatype Message = Message(fields: seq<Option<Value>>, unknown: seq<Record>)

  /** At most 15 fields, so that every tag is one byte, and at most four required ones. */
  predicate ValidSchema(sch: Schema)
    decreases sch
  {
    && |sch.fields| <= MAX_FIELDS
    && sch.required <= |sch.fields| && sch.required <= 4
    && forall i | 0 <= i < |sch.fields| :: sch.fields[i].FMessage? ==> ValidSchema(sch.fields[i].sub)
  }

  function WireOf(t: FieldType): nat {
    match t
    case FInt32 => VARINT
    case FInt64 => VARINT
    case FDouble => FIXED64
    case FBytes => LENGTH_DELIMITED
    case FMessage(_) => LENGTH_DELIMITED
  }

  /** A record that one of the declared fields claims: its number and its wire type match. */
  predicate Known(sch: Schema, r: Record) {
    1 <= r.num <= |sch.fields| && WireType(r.payload) == WireOf(sch.fields[r.num - 1])
  }

  predicate Typed(t: FieldType, v: Value)
    decreases t
  {
    match t
    case FInt32 => v.Num? && -TWO_31 <= v.v < TWO_31
    case FInt64 => v.Num? && -TWO_63 <= v.v < TWO_63
    case FDouble => v.Fix? && |v.b| == 8
    case FBytes => v.Str?
    case FMessage(sub) => v.Sub? && WellFormed(sub, v.m)
  }

  predicate WellFormed(sch: Schema, m: Message)
    decreases sch
  {
    && |m.fields| == |sch.fields|
    && (forall i | 0 <= i < |m.fields| :: m.fields[i].Some? ==> Typed(sch.fields[i], m.fields[i].value))
    && (forall r | r in m.unknown :: ValidRecord(r) && !Known(sch, r))
  }

  function Empty(sch: Schema): (m: Message)
    ensures WellFormed(sch, m)
  {
    Message(seq(|sch.fields|, i => None), [])
  }

  /** All required fields are present. */
  predicate Initialized(sch: Schema, m: Message)
    requires ValidSchema(sch) && WellFormed(sch, m)
  {
    forall i | 0 <= i < sch.required :: m.fields[i].Some?
  }

  // ----- Integers on the wire -----

  /** The low 32 bits of a varint, as a signed number. */
  function ToInt32(v: nat): (n: int)
    ensures -TWO_31 <= n < TWO_31
  {
    var w := Low32(v);
    if w < TWO_31 then w else w - TWO_32
  }

  function ToInt64(v: nat): (n: int)
    requires v < TWO_64
    ensures -TWO_63 <= n < TWO_63
  {
    if v < TWO_63 then v else v - TWO_64
  }

  /** A signed number is written as its 64-bit two's complement, so a negative one takes ten bytes. */
  function FromInt(n: int): (v: nat)
    requires -TWO_63 <= n < TWO_63
    ensures v < TWO_64
  {
    if n < 0 then n + TWO_64 else n
  }

  lemma IntRoundTrip(n: int)
    requires -TWO_63 <= n < TWO_63
    ensures ToInt64(FromInt(n)) == n
    ensures -TWO_31 <= n < TWO_31 ==> ToInt32(FromInt(n)) == n
  {
  }

  /** A varint too wide for its field is cut to the field's width, in two's complement. */
  lemma NumbersAreCut(v: nat)
    requires v < TWO_64
    ensures -0x8000_0000 <= ToInt32(v) < 0x8000_0000 && (v - ToInt32(v)) % 0x1_0000_0000 == 0
    ensures -0x8000_0000_0000_0000 <= ToInt64(v) < 0x8000_0000_0000_0000 && (v - ToInt64(v)) % 0x1_0000_0000_0000_0000 == 0
  {
  }

  // ----- Merging -----

  function MergeField(t: FieldType, x: Option<Value>, y: Option<Value>): (z: Option<Value>)
    requires x.Some? ==> Typed(t, x.value)
    requires y.Some? ==> Typed(t, y.value)
    ensures z.Some? ==> Typed(t, z.value)
    ensures z.Some? <==> x.Some? || y.Some?
    decreases t
  {
    if y.None? then x
    else if x.Some? && t.FMessage? then Some(Sub(Merge(t.sub, x.value.m, y.value.m)))
    else y
  }

  /** b merged onto a: scalars of b win, sub-messages merge, unknown records append. */
  function Merge(sch: Schema, a: Message, b: Message): (c: Message)
    requires WellFormed(sch, a) && WellFormed(sch, b)
    ensures WellFormed(sch, c) && |c.fields| == |a.fields| == |sch.fields|
    decreases sch
  {
    var fields := seq(|sch.fields|, i requires 0 <= i < |sch.fields| =>
      MergeField(sch.fields[i], a.fields[i], b.fields[i]));
    Message(fields, a.unknown + b.unknown)
  }

  lemma {:induction false} MergeEmptyRight(sch: Schema, a: Message)
    requires WellFormed(sch, a)
    ensures Merge(sch, a, Empty(sch)) == a
  {
    assert Merge(sch, a, Empty(sch)).fields == a.fields;
    assert a.unknown + [] == a.unknown;
  }

  lemma {:induction false} MergeEmptyLeft(sch: Schema, a: Message)
    requires WellFormed(sch, a)
    ensures Merge(sch, Empty(sch), a) == a
  {
    assert Merge(sch, Empty(sch), a).fields == a.fields;
    assert [] + a.unknown == a.unknown;
  }

  lemma {:induction false} MergeFieldAssoc(t: FieldType, x: Option<Value>, y: Option<Value>, z: Option<Value>)
    requires x.Some? ==> Typed(t, x.value)
    requires y.Some? ==> Typed(t, y.value)
    requires z.Some? ==> Typed(t, z.value)
    ensures MergeField(t, MergeField(t, x, y), z) == MergeField(t, x, MergeField(t, y, z))
    decreases t
  {
    if x.Some? && y.Some? && z.Some? && t.FMessage? {
      MergeAssoc(t.sub, x.value.m, y.value.m, z.value.m);
    }
  }

  /** Merging is associative. */
  lemma {:induction false} MergeAssoc(sch: Schema, a: Message, b: Message, c: Message)
    requires WellFormed(sch, a) && WellFormed(sch, b) && WellFormed(sch, c)
    ensures Merge(sch, Merge(sch, a, b), c) == Merge(sch, a, Merge(sch, b, c))
    decreases sch
  {
    var l, r := Merge(sch, Merge(sch, a, b), c), Merge(sch, a, Merge(sch, b, c));
    forall i | 0 <= i < |sch.fields| ensures l.fields[i] == r.fields[i] {
      MergeFieldAssoc(sch.fields[i], a.fields[i], b.fields[i], c.fields[i]);
    }
    assert l.fields == r.fields;
    Wire.Assoc(a.unknown, b.unknown, c.unknown);
  }

  // ----- Parsing -----

  function ChildOrEmpty(sub: Schema, old_: Option<Value>): (m: Message)
    requires old_.Some? ==> Typed(FMessage(sub), old_.value)
    ensures WellFormed(sub, m)
  {
    if old_.Some? then old_.value.m else Empty(sub)
  }

  /** The new value of a field, given the old one and a payload of the field's wire type. */
  function ReadField(t: FieldType, old_: Option<Value>, p: Payload): (r: Option<Value>)
    requires WireType(p) == WireOf(t) && ValidPayload(p)
    requires old_.Some? ==> Typed(t, old_.value)
    ensures r.Some? ==> Typed(t, r.value)
    decreases t, 3, 0
  {
    match t
    case FInt32 => Some(Num(ToInt32(p.v)))
    case FInt64 => Some(Num(ToInt64(p.v)))
    case FDouble => Some(Fix(p.b))
    case FBytes => Some(Str(p.data))
    case FMessage(sub) =>
      match MergeBytes(sub, ChildOrEmpty(sub, old_), p.data)
      case None => None
      case Some(m) => Some(Sub(m))
  }

  function Apply(sch: Schema, m: Message, r: Record): (res: Option<Message>)
    requires WellFormed(sch, m) && ValidRecord(r)
    ensures res.Some? ==> WellFormed(sch, res.value)
    decreases sch, 0, 0
  {
    if Known(sch, r) then
      var k := r.num - 1;
      match ReadField(sch.fields[k], m.fields[k], r.payload)
      case None => None
      case Some(v) => Some(m.(fields := m.fields[k := Some(v)]))
    else
      Some(m.(unknown := m.unknown + [r]))
  }

  function ApplyAll(sch: Schema, m: Message, rs: seq<Record>): (res: Option<Message>)
    requires WellFormed(sch, m) && ValidRecords(rs)
    ensures res.Some? ==> WellFormed(sch, res.value)
    decreases sch, 1, |rs|
  {
    if rs == [] then Some(m)
    else
      assert rs[0] in rs;
      match Apply(sch, m, rs[0])
      case None => None
      case Some(m') => ApplyAll(sch, m', rs[1..])
  }

  /** Parses s into an existing message. */
  function MergeBytes(sch: Schema, m: Message, s: Bytes): (res: Option<Message>)
    requires WellFormed(sch, m)
    ensures res.Some? ==> WellFormed(sch, res.value)
    decreases sch, 2, 0
  {
    match Tokenize(s)
    case None => None
    case Some(rs) =>
      TokenizeValid(s);
      ApplyAll(sch, m, rs)
  }

  /** Parses s without asking for required fields. */
  function Parse(sch: Schema, s: Bytes): (res: Option<Message>)
    ensures res.Some? ==> WellFormed(sch, res.value)
  {
    MergeBytes(sch, Empty(sch), s)
  }

  /** Parses s and insists on the required fields. */
  function ParseInitialized(sch: Schema, s: Bytes): (res: Option<Message>)
    requires ValidSchema(sch)
    ensures res.Some? ==> WellFormed(sch, res.value)
  {
    match Parse(sch, s)
    case None => None
    case Some(m) => if Initialized(sch, m) then Some(m) else None
  }

  lemma {:induction false} ApplyAllConcat(sch: Schema, m: Message, a: seq<Record>, b: seq<Record>)
    requires WellFormed(sch, m) && ValidRecords(a) && ValidRecords(b)
    ensures ApplyAll(sch, m, a + b) ==
            match ApplyAll(sch, m, a) { case None => None case Some(x) => ApplyAll(sch, x, b) }
    decreases |a|
  {
    if a == [] {
      assert a + b == b;
    } else {
      assert a[0] in a;
      assert (a + b)[1..] == a[1..] + b && (a + b)[0] == a[0];
      match Apply(sch, m, a[0])
      case None =>
      case Some(x) => ApplyAllConcat(sch, x, a[1..], b);
    }
  }

  // ----- Concatenation is merge -----

  function MergeOpt(sch: Schema, a: Message, b: Option<Message>): (c: Option<Message>)
    requires WellFormed(sch, a) && (b.Some? ==> WellFormed(sch, b.value))
  {
    match b
    case None => None
    case Some(x) => Some(Merge(sch, a, x))
  }

  lemma {:induction false} ReadFieldMerge(t: FieldType, x: Option<Value>, y: Option<Value>, p: Payload)
    requires WireType(p) == WireOf(t) && ValidPayload(p)
    requires x.Some? ==> Typed(t, x.value)
    requires y.Some? ==> Typed(t, y.value)
    ensures ReadField(t, MergeField(t, x, y), p).Some? <==> ReadField(t, y, p).Some?
    ensures ReadField(t, y, p).Some? ==>
              ReadField(t, MergeField(t, x, y), p) == MergeField(t, x, ReadField(t, y, p))
    decreases t, 3, 0
  {
    if t.FMessage? && x.Some? {
      var child := ChildOrEmpty(t.sub, y);
      if y.None? { MergeEmptyRight(t.sub, x.value.m); }
      MergeBytesMerge(t.sub, x.value.m, child, p.data);
    }
  }

  lemma {:induction false} ApplyMerge(sch: Schema, x: Message, y: Message, r: Record)
    requires WellFormed(sch, x) && WellFormed(sch, y) && ValidRecord(r)
    ensures Apply(sch, Merge(sch, x, y), r) == MergeOpt(sch, x, Apply(sch, y, r))
    decreases sch, 0, 0
  {
    hide MergeField, ReadField;
    var z := Merge(sch, x, y);
    if Known(sch, r) {
      var k := r.num - 1;
      ReadFieldMerge(sch.fields[k], x.fields[k], y.fields[k], r.payload);
      if Apply(sch, y, r).Some? {
        assert Apply(sch, z, r).value.fields == Merge(sch, x, Apply(sch, y, r).value).fields;
      }
    } else {
      Wire.Assoc(x.unknown, y.unknown, [r]);
    }
  }

  lemma {:induction false} ApplyAllMerge(sch: Schema, x: Message, y: Message, rs: seq<Record>)
    requires WellFormed(sch, x) && WellFormed(sch, y) && ValidRecords(rs)
    ensures ApplyAll(sch, Merge(sch, x, y), rs) == MergeOpt(sch, x, ApplyAll(sch, y, rs))
    decreases sch, 1, |rs|
  {
    if rs != [] {
      assert rs[0] in rs;
      ApplyMerge(sch, x, y, rs[0]);
      match Apply(sch, y, rs[0])
      case None =>
      case Some(z) => ApplyAllMerge(sch, x, z, rs[1..]);
    }
  }

  /** Parsing into a merged message is merging the parsed one. */
  lemma {:induction false} MergeBytesMerge(sch: Schema, x: Message, y: Message, s: Bytes)
    requires WellFormed(sch, x) && WellFormed(sch, y)
    ensures MergeBytes(sch, Merge(sch, x, y), s) == MergeOpt(sch, x, MergeBytes(sch, y, s))
    decreases sch, 2, 0
  {
    if Tokenize(s).Some? {
      TokenizeValid(s);
      ApplyAllMerge(sch, x, y, Tokenize(s).value);
    }
  }

  /** Reading s into m is m merged with the message that s spells on its own. */
  lemma MergeBytesIsMerge(sch: Schema, m: Message, s: Bytes)
    requires WellFormed(sch, m)
    ensures MergeBytes(sch, m, s) == MergeOpt(sch, m, Parse(sch, s))
  {
    MergeEmptyRight(sch, m);
    MergeBytesMerge(sch, m, Empty(sch), s);
  }

  /** Reading a + b is reading a, then b. */
  lemma MergeBytesConcat(sch: Schema, m: Message, a: Bytes, b: Bytes)
    requires WellFormed(sch, m) && Tokenize(a).Some?
    ensures MergeBytes(sch, m, a + b) ==
            match MergeBytes(sch, m, a) { case None => None case Some(x) => MergeBytes(sch, x, b) }
  {
    TokenizeConcat(a, b);
    TokenizeValid(a);
    if Tokenize(b).Some? {
      TokenizeValid(b);
      ApplyAllConcat(sch, m, Tokenize(a).value, Tokenize(b).value);
    }
  }

  /**
   When a parses, a + b parses exactly when b does, and to the merge of the two
   messages: scalars last-one-wins, sub-messages recursively, unknown records appended.
   */
  lemma ConcatenationIsMerge(sch: Schema, a: Bytes, b: Bytes)
    requires Parse(sch, a).Some?
    ensures Parse(sch, a + b) == MergeOpt(sch, Parse(sch, a).value, Parse(sch, b))
  {
    MergeBytesConcat(sch, Empty(sch), a, b);
    MergeBytesIsMerge(sch, Parse(sch, a).value, b);
  }

  // ----- Reading one tag at a time -----

  /** What is left to do once a tag has been read: its payload, then the rest. */
  function AfterTag(sch: Schema, m: Message, num: nat, wire: nat, s: Bytes): (res: Option<Message>)
    requires WellFormed(sch, m) && num < 0x2000_0000 && MakeTag(num, wire) != 0
    ensures res.Some? ==> WellFormed(sch, res.value)
  {
    match ReadPayload(num, wire, s)
    case None => None
    case Some((p, t)) =>
      ReadPayloadValid(num, wire, s);
      match Apply(sch, m, Record(num, p))
      case None => None
      case Some(x) => MergeBytes(sch, x, t)
  }

  /** Parsing is reading a tag and going on after it. */
  lemma MergeBytesStep(sch: Schema, m: Message, s: Bytes)
    requires WellFormed(sch, m) && s != []
    ensures ReadTag(s).None? ==> MergeBytes(sch, m, s) == None
    ensures ReadTag(s).Some? && ReadTag(s).value.0 == 0 ==> MergeBytes(sch, m, s) == None
    ensures ReadTag(s).Some? && ReadTag(s).value.0 != 0 ==>
              var (tag, t) := ReadTag(s).value;
              MakeTag(TagNumber(tag), TagWire(tag)) == tag &&
              MergeBytes(sch, m, s) == AfterTag(sch, m, TagNumber(tag), TagWire(tag), t)
  {
    if ReadRecord(s).Some? {
      var (r, t) := ReadRecord(s).value;
      TokenizeStep(s);
      ReadRecordValid(s);
      if Tokenize(t).Some? {
        TokenizeValid(t);
        assert ([r] + Tokenize(t).value)[1..] == Tokenize(t).value;
      }
    }
  }
}
