/**
 The generated classes without sub-messages: the twelve bodies of a ServicePacket,
 ServiceRequest and ServiceResponse. They all are the same code, unrolled over a
 different list of fields.
 */
module Leaves {
  import opened Options
  import opened Wire
  import opened HasBits
  import opened Codec
  import opened Serialize
  import opened Streams

  /** Where a field's value is kept. A string field points to a string of its own or (None) to the shared empty one. */
  datatype Slot = Number(v: int) | Double(b: Bytes) | Text(p: Option<Bytes>)

  const ZERO_DOUBLE: Bytes := [0, 0, 0, 0, 0, 0, 0, 0]

  function Deref(p: Option<Bytes>): Bytes {
    if p.None? then [] else p.value
  }

  function SlotValue(s: Slot): Value {
    match s
    case Number(v) => Num(v)
    case Double(b) => Fix(b)
    case Text(p) => Str(Deref(p))
  }

  predicate SlotFits(t: FieldType, s: Slot) {
    match t
    case FInt32 => s.Number? && -TWO_31 <= s.v < TWO_31
    case FInt64 => s.Number? && -TWO_63 <= s.v < TWO_63
    case FDouble => s.Double? && |s.b| == 8
    case FBytes => s.Text?
    case FMessage(_) => false
  }

  /** The slot reads as the default value. */
  predicate Pristine(s: Slot) {
    match s
    case Number(v) => v == 0
    case Double(b) => b == ZERO_DOUBLE
    case Text(p) => Deref(p) == []
  }

  function DefaultSlot(t: FieldType): (s: Slot)
    requires !t.FMessage?
    ensures SlotFits(t, s) && Pristine(s)
  {
    match t
    case FInt32 => Number(0)
    case FInt64 => Number(0)
    case FDouble => Double(ZERO_DOUBLE)
    case FBytes => Text(None)
  }

  predicate LeafSchema(sch: Schema) {
    ValidSchema(sch) && forall t | t in sch.fields :: !t.FMessage?
  }

  /**
   The representation invariant. Recycling depends on its second half: a field whose
   presence bit is clear holds the default value, and a present string is never the
   shared empty one.
   */
  ghost predicate Coherent(sch: Schema, bits: bv32, slots: seq<Slot>, unknown: seq<Record>) {
    && LeafSchema(sch)
    && |slots| == |sch.fields|
    && (forall i | 0 <= i < |slots| :: SlotFits(sch.fields[i], slots[i]))
    && (forall i: nat | i < |slots| :: !Has(bits, i) ==> Pristine(slots[i]))
    && (forall i: nat | i < |slots| :: Has(bits, i) && slots[i].Text? ==> slots[i].p.Some?)
    && (forall r | r in unknown :: ValidRecord(r) && !Known(sch, r))
  }

  /** The message that a representation stands for. */
  function ViewOf(bits: bv32, slots: seq<Slot>, unknown: seq<Record>): Message
    requires |slots| <= MAX_FIELDS
  {
    Message(seq(|slots|, i requires 0 <= i < |slots| => if Has(bits, i) then Some(SlotValue(slots[i])) else None), unknown)
  }

  lemma ViewWellFormed(sch: Schema, bits: bv32, slots: seq<Slot>, unknown: seq<Record>)
    requires Coherent(sch, bits, slots, unknown)
    ensures WellFormed(sch, ViewOf(bits, slots, unknown))
  {
  }

  lemma SetView(sch: Schema, bits: bv32, slots: seq<Slot>, unknown: seq<Record>, k: nat, s: Slot)
    requires Coherent(sch, bits, slots, unknown) && k < |slots|
    requires SlotFits(sch.fields[k], s) && (s.Text? ==> s.p.Some?)
    ensures Coherent(sch, Set(bits, k), slots[k := s], unknown)
    ensures var m := ViewOf(bits, slots, unknown);
            ViewOf(Set(bits, k), slots[k := s], unknown) == m.(fields := m.fields[k := Some(SlotValue(s))])
  {
    HasSetAll(bits, k);
    var m := ViewOf(bits, slots, unknown);
    assert ViewOf(Set(bits, k), slots[k := s], unknown).fields == m.fields[k := Some(SlotValue(s))];
  }

  /**
   A string written through a pointer to it, as mutable_x gives one: of a present field it
   is the new value; of an absent one it does no harm exactly when it is left empty.
   */
  lemma TextWritten(sch: Schema, bits: bv32, slots: seq<Slot>, unknown: seq<Record>, k: nat, s: Bytes)
    requires Coherent(sch, bits, slots, unknown) && k < |slots| && sch.fields[k].FBytes?
    requires slots[k].Text? && slots[k].p.Some?
    ensures Coherent(sch, bits, slots[k := Text(Some(s))], unknown) <==> Has(bits, k) || s == []
    ensures var m := ViewOf(bits, slots, unknown);
            Has(bits, k) ==> ViewOf(bits, slots[k := Text(Some(s))], unknown) == m.(fields := m.fields[k := Some(Str(s))])
  {
    hide Has, Known;
    var m, now := ViewOf(bits, slots, unknown), slots[k := Text(Some(s))];
    if Has(bits, k) { assert ViewOf(bits, now, unknown).fields == m.fields[k := Some(Str(s))]; }
    if !Has(bits, k) && s != [] { assert !Pristine(now[k]); }
  }

  lemma UnsetView(sch: Schema, bits: bv32, slots: seq<Slot>, unknown: seq<Record>, k: nat, s: Slot)
    requires Coherent(sch, bits, slots, unknown) && k < |slots|
    requires SlotFits(sch.fields[k], s) && Pristine(s)
    ensures Coherent(sch, Unset(bits, k), slots[k := s], unknown)
    ensures var m := ViewOf(bits, slots, unknown);
            ViewOf(Unset(bits, k), slots[k := s], unknown) == m.(fields := m.fields[k := None])
  {
    HasUnsetAll(bits, k);
    var m := ViewOf(bits, slots, unknown);
    assert ViewOf(Unset(bits, k), slots[k := s], unknown).fields == m.fields[k := None];
  }

  lemma NoBits(i: nat)
    requires i < 16
    ensures !Has(0, i)
  {
  }

  lemma EmptyView(sch: Schema, slots: seq<Slot>)
    requires LeafSchema(sch) && |slots| == |sch.fields|
    requires forall i | 0 <= i < |slots| :: SlotFits(sch.fields[i], slots[i]) && Pristine(slots[i])
    ensures Coherent(sch, 0, slots, []) && ViewOf(0, slots, []) == Empty(sch)
  {
    forall i: nat | i < |slots| ensures !Has(0, i) { NoBits(i); }
    assert ViewOf(0, slots, []).fields == Empty(sch).fields;
  }

  lemma InitializedView(sch: Schema, bits: bv32, slots: seq<Slot>, unknown: seq<Record>)
    requires Coherent(sch, bits, slots, unknown)
    ensures WellFormed(sch, ViewOf(bits, slots, unknown))
    ensures PassesMask(bits, sch.required) <==> Initialized(sch, ViewOf(bits, slots, unknown))
  {
    ViewWellFormed(sch, bits, slots, unknown);
    MaskTest(bits, sch.required);
  }

  lemma AbsentUnmerged(sch: Schema, a: Message, b: Message)
    requires WellFormed(sch, a) && WellFormed(sch, b)
    ensures |a.fields| == |b.fields| == |sch.fields|
    ensures forall i | 0 <= i < |sch.fields| :: b.fields[i].None? ==> MergeField(sch.fields[i], a.fields[i], b.fields[i]) == a.fields[i]
  {
  }

  lemma MergedFieldwise(sch: Schema, a: Message, b: Message, fields: seq<Option<Value>>)
    requires WellFormed(sch, a) && WellFormed(sch, b) && |fields| == |sch.fields|
    requires forall i | 0 <= i < |fields| :: fields[i] == MergeField(sch.fields[i], a.fields[i], b.fields[i])
    ensures Merge(sch, a, b) == Message(fields, a.unknown + b.unknown)
  {
    assert Merge(sch, a, b).fields == fields;
  }

  /** What reading the payload of field k does to a message and to the input. */
  ghost predicate FieldRead(sch: Schema, k: nat, m: Message, s: Bytes, ok: bool, x: Message, t: Bytes)
    requires ValidSchema(sch) && k < |sch.fields| && WellFormed(sch, m)
  {
    match ReadPayload(k + 1, WireOf(sch.fields[k]), s)
    case None => !ok
    case Some((p, u)) =>
      ReadPayloadValid(k + 1, WireOf(sch.fields[k]), s);
      match Apply(sch, m, Record(k + 1, p))
      case None => !ok
      case Some(y) => ok && t == u && x == y
  }

  lemma ScalarApplied(sch: Schema, k: nat, m: Message, p: Payload)
    requires ValidSchema(sch) && k < |sch.fields| && WellFormed(sch, m) && !sch.fields[k].FMessage?
    requires WireType(p) == WireOf(sch.fields[k]) && ValidPayload(p)
    ensures ValidRecord(Record(k + 1, p)) && Known(sch, Record(k + 1, p))
    ensures ReadField(sch.fields[k], m.fields[k], p).Some?
    ensures Apply(sch, m, Record(k + 1, p)) ==
            Some(m.(fields := m.fields[k := ReadField(sch.fields[k], m.fields[k], p)]))
  {
  }

  /** What each kind of scalar field reads. */
  lemma ScalarRead(sch: Schema, k: nat, m: Message, s: Bytes)
    requires LeafSchema(sch) && k < |sch.fields| && WellFormed(sch, m)
    ensures sch.fields[k].FBytes? ==>
              match ReadLen(s) {
                case None => forall x, t :: FieldRead(sch, k, m, s, false, x, t)
                case Some((b, t)) => FieldRead(sch, k, m, s, true, m.(fields := m.fields[k := Some(Str(b))]), t) }
    ensures sch.fields[k].FDouble? ==>
              match TakeBytes(s, 8) {
                case None => forall x, t :: FieldRead(sch, k, m, s, false, x, t)
                case Some((b, t)) => FieldRead(sch, k, m, s, true, m.(fields := m.fields[k := Some(Fix(b))]), t) }
    ensures sch.fields[k].FInt32? ==>
              match ReadVarint(s) {
                case None => forall x, t :: FieldRead(sch, k, m, s, false, x, t)
                case Some((v, t)) => FieldRead(sch, k, m, s, true, m.(fields := m.fields[k := Some(Num(ToInt32(v)))]), t) }
    ensures sch.fields[k].FInt64? ==>
              match ReadVarint(s) {
                case None => forall x, t :: FieldRead(sch, k, m, s, false, x, t)
                case Some((v, t)) => FieldRead(sch, k, m, s, true, m.(fields := m.fields[k := Some(Num(ToInt64(v)))]), t) }
  {
    hide WellFormed, ToInt32, ToInt64, ReadVarint, ReadLen;
    var t := sch.fields[k];
    assert t in sch.fields;
    match ReadPayload(k + 1, WireOf(t), s)
    case None =>
    case Some((p, u)) => ScalarApplied(sch, k, m, p);
  }

  lemma ScalarsOnly(sch: Schema)
    requires LeafSchema(sch)
    ensures ValidSchema(sch) && forall t | t in sch.fields :: !t.FMessage?
  {
  }

  lemma NothingLeft(sch: Schema, m: Message)
    requires WellFormed(sch, m)
    ensures MergeBytes(sch, m, []) == Some(m)
  {
  }

  lemma NoGroupToEnd(sch: Schema, m: Message, num: nat, s: Bytes)
    requires WellFormed(sch, m) && num < 0x2000_0000
    ensures AfterTag(sch, m, num, END_GROUP, s) == None
  {
  }

  /** A record that no field claims is kept, if it can be read at all. */
  lemma UnclaimedThenRest(sch: Schema, m: Message, tag: nat, s: Bytes)
    requires WellFormed(sch, m) && 0 < tag < TWO_32
    requires !(1 <= TagNumber(tag) <= |sch.fields| && TagWire(tag) == WireOf(sch.fields[TagNumber(tag) - 1]))
    ensures MakeTag(TagNumber(tag), TagWire(tag)) != 0
    ensures var got := ReadPayload(TagNumber(tag), TagWire(tag), s);
            got.None? ==> AfterTag(sch, m, TagNumber(tag), TagWire(tag), s) == None
    ensures var got := ReadPayload(TagNumber(tag), TagWire(tag), s);
            got.Some? ==>
              && ValidRecord(Record(TagNumber(tag), got.value.0)) && !Known(sch, Record(TagNumber(tag), got.value.0))
              && |got.value.1| <= |s|
              && WellFormed(sch, m.(unknown := m.unknown + [Record(TagNumber(tag), got.value.0)]))
              && AfterTag(sch, m, TagNumber(tag), TagWire(tag), s) ==
                 MergeBytes(sch, m.(unknown := m.unknown + [Record(TagNumber(tag), got.value.0)]), got.value.1)
  {
    if ReadPayload(TagNumber(tag), TagWire(tag), s).Some? {
      ReadPayloadValid(TagNumber(tag), TagWire(tag), s);
    }
  }

  lemma FieldThenRest(sch: Schema, k: nat, m: Message, s: Bytes, ok: bool, x: Message, t: Bytes)
    requires ValidSchema(sch) && k < |sch.fields| && WellFormed(sch, m) && WellFormed(sch, x)
    requires FieldRead(sch, k, m, s, ok, x, t)
    ensures ok ==> |t| <= |s|
    ensures AfterTag(sch, m, k + 1, WireOf(sch.fields[k]), s) == if ok then MergeBytes(sch, x, t) else None
  {
  }

  /** A field's value as an accessor shows it: the default when the field is absent. */
  function TextIn(m: Message, k: nat): Bytes
    requires k < |m.fields|
  {
    if m.fields[k].Some? && m.fields[k].value.Str? then m.fields[k].value.s else []
  }

  function NumberIn(m: Message, k: nat): int
    requires k < |m.fields|
  {
    if m.fields[k].Some? && m.fields[k].value.Num? then m.fields[k].value.v else 0
  }

  function DoubleIn(m: Message, k: nat): Bytes
    requires k < |m.fields|
  {
    if m.fields[k].Some? && m.fields[k].value.Fix? then m.fields[k].value.b else ZERO_DOUBLE
  }

  /** An absent field shows no bytes, zero, or eight zero bytes; a present one its value. */
  lemma Shown(m: Message, k: nat)
    requires k < |m.fields|
    ensures m.fields[k].None? ==> TextIn(m, k) == [] && NumberIn(m, k) == 0 && DoubleIn(m, k) == [0, 0, 0, 0, 0, 0, 0, 0]
    ensures m.fields[k].Some? && m.fields[k].value.Str? ==> m.fields[k] == Some(Str(TextIn(m, k)))
    ensures m.fields[k].Some? && m.fields[k].value.Num? ==> m.fields[k] == Some(Num(NumberIn(m, k)))
    ensures m.fields[k].Some? && m.fields[k].value.Fix? ==> m.fields[k] == Some(Fix(DoubleIn(m, k)))
  {
  }

  /** How a run of case bodies ended: a malformed payload, the end of input, or with another tag to read. */
  datatype Run = Failed | AtEnd | NextTag

  class Leaf {
    const schema: Schema
    var hasBits: bv32
    var slots: seq<Slot>
    var unknown: seq<Record>
    var cachedSize: nat

    ghost predicate Valid()
      reads `hasBits, `slots, `unknown
      ensures Valid() ==> LeafSchema(schema) && |slots| == |schema.fields| <= 15
    {
      Coherent(schema, hasBits, slots, unknown)
    }

    ghost function View(): (m: Message)
      requires Valid()
      reads `hasBits, `slots, `unknown
      ensures WellFormed(schema, m) && |m.fields| == |schema.fields|
    {
      ViewWellFormed(schema, hasBits, slots, unknown);
      ViewOf(hasBits, slots, unknown)
    }

    constructor (sch: Schema)
      requires LeafSchema(sch)
      ensures Valid() && schema == sch && View() == Empty(sch)
    {
      schema := sch;
      hasBits, unknown, cachedSize := 0, [], 0;
      slots := seq(|sch.fields|, i requires 0 <= i < |sch.fields| => (assert sch.fields[i] in sch.fields; DefaultSlot(sch.fields[i])));
      new;
      EmptyView(schema, slots);
    }

    // ----- Accessors -----

    /** x() for a string field. It never looks at the presence bit. */
    function GetText(k: nat): (s: Bytes)
      requires Valid() && k < |schema.fields| && schema.fields[k].FBytes?
      reads `hasBits, `slots, `unknown
      ensures s == TextIn(View(), k)
    {
      Deref(slots[k].p)
    }

    function GetNumber(k: nat): (n: int)
      requires Valid() && k < |schema.fields| && (schema.fields[k].FInt32? || schema.fields[k].FInt64?)
      reads `hasBits, `slots, `unknown
      ensures n == NumberIn(View(), k)
      ensures schema.fields[k].FInt32? ==> -0x8000_0000 <= n < 0x8000_0000
    {
      slots[k].v
    }

    function GetDouble(k: nat): (b: Bytes)
      requires Valid() && k < |schema.fields| && schema.fields[k].FDouble?
      reads `hasBits, `slots, `unknown
      ensures b == DoubleIn(View(), k) && |b| == 8
    {
      slots[k].b
    }

    /** has_x(). */
    predicate HasField(k: nat)
      requires Valid() && k < |schema.fields|
      reads `hasBits, `slots, `unknown
      ensures HasField(k) <==> View().fields[k].Some?
    {
      Has(hasBits, k)
    }

    /** set_x: marks the field present, gives a string field a string of its own, assigns. */
    method SetField(k: nat, v: Value)
      requires Valid() && k < |schema.fields| && Typed(schema.fields[k], v)
      modifies `hasBits, `slots
      ensures Valid()
      ensures View() == old(View()).(fields := old(View()).fields[k := Some(v)])
    {
      assert schema.fields[k] in schema.fields;
      ghost var before := slots;
      var s := match v case Num(n) => Number(n) case Fix(b) => Double(b) case Str(t) => Text(Some(t));
      SetView(schema, hasBits, slots, unknown, k, s);
      hasBits := Set(hasBits, k);
      if v.Str? && slots[k].p.None? { slots := slots[k := Text(Some([]))]; }
      slots := slots[k := s];
      assert slots == before[k := s];
    }

    lemma TextField(k: nat)
      requires Valid() && k < |schema.fields| && schema.fields[k].FBytes?
      ensures slots[k].Text? && SlotFits(schema.fields[k], slots[k])
      ensures View().fields[k].Some? ==> slots[k].p.Some? && View().fields[k].value == Str(slots[k].p.value)
      ensures View().fields[k].None? ==> Deref(slots[k].p) == []
    {
    }

    /** mutable_x for a string field: present from now on, with the contents it had. */
    method MutableText(k: nat)
      requires Valid() && k < |schema.fields| && schema.fields[k].FBytes?
      modifies `hasBits, `slots
      ensures Valid() && slots[k].Text? && slots[k].p.Some?
      ensures var was := old(View()).fields[k];
              View() == old(View()).(fields := old(View()).fields[k := Some(if was.Some? then was.value else Str([]))])
    {
      hide ViewOf, Coherent;
      TextField(k);
      var s := if slots[k].p.None? then Text(Some([])) else slots[k];
      SetView(schema, hasBits, slots, unknown, k, s);
      hasBits := Set(hasBits, k);
      slots := slots[k := s];
    }

    /** clear_x: the default value, and no longer present. A string keeps its own, emptied, buffer. */
    method ClearField(k: nat)
      requires Valid() && k < |schema.fields|
      modifies `hasBits, `slots
      ensures Valid()
      ensures View() == old(View()).(fields := old(View()).fields[k := None])
    {
      assert schema.fields[k] in schema.fields;
      var s := Erased(slots[k]);
      UnsetView(schema, hasBits, slots, unknown, k, s);
      slots := slots[k := s];
      hasBits := Unset(hasBits, k);
    }

    /** release_x for a string field: hands over the field's own string, if it has one. */
    method ReleaseText(k: nat) returns (p: Option<Bytes>)
      requires Valid() && k < |schema.fields| && schema.fields[k].FBytes?
      modifies `hasBits, `slots
      ensures Valid()
      ensures View() == old(View()).(fields := old(View()).fields[k := None])
      ensures old(slots)[k].Text? && p == old(slots)[k].p && slots == old(slots)[k := Text(None)]
      ensures Deref(p) == TextIn(old(View()), k)
      ensures old(View()).fields[k].Some? ==> p.Some?
    {
      UnsetView(schema, hasBits, slots, unknown, k, Text(None));
      p := slots[k].p;
      hasBits := Unset(hasBits, k);
      slots := slots[k := Text(None)];
    }

    /** set_allocated_x for a string field: adopts the string, or drops the field for a null pointer. */
    method SetAllocatedText(k: nat, p: Option<Bytes>)
      requires Valid() && k < |schema.fields| && schema.fields[k].FBytes?
      modifies `hasBits, `slots
      ensures Valid() && slots == old(slots)[k := Text(p)]
      ensures View() == old(View()).(fields := old(View()).fields[k := if p.Some? then Some(Str(p.value)) else None])
    {
      if p.Some? {
        SetView(schema, hasBits, slots, unknown, k, Text(p));
        hasBits := Set(hasBits, k);
      } else {
        UnsetView(schema, hasBits, slots, unknown, k, Text(None));
        hasBits := Unset(hasBits, k);
      }
      slots := slots[k := Text(p)];
    }

    // ----- Clear, merge, copy, swap -----

    static function Erased(s: Slot): (e: Slot)
      ensures Pristine(e)
      ensures forall t :: SlotFits(t, s) ==> SlotFits(t, e)
    {
      match s
      case Number(_) => Number(0)
      case Double(_) => Double(ZERO_DOUBLE)
      case Text(p) => if p.Some? then Text(Some([])) else s
    }

    /** One group of Clear: numbers are reset outright, strings only when present. */
    method ClearGroup(lo: nat, hi: nat)
      requires LeafSchema(schema) && |slots| == |schema.fields| && lo <= hi <= |slots|
      requires forall i | 0 <= i < |slots| :: SlotFits(schema.fields[i], slots[i])
      requires forall i: nat | lo <= i < hi && slots[i].Text? && !Has(hasBits, i) :: Pristine(slots[i])
      modifies `slots
      ensures |slots| == |old(slots)|
      ensures forall i | 0 <= i < |slots| :: SlotFits(schema.fields[i], slots[i])
      ensures forall i | lo <= i < hi :: Pristine(slots[i])
      ensures forall i | 0 <= i < |slots| && !(lo <= i < hi) :: slots[i] == old(slots[i])
    {
      for k := lo to hi
        invariant |slots| == |old(slots)|
        invariant forall i | 0 <= i < |slots| :: SlotFits(schema.fields[i], slots[i])
        invariant forall i | lo <= i < k :: Pristine(slots[i])
        invariant forall i | 0 <= i < |slots| && !(lo <= i < k) :: slots[i] == old(slots[i])
      {
        if !slots[k].Text? || Has(hasBits, k) {
          slots := slots[k := Erased(slots[k])];
        }
      }
    }

    /** Clear is a full reset, although each group is skipped when its bits are all clear. */
    method Clear()
      requires Valid()
      modifies `hasBits, `slots, `unknown
      ensures Valid() && View() == Empty(schema)
      ensures forall i | 0 <= i < |slots| :: Pristine(slots[i])
    {
      var n := |schema.fields|;
      LowGroupMask(hasBits);
      HighGroupMask(hasBits);
      if hasBits & 0xff != 0 { ClearGroup(0, if n < 8 then n else 8); }
      assert forall i | 0 <= i < n && i < 8 :: Pristine(slots[i]);
      if n > 8 {
        if hasBits & 0xff00 != 0 { ClearGroup(8, n); }
      }
      hasBits := 0;
      unknown := [];
      EmptyView(schema, slots);
    }

    method Swap(other: Leaf)
      requires Valid() && other.Valid() && other.schema == schema
      modifies this, other
      ensures Valid() && other.Valid()
      ensures View() == old(other.View()) && other.View() == old(View())
      ensures cachedSize == old(other.cachedSize) && other.cachedSize == old(cachedSize)
    {
      if other != this {
        hasBits, other.hasBits := other.hasBits, hasBits;
        slots, other.slots := other.slots, slots;
        unknown, other.unknown := other.unknown, unknown;
        cachedSize, other.cachedSize := other.cachedSize, cachedSize;
      }
    }

    method IsInitialized() returns (ok: bool)
      requires Valid()
      ensures ok <==> Initialized(schema, View())
    {
      InitializedView(schema, hasBits, slots, unknown);
      ok := PassesMask(hasBits, schema.required);
    }

    /** A group mask that is zero means that no field of the group is present. */
    lemma GroupBits()
      requires Valid()
      ensures hasBits & 0xff == 0 ==> forall i | 0 <= i < 8 && i < |schema.fields| :: View().fields[i].None?
      ensures hasBits & 0xff00 == 0 ==> forall i | 8 <= i < |schema.fields| :: View().fields[i].None?
      ensures View().unknown == unknown
      ensures forall r | r in unknown :: ValidRecord(r) && !Known(schema, r)
      ensures |View().fields| == |schema.fields| && ValidSchema(schema)
    {
      LowGroupMask(hasBits);
      HighGroupMask(hasBits);
    }

    lemma FieldShown(k: nat)
      requires Valid() && k < |schema.fields|
      ensures View().fields[k] == if Has(hasBits, k) then Some(SlotValue(slots[k])) else None
      ensures Has(hasBits, k) ==> Typed(schema.fields[k], SlotValue(slots[k])) && !schema.fields[k].FMessage?
    {
      hide Has, Known;
      assert schema.fields[k] in schema.fields;
    }

    /** One field of MergeFrom: if from has it, it is set here. */
    method MergeOne(from: Leaf, k: nat)
      requires Valid() && from.Valid() && from != this && from.schema == schema && k < |schema.fields|
      modifies `hasBits, `slots
      ensures Valid()
      ensures View() == old(View()).(fields := old(View()).fields[k :=
                          MergeField(schema.fields[k], old(View()).fields[k], from.View().fields[k])])
    {
      hide Coherent, ViewOf, Has, Typed, WellFormed;
      from.FieldShown(k);
      ghost var m := View();
      if Has(from.hasBits, k) {
        SetField(k, SlotValue(from.slots[k]));
      } else {
        assert m.fields[k := m.fields[k]] == m.fields;
      }
    }

    /** One group of MergeFrom. */
    method MergeGroup(from: Leaf, lo: nat, hi: nat)
      requires Valid() && from.Valid() && from != this && from.schema == schema
      requires lo <= hi <= |schema.fields|
      modifies `hasBits, `slots
      ensures Valid() && View().unknown == old(View()).unknown
      ensures forall i | 0 <= i < |schema.fields| ::
                View().fields[i] == if lo <= i < hi then MergeField(schema.fields[i], old(View()).fields[i], from.View().fields[i])
                                    else old(View()).fields[i]
    {
      hide Coherent, ViewOf, Typed, MergeField, ValidSchema, LeafSchema;
      for k := lo to hi
        invariant Valid() && View().unknown == old(View()).unknown
        invariant forall i | 0 <= i < |schema.fields| ::
                    View().fields[i] == if lo <= i < k then MergeField(schema.fields[i], old(View()).fields[i], from.View().fields[i])
                                        else old(View()).fields[i]
      {
        MergeOne(from, k);
      }
    }

    /** MergeFrom: set fields overwrite, unknown records append. */
    method MergeFrom(from: Leaf)
      requires Valid() && from.Valid() && from != this && from.schema == schema
      modifies `hasBits, `slots, `unknown
      ensures Valid() && View() == Merge(schema, old(View()), from.View())
    {
      hide *;
      ghost var a, b := View(), from.View();
      var n := |schema.fields|;
      from.GroupBits();
      AbsentUnmerged(schema, a, b);
      if from.hasBits & 0xff != 0 { MergeGroup(from, 0, if n < 8 then n else 8); }
      if n > 8 && from.hasBits & 0xff00 != 0 { MergeGroup(from, 8, n); }
      MergedFieldwise(schema, a, b, View().fields);
      AppendUnknown(from.unknown);
    }

    method AppendUnknown(rs: seq<Record>)
      requires Valid() && forall r | r in rs :: ValidRecord(r) && !Known(schema, r)
      modifies `unknown
      ensures Valid() && View() == old(View()).(unknown := old(View()).unknown + rs)
    {
      ghost var before := View();
      unknown := unknown + rs;
      assert View().fields == before.fields;
    }

    /** CopyFrom: equal afterwards, whatever was here before. */
    method CopyFrom(from: Leaf)
      requires Valid() && from.Valid() && from.schema == schema
      modifies `hasBits, `slots, `unknown
      ensures Valid() && View() == old(from.View())
    {
      if from != this {
        Clear();
        MergeEmptyLeft(schema, from.View());
        MergeFrom(from);
      }
    }

    // ----- Two-pass serialization -----

    method GroupSize(lo: nat, hi: nat) returns (total: nat)
      requires Valid() && lo <= hi <= |schema.fields|
      ensures total + SizeFrom(schema, View(), hi) == SizeFrom(schema, View(), lo)
    {
      total := 0;
      for k := lo to hi
        invariant total + SizeFrom(schema, View(), k) == SizeFrom(schema, View(), lo)
      {
        SizeStep(schema, View(), k);
        assert schema.fields[k] in schema.fields;
        if Has(hasBits, k) {
          var v := SlotValue(slots[k]);
          assert View().fields[k] == Some(v) && Typed(schema.fields[k], v);
          match schema.fields[k] {
            case FInt32 => total := total + 1 + IntSize(v.v);
            case FInt64 => total := total + 1 + IntSize(v.v);
            case FDouble => total := total + 1 + 8;
            case FBytes => total := total + 1 + VarintSize(|v.s|) + |v.s|;
            case FMessage(_) => assert false;
          }
        }
      }
    }

    /** First pass: the exact number of bytes the second one will write, remembered in the message. */
    method ByteSize() returns (total: nat)
      requires Valid()
      modifies `cachedSize
      ensures Valid() && View() == old(View())
      ensures total == |Encode(schema, View())| && cachedSize == total
    {
      hide *;
      var n := |schema.fields|;
      total := 0;
      GroupBits();
      FieldRecordsEnd(schema, View());
      EncodeParts(schema, View());
      var split := if n < 8 then n else 8;
      if hasBits & 0xff != 0 { total := GroupSize(0, split); } else { AbsentSize(schema, View(), 0, split); }
      if n > 8 {
        if hasBits & 0xff00 != 0 {
          var more := GroupSize(8, n);
          total := total + more;
        } else {
          AbsentSize(schema, View(), 8, n);
        }
      }
      NoRecords();
      if unknown != [] { total := total + |EncodeRecords(unknown)|; }
      cachedSize := total;
    }

    /** The bytes of one present field. */
    function SlotBytes(k: nat): (s: Bytes)
      requires Valid() && k < |schema.fields| && Has(hasBits, k)
      reads this
      ensures Typed(schema.fields[k], SlotValue(slots[k]))
      ensures s == EncodeRecord(Record(k + 1, FieldPayload(schema.fields[k], SlotValue(slots[k]))))
    {
      var tag := EncodeVarint(MakeTag(k + 1, WireOf(schema.fields[k])));
      match slots[k]
      case Number(v) => tag + EncodeVarint(FromInt(v))
      case Double(b) => tag + b
      case Text(p) => tag + (EncodeVarint(|Deref(p)|) + Deref(p))
    }

    /** Second pass, to a stream. */
    method SerializeWithCachedSizes(output: CodedOutputStream)
      requires Valid()
      modifies output
      ensures output.out == old(output.out) + Encode(schema, View())
    {
      hide EncodeRecords, FieldRecords, Encode, EncodeRecord, FieldPayload;
      FieldRecordsEnd(schema, View());
      NoRecords();
      ghost var start := output.out;
      ghost var all := EncodeRecords(FieldRecords(schema, View(), 0));
      for k := 0 to |schema.fields|
        invariant output.out + EncodeRecords(FieldRecords(schema, View(), k)) == start + all
      {
        FieldRecordsStep(schema, View(), k);
        if Has(hasBits, k) {
          assert View().fields[k] == Some(SlotValue(slots[k]));
          Wire.Assoc(output.out, SlotBytes(k), EncodeRecords(FieldRecords(schema, View(), k + 1)));
          output.Write(SlotBytes(k));
        }
      }
      assert output.out == start + all;
      EncodeParts(schema, View());
      if unknown != [] { output.Write(EncodeRecords(unknown)); }
      Wire.Assoc(start, all, EncodeRecords(unknown));
    }

    /** Second pass, straight into an array: the same bytes, and nothing outside them. */
    method SerializeWithCachedSizesToArray(target: array<Byte>, at: nat) returns (next: nat)
      requires Valid() && at + |Encode(schema, View())| <= target.Length
      modifies target
      ensures next == at + |Encode(schema, View())|
      ensures target[..] == old(target[..at]) + Encode(schema, View()) + old(target[next..])
    {
      hide Written, EncodeRecords, FieldRecords, Encode;
      ghost var was := target[..];
      WrittenNothing(was, at);
      FieldRecordsEnd(schema, View());
      ghost var all := EncodeRecords(FieldRecords(schema, View(), 0));
      ghost var done: Bytes := [];
      EncodeParts(schema, View());
      next := at;
      for k := 0 to |schema.fields|
        invariant next == at + |done| <= target.Length
        invariant done + EncodeRecords(FieldRecords(schema, View(), k)) == all
        invariant Written(was, at, done, target[..])
      {
        FieldRecordsStep(schema, View(), k);
        if Has(hasBits, k) {
          assert View().fields[k] == Some(SlotValue(slots[k]));
          ghost var rest := EncodeRecords(FieldRecords(schema, View(), k + 1));
          Wire.Assoc(done, SlotBytes(k), rest);
          done, next := AppendToArray(was, at, done, SlotBytes(k), target, next);
        }
      }
      assert done == all;
      if unknown == [] {
        assert EncodeRecords(unknown) == [] by { NoRecords(); }
      } else {
        done, next := AppendToArray(was, at, done, EncodeRecords(unknown), target, next);
      }
      assert done == Encode(schema, View());
      WrittenIs(was, at, done, target[..]);
    }

    /** SerializeToString: sizes first, then the bytes. */
    method SerializeToString() returns (s: Bytes)
      requires Valid()
      modifies `cachedSize
      ensures Valid() && View() == old(View())
      ensures s == Encode(schema, View())
    {
      var size := ByteSize();
      var buffer := new Byte[size];
      var next := SerializeWithCachedSizesToArray(buffer, 0);
      s := buffer[..];
    }

    // ----- Parsing -----

    /** The body of one case label: the payload of field k into the field's slot. */
    method ReadFieldInto(k: nat, input: CodedInputStream) returns (ok: bool)
      requires Valid() && input.Valid() && k < |schema.fields|
      modifies `hasBits, `slots, input`pos
      ensures Valid() && input.Valid()
      ensures FieldRead(schema, k, old(View()), old(input.Rest()), ok, View(), input.Rest())
    {
      hide FieldRead, ViewOf;
      assert schema.fields[k] in schema.fields;
      ok := false;
      if schema.fields[k].FDouble? {
        ScalarRead(schema, k, View(), input.Rest());
        var r := input.ReadRaw(8);
        if r.Some? { SetField(k, Fix(r.value)); ok := true; }
      } else if schema.fields[k].FBytes? {
        ok := ReadTextInto(k, input);
      } else {
        ok := ReadNumberInto(k, input);
      }
    }

    method ReadNumberInto(k: nat, input: CodedInputStream) returns (ok: bool)
      requires Valid() && input.Valid() && k < |schema.fields| && (schema.fields[k].FInt32? || schema.fields[k].FInt64?)
      modifies `hasBits, `slots, input`pos
      ensures Valid() && input.Valid()
      ensures FieldRead(schema, k, old(View()), old(input.Rest()), ok, View(), input.Rest())
    {
      hide FieldRead, ViewOf;
      ScalarRead(schema, k, View(), input.Rest());
      var r := input.ReadVarint64();
      ok := r.Some?;
      if ok {
        SetField(k, Num(if schema.fields[k].FInt32? then ToInt32(r.value) else ToInt64(r.value)));
      }
    }

    /** A string is made the field's own before its bytes are read. */
    method ReadTextInto(k: nat, input: CodedInputStream) returns (ok: bool)
      requires Valid() && input.Valid() && k < |schema.fields| && schema.fields[k].FBytes?
      modifies `hasBits, `slots, input`pos
      ensures Valid() && input.Valid()
      ensures FieldRead(schema, k, old(View()), old(input.Rest()), ok, View(), input.Rest())
    {
      hide FieldRead, ViewOf;
      ghost var before := View();
      ScalarRead(schema, k, before, input.Rest());
      MutableText(k);
      var r := input.ReadString();
      ok := r.Some?;
      if ok {
        SetField(k, Str(r.value));
        assert View().fields == before.fields[k := Some(Str(r.value))];
      }
    }

    /**
     A run of case bodies: after field k, if the next byte is the tag of field k + 1 its
     body is entered directly (the goto); after the last field the end of input is looked
     for before another tag is read.
     */
    method ReadFieldRun(first: nat, input: CodedInputStream, ghost result: Option<Message>) returns (run: Run)
      requires Valid() && input.Valid() && !input.atEnd && first < |schema.fields|
      requires AfterTag(schema, View(), first + 1, WireOf(schema.fields[first]), input.Rest()) == result
      modifies `hasBits, `slots, input`pos, input`atEnd
      ensures Valid() && input.Valid()
      ensures run == NextTag ==> |input.Rest()| <= old(|input.Rest()|)
      ensures input.atEnd <==> run == AtEnd
      ensures run == Failed ==> result == None
      ensures run == AtEnd ==> input.Rest() == [] && result == Some(View())
      ensures run == NextTag ==> MergeBytes(schema, View(), input.Rest()) == result
    {
      hide *;
      var k := first;
      while true
        invariant Valid() && input.Valid() && !input.atEnd && k < |schema.fields|
        invariant |input.Rest()| <= old(|input.Rest()|)
        invariant AfterTag(schema, View(), k + 1, WireOf(schema.fields[k]), input.Rest()) == result
        decreases |schema.fields| - k
      {
        ScalarsOnly(schema);
        ghost var m, rest := View(), input.Rest();
        var ok := ReadFieldInto(k, input);
        FieldThenRest(schema, k, m, rest, ok, View(), input.Rest());
        if !ok { return Failed; }
        if k + 1 == |schema.fields| {
          NothingLeft(schema, View());
          var end := input.ExpectAtEnd();
          return if end then AtEnd else NextTag;
        }
        ExpectedTag(schema, View(), k + 1, input.Rest());
        NextTagShort(schema, k + 1);
        var jump := input.ExpectTag(MakeTag(k + 2, WireOf(schema.fields[k + 1])));
        if !jump { return NextTag; }
        k := k + 1;
      }
    }

    /** The default case: keeps a record that no field claims. */
    method KeepUnknown(tag: nat, input: CodedInputStream) returns (ok: bool)
      requires Valid() && input.Valid() && 0 < tag < TWO_32
      requires !(1 <= TagNumber(tag) <= |schema.fields| && TagWire(tag) == WireOf(schema.fields[TagNumber(tag) - 1]))
      modifies `unknown, input`pos
      ensures Valid() && input.Valid()
      ensures ok ==> |input.Rest()| <= old(|input.Rest()|)
      ensures MakeTag(TagNumber(tag), TagWire(tag)) != 0
      ensures var was := AfterTag(schema, old(View()), TagNumber(tag), TagWire(tag), old(input.Rest()));
              was == if ok then MergeBytes(schema, View(), input.Rest()) else None
    {
      hide *;
      UnclaimedThenRest(schema, View(), tag, input.Rest());
      var p := input.SkipField(tag);
      ok := p.Some?;
      if ok { AppendUnknown([Record(TagNumber(tag), p.value)]); }
    }

    /**
     MergePartialFromCodedStream, with its shortcuts. On every byte string the outcome is
     that of the plain read-a-tag-and-dispatch loop. A parse counts as accepted when the
     method returns true and the input ended where it stopped.
     */
    method MergePartialFromCodedStream(input: CodedInputStream) returns (ok: bool)
      requires Valid() && input.Valid() && !input.atEnd
      modifies `hasBits, `slots, `unknown, input`pos, input`atEnd
      ensures Valid() && input.Valid()
      ensures ok && input.atEnd ==> input.Rest() == [] && MergeBytes(schema, old(View()), old(input.Rest())) == Some(View())
      ensures !(ok && input.atEnd) ==> MergeBytes(schema, old(View()), old(input.Rest())) == None
    {
      hide *;
      ghost var result := MergeBytes(schema, View(), input.Rest());
      while true
        invariant Valid() && input.Valid() && !input.atEnd
        invariant MergeBytes(schema, View(), input.Rest()) == result
        decreases |input.Rest()|
      {
        if input.Rest() != [] { MergeBytesStep(schema, View(), input.Rest()); }
        var tag := input.ReadTag();
        if tag == 0 {
          NothingLeft(schema, View());
          return true;
        }
        var number, wire := TagNumber(tag), TagWire(tag);
        if 1 <= number <= |schema.fields| && wire == WireOf(schema.fields[number - 1]) {
          var run := ReadFieldRun(number - 1, input, result);
          match run {
            case Failed => return false;
            case AtEnd => return true;
            case NextTag =>
          }
        } else {
          if wire == END_GROUP {
            NoGroupToEnd(schema, View(), number, input.Rest());
            return true;
          }
          ok := KeepUnknown(tag, input);
          if !ok { return false; }
        }
      }
    }

    /** ParsePartialFromString: a fresh start, the whole string, no required fields asked for. */
    method ParsePartialFromString(data: Bytes) returns (ok: bool)
      requires Valid()
      modifies `hasBits, `slots, `unknown
      ensures Valid()
      ensures ok <==> Parse(schema, data).Some?
      ensures ok ==> View() == Parse(schema, data).value
    {
      Clear();
      var input := new CodedInputStream(data);
      ok := MergePartialFromCodedStream(input);
      ok := ok && input.atEnd;
    }

    /** ParseFromString: also asks for the required fields. */
    method ParseFromString(data: Bytes) returns (ok: bool)
      requires Valid()
      modifies `hasBits, `slots, `unknown
      ensures Valid()
      ensures ok <==> ParseInitialized(schema, data).Some?
      ensures ok ==> View() == ParseInitialized(schema, data).value
    {
      ok := ParsePartialFromString(data);
      if ok { ok := IsInitialized(); }
    }
  }

  /** target is was with done written at a position. */
  ghost predicate Written(was: Bytes, at: nat, done: Bytes, now: Bytes) {
    at + |done| <= |was| && now == was[..at] + done + was[at + |done|..]
  }

  lemma WrittenNothing(was: Bytes, at: nat)
    requires at <= |was|
    ensures Written(was, at, [], was)
  {
  }

  lemma WrittenIs(was: Bytes, at: nat, done: Bytes, now: Bytes)
    requires Written(was, at, done, now)
    ensures at + |done| <= |was| && now == was[..at] + done + was[at + |done|..]
  {
  }

  lemma NoRecords()
    ensures EncodeRecords([]) == []
  {
  }

  lemma FieldRecordsEnd(sch: Schema, m: Message)
    requires WellFormed(sch, m)
    ensures EncodeRecords(FieldRecords(sch, m, |sch.fields|)) == []
    ensures SizeFrom(sch, m, |sch.fields|) == 0
    ensures SizeFrom(sch, m, 0) == |EncodeRecords(FieldRecords(sch, m, 0))|
  {
  }

  method AppendToArray(ghost was: Bytes, ghost at: nat, ghost done: Bytes, data: Bytes, target: array<Byte>, pos: nat)
    returns (ghost all: Bytes, next: nat)
    requires Written(was, at, done, target[..]) && pos == at + |done| && pos + |data| <= target.Length
    modifies target
    ensures all == done + data && next == at + |all| && Written(was, at, all, target[..])
  {
    all := done + data;
    next := WriteToArray(data, target, pos);
    assert target[..] == was[..at] + all + was[next..];
  }

  lemma AbsentSize(sch: Schema, m: Message, lo: nat, hi: nat)
    requires ValidSchema(sch) && WellFormed(sch, m) && lo <= hi <= |sch.fields| == |m.fields|
    requires forall i | lo <= i < hi :: m.fields[i].None?
    ensures SizeFrom(sch, m, lo) == SizeFrom(sch, m, hi)
  {
    AbsentRun(sch, m, lo, hi);
  }

  lemma NextTagShort(sch: Schema, k: nat)
    requires ValidSchema(sch) && k < |sch.fields|
    ensures MakeTag(k + 1, WireOf(sch.fields[k])) < 128
  {
  }

  /** A first byte that is the one-byte tag of field k is a tag read, and any other is not that tag's byte. */
  lemma ExpectedTag(sch: Schema, m: Message, k: nat, s: Bytes)
    requires ValidSchema(sch) && WellFormed(sch, m) && k < |sch.fields|
    ensures var tag := MakeTag(k + 1, WireOf(sch.fields[k]));
            s != [] && s[0] == tag ==> MergeBytes(sch, m, s) == AfterTag(sch, m, k + 1, WireOf(sch.fields[k]), s[1..])
  {
    hide WellFormed, ValidSchema, MergeBytes, AfterTag, EncodeVarint, Wire.ReadTag;
    var wire := WireOf(sch.fields[k]);
    FieldNumberFits(sch, k);
    if s != [] && s[0] == MakeTag(k + 1, wire) {
      OneByteTag(k + 1, wire);
      assert s == [MakeTag(k + 1, wire)] + s[1..];
      ReadTagRoundTrip(k + 1, wire, s[1..]);
      MergeBytesStep(sch, m, s);
      TagParts(k + 1, wire);
    }
  }

  lemma FieldNumberFits(sch: Schema, k: nat)
    requires ValidSchema(sch) && k < |sch.fields|
    ensures k + 1 <= 15
  {
  }
}
