/**
 ServicePacket: a type number and nullable sub-messages, which are recycled rather
 than freed when the packet is cleared.
 */
module Packets {
  import opened Options
  import opened Wire
  import opened HasBits
  import opened Codec
  import opened Serialize
  import opened Streams
  import opened Leaves

  /** What the sub-message pointers show, one entry per field; entry 0 is not used. */
  type Bodies = seq<Option<Message>>

  /** A number first, then sub-messages without sub-messages of their own or required fields. */
  predicate PacketSchema(sch: Schema) {
    && ValidSchema(sch)
    && 1 <= |sch.fields| && sch.fields[0].FInt32?
    && forall k: nat | 1 <= k < |sch.fields| ::
         sch.fields[k].FMessage? && LeafSchema(sch.fields[k].sub) && sch.fields[k].sub.required == 0
  }

  predicate IsBody(sch: Schema, k: nat) {
    PacketSchema(sch) && 1 <= k < |sch.fields|
  }

  /**
   The representation invariant: a present sub-message exists, an absent one that exists
   was cleared, an absent type is zero.
   */
  ghost predicate CoherentPacket(sch: Schema, bits: bv32, t: int, bodies: Bodies, unknown: seq<Record>) {
    && PacketSchema(sch)
    && -0x8000_0000 <= t < 0x8000_0000 && (!Has(bits, 0) ==> t == 0)
    && |bodies| == |sch.fields| && bodies[0] == None
    && (forall k: nat | IsBody(sch, k) && bodies[k].Some? :: WellFormed(sch.fields[k].sub, bodies[k].value))
    && (forall k: nat | IsBody(sch, k) && Has(bits, k) :: bodies[k].Some?)
    && (forall k: nat | IsBody(sch, k) && !Has(bits, k) && bodies[k].Some? :: bodies[k].value == Empty(sch.fields[k].sub))
    && (forall r | r in unknown :: ValidRecord(r) && !Known(sch, r))
  }

  ghost function FieldView(sch: Schema, bits: bv32, t: int, bodies: Bodies, unknown: seq<Record>, k: nat): Option<Value>
    requires CoherentPacket(sch, bits, t, bodies, unknown) && k < |sch.fields|
  {
    if !Has(bits, k) then None
    else if k == 0 then Some(Num(t))
    else assert IsBody(sch, k); Some(Sub(bodies[k].value))
  }

  /** The message that a representation stands for. */
  ghost function PacketViewOf(sch: Schema, bits: bv32, t: int, bodies: Bodies, unknown: seq<Record>): (m: Message)
    requires CoherentPacket(sch, bits, t, bodies, unknown)
    ensures |m.fields| == |sch.fields| && m.unknown == unknown
    ensures forall k: nat | k < |sch.fields| :: m.fields[k] == FieldView(sch, bits, t, bodies, unknown, k)
  {
    Message(seq(|sch.fields|, (k: nat) requires k < |sch.fields| => FieldView(sch, bits, t, bodies, unknown, k)), unknown)
  }

  lemma PacketViewWellFormed(sch: Schema, bits: bv32, t: int, bodies: Bodies, unknown: seq<Record>)
    requires CoherentPacket(sch, bits, t, bodies, unknown)
    ensures WellFormed(sch, PacketViewOf(sch, bits, t, bodies, unknown))
  {
    hide Has;
    var m := PacketViewOf(sch, bits, t, bodies, unknown);
    forall k: nat | k < |sch.fields| && m.fields[k].Some? ensures Typed(sch.fields[k], m.fields[k].value) {
      if k > 0 { assert IsBody(sch, k); }
    }
  }

  lemma SameFields(m: Message, x: Message)
    requires |m.fields| == |x.fields| && m.unknown == x.unknown
    requires forall k: nat | k < |m.fields| :: m.fields[k] == x.fields[k]
    ensures m == x
  {
    assert m.fields == x.fields;
  }

  /** A field of a merge depends on the two fields merged. */
  lemma MergedAt(sch: Schema, a: Message, x: Message, b: Message, k: nat)
    requires WellFormed(sch, a) && WellFormed(sch, x) && WellFormed(sch, b) && k < |sch.fields|
    ensures |Merge(sch, a, b).fields| == |Merge(sch, x, b).fields| == |a.fields| == |x.fields| == |b.fields| == |sch.fields|
    ensures Merge(sch, x, b).fields[k] == MergeField(sch.fields[k], x.fields[k], b.fields[k])
    ensures a.fields[k] == x.fields[k] ==> Merge(sch, a, b).fields[k] == Merge(sch, x, b).fields[k]
    ensures b.fields[k].None? ==> Merge(sch, x, b).fields[k] == x.fields[k]
  {
  }

  /** Merging into a sub-message field, seen through its accessor. */
  lemma MergedBody(t: FieldType, x: Option<Value>, b: Message, c: Message)
    requires t.FMessage? && WellFormed(t.sub, b) && WellFormed(t.sub, c)
    requires x == Some(Sub(b)) || (x == None && b == Empty(t.sub))
    ensures MergeField(t, x, Some(Sub(c))) == Some(Sub(Merge(t.sub, b, c)))
  {
    hide WellFormed, Merge;
    if x == None { MergeEmptyLeft(t.sub, c); }
  }

  lemma AbsentMerged(sch: Schema, a: Message, b: Message)
    requires WellFormed(sch, a) && WellFormed(sch, b)
    ensures |Merge(sch, a, b).fields| == |a.fields| == |b.fields| == |sch.fields|
    ensures forall i | 0 <= i < |sch.fields| :: b.fields[i].None? ==> Merge(sch, a, b).fields[i] == a.fields[i]
  {
  }

  lemma TypeView(sch: Schema, bits: bv32, t: int, bodies: Bodies, unknown: seq<Record>, v: int)
    requires CoherentPacket(sch, bits, t, bodies, unknown) && -0x8000_0000 <= v < 0x8000_0000
    ensures CoherentPacket(sch, Set(bits, 0), v, bodies, unknown) && CoherentPacket(sch, Unset(bits, 0), 0, bodies, unknown)
    ensures var m := PacketViewOf(sch, bits, t, bodies, unknown);
            && PacketViewOf(sch, Set(bits, 0), v, bodies, unknown) == m.(fields := m.fields[0 := Some(Num(v))])
            && PacketViewOf(sch, Unset(bits, 0), 0, bodies, unknown) == m.(fields := m.fields[0 := None])
  {
    hide Has, HasBits.Set, Unset, Known, WellFormed;
    HasSetAll(bits, 0);
    HasUnsetAll(bits, 0);
    var m := PacketViewOf(sch, bits, t, bodies, unknown);
    SameFields(PacketViewOf(sch, Set(bits, 0), v, bodies, unknown), m.(fields := m.fields[0 := Some(Num(v))]));
    SameFields(PacketViewOf(sch, Unset(bits, 0), 0, bodies, unknown), m.(fields := m.fields[0 := None]));
  }

  lemma SetBodyView(sch: Schema, bits: bv32, t: int, bodies: Bodies, unknown: seq<Record>, k: nat, b: Message)
    requires CoherentPacket(sch, bits, t, bodies, unknown) && IsBody(sch, k) && WellFormed(sch.fields[k].sub, b)
    ensures CoherentPacket(sch, Set(bits, k), t, bodies[k := Some(b)], unknown)
    ensures var m := PacketViewOf(sch, bits, t, bodies, unknown);
            PacketViewOf(sch, Set(bits, k), t, bodies[k := Some(b)], unknown) == m.(fields := m.fields[k := Some(Sub(b))])
  {
    hide Has, HasBits.Set, Known, WellFormed;
    HasSetAll(bits, k);
    var m := PacketViewOf(sch, bits, t, bodies, unknown);
    SameFields(PacketViewOf(sch, Set(bits, k), t, bodies[k := Some(b)], unknown), m.(fields := m.fields[k := Some(Sub(b))]));
  }

  lemma EditBodyView(sch: Schema, bits: bv32, t: int, bodies: Bodies, unknown: seq<Record>, k: nat, b: Message)
    requires CoherentPacket(sch, bits, t, bodies, unknown) && IsBody(sch, k) && WellFormed(sch.fields[k].sub, b)
    requires Has(bits, k)
    ensures CoherentPacket(sch, bits, t, bodies[k := Some(b)], unknown)
    ensures var m := PacketViewOf(sch, bits, t, bodies, unknown);
            PacketViewOf(sch, bits, t, bodies[k := Some(b)], unknown) == m.(fields := m.fields[k := Some(Sub(b))])
  {
    hide Has, Known, WellFormed;
    var m := PacketViewOf(sch, bits, t, bodies, unknown);
    SameFields(PacketViewOf(sch, bits, t, bodies[k := Some(b)], unknown), m.(fields := m.fields[k := Some(Sub(b))]));
  }

  lemma AbsentEdit(sch: Schema, bits: bv32, t: int, bodies: Bodies, unknown: seq<Record>, k: nat, b: Message)
    requires CoherentPacket(sch, bits, t, bodies, unknown) && IsBody(sch, k) && WellFormed(sch.fields[k].sub, b)
    requires !Has(bits, k)
    ensures CoherentPacket(sch, bits, t, bodies[k := Some(b)], unknown) <==> b == Empty(sch.fields[k].sub)
  {
    hide Has, Known, WellFormed;
  }

  lemma UnsetBodyView(sch: Schema, bits: bv32, t: int, bodies: Bodies, unknown: seq<Record>, k: nat, b: Option<Message>)
    requires CoherentPacket(sch, bits, t, bodies, unknown) && IsBody(sch, k)
    requires b == None || b == Some(Empty(sch.fields[k].sub))
    ensures CoherentPacket(sch, Unset(bits, k), t, bodies[k := b], unknown)
    ensures var m := PacketViewOf(sch, bits, t, bodies, unknown);
            PacketViewOf(sch, Unset(bits, k), t, bodies[k := b], unknown) == m.(fields := m.fields[k := None])
  {
    hide Has, Unset, Known, WellFormed;
    HasUnsetAll(bits, k);
    var m := PacketViewOf(sch, bits, t, bodies, unknown);
    SameFields(PacketViewOf(sch, Unset(bits, k), t, bodies[k := b], unknown), m.(fields := m.fields[k := None]));
  }

  lemma UnknownView(sch: Schema, bits: bv32, t: int, bodies: Bodies, unknown: seq<Record>, us: seq<Record>)
    requires CoherentPacket(sch, bits, t, bodies, unknown)
    requires forall r | r in us :: ValidRecord(r) && !Known(sch, r)
    ensures CoherentPacket(sch, bits, t, bodies, us)
    ensures PacketViewOf(sch, bits, t, bodies, us) == PacketViewOf(sch, bits, t, bodies, unknown).(unknown := us)
  {
    hide Has, Known, WellFormed;
    SameFields(PacketViewOf(sch, bits, t, bodies, us), PacketViewOf(sch, bits, t, bodies, unknown).(unknown := us));
  }

  lemma PacketInitialized(sch: Schema, bits: bv32, t: int, bodies: Bodies, unknown: seq<Record>)
    requires CoherentPacket(sch, bits, t, bodies, unknown)
    ensures WellFormed(sch, PacketViewOf(sch, bits, t, bodies, unknown))
    ensures PassesMask(bits, sch.required) <==> Initialized(sch, PacketViewOf(sch, bits, t, bodies, unknown))
  {
    hide Has, PassesMask;
    PacketViewWellFormed(sch, bits, t, bodies, unknown);
    MaskTest(bits, sch.required);
    var m := PacketViewOf(sch, bits, t, bodies, unknown);
    assert forall k: nat | k < |sch.fields| :: m.fields[k].Some? <==> Has(bits, k);
    assert Initialized(sch, m) <==> forall k: nat | k < sch.required :: m.fields[k].Some?;
  }

  lemma EmptyPacket(sch: Schema, bodies: Bodies)
    requires PacketSchema(sch) && |bodies| == |sch.fields| && bodies[0] == None
    requires forall k: nat | IsBody(sch, k) :: bodies[k] == None || bodies[k] == Some(Empty(sch.fields[k].sub))
    ensures CoherentPacket(sch, 0, 0, bodies, []) && PacketViewOf(sch, 0, 0, bodies, []) == Empty(sch)
  {
    hide Has;
    forall k: nat | k < |sch.fields| ensures !Has(0, k) { NoBits(k); }
    SameFields(PacketViewOf(sch, 0, 0, bodies, []), Empty(sch));
  }

  class Packet {
    const schema: Schema
    var hasBits: bv32
    var type_: int
    /** Index k points to the sub-message with field index k; index 0 is not used. */
    var children: seq<Leaf?>
    var unknown: seq<Record>
    var cachedSize: nat

    /** The sub-messages this packet owns. */
    ghost function Owned(): set<Leaf>
      reads `children
    {
      set c: Leaf? | c in children && c != null :: c
    }

    ghost predicate ValidChildren()
      reads `children, Owned()
      ensures ValidChildren() ==> PacketSchema(schema) && 1 <= |schema.fields| <= 15 && |children| == |schema.fields|
    {
      && PacketSchema(schema)
      && |children| == |schema.fields| && children[0] == null
      && (forall k: nat | IsBody(schema, k) && children[k] != null ::
            children[k] in Owned() && children[k].Valid() && children[k].schema == schema.fields[k].sub)
      && (forall j: nat, k: nat | j < k < |children| && children[j] != null :: children[j] != children[k])
    }

    ghost function Shown(k: nat): Option<Message>
      requires ValidChildren() && k < |children|
      reads `children, Owned()
    {
      if children[k] == null then None else assert IsBody(schema, k); Some(children[k].View())
    }

    ghost function ShownUpto(n: nat): (bodies: Bodies)
      requires ValidChildren() && n <= |children|
      reads `children, Owned()
      ensures |bodies| == n && forall k: nat | k < n :: bodies[k] == Shown(k)
    {
      if n == 0 then [] else ShownUpto(n - 1) + [Shown(n - 1)]
    }

    ghost function Bodies(): (bodies: Bodies)
      requires ValidChildren()
      reads `children, Owned()
      ensures |bodies| == |schema.fields|
      ensures forall k: nat | k < |children| :: bodies[k] == Shown(k)
    {
      ShownUpto(|children|)
    }

    ghost predicate Valid()
      reads `hasBits, `type_, `children, `unknown, Owned()
      ensures Valid() ==> ValidChildren()
    {
      ValidChildren() && CoherentPacket(schema, hasBits, type_, Bodies(), unknown)
    }

    ghost function View(): (m: Message)
      requires Valid()
      reads `hasBits, `type_, `children, `unknown, Owned()
      ensures WellFormed(schema, m) && |m.fields| == |schema.fields|
    {
      PacketViewWellFormed(schema, hasBits, type_, Bodies(), unknown);
      PacketViewOf(schema, hasBits, type_, Bodies(), unknown)
    }

    constructor (sch: Schema)
      requires PacketSchema(sch)
      ensures Valid() && schema == sch && View() == Empty(sch) && Owned() == {}
    {
      schema := sch;
      hasBits, type_, unknown, cachedSize := 0, 0, [], 0;
      children := seq(|sch.fields|, i => null);
      new;
      EmptyPacket(schema, Bodies());
    }

    /** Valid and View, spelled out. */
    lemma Shape()
      ensures Valid() <==> ValidChildren() && CoherentPacket(schema, hasBits, type_, Bodies(), unknown)
      ensures Valid() ==> View() == PacketViewOf(schema, hasBits, type_, Bodies(), unknown)
    {
    }

    lemma DistinctChildren(k: nat)
      requires ValidChildren() && IsBody(schema, k)
      ensures forall j: nat | j < |children| && j != k :: children[j] == null || children[j] != children[k]
      ensures children[k] != null ==>
                children[k] in Owned() && children[k].Valid() && children[k].schema == schema.fields[k].sub
                && Bodies()[k] == Some(children[k].View())
      ensures children[k] == null ==> Bodies()[k] == None
    {
    }

    /** A change inside sub-message k leaves what the others show as it was. */
    twostate lemma OthersKept(k: nat)
      requires old(ValidChildren()) && IsBody(schema, k) && unchanged(`children)
      requires forall j: nat | j < |children| && j != k && children[j] != null :: unchanged(children[j])
      requires children[k] != null && children[k].Valid()
      ensures ValidChildren() && Owned() == old(Owned())
      ensures Bodies() == old(Bodies())[k := Some(children[k].View())]
    {
      hide Leaves.Coherent, Leaves.ViewOf, WellFormed;
      assert forall j: nat | j < |children| && j != k :: Shown(j) == old(Shown(j));
    }

    /** Pointer k replaced by another one, or by null. */
    twostate lemma PointerReplaced(k: nat)
      requires old(ValidChildren()) && IsBody(schema, k) && |children| == |schema.fields|
      requires children == old(children)[k := children[k]]
      requires forall c: Leaf | c in old(Owned()) :: unchanged(c)
      requires children[k] != null ==> children[k].Valid() && children[k].schema == schema.fields[k].sub
      requires children[k] != null ==> children[k] !in old(Owned())
      ensures ValidChildren()
      ensures Bodies() == old(Bodies())[k := if children[k] == null then None else Some(children[k].View())]
    {
      hide Leaves.Coherent, Leaves.ViewOf, WellFormed;
      forall j: nat | j < |children| && j != k && children[j] != null
        ensures children[j] in old(Owned()) && children[j] in Owned()
      {
        assert old(children)[j] in old(children) && children[j] in children;
      }
      if children[k] != null { assert children[k] in children; }
    }

    /** set_type. */
    method SetType(v: int)
      requires Valid() && -0x8000_0000 <= v < 0x8000_0000
      modifies `hasBits, `type_
      ensures Valid() && View() == old(View()).(fields := old(View()).fields[0 := Some(Num(v))])
    {
      hide CoherentPacket, PacketViewOf, Has, HasBits.Set, Unset, WellFormed, Known, Leaves.Coherent, Leaves.ViewOf;
      Shape();
      TypeView(schema, hasBits, type_, Bodies(), unknown, v);
      hasBits := Set(hasBits, 0);
      type_ := v;
      assert Bodies() == old(Bodies());
      Shape();
    }

    method ClearType()
      requires Valid()
      modifies `hasBits, `type_
      ensures Valid() && View() == old(View()).(fields := old(View()).fields[0 := None])
    {
      hide CoherentPacket, PacketViewOf, Has, HasBits.Set, Unset, WellFormed, Known, Leaves.Coherent, Leaves.ViewOf;
      Shape();
      TypeView(schema, hasBits, type_, Bodies(), unknown, 0);
      type_ := 0;
      hasBits := Unset(hasBits, 0);
      assert Bodies() == old(Bodies());
      Shape();
    }

    /** What a sub-message accessor shows: the sub-message, or the default instance for a null pointer. */
    ghost function Body(k: nat): (m: Message)
      requires Valid() && IsBody(schema, k)
      reads `hasBits, `type_, `children, `unknown, Owned()
      ensures WellFormed(schema.fields[k].sub, m)
    {
      if children[k] == null then Empty(schema.fields[k].sub) else children[k].View()
    }

    /** The accessor shows the field's value, and an empty message when the field is absent. */
    lemma BodyIsField(k: nat)
      requires Valid() && IsBody(schema, k)
      ensures View().fields[k] == if Has(hasBits, k) then Some(Sub(Body(k))) else None
      ensures View().fields[k].None? ==> Body(k) == Empty(schema.fields[k].sub)
      ensures Bodies()[k] == if children[k] == null then None else Some(Body(k))
      ensures children[k] == null ==> Body(k) == Empty(schema.fields[k].sub)
      ensures Has(hasBits, k) ==> children[k] != null
    {
    }

    /** x() for a sub-message: the sub-message, or the default instance. */
    method GetChild(k: nat) returns (c: Leaf)
      requires Valid() && IsBody(schema, k)
      ensures c.Valid() && c.schema == schema.fields[k].sub && c.View() == Body(k)
      ensures c in Owned() || fresh(c)
    {
      hide CoherentPacket, PacketViewOf, Has, WellFormed, Known, Leaves.Coherent, Leaves.ViewOf;
      DistinctChildren(k);
      if children[k] == null {
        c := new Leaf(schema.fields[k].sub);
        assert Bodies() == old(Bodies());
      } else {
        c := children[k];
      }
    }

    /** The type accessor. */
    lemma TypeIsField()
      requires Valid()
      ensures View().fields[0] == if Has(hasBits, 0) then Some(Num(type_)) else None
      ensures View().fields[0].None? ==> type_ == 0
      ensures -0x8000_0000 <= type_ < 0x8000_0000
    {
    }

    /**
     mutable_x: marks the sub-message present and makes one if there is none. A recycled
     one is indistinguishable from a new one: both show what the accessor showed.
     */
    method MutableChild(k: nat) returns (c: Leaf)
      requires Valid() && IsBody(schema, k)
      modifies `hasBits, `children
      ensures Valid() && c == children[k] && c in Owned() && c.schema == schema.fields[k].sub
      ensures c.Valid() && c.View() == old(Body(k))
      ensures if old(children[k]) == null then fresh(c) else c == old(children[k])
      ensures children == old(children)[k := c] && Has(hasBits, k)
      ensures View() == old(View()).(fields := old(View()).fields[k := Some(Sub(old(Body(k))))])
    {
      hide CoherentPacket, PacketViewOf, Has, HasBits.Set, Unset, WellFormed, Known, Leaves.Coherent, Leaves.ViewOf;
      Shape();
      BodyIsField(k);
      DistinctChildren(k);
      SetBodyView(schema, hasBits, type_, Bodies(), unknown, k, Body(k));
      HasSet(hasBits, k, k);
      label before:
      hasBits := Set(hasBits, k);
      if children[k] == null {
        c := new Leaf(schema.fields[k].sub);
        children := children[k := c];
        PointerReplaced@before(k);
        assert c in children;
      } else {
        c := children[k];
        assert Bodies() == old(Bodies())[k := Some(c.View())];
      }
      Shape();
    }

    /** clear_x: a sub-message is cleared and kept for the next use. */
    method ClearChild(k: nat)
      requires Valid() && IsBody(schema, k)
      modifies `hasBits, Owned()
      ensures Valid() && children == old(children)
      ensures View() == old(View()).(fields := old(View()).fields[k := None])
    {
      hide CoherentPacket, PacketViewOf, Has, HasBits.Set, Unset, WellFormed, Known, Leaves.Coherent, Leaves.ViewOf;
      Shape();
      DistinctChildren(k);
      UnsetBodyView(schema, hasBits, type_, Bodies(), unknown, k,
                    if children[k] == null then None else Some(Empty(schema.fields[k].sub)));
      if children[k] != null {
        children[k].Clear();
        OthersKept(k);
      } else {
        assert Bodies() == old(Bodies())[k := None];
      }
      hasBits := Unset(hasBits, k);
      Shape();
    }

    /**
     release_x: gives the sub-message away, if there is one. An absent field gives null or
     a recycled, empty one, so here a caller can tell them apart.
     */
    method ReleaseChild(k: nat) returns (c: Leaf?)
      requires Valid() && IsBody(schema, k)
      modifies `hasBits, `children
      ensures Valid() && View() == old(View()).(fields := old(View()).fields[k := None])
      ensures c == old(children)[k] && children == old(children)[k := null]
      ensures c != null ==> c !in Owned() && c.Valid() && c.schema == schema.fields[k].sub && c.View() == old(Body(k))
      ensures c != null && old(View()).fields[k].None? ==> c.View() == Empty(schema.fields[k].sub)
      ensures old(View()).fields[k].Some? ==> c != null && old(View()).fields[k].value == Sub(c.View())
    {
      hide CoherentPacket, PacketViewOf, Has, HasBits.Set, Unset, WellFormed, Known, Leaves.Coherent, Leaves.ViewOf;
      Shape();
      BodyIsField(k);
      DistinctChildren(k);
      UnsetBodyView(schema, hasBits, type_, Bodies(), unknown, k, None);
      hasBits := Unset(hasBits, k);
      c := children[k];
      children := children[k := null];
      PointerReplaced(k);
      Shape();
    }

    /** set_allocated_x: adopts a sub-message, or drops the field for a null pointer. */
    method SetAllocatedChild(k: nat, c: Leaf?)
      requires Valid() && IsBody(schema, k)
      requires c != null ==> c.Valid() && c.schema == schema.fields[k].sub && c !in Owned()
      modifies `hasBits, `children
      ensures Valid() && children == old(children)[k := c]
      ensures View() == old(View()).(fields := old(View()).fields[k := if c == null then None else Some(Sub(c.View()))])
    {
      hide CoherentPacket, PacketViewOf, Has, HasBits.Set, Unset, WellFormed, Known, Leaves.Coherent, Leaves.ViewOf;
      Shape();
      children := children[k := c];
      PointerReplaced(k);
      ghost var bodies := Bodies();
      if c != null {
        SetBodyView(schema, hasBits, type_, old(Bodies()), unknown, k, c.View());
        hasBits := Set(hasBits, k);
      } else {
        UnsetBodyView(schema, hasBits, type_, old(Bodies()), unknown, k, None);
        hasBits := Unset(hasBits, k);
      }
      assert Bodies() == bodies;
      Shape();
    }

    /**
     A present sub-message may be changed through its pointer; the packet then shows that
     change and no other.
     */
    twostate lemma ChildEdited(k: nat)
      requires old(Valid()) && IsBody(schema, k) && Has(hasBits, k)
      requires unchanged(`hasBits) && unchanged(`type_) && unchanged(`children) && unchanged(`unknown)
      requires forall j: nat | j < |children| && j != k && children[j] != null :: unchanged(children[j])
      requires children[k] != null && children[k].Valid()
      ensures Valid() && Owned() == old(Owned())
      ensures View() == old(View()).(fields := old(View()).fields[k := Some(Sub(children[k].View()))])
    {
      hide CoherentPacket, PacketViewOf, Has, HasBits.Set, Unset, WellFormed, Known, Leaves.Coherent, Leaves.ViewOf;
      OthersKept(k);
      DistinctChildren(k);
      EditBodyView(schema, hasBits, type_, old(Bodies()), unknown, k, children[k].View());
      Shape();
    }

    /**
     What recycling asks of callers. A pointer from mutable_x may still be written through
     after clear_x; the packet is coherent then exactly when it left the sub-message empty,
     and otherwise the next mutable_x would show what was written.
     */
    twostate lemma StalePointer(k: nat)
      requires old(Valid()) && IsBody(schema, k) && !Has(hasBits, k)
      requires unchanged(`hasBits) && unchanged(`type_) && unchanged(`children) && unchanged(`unknown)
      requires forall j: nat | j < |children| && j != k && children[j] != null :: unchanged(children[j])
      requires children[k] != null && children[k].Valid()
      ensures Valid() <==> children[k].View() == Empty(schema.fields[k].sub)
    {
      hide CoherentPacket, PacketViewOf, Has, HasBits.Set, Unset, WellFormed, Known, Leaves.Coherent, Leaves.ViewOf;
      OthersKept(k);
      DistinctChildren(k);
      AbsentEdit(schema, hasBits, type_, old(Bodies()), unknown, k, children[k].View());
      Shape();
    }

    // ----- Clear, merge, copy, swap -----

    /** One group of Clear: the present sub-messages are cleared in place. */
    method ClearGroup(lo: nat, hi: nat)
      requires ValidChildren() && 1 <= lo <= hi <= |children|
      modifies Owned()
      ensures ValidChildren() && Owned() == old(Owned())
      ensures forall j: nat | j < |children| ::
                Bodies()[j] == if lo <= j < hi && Has(hasBits, j) && children[j] != null then Some(Empty(schema.fields[j].sub))
                               else old(Bodies())[j]
    {
      hide CoherentPacket, PacketViewOf, Has, HasBits.Set, Unset, WellFormed, Known, Leaves.Coherent, Leaves.ViewOf;
      hide ValidSchema, LeafSchema;
      for k := lo to hi
        invariant ValidChildren() && Owned() == old(Owned())
        invariant forall j: nat | j < |children| ::
                    Bodies()[j] == if lo <= j < k && Has(hasBits, j) && children[j] != null then Some(Empty(schema.fields[j].sub))
                                   else old(Bodies())[j]
      {
        assert IsBody(schema, k);
        DistinctChildren(k);
        label step:
        if Has(hasBits, k) && children[k] != null {
          children[k].Clear();
          OthersKept@step(k);
        }
      }
    }

    /** A group mask that is zero means that no field of the group is present. */
    lemma GroupBits()
      requires ValidChildren()
      ensures hasBits & 0xff == 0 ==> forall i: nat | i < 8 && i < |schema.fields| :: !Has(hasBits, i)
      ensures hasBits & 0xff00 == 0 ==> forall i: nat | 8 <= i < |schema.fields| :: !Has(hasBits, i)
    {
      LowGroupMask(hasBits);
      HighGroupMask(hasBits);
    }

    /** What Valid says about one field. */
    lemma AbsentBody(k: nat)
      requires Valid() && IsBody(schema, k) && !Has(hasBits, k)
      ensures Bodies()[k] == None || Bodies()[k] == Some(Empty(schema.fields[k].sub))
    {
    }

    /** Every sub-message pointer shows null or an empty message. */
    ghost predicate AllCleared()
      requires ValidChildren()
      reads `children, Owned()
    {
      forall k: nat | IsBody(schema, k) :: Bodies()[k] == None || Bodies()[k] == Some(Empty(schema.fields[k].sub))
    }

    /** The guarded groups of Clear. */
    method ClearFields()
      requires Valid()
      modifies `type_, Owned()
      ensures ValidChildren() && Owned() == old(Owned()) && AllCleared() && type_ == 0 && Bodies()[0] == None
    {
      hide CoherentPacket, PacketViewOf, Has, HasBits.Set, Unset, WellFormed, Known, Leaves.Coherent, Leaves.ViewOf, Valid, View;
      hide ValidSchema, LeafSchema;
      GroupBits();
      Shape();
      forall k: nat | IsBody(schema, k) ensures !Has(hasBits, k) || children[k] == null ==>
                                                  Bodies()[k] == None || Bodies()[k] == Some(Empty(schema.fields[k].sub))
      {
        if !Has(hasBits, k) { AbsentBody(k); }
      }
      assert Bodies()[0] == None;
      if hasBits & 0xff != 0 {
        type_ := 0;
        assert Bodies() == old(Bodies());
        ClearGroup(1, if |schema.fields| < 8 then |schema.fields| else 8);
      } else {
        AbsentTypeZero();
      }
      if |schema.fields| > 8 && hasBits & 0xff00 != 0 { ClearGroup(8, |schema.fields|); }
    }

    /**
     Clear is a full reset, although it skips groups without a present field and keeps
     the sub-messages themselves.
     */
    method Clear()
      requires Valid()
      modifies `hasBits, `type_, `unknown, Owned()
      ensures Valid() && View() == Empty(schema)
      ensures children == old(children)
    {
      hide CoherentPacket, PacketViewOf, Has, HasBits.Set, Unset, WellFormed, Known, Leaves.Coherent, Leaves.ViewOf;
      ClearFields();
      ghost var now := Bodies();
      hasBits := 0;
      unknown := [];
      assert Bodies() == now;
      EmptyPacket(schema, now);
      Shape();
    }

    lemma AbsentTypeZero()
      requires Valid() && hasBits & 0xff == 0
      ensures type_ == 0
    {
      LowGroupMask(hasBits);
      assert !Has(hasBits, 0);
    }

    /** A message merged into sub-message k, which is made or recycled if need be. */
    method MergeIntoChild(k: nat, source: Leaf)
      requires Valid() && IsBody(schema, k)
      requires source.Valid() && source.schema == schema.fields[k].sub && source !in Owned()
      modifies `hasBits, `children, Owned()
      ensures Valid() && fresh(Owned() - old(Owned()))
      ensures View() == old(View()).(fields := old(View()).fields[k :=
                          Some(Sub(Merge(schema.fields[k].sub, old(Body(k)), old(source.View()))))])
    {
      hide CoherentPacket, PacketViewOf, Has, HasBits.Set, Unset, WellFormed, Known, Leaves.Coherent, Leaves.ViewOf;
      hide Merge, ValidSchema, LeafSchema;
      ghost var m, b := View(), Body(k);
      var c := MutableChild(k);
      label step:
      DistinctChildren(k);
      c.MergeFrom(source);
      ChildEdited@step(k);
      SameFields(View(), m.(fields := m.fields[k := Some(Sub(c.View()))]));
    }

    /** One sub-message of MergeFrom. */
    method MergeChild(from: Packet, k: nat)
      requires Valid() && from.Valid() && from != this && from.schema == schema && Owned() !! from.Owned()
      requires IsBody(schema, k) && Has(from.hasBits, k)
      modifies `hasBits, `children, Owned()
      ensures Valid() && fresh(Owned() - old(Owned()))
      ensures View() == old(View()).(fields := old(View()).fields[k :=
                          MergeField(schema.fields[k], old(View()).fields[k], old(from.View()).fields[k])])
    {
      hide CoherentPacket, PacketViewOf, Has, HasBits.Set, Unset, WellFormed, Known, Leaves.Coherent, Leaves.ViewOf;
      hide Merge, MergeField, ValidSchema, LeafSchema;
      from.BodyIsField(k);
      from.DistinctChildren(k);
      BodyIsField(k);
      MergedBody(schema.fields[k], View().fields[k], Body(k), from.children[k].View());
      MergeIntoChild(k, from.children[k]);
    }

    /** One field of MergeFrom, if it is present there. */
    method MergeOne(from: Packet, k: nat)
      requires Valid() && from.Valid() && from != this && from.schema == schema && Owned() !! from.Owned()
      requires IsBody(schema, k)
      modifies `hasBits, `children, Owned()
      ensures Valid() && fresh(Owned() - old(Owned())) && Owned() !! from.Owned()
      ensures from.Valid() && from.View() == old(from.View())
      ensures View() == old(View()).(fields := old(View()).fields[k :=
                          Merge(schema, old(View()), old(from.View())).fields[k]])
    {
      hide CoherentPacket, PacketViewOf, Has, HasBits.Set, Unset, WellFormed, Known, Leaves.Coherent, Leaves.ViewOf;
      from.BodyIsField(k);
      MergedAt(schema, View(), View(), from.View(), k);
      if Has(from.hasBits, k) {
        MergeChild(from, k);
      } else {
        SameFields(View(), View().(fields := View().fields[k := View().fields[k]]));
      }
    }

    method MergeGroup(from: Packet, lo: nat, hi: nat)
      requires Valid() && from.Valid() && from != this && from.schema == schema && Owned() !! from.Owned()
      requires 1 <= lo <= hi <= |schema.fields|
      modifies `hasBits, `children, Owned()
      ensures Valid() && fresh(Owned() - old(Owned())) && View().unknown == old(View()).unknown
      ensures Owned() !! from.Owned() && from.Valid() && from.View() == old(from.View())
      ensures forall i | 0 <= i < |schema.fields| ::
                View().fields[i] == (if lo <= i < hi then Merge(schema, old(View()), old(from.View())) else old(View())).fields[i]
    {
      hide CoherentPacket, PacketViewOf, Has, HasBits.Set, Unset, WellFormed, Known, Leaves.Coherent, Leaves.ViewOf;
      hide MergeField, Merge, ValidSchema, LeafSchema, ValidChildren;
      ghost var a, b := View(), from.View();
      for k := lo to hi
        invariant Valid() && fresh(Owned() - old(Owned())) && View().unknown == a.unknown
        invariant Owned() !! from.Owned() && from.Valid() && from.View() == b
        invariant forall i | 0 <= i < |schema.fields| ::
                    View().fields[i] == (if lo <= i < k then Merge(schema, a, b) else a).fields[i]
      {
        AbsentGroups();
        assert IsBody(schema, k);
        MergedAt(schema, a, View(), b, k);
        MergeOne(from, k);
      }
    }

    method AppendUnknown(rs: seq<Record>)
      requires Valid() && forall r | r in rs :: ValidRecord(r) && !Known(schema, r)
      modifies `unknown
      ensures Valid() && View() == old(View()).(unknown := old(View()).unknown + rs)
    {
      ghost var before := View();
      UnknownView(schema, hasBits, type_, Bodies(), unknown, unknown + rs);
      unknown := unknown + rs;
      assert Bodies() == old(Bodies());
    }

    /** A group mask that is zero means that the message shows no field of the group. */
    lemma AbsentGroups()
      requires Valid()
      ensures hasBits & 0xff == 0 ==> forall i | 0 <= i < 8 && i < |schema.fields| :: View().fields[i].None?
      ensures hasBits & 0xff00 == 0 ==> forall i | 8 <= i < |schema.fields| :: View().fields[i].None?
      ensures View().unknown == unknown && ValidSchema(schema) && schema.fields[0].FInt32?
      ensures forall r | r in unknown :: ValidRecord(r) && !Known(schema, r)
    {
      hide Has;
      GroupBits();
    }

    /** The fields of MergeFrom, group by group. */
    method MergeFields(from: Packet)
      requires Valid() && from.Valid() && from != this && from.schema == schema && Owned() !! from.Owned()
      modifies `hasBits, `type_, `children, Owned()
      ensures Valid() && fresh(Owned() - old(Owned())) && View().unknown == old(View()).unknown
      ensures View().fields == Merge(schema, old(View()), old(from.View())).fields
    {
      hide CoherentPacket, PacketViewOf, Has, HasBits.Set, Unset, WellFormed, Known, Leaves.Coherent, Leaves.ViewOf;
      hide Valid, View;
      hide MergeField, Merge, ValidSchema, LeafSchema, ValidChildren;
      ghost var a, b := View(), from.View();
      var n := |schema.fields|;
      from.AbsentGroups();
      AbsentMerged(schema, a, b);
      if from.hasBits & 0xff != 0 {
        MergeType(from);
        forall i: nat | 0 < i < n ensures Merge(schema, View(), b).fields[i] == Merge(schema, a, b).fields[i] {
          MergedAt(schema, a, View(), b, i);
        }
        MergeGroup(from, 1, if n < 8 then n else 8);
      }
      ghost var x := View();
      if n > 8 && from.hasBits & 0xff00 != 0 {
        forall i: nat | 8 <= i < n ensures Merge(schema, x, b).fields[i] == Merge(schema, a, b).fields[i] {
          MergedAt(schema, a, x, b, i);
        }
        MergeGroup(from, 8, n);
      }
    }

    method MergeType(from: Packet)
      requires Valid() && from.Valid() && from != this && from.schema == schema && Owned() !! from.Owned()
      modifies `hasBits, `type_
      ensures Valid() && Owned() == old(Owned()) && from.Valid() && from.View() == old(from.View())
      ensures View() == old(View()).(fields := old(View()).fields[0 :=
                          Merge(schema, old(View()), old(from.View())).fields[0]])
    {
      hide CoherentPacket, PacketViewOf, Has, HasBits.Set, Unset, WellFormed, Known, Leaves.Coherent, Leaves.ViewOf;
      from.TypeIsField();
      from.AbsentGroups();
      MergedAt(schema, View(), View(), from.View(), 0);
      if Has(from.hasBits, 0) {
        SetType(from.type_);
      } else {
        SameFields(View(), View().(fields := View().fields[0 := View().fields[0]]));
      }
    }

    /** MergeFrom: the type overwrites, sub-messages merge, unknown records append. */
    method MergeFrom(from: Packet)
      requires Valid() && from.Valid() && from != this && from.schema == schema && Owned() !! from.Owned()
      modifies `hasBits, `type_, `children, `unknown, Owned()
      ensures Valid() && fresh(Owned() - old(Owned()))
      ensures View() == Merge(schema, old(View()), old(from.View()))
    {
      hide CoherentPacket, PacketViewOf, Has, HasBits.Set, Unset, WellFormed, Known, Leaves.Coherent, Leaves.ViewOf;
      from.AbsentGroups();
      MergeFields(from);
      label last:
      AppendUnknown(from.unknown);
      assert Owned() == old@last(Owned());
    }

    /** CopyFrom: equal afterwards, whatever was here before. */
    method CopyFrom(from: Packet)
      requires Valid() && from.Valid() && from.schema == schema && (from != this ==> Owned() !! from.Owned())
      modifies `hasBits, `type_, `children, `unknown, Owned()
      ensures Valid() && fresh(Owned() - old(Owned()))
      ensures View() == old(from.View())
    {
      hide CoherentPacket, PacketViewOf, Has, HasBits.Set, Unset, WellFormed, Known, Leaves.Coherent, Leaves.ViewOf;
      if from != this {
        Clear();
        MergeEmptyLeft(schema, from.View());
        MergeFrom(from);
      }
    }

    /** A packet that took over another's fields shows what that one showed. */
    twostate lemma TakenOver(from: Packet)
      requires old(from.Valid()) && from.schema == schema && forall c: Leaf | c in old(from.Owned()) :: unchanged(c)
      requires hasBits == old(from.hasBits) && type_ == old(from.type_)
      requires children == old(from.children) && unknown == old(from.unknown)
      ensures Valid() && View() == old(from.View())
    {
      hide CoherentPacket, PacketViewOf, Has, HasBits.Set, Unset, WellFormed, Known, Leaves.Coherent, Leaves.ViewOf;
      hide ValidSchema, LeafSchema, PacketSchema;
      forall k: nat | k < |children| && children[k] != null ensures unchanged(children[k]) { assert children[k] in old(from.children); }
      assert ValidChildren();
      forall k: nat | k < |children| ensures Shown(k) == old(from.Shown(k)) {}
      assert Bodies() == old(from.Bodies());
      Shape();
    }

    /** Swap exchanges the pointers, not what they point to. */
    method Swap(other: Packet)
      requires Valid() && other.Valid() && other.schema == schema
      modifies this, other
      ensures Valid() && other.Valid()
      ensures View() == old(other.View()) && other.View() == old(View())
      ensures children == old(other.children) && other.children == old(children)
      ensures cachedSize == old(other.cachedSize) && other.cachedSize == old(cachedSize)
    {
      hide Valid, View, CoherentPacket, Has;
      if other != this {
        hasBits, other.hasBits := other.hasBits, hasBits;
        type_, other.type_ := other.type_, type_;
        children, other.children := other.children, children;
        unknown, other.unknown := other.unknown, unknown;
        cachedSize, other.cachedSize := other.cachedSize, cachedSize;
        TakenOver(other);
        other.TakenOver(this);
      }
    }

    method IsInitialized() returns (ok: bool)
      requires Valid()
      ensures ok <==> Initialized(schema, View())
    {
      PacketInitialized(schema, hasBits, type_, Bodies(), unknown);
      ok := PassesMask(hasBits, schema.required);
    }

    // ----- Two-pass serialization -----

    /** Each present sub-message remembers its own size, which is the length prefix the second pass needs. */
    ghost predicate SizesCached(lo: nat, hi: nat)
      requires Valid() && hi <= |schema.fields|
      reads `hasBits, `type_, `children, `unknown, Owned()
    {
      forall k: nat | IsBody(schema, k) && lo <= k < hi && Has(hasBits, k) ::
        children[k] != null && children[k].Valid() && children[k].schema == schema.fields[k].sub
        && children[k].cachedSize == |Encode(schema.fields[k].sub, children[k].View())|
    }

    method ChildByteSize(k: nat) returns (size: nat)
      requires Valid() && IsBody(schema, k) && Has(hasBits, k)
      modifies Owned()
      ensures Valid() && Owned() == old(Owned()) && View() == old(View())
      ensures children[k] != null && children[k].Valid() && children[k].schema == schema.fields[k].sub
      ensures View().fields[k] == Some(Sub(children[k].View()))
      ensures size == |Encode(schema.fields[k].sub, children[k].View())| == children[k].cachedSize
      ensures forall j: nat | j < |children| && j != k && children[j] != null :: unchanged(children[j])
    {
      hide CoherentPacket, PacketViewOf, Has, HasBits.Set, Unset, WellFormed, Known, Leaves.Coherent, Leaves.ViewOf;
      BodyIsField(k);
      DistinctChildren(k);
      size := children[k].ByteSize();
      ChildEdited(k);
      SameFields(View(), old(View()));
    }

    /** What one sub-message adds, if it is present; its size is cached, and no other cached size changes. */
    method FieldSizeAt(k: nat) returns (n: nat)
      requires Valid() && IsBody(schema, k)
      modifies Owned()
      ensures Valid() && Owned() == old(Owned()) && View() == old(View())
      ensures n + SizeFrom(schema, View(), k + 1) == SizeFrom(schema, View(), k)
      ensures SizesCached(k, k + 1)
      ensures forall j: nat | j < |children| && j != k && children[j] != null :: unchanged(children[j])
    {
      hide CoherentPacket, PacketViewOf, Has, HasBits.Set, Unset, WellFormed, Known, Leaves.Coherent, Leaves.ViewOf;
      hide SizeFrom, ValidSchema, LeafSchema, Encode;
      SizeStep(schema, View(), k);
      BodyIsField(k);
      n := 0;
      if Has(hasBits, k) {
        var size := ChildByteSize(k);
        n := 1 + VarintSize(size) + size;
      }
    }

    /** Cached sizes stay when their sub-messages do. */
    twostate lemma CachedKept(new lo: nat, new hi: nat, new k: nat)
      requires old(Valid()) && Valid() && unchanged(`hasBits) && unchanged(`children) && hi <= |schema.fields| && !(lo <= k < hi)
      requires forall j: nat | j < |children| && j != k && children[j] != null :: unchanged(children[j])
      ensures old(SizesCached(lo, hi)) ==> SizesCached(lo, hi)
    {
      hide CoherentPacket, PacketViewOf, Has, WellFormed, Known, Leaves.Coherent, Leaves.ViewOf, ValidSchema, LeafSchema, Encode;
    }

    method GroupSize(lo: nat, hi: nat) returns (total: nat)
      requires Valid() && 1 <= lo <= hi <= |schema.fields|
      modifies Owned()
      ensures Valid() && Owned() == old(Owned()) && View() == old(View())
      ensures total + SizeFrom(schema, View(), hi) == SizeFrom(schema, View(), lo)
      ensures SizesCached(lo, hi) && (old(SizesCached(1, lo)) ==> SizesCached(1, lo))
    {
      hide CoherentPacket, PacketViewOf, Has, HasBits.Set, Unset, WellFormed, Known, Leaves.Coherent, Leaves.ViewOf;
      hide SizeFrom, SizesCached, ValidChildren, Valid, View, ValidSchema, LeafSchema;
      NothingCached(lo);
      total := 0;
      for k := lo to hi
        invariant Valid() && Owned() == old(Owned()) && View() == old(View())
        invariant total + SizeFrom(schema, View(), k) == SizeFrom(schema, View(), lo)
        invariant SizesCached(lo, k) && (old(SizesCached(1, lo)) ==> SizesCached(1, lo))
      {
        label step:
        BodiesFrom(k);
        var n := FieldSizeAt(k);
        CachedKept@step(lo, k, k);
        CachedKept@step(1, lo, k);
        JoinCached(lo, k, k + 1);
        total := total + n;
      }
    }

    lemma BodiesFrom(k: nat)
      requires Valid() && 1 <= k < |schema.fields|
      ensures IsBody(schema, k) && |children| == |schema.fields|
    {
    }

    /** The fields' part of ByteSize. */
    method FieldsSize() returns (total: nat)
      requires Valid()
      modifies Owned()
      ensures Valid() && Owned() == old(Owned()) && View() == old(View())
      ensures total == SizeFrom(schema, View(), 0)
      ensures SizesCached(1, |schema.fields|)
    {
      hide CoherentPacket, PacketViewOf, Has, HasBits.Set, Unset, WellFormed, Known, Leaves.Coherent, Leaves.ViewOf;
      hide ValidSchema, LeafSchema, Valid, View;
      hide SizeFrom, ValidChildren, IntSize;
      ghost var m := View();
      var n := |schema.fields|;
      AbsentGroups();
      TypeIsField();
      FieldRecordsEnd(schema, m);
      SizeStep(schema, m, 0);
      NothingCached(1);
      total := 0;
      var split := if n < 8 then n else 8;
      if hasBits & 0xff != 0 {
        if Has(hasBits, 0) { total := total + 1 + IntSize(type_); }
        var more := GroupSize(1, split);
        total := total + more;
      } else {
        AbsentSize(schema, m, 1, split);
        AbsentCached(1, split);
      }
      if n > 8 {
        if hasBits & 0xff00 != 0 {
          var more := GroupSize(8, n);
          total := total + more;
        } else {
          AbsentSize(schema, m, 8, n);
          AbsentCached(8, n);
        }
        JoinCached(1, 8, n);
      }
    }

    /** First pass: the exact size of the second, with every nested size cached on the way. */
    method ByteSize() returns (total: nat)
      requires Valid()
      modifies `cachedSize, Owned()
      ensures Valid() && Owned() == old(Owned()) && View() == old(View())
      ensures total == |Encode(schema, View())| && cachedSize == total
      ensures SizesCached(1, |schema.fields|)
    {
      hide CoherentPacket, PacketViewOf, Has, HasBits.Set, Unset, WellFormed, Known, Leaves.Coherent, Leaves.ViewOf;
      hide Encode, EncodeRecords, FieldRecords, ValidChildren;
      AbsentGroups();
      FieldRecordsEnd(schema, View());
      EncodeParts(schema, View());
      NoRecords();
      total := FieldsSize();
      AbsentGroups();
      if unknown != [] { total := total + |EncodeRecords(unknown)|; }
      label last:
      cachedSize := total;
      assert Bodies() == old@last(Bodies());
    }

    lemma NothingCached(k: nat)
      requires Valid() && k <= |schema.fields|
      ensures SizesCached(k, k)
    {
    }

    lemma AbsentCached(lo: nat, hi: nat)
      requires Valid() && lo <= hi <= |schema.fields| && forall k | lo <= k < hi :: View().fields[k].None?
      ensures SizesCached(lo, hi)
    {
      hide Has;
      forall k: nat | IsBody(schema, k) && lo <= k < hi ensures !Has(hasBits, k) { BodyIsField(k); }
    }

    lemma JoinCached(lo: nat, k: nat, hi: nat)
      requires Valid() && k <= hi <= |schema.fields| && SizesCached(lo, k) && SizesCached(k, hi)
      ensures SizesCached(lo, hi)
    {
      hide CoherentPacket, PacketViewOf, Has, WellFormed, Known, Leaves.Coherent, Leaves.ViewOf, ValidSchema, LeafSchema, Encode;
    }

    /** One length-delimited sub-message, its prefix taken from the size cached by the first pass. */
    method WriteChild(k: nat, output: CodedOutputStream)
      requires Valid() && IsBody(schema, k) && Has(hasBits, k) && SizesCached(1, |schema.fields|)
      modifies output
      ensures View().fields[k].Some?
      ensures output.out == old(output.out) + FieldBytes(schema, View(), k)
    {
      hide CoherentPacket, PacketViewOf, Has, HasBits.Set, Unset, WellFormed, Known, Leaves.Coherent, Leaves.ViewOf;
      CachedChild(k);
      var child := children[k];
      ChildBytes(schema, View(), k, child.View());
      output.Write(EncodeVarint(MakeTag(k + 1, LENGTH_DELIMITED)));
      output.Write(EncodeVarint(child.cachedSize));
      child.SerializeWithCachedSizes(output);
    }

    lemma CachedChild(k: nat)
      requires Valid() && IsBody(schema, k) && Has(hasBits, k) && SizesCached(1, |schema.fields|)
      ensures children[k] != null && children[k].Valid() && children[k].schema == schema.fields[k].sub
      ensures children[k].cachedSize == |Encode(schema.fields[k].sub, children[k].View())|
      ensures View().fields[k] == Some(Sub(children[k].View()))
    {
      hide Has;
      BodyIsField(k);
    }

    /** Second pass, to a stream. */
    method SerializeWithCachedSizes(output: CodedOutputStream)
      requires Valid() && SizesCached(1, |schema.fields|)
      modifies output
      ensures Valid() && View() == old(View())
      ensures output.out == old(output.out) + Encode(schema, View())
    {
      hide CoherentPacket, PacketViewOf, Has, HasBits.Set, Unset, WellFormed, Known, Leaves.Coherent, Leaves.ViewOf;
      hide ValidSchema, LeafSchema, SizesCached;
      hide Encode, EncodeRecords, FieldRecords, FieldBytes;
      ghost var m, start := View(), output.out;
      ghost var all := EncodeRecords(FieldRecords(schema, m, 0));
      AbsentGroups();
      FieldRecordsEnd(schema, m);
      NoRecords();
      EncodeParts(schema, m);
      TypeIsField();
      for k := 0 to |schema.fields|
        invariant Valid() && View() == m && SizesCached(1, |schema.fields|)
        invariant output.out + EncodeRecords(FieldRecords(schema, m, k)) == start + all
      {
        label step:
        FieldRecordsStep(schema, m, k);
        FieldPresent(k);
        if Has(hasBits, k) {
          Wire.Assoc(output.out, FieldBytes(schema, m, k), EncodeRecords(FieldRecords(schema, m, k + 1)));
          if k == 0 {
            NumberBytes(schema, m, type_);
            output.Write(EncodeVarint(MakeTag(1, VARINT)) + EncodeVarint(FromInt(type_)));
          } else {
            WriteChild(k, output);
          }
          Untouched@step();
        }
      }
      assert output.out == start + all;
      Wire.Assoc(start, all, EncodeRecords(unknown));
      label last:
      if unknown != [] { output.Write(EncodeRecords(unknown)); }
      Untouched@last();
    }

    /** Writing elsewhere changes nothing here. */
    twostate lemma Untouched()
      requires old(Valid()) && unchanged(this) && forall c: Leaf | c in old(Owned()) :: unchanged(c)
      ensures Valid() && View() == old(View())
      ensures old(SizesCached(1, |schema.fields|)) ==> SizesCached(1, |schema.fields|)
    {
      hide CoherentPacket, PacketViewOf, Has, WellFormed, Known, Leaves.Coherent, Leaves.ViewOf;
      assert Bodies() == old(Bodies());
      Shape();
      forall k: nat | IsBody(schema, k) && children[k] != null ensures unchanged(children[k]) { assert children[k] in children; }
    }

    lemma FieldPresent(k: nat)
      requires Valid() && k < |schema.fields|
      ensures View().fields[k].Some? <==> Has(hasBits, k)
      ensures k > 0 ==> IsBody(schema, k)
    {
      hide Has;
      if k > 0 { assert IsBody(schema, k); BodyIsField(k); }
    }

    method WriteChildToArray(k: nat, ghost was: Bytes, ghost at: nat, ghost done: Bytes, target: array<Byte>, pos: nat)
      returns (ghost all: Bytes, next: nat)
      requires Valid() && IsBody(schema, k) && Has(hasBits, k) && SizesCached(1, |schema.fields|)
      requires View().fields[k].Some? && pos + |FieldBytes(schema, View(), k)| <= target.Length
      requires Written(was, at, done, target[..]) && pos == at + |done|
      modifies target
      ensures all == done + FieldBytes(schema, View(), k) && next == at + |all| && Written(was, at, all, target[..])
    {
      hide CoherentPacket, PacketViewOf, Has, HasBits.Set, Unset, WellFormed, Known, Leaves.Coherent, Leaves.ViewOf;
      hide MakeTag, ValidSchema, LeafSchema, Typed;
      hide Written, FieldBytes, Encode, EncodeVarint;
      CachedChild(k);
      var child := children[k];
      ghost var body := Encode(child.schema, child.View());
      ChildBytes(schema, View(), k, child.View());
      all, next := AppendToArray(was, at, done, EncodeVarint(MakeTag(k + 1, LENGTH_DELIMITED)), target, pos);
      all, next := AppendToArray(was, at, all, EncodeVarint(child.cachedSize), target, next);
      ghost var mid := target[..];
      next := child.SerializeWithCachedSizesToArray(target, next);
      WrittenMore(was, at, all, mid, body, target[..]);
      all := all + body;
      Assoc4(done, EncodeVarint(MakeTag(k + 1, LENGTH_DELIMITED)), EncodeVarint(|body|), body);
    }

    /** Second pass, straight into an array: the same bytes, and nothing outside them. */
    method SerializeWithCachedSizesToArray(target: array<Byte>, at: nat) returns (next: nat)
      requires Valid() && SizesCached(1, |schema.fields|) && at + |Encode(schema, View())| <= target.Length
      modifies target
      ensures Valid() && View() == old(View())
      ensures next == at + |Encode(schema, View())| <= target.Length
      ensures target[..] == old(target[..at]) + Encode(schema, View()) + old(target[next..])
    {
      hide CoherentPacket, PacketViewOf, Has, HasBits.Set, Unset, WellFormed, Known, Leaves.Coherent, Leaves.ViewOf;
      hide ValidSchema, LeafSchema, SizesCached;
      hide Written, Encode, EncodeRecords, FieldRecords, FieldBytes;
      ghost var m, was := View(), target[..];
      ghost var all := EncodeRecords(FieldRecords(schema, m, 0));
      ghost var done: Bytes := [];
      WrittenNothing(was, at);
      AbsentGroups();
      FieldRecordsEnd(schema, m);
      NoRecords();
      EncodeParts(schema, m);
      TypeIsField();
      next := at;
      for k := 0 to |schema.fields|
        invariant Valid() && View() == m && SizesCached(1, |schema.fields|)
        invariant next == at + |done| <= target.Length
        invariant done + EncodeRecords(FieldRecords(schema, m, k)) == all
        invariant Written(was, at, done, target[..])
      {
        label step:
        FieldRecordsStep(schema, m, k);
        FieldPresent(k);
        if Has(hasBits, k) {
          ghost var piece := FieldBytes(schema, m, k);
          Wire.Assoc(done, piece, EncodeRecords(FieldRecords(schema, m, k + 1)));
          if k == 0 {
            NumberBytes(schema, m, type_);
            done, next := AppendToArray(was, at, done, EncodeVarint(MakeTag(1, VARINT)) + EncodeVarint(FromInt(type_)), target, next);
          } else {
            done, next := WriteChildToArray(k, was, at, done, target, next);
          }
          Untouched@step();
        }
      }
      assert done == all;
      if unknown != [] {
        done, next := AppendToArray(was, at, done, EncodeRecords(unknown), target, next);
      }
      assert done == Encode(schema, m);
      WrittenIs(was, at, done, target[..]);
      Untouched();
    }

    /** SerializeToString: sizes first, then the bytes. */
    method SerializeToString() returns (s: Bytes)
      requires Valid()
      modifies `cachedSize, Owned()
      ensures Valid() && Owned() == old(Owned()) && View() == old(View())
      ensures s == Encode(schema, View())
    {
      hide CoherentPacket, PacketViewOf, Has, HasBits.Set, Unset, WellFormed, Known, Leaves.Coherent, Leaves.ViewOf;
      var size := ByteSize();
      var buffer := new Byte[size];
      var next := SerializeWithCachedSizesToArray(buffer, 0);
      s := buffer[..];
    }

    // ----- Parsing -----

    /**
     The body of one case label. A sub-message is made present first; its bytes are then
     read under their own limit into whatever it held.
     */
    method ReadFieldInto(k: nat, input: CodedInputStream) returns (ok: bool)
      requires Valid() && input.Valid() && !input.atEnd && k < |schema.fields|
      modifies `hasBits, `type_, `children, Owned(), input`pos, input`limit, input`atEnd
      ensures Valid() && input.Valid() && (ok ==> !input.atEnd) && fresh(Owned() - old(Owned()))
      ensures FieldRead(schema, k, old(View()), old(input.Rest()), ok, View(), input.Rest())
    {
      hide CoherentPacket, PacketViewOf, Has, HasBits.Set, Unset, WellFormed, Known, Leaves.Coherent, Leaves.ViewOf;
      AbsentGroups();
      if k == 0 {
        NumberRead(schema, View(), input.Rest());
        var r := input.ReadVarint64();
        ok := r.Some?;
        if ok { SetType(ToInt32(r.value)); }
      } else {
        assert IsBody(schema, k);
        ok := ReadChildInto(k, input);
      }
    }

    method ReadChildInto(k: nat, input: CodedInputStream) returns (ok: bool)
      requires Valid() && input.Valid() && !input.atEnd && IsBody(schema, k)
      modifies `hasBits, `children, Owned(), input`pos, input`limit, input`atEnd
      ensures Valid() && input.Valid() && (ok ==> !input.atEnd) && fresh(Owned() - old(Owned()))
      ensures FieldRead(schema, k, old(View()), old(input.Rest()), ok, View(), input.Rest())
    {
      hide CoherentPacket, PacketViewOf, Has, HasBits.Set, Unset, WellFormed, Known, Leaves.Coherent, Leaves.ViewOf;
      hide FieldRead, MergeBytes, ValidSchema, LeafSchema, ReadLen, Typed;
      BodyIsField(k);
      BodyRead(schema, k, View(), input.Rest(), Body(k));
      ok := ReadBody(k, input);
    }

    /** A length prefix, and that many bytes into the sub-message, which is made present first. */
    method ReadBody(k: nat, input: CodedInputStream) returns (ok: bool)
      requires Valid() && input.Valid() && !input.atEnd && IsBody(schema, k)
      modifies `hasBits, `children, Owned(), input`pos, input`limit, input`atEnd
      ensures Valid() && input.Valid() && (ok ==> !input.atEnd) && fresh(Owned() - old(Owned()))
      ensures ReadLen(old(input.Rest())).None? ==> !ok
      ensures ReadLen(old(input.Rest())).Some? ==>
                var got := MergeBytes(schema.fields[k].sub, old(Body(k)), ReadLen(old(input.Rest())).value.0);
                && (ok <==> got.Some?)
                && (ok ==> View() == old(View()).(fields := old(View()).fields[k := Some(Sub(got.value))])
                           && input.Rest() == ReadLen(old(input.Rest())).value.1)
    {
      hide CoherentPacket, PacketViewOf, Has, HasBits.Set, Unset, WellFormed, Known, Leaves.Coherent, Leaves.ViewOf;
      hide MergeBytes, ValidSchema, LeafSchema, ReadLen, Typed;
      ghost var m := View();
      var c := MutableChild(k);
      DistinctChildren(k);
      var oldLimit := input.PushLength();
      if oldLimit.None? { return false; }
      ok := MergeChildBytes(k, input, oldLimit.value);
      if ok { SameFields(View(), m.(fields := m.fields[k := View().fields[k]])); }
    }

    /** The bytes up to the limit, read into the sub-message behind pointer k; then the limit is lifted. */
    method MergeChildBytes(k: nat, input: CodedInputStream, oldLimit: nat) returns (ok: bool)
      requires Valid() && input.Valid() && !input.atEnd && IsBody(schema, k) && Has(hasBits, k)
      requires children[k] != null && children[k] in Owned() && children[k].Valid()
      requires children[k].schema == schema.fields[k].sub && View().fields[k] == Some(Sub(children[k].View()))
      requires input.limit <= oldLimit <= |input.buffer|
      modifies children[k], input`pos, input`limit, input`atEnd
      ensures Valid() && Owned() == old(Owned()) && input.Valid() && (ok ==> !input.atEnd)
      ensures var got := MergeBytes(schema.fields[k].sub, old(children[k].View()), old(input.Rest()));
              && (ok <==> got.Some?)
              && (ok ==> View() == old(View()).(fields := old(View()).fields[k := Some(Sub(got.value))]))
      ensures ok ==> input.Rest() == old(input.buffer[input.limit..oldLimit])
    {
      hide CoherentPacket, PacketViewOf, Has, HasBits.Set, Unset, WellFormed, Known, Leaves.Coherent, Leaves.ViewOf;
      hide FieldRead, MergeBytes, ValidSchema, LeafSchema;
      DistinctChildren(k);
      ok := children[k].MergePartialFromCodedStream(input);
      ChildEdited(k);
      ok := ok && input.atEnd;
      if ok {
        label last:
        input.PopLimit(oldLimit);
        Untouched@last();
      }
    }

    /**
     A run of case bodies: after field k, if the next byte is the tag of field k + 1 its
     body is entered directly (the goto); after the last field the end of input is looked
     for before another tag is read.
     */
    method ReadFieldRun(first: nat, input: CodedInputStream, ghost result: Option<Message>) returns (run: Run)
      requires Valid() && input.Valid() && !input.atEnd && first < |schema.fields|
      requires AfterTag(schema, View(), first + 1, WireOf(schema.fields[first]), input.Rest()) == result
      modifies `hasBits, `type_, `children, Owned(), input`pos, input`limit, input`atEnd
      ensures Valid() && input.Valid() && fresh(Owned() - old(Owned()))
      ensures run == NextTag ==> |input.Rest()| <= old(|input.Rest()|)
      ensures run != Failed ==> (input.atEnd <==> run == AtEnd)
      ensures run == Failed ==> result == None
      ensures run == AtEnd ==> input.Rest() == [] && result == Some(View())
      ensures run == NextTag ==> MergeBytes(schema, View(), input.Rest()) == result
    {
      hide CoherentPacket, PacketViewOf, Has, HasBits.Set, Unset, WellFormed, Known, Leaves.Coherent, Leaves.ViewOf;
      hide FieldRead, MergeBytes, AfterTag, ReadPayload, ValidRecord, Wire.ReadTag, ValidSchema, LeafSchema, ValidChildren, PacketSchema;
      var k := first;
      while true
        invariant Valid() && input.Valid() && !input.atEnd && fresh(Owned() - old(Owned())) && k < |schema.fields|
        invariant |input.Rest()| <= old(|input.Rest()|)
        invariant AfterTag(schema, View(), k + 1, WireOf(schema.fields[k]), input.Rest()) == result
        decreases |schema.fields| - k
      {
        AbsentGroups();
        ghost var m, rest := View(), input.Rest();
        var ok := ReadFieldInto(k, input);
        FieldThenRest(schema, k, m, rest, ok, View(), input.Rest());
        if !ok { return Failed; }
        if k + 1 == |schema.fields| {
          NothingLeft(schema, View());
          var end := input.ExpectAtEnd();
          return if end then AtEnd else NextTag;
        }
        ExpectedTag(schema, View(), k + 1, input.Rest());
        NextTagShort(schema, k + 1);
        var jump := input.ExpectTag(MakeTag(k + 2, WireOf(schema.fields[k + 1])));
        if !jump { return NextTag; }
        k := k + 1;
      }
    }

    /** The default case: keeps a record that no field claims. */
    method KeepUnknown(tag: nat, input: CodedInputStream) returns (ok: bool)
      requires Valid() && input.Valid() && 0 < tag < TWO_32
      requires !(1 <= TagNumber(tag) <= |schema.fields| && TagWire(tag) == WireOf(schema.fields[TagNumber(tag) - 1]))
      modifies `unknown, input`pos
      ensures Valid() && input.Valid() && fresh(Owned() - old(Owned()))
      ensures ok ==> |input.Rest()| <= old(|input.Rest()|)
      ensures MakeTag(TagNumber(tag), TagWire(tag)) != 0
      ensures var was := AfterTag(schema, old(View()), TagNumber(tag), TagWire(tag), old(input.Rest()));
              was == if ok then MergeBytes(schema, View(), input.Rest()) else None
    {
      hide CoherentPacket, PacketViewOf, Has, HasBits.Set, Unset, WellFormed, Known, Leaves.Coherent, Leaves.ViewOf;
      hide FieldRead, MergeBytes, AfterTag, ReadPayload, ValidRecord, Wire.ReadTag, ValidSchema, LeafSchema, ValidChildren, PacketSchema;
      UnclaimedThenRest(schema, View(), tag, input.Rest());
      var p := input.SkipField(tag);
      ok := p.Some?;
      Untouched();
      if ok { AppendUnknown([Record(TagNumber(tag), p.value)]); }
    }

    /**
     MergePartialFromCodedStream, with its shortcuts. On every byte string the outcome is
     that of the plain read-a-tag-and-dispatch loop. A parse counts as accepted when the
     method returns true and the input ended where it stopped.
     */
    method MergePartialFromCodedStream(input: CodedInputStream) returns (ok: bool)
      requires Valid() && input.Valid() && !input.atEnd
      modifies `hasBits, `type_, `children, `unknown, Owned(), input`pos, input`limit, input`atEnd
      ensures Valid() && input.Valid() && fresh(Owned() - old(Owned()))
      ensures ok && input.atEnd ==> input.Rest() == [] && MergeBytes(schema, old(View()), old(input.Rest())) == Some(View())
      ensures !(ok && input.atEnd) ==> MergeBytes(schema, old(View()), old(input.Rest())) == None
    {
      hide CoherentPacket, PacketViewOf, Has, HasBits.Set, Unset, WellFormed, Known, Leaves.Coherent, Leaves.ViewOf;
      hide FieldRead, MergeBytes, AfterTag, ReadPayload, ValidRecord, Wire.ReadTag, ValidSchema, LeafSchema, ValidChildren, PacketSchema;
      hide Packet.Valid, Packet.View, Packet.Bodies, Packet.Shown, IsBody, MakeTag, Typed;
      ghost var result := MergeBytes(schema, View(), input.Rest());
      while true
        invariant Valid() && input.Valid() && !input.atEnd && fresh(Owned() - old(Owned()))
        invariant MergeBytes(schema, View(), input.Rest()) == result
        decreases |input.Rest()|
      {
        if input.Rest() != [] { MergeBytesStep(schema, View(), input.Rest()); }
        var tag := input.ReadTag();
        if tag == 0 {
          NothingLeft(schema, View());
          return true;
        }
        var number, wire := TagNumber(tag), TagWire(tag);
        if 1 <= number <= |schema.fields| && wire == WireOf(schema.fields[number - 1]) {
          var run := ReadFieldRun(number - 1, input, result);
          match run {
            case Failed => return false;
            case AtEnd => return true;
            case NextTag =>
          }
        } else {
          if wire == END_GROUP {
            NoGroupToEnd(schema, View(), number, input.Rest());
            return true;
          }
          ok := KeepUnknown(tag, input);
          if !ok { return false; }
        }
      }
    }

    /** ParsePartialFromString: a fresh start, the whole string, no required fields asked for. */
    method ParsePartialFromString(data: Bytes) returns (ok: bool)
      requires Valid()
      modifies `hasBits, `type_, `children, `unknown, Owned()
      ensures Valid() && fresh(Owned() - old(Owned()))
      ensures ok <==> Parse(schema, data).Some?
      ensures ok ==> View() == Parse(schema, data).value
    {
      hide CoherentPacket, PacketViewOf, Has, HasBits.Set, Unset, WellFormed, Known, Leaves.Coherent, Leaves.ViewOf;
      hide MergeBytes, ValidSchema, LeafSchema, ValidChildren, PacketSchema, IsBody;
      Clear();
      var input := new CodedInputStream(data);
      ok := MergePartialFromCodedStream(input);
      ok := ok && input.atEnd;
    }

    /** ParseFromString: also asks for the required fields. */
    method ParseFromString(data: Bytes) returns (ok: bool)
      requires Valid()
      modifies `hasBits, `type_, `children, `unknown, Owned()
      ensures Valid() && fresh(Owned() - old(Owned()))
      ensures ok <==> ParseInitialized(schema, data).Some?
      ensures ok ==> View() == ParseInitialized(schema, data).value
    {
      hide CoherentPacket, PacketViewOf, Has, HasBits.Set, Unset, WellFormed, Known, Leaves.Coherent, Leaves.ViewOf;
      hide MergeBytes, ValidSchema, LeafSchema, ValidChildren, PacketSchema, IsBody;
      ok := ParsePartialFromString(data);
      if ok { ok := IsInitialized(); }
    }
  }

  lemma Assoc4(a: Bytes, b: Bytes, c: Bytes, d: Bytes)
    ensures ((a + b) + c) + d == a + ((b + c) + d)
  {
  }

  lemma NumberBytes(sch: Schema, m: Message, t: int)
    requires PacketSchema(sch) && WellFormed(sch, m) && -0x8000_0000 <= t < 0x8000_0000
    ensures m.fields[0] == Some(Num(t)) ==>
              FieldBytes(sch, m, 0) == EncodeVarint(MakeTag(1, VARINT)) + EncodeVarint(FromInt(t))
  {
    if m.fields[0] == Some(Num(t)) {
      assert sch.fields[0] == FInt32;
      assert FieldPayload(sch.fields[0], m.fields[0].value) == Varint(FromInt(t));
      RecordBytes(1, Varint(FromInt(t)));
    }
  }

  lemma RecordBytes(num: nat, p: Payload)
    ensures p.Varint? ==> EncodeRecord(Record(num, p)) == EncodeVarint(MakeTag(num, VARINT)) + EncodeVarint(p.v)
    ensures p.Len? ==> EncodeRecord(Record(num, p)) ==
                       EncodeVarint(MakeTag(num, LENGTH_DELIMITED)) + EncodeVarint(|p.data|) + p.data
  {
    if p.Len? { Wire.Assoc(EncodeVarint(MakeTag(num, LENGTH_DELIMITED)), EncodeVarint(|p.data|), p.data); }
  }

  lemma ChildBytes(sch: Schema, m: Message, k: nat, b: Message)
    requires PacketSchema(sch) && WellFormed(sch, m) && IsBody(sch, k) && m.fields[k] == Some(Sub(b))
    ensures WellFormed(sch.fields[k].sub, b)
    ensures var body := Encode(sch.fields[k].sub, b);
            FieldBytes(sch, m, k) == EncodeVarint(MakeTag(k + 1, LENGTH_DELIMITED)) + EncodeVarint(|body|) + body
  {
    assert Typed(sch.fields[k], m.fields[k].value);
    assert sch.fields[k].FMessage?;
    RecordBytes(k + 1, FieldPayload(sch.fields[k], m.fields[k].value));
  }

  lemma WrittenMore(was: Bytes, at: nat, done: Bytes, mid: Bytes, piece: Bytes, now: Bytes)
    requires Written(was, at, done, mid) && at + |done| + |piece| <= |mid|
    requires now == mid[..at + |done|] + piece + mid[at + |done| + |piece|..]
    ensures Written(was, at, done + piece, now)
  {
    assert now == was[..at] + (done + piece) + was[at + |done| + |piece|..];
  }

  lemma NumberRead(sch: Schema, m: Message, s: Bytes)
    requires PacketSchema(sch) && WellFormed(sch, m)
    ensures ReadVarint(s).None? ==> forall x, t :: FieldRead(sch, 0, m, s, false, x, t)
    ensures ReadVarint(s).Some? ==>
              FieldRead(sch, 0, m, s, true, m.(fields := m.fields[0 := Some(Num(ToInt32(ReadVarint(s).value.0)))]), ReadVarint(s).value.1)
  {
    hide WellFormed, ToInt32, ReadVarint;
    match ReadPayload(1, VARINT, s)
    case None =>
    case Some((p, u)) => ScalarApplied(sch, 0, m, p);
  }

  /** What a sub-message field reads, when the accessor showed b before. */
  lemma BodyRead(sch: Schema, k: nat, m: Message, s: Bytes, b: Message)
    requires IsBody(sch, k) && WellFormed(sch, m) && WellFormed(sch.fields[k].sub, b) && |m.fields| == |sch.fields|
    requires m.fields[k] == Some(Sub(b)) || (m.fields[k] == None && b == Empty(sch.fields[k].sub))
    ensures ReadLen(s).None? ==> forall x, t :: FieldRead(sch, k, m, s, false, x, t)
    ensures ReadLen(s).Some? && MergeBytes(sch.fields[k].sub, b, ReadLen(s).value.0).None? ==>
              forall x, t :: FieldRead(sch, k, m, s, false, x, t)
    ensures ReadLen(s).Some? && MergeBytes(sch.fields[k].sub, b, ReadLen(s).value.0).Some? ==>
              FieldRead(sch, k, m, s, true,
                m.(fields := m.fields[k := Some(Sub(MergeBytes(sch.fields[k].sub, b, ReadLen(s).value.0).value))]),
                ReadLen(s).value.1)
  {
    hide WellFormed, MergeBytes, ValidSchema, Known, ReadField, Apply;
    BodyClaimed(sch, k, []);
    if ReadLen(s).Some? { BodyApplied(sch, k, m, ReadLen(s).value.0, b); }
  }

  lemma BodyClaimed(sch: Schema, k: nat, data: Bytes)
    requires IsBody(sch, k) && |data| < TWO_31
    ensures sch.fields[k].FMessage? && WireOf(sch.fields[k]) == LENGTH_DELIMITED
    ensures ValidRecord(Record(k + 1, Len(data))) && Known(sch, Record(k + 1, Len(data))) && ValidPayload(Len(data))
  {
  }

  lemma FieldCount(sch: Schema, m: Message)
    requires WellFormed(sch, m)
    ensures |m.fields| == |sch.fields|
  {
  }

  lemma BodyField(t: FieldType, was: Option<Value>, data: Bytes, b: Message)
    requires t.FMessage? && WellFormed(t.sub, b) && |data| < TWO_31
    requires was == Some(Sub(b)) || (was == None && b == Empty(t.sub))
    ensures ReadField(t, was, Len(data)) ==
            match MergeBytes(t.sub, b, data) { case None => None case Some(x) => Some(Sub(x)) }
  {
    hide WellFormed, MergeBytes, ValidSchema;
    assert ChildOrEmpty(t.sub, was) == b;
  }

  lemma BodyApplied(sch: Schema, k: nat, m: Message, data: Bytes, b: Message)
    requires IsBody(sch, k) && WellFormed(sch, m) && WellFormed(sch.fields[k].sub, b) && |data| < TWO_31
    requires |m.fields| == |sch.fields|
    requires m.fields[k] == Some(Sub(b)) || (m.fields[k] == None && b == Empty(sch.fields[k].sub))
    ensures ValidRecord(Record(k + 1, Len(data))) && WireOf(sch.fields[k]) == LENGTH_DELIMITED
    ensures var got := MergeBytes(sch.fields[k].sub, b, data);
            && (got.None? ==> Apply(sch, m, Record(k + 1, Len(data))) == None)
            && (got.Some? ==> Apply(sch, m, Record(k + 1, Len(data))) == Some(m.(fields := m.fields[k := Some(Sub(got.value))])))
  {
    hide WellFormed, MergeBytes, ValidSchema, Known, ValidRecord, ReadField, IsBody;
    FieldCount(sch, m);
    BodyClaimed(sch, k, data);
    BodyField(sch.fields[k], m.fields[k], data, b);
  }
}
