/**
 The primitives of the Protocol Buffers wire format: base-128 varints, tags and
 length-delimited records. A byte string is read as a sequence of records; a
 record is a field number with a payload, and it is also what an unknown field
 is kept as.
 */
module Wire {
  import opened Options

  type Byte = x: int | 0 <= x < 256
  type Bytes = seq<Byte>

  type Int64 = n: int | -0x8000_0000_0000_0000 <= n < 0x8000_0000_0000_0000

  const TWO_31: int := 0x8000_0000
  const TWO_32: int := 0x1_0000_0000
  const TWO_63: int := 0x8000_0000_0000_0000
  const TWO_64: int := 0x1_0000_0000_0000_0000

  /** The most bytes a varint may take. */
  const MAX_VARINT: nat := 10

  // ----- Base 128 varints -----

  function EncodeVarint(n: nat): (s: Bytes)
    ensures 1 <= |s|
  {
    if n < 128 then [n] else [128 + n % 128] + EncodeVarint(n / 128)
  }

  /** The value and the length of the varint at the start of s, at most budget bytes long. */
  function DecodeVarint(s: Bytes, budget: nat): (r: Option<(nat, nat)>)
    ensures r.Some? ==> 1 <= r.value.1 <= |s| && r.value.1 <= budget
  {
    if budget == 0 || s == [] then None
    else if s[0] < 128 then Some((s[0], 1))
    else
      match DecodeVarint(s[1..], budget - 1)
      case None => None
      case Some((v, k)) => Some((s[0] - 128 + 128 * v, k + 1))
  }

  function Pow128(k: nat): (p: nat)
    ensures p >= 1
  {
    if k == 0 then 1 else 128 * Pow128(k - 1)
  }

  lemma {:induction false} VarintLength(n: nat, k: nat)
    requires 0 < k && n < Pow128(k)
    ensures |EncodeVarint(n)| <= k
    decreases k
  {
    if n >= 128 {
      assert Pow128(k) == 128 * Pow128(k - 1);
      VarintLength(n / 128, k - 1);
    }
  }

  /** A 64-bit value fits the ten bytes a reader is willing to look at, a 32-bit one five. */
  lemma VarintFits(n: nat)
    requires n < TWO_64
    ensures |EncodeVarint(n)| <= MAX_VARINT
    ensures n < TWO_32 ==> |EncodeVarint(n)| <= 5
  {
    assert Pow128(5) == 0x8_0000_0000 by { Pow128Five(); }
    assert Pow128(10) == 0x40_0000_0000_0000_0000 by {
      assert Pow128(6) == 128 * Pow128(5);
      assert Pow128(7) == 128 * Pow128(6);
      assert Pow128(8) == 128 * Pow128(7);
      assert Pow128(9) == 128 * Pow128(8);
    }
    VarintLength(n, 10);
    if n < TWO_32 { VarintLength(n, 5); }
  }

  lemma Pow128Five()
    ensures Pow128(5) == 0x8_0000_0000
  {
    assert Pow128(1) == 128 * Pow128(0);
    assert Pow128(2) == 128 * Pow128(1);
    assert Pow128(3) == 128 * Pow128(2);
    assert Pow128(4) == 128 * Pow128(3);
  }

  lemma {:induction false} VarintRoundTrip(n: nat, t: Bytes, budget: nat)
    requires |EncodeVarint(n)| <= budget
    ensures DecodeVarint(EncodeVarint(n) + t, budget) == Some((n, |EncodeVarint(n)|))
    decreases n
  {
    var s := EncodeVarint(n) + t;
    if n >= 128 {
      VarintRoundTrip(n / 128, t, budget - 1);
      assert s[1..] == EncodeVarint(n / 128) + t;
    }
  }

  /** Bytes after a varint do not change how it is read. */
  lemma {:induction false} VarintPrefix(s: Bytes, t: Bytes, budget: nat)
    requires DecodeVarint(s, budget).Some?
    ensures DecodeVarint(s + t, budget) == DecodeVarint(s, budget)
    decreases budget
  {
    if s[0] >= 128 {
      assert (s + t)[1..] == s[1..] + t;
      VarintPrefix(s[1..], t, budget - 1);
    }
  }

  /** The low 64 bits. */
  function Low64(n: nat): (r: nat)
    ensures r < TWO_64
    ensures n < TWO_64 ==> r == n
  {
    n % 0x1_0000_0000_0000_0000
  }

  /** The low 32 bits. */
  function Low32(n: nat): (r: nat)
    ensures r < TWO_32
    ensures n < TWO_32 ==> r == n
  {
    n % 0x1_0000_0000
  }

  /** Reads a varint of at most ten bytes, keeping its low 64 bits. */
  function ReadVarint(s: Bytes): (r: Option<(nat, Bytes)>)
    ensures r.Some? ==> r.value.0 < TWO_64 && |r.value.1| < |s|
  {
    match DecodeVarint(s, MAX_VARINT)
    case None => None
    case Some((v, k)) => Some((Low64(v), s[k..]))
  }

  lemma ReadVarintRoundTrip(n: nat, t: Bytes)
    requires n < TWO_64
    ensures ReadVarint(EncodeVarint(n) + t) == Some((n, t))
  {
    VarintFits(n);
    VarintRoundTrip(n, t, MAX_VARINT);
    assert (EncodeVarint(n) + t)[|EncodeVarint(n)|..] == t;
  }

  lemma ReadVarintPrefix(s: Bytes, t: Bytes)
    requires ReadVarint(s).Some?
    ensures ReadVarint(s + t) == Some((ReadVarint(s).value.0, ReadVarint(s).value.1 + t))
  {
    VarintPrefix(s, t, MAX_VARINT);
    var k := DecodeVarint(s, MAX_VARINT).value.1;
    assert (s + t)[k..] == s[k..] + t;
  }

  // ----- Records -----

  datatype Payload =
    | Varint(v: nat)
    | Fixed64(b: Bytes)
    | Len(data: Bytes)
    | Group(recs: seq<Record>)
    | Fixed32(b: Bytes)

  datatype Record = Record(num: nat, payload: Payload)

  const VARINT: nat := 0
  const FIXED64: nat := 1
  const LENGTH_DELIMITED: nat := 2
  const START_GROUP: nat := 3
  const END_GROUP: nat := 4
  const FIXED32: nat := 5

  function WireType(p: Payload): nat {
    match p
    case Varint(_) => VARINT
    case Fixed64(_) => FIXED64
    case Len(_) => LENGTH_DELIMITED
    case Group(_) => START_GROUP
    case Fixed32(_) => FIXED32
  }

  function MakeTag(num: nat, wire: nat): (tag: nat)
    ensures num > 0 ==> tag > 0
  {
    num * 8 + wire
  }

  function TagNumber(tag: nat): (num: nat)
    ensures tag < TWO_32 ==> num < 0x2000_0000
  {
    tag / 8
  }

  function TagWire(tag: nat): nat { tag % 8 }

  lemma TagParts(num: nat, wire: nat)
    requires wire < 8
    ensures TagNumber(MakeTag(num, wire)) == num && TagWire(MakeTag(num, wire)) == wire
  {
  }

  /** What a parse can produce: 29-bit field numbers, a non-zero tag, payloads in range. */
  predicate ValidRecord(r: Record)
    decreases r, 1
  {
    && r.num < 0x2000_0000
    && MakeTag(r.num, WireType(r.payload)) != 0
    && ValidPayload(r.payload)
  }

  predicate ValidPayload(p: Payload)
    decreases p, 0
  {
    match p
    case Varint(v) => v < TWO_64
    case Fixed64(b) => |b| == 8
    case Len(data) => |data| < TWO_31
    case Group(recs) => forall q | q in recs :: ValidRecord(q)
    case Fixed32(b) => |b| == 4
  }

  predicate ValidRecords(rs: seq<Record>) {
    forall r | r in rs :: ValidRecord(r)
  }

  /** Reads a tag: the low 32 bits of a varint. */
  function ReadTag(s: Bytes): (r: Option<(nat, Bytes)>)
    ensures r.Some? ==> r.value.0 < TWO_32 && |r.value.1| < |s|
  {
    match ReadVarint(s)
    case None => None
    case Some((v, t)) => Some((Low32(v), t))
  }

  lemma ReadTagRoundTrip(num: nat, wire: nat, t: Bytes)
    requires num < 0x2000_0000 && wire < 8
    ensures ReadTag(EncodeVarint(MakeTag(num, wire)) + t) == Some((MakeTag(num, wire), t))
  {
    ReadVarintRoundTrip(MakeTag(num, wire), t);
  }

  function TakeBytes(s: Bytes, n: nat): (r: Option<(Bytes, Bytes)>)
    ensures r.Some? ==> s == r.value.0 + r.value.1
  {
    if n <= |s| then Some((s[..n], s[n..])) else None
  }

  /** Reads a length prefix and that many bytes; a length of 2^31 or more is a negative int. */
  function ReadLen(s: Bytes): (r: Option<(Bytes, Bytes)>)
    ensures r.Some? ==> |r.value.0| < TWO_31 && |r.value.1| + |r.value.0| < |s|
  {
    match ReadVarint(s)
    case None => None
    case Some((v, t)) => if Low32(v) < TWO_31 then TakeBytes(t, Low32(v)) else None
  }

  /** Reads what follows a tag with this field number and wire type. */
  function ReadPayload(num: nat, wire: nat, s: Bytes): (r: Option<(Payload, Bytes)>)
    ensures r.Some? ==> WireType(r.value.0) == wire && |r.value.1| <= |s|
    decreases |s|, 1
  {
    match wire
    case 0 => (match ReadVarint(s) case None => None case Some((v, t)) => Some((Varint(v), t)))
    case 1 => (match TakeBytes(s, 8) case None => None case Some((b, t)) => Some((Fixed64(b), t)))
    case 2 => (match ReadLen(s) case None => None case Some((b, t)) => Some((Len(b), t)))
    case 3 => (match ReadGroup(num, s) case None => None case Some((rs, t)) => Some((Group(rs), t)))
    case 5 => (match TakeBytes(s, 4) case None => None case Some((b, t)) => Some((Fixed32(b), t)))
    case _ => None
  }

  /** Reads the records of a group up to its end tag. */
  function ReadGroup(num: nat, s: Bytes): (r: Option<(seq<Record>, Bytes)>)
    ensures r.Some? ==> |r.value.1| < |s|
    decreases |s|, 0
  {
    match ReadTag(s)
    case None => None
    case Some((tag, t)) =>
      if tag == 0 then None
      else if TagWire(tag) == END_GROUP then (if TagNumber(tag) == num then Some(([], t)) else None)
      else
        match ReadPayload(TagNumber(tag), TagWire(tag), t)
        case None => None
        case Some((p, u)) =>
          match ReadGroup(num, u)
          case None => None
          case Some((rs, v)) => Some(([Record(TagNumber(tag), p)] + rs, v))
  }

  /** Reads one record. An end-group tag has no group to close here. */
  function ReadRecord(s: Bytes): (r: Option<(Record, Bytes)>)
    ensures r.Some? ==> |r.value.1| < |s|
  {
    match ReadTag(s)
    case None => None
    case Some((tag, t)) =>
      if tag == 0 then None
      else
        match ReadPayload(TagNumber(tag), TagWire(tag), t)
        case None => None
        case Some((p, u)) => Some((Record(TagNumber(tag), p), u))
  }

  /** The record sequence a byte string spells, if it spells one. */
  function Tokenize(s: Bytes): Option<seq<Record>>
    decreases |s|
  {
    if s == [] then Some([])
    else
      match ReadRecord(s)
      case None => None
      case Some((r, t)) =>
        match Tokenize(t)
        case None => None
        case Some(rs) => Some([r] + rs)
  }

  function EncodeBody(num: nat, p: Payload): Bytes
    decreases p, 0
  {
    match p
    case Varint(v) => EncodeVarint(v)
    case Fixed64(b) => b
    case Len(data) => EncodeVarint(|data|) + data
    case Group(recs) => EncodeRecords(recs) + EncodeVarint(MakeTag(num, END_GROUP))
    case Fixed32(b) => b
  }

  function EncodeRecord(r: Record): (s: Bytes)
    ensures s != []
    decreases r, 1
  {
    EncodeVarint(MakeTag(r.num, WireType(r.payload))) + EncodeBody(r.num, r.payload)
  }

  function EncodeRecords(rs: seq<Record>): Bytes
    decreases rs, 0
  {
    if rs == [] then [] else EncodeRecord(rs[0]) + EncodeRecords(rs[1..])
  }

  // ----- Reading inverts writing -----

  lemma Assoc<T>(a: seq<T>, b: seq<T>, c: seq<T>)
    ensures (a + b) + c == a + (b + c)
  {
  }

  lemma TakeSplit(a: Bytes, b: Bytes)
    ensures TakeBytes(a + b, |a|) == Some((a, b))
  {
    assert (a + b)[..|a|] == a && (a + b)[|a|..] == b;
  }

  lemma ReadLenFrom(s: Bytes, n: nat, t: Bytes)
    requires n < TWO_31 && ReadVarint(s) == Some((n, t))
    ensures ReadLen(s) == TakeBytes(t, n)
  {
  }

  lemma LenRoundTrip(data: Bytes, t: Bytes)
    requires |data| < TWO_31
    ensures ReadLen(EncodeVarint(|data|) + data + t) == Some((data, t))
  {
    Assoc(EncodeVarint(|data|), data, t);
    ReadVarintRoundTrip(|data|, data + t);
    ReadLenFrom(EncodeVarint(|data|) + data + t, |data|, data + t);
    TakeSplit(data, t);
  }

  lemma {:induction false} PayloadRoundTrip(r: Record, t: Bytes)
    requires ValidRecord(r)
    ensures ReadPayload(r.num, WireType(r.payload), EncodeBody(r.num, r.payload) + t) == Some((r.payload, t))
    decreases r, 1
  {
    match r.payload
    case Varint(v) => ReadVarintRoundTrip(v, t);
    case Fixed64(b) => TakeSplit(b, t);
    case Len(data) => LenRoundTrip(data, t);
    case Group(recs) =>
      GroupRoundTrip(r.num, recs, t);
      Assoc(EncodeRecords(recs), EncodeVarint(MakeTag(r.num, END_GROUP)), t);
    case Fixed32(b) => TakeSplit(b, t);
  }

  /** A group read one record at a time. */
  lemma ReadGroupStep(num: nat, s: Bytes, r: Record, t: Bytes)
    requires ReadRecord(s) == Some((r, t)) && WireType(r.payload) != END_GROUP
    ensures ReadGroup(num, t).Some? ==>
              ReadGroup(num, s) == Some(([r] + ReadGroup(num, t).value.0, ReadGroup(num, t).value.1))
  {
  }

  lemma GroupClose(num: nat, t: Bytes)
    requires num < 0x2000_0000
    ensures ReadGroup(num, EncodeVarint(MakeTag(num, END_GROUP)) + t) == Some(([], t))
  {
    TagParts(num, END_GROUP);
    ReadTagRoundTrip(num, END_GROUP, t);
  }

  lemma {:induction false} GroupRoundTrip(num: nat, rs: seq<Record>, t: Bytes)
    requires ValidRecords(rs) && num < 0x2000_0000
    ensures ReadGroup(num, EncodeRecords(rs) + (EncodeVarint(MakeTag(num, END_GROUP)) + t)) == Some((rs, t))
    decreases rs, 0
  {
    var close := EncodeVarint(MakeTag(num, END_GROUP)) + t;
    if rs == [] {
      assert EncodeRecords(rs) + close == close;
      GroupClose(num, t);
    } else {
      var r := rs[0];
      var rest := EncodeRecords(rs[1..]) + close;
      assert r in rs;
      Assoc(EncodeRecord(r), EncodeRecords(rs[1..]), close);
      RecordRoundTrip(r, rest);
      GroupRoundTrip(num, rs[1..], t);
      ReadGroupStep(num, EncodeRecord(r) + rest, r, rest);
      assert [r] + rs[1..] == rs;
    }
  }

  lemma ReadRecordFrom(s: Bytes, r: Record, t: Bytes, u: Bytes)
    requires ValidRecord(r)
    requires ReadTag(s) == Some((MakeTag(r.num, WireType(r.payload)), t))
    requires ReadPayload(r.num, WireType(r.payload), t) == Some((r.payload, u))
    ensures ReadRecord(s) == Some((r, u))
  {
    TagParts(r.num, WireType(r.payload));
  }

  lemma {:induction false} RecordRoundTrip(r: Record, t: Bytes)
    requires ValidRecord(r)
    ensures ReadRecord(EncodeRecord(r) + t) == Some((r, t))
    decreases r, 2
  {
    var tag, body := EncodeVarint(MakeTag(r.num, WireType(r.payload))), EncodeBody(r.num, r.payload);
    Assoc(tag, body, t);
    ReadTagRoundTrip(r.num, WireType(r.payload), body + t);
    PayloadRoundTrip(r, t);
    ReadRecordFrom(tag + (body + t), r, body + t, t);
  }

  /** Every sequence of valid records is recovered from its encoding. */
  lemma {:induction false} TokenizeInvertsEncode(rs: seq<Record>)
    requires ValidRecords(rs)
    ensures Tokenize(EncodeRecords(rs)) == Some(rs)
  {
    if rs != [] {
      assert rs[0] in rs;
      RecordRoundTrip(rs[0], EncodeRecords(rs[1..]));
      TokenizeInvertsEncode(rs[1..]);
      assert [rs[0]] + rs[1..] == rs;
    }
  }

  // ----- What was read is valid -----

  lemma {:induction false} ReadPayloadValid(num: nat, wire: nat, s: Bytes)
    requires num < 0x2000_0000 && MakeTag(num, wire) != 0
    requires ReadPayload(num, wire, s).Some?
    ensures ValidRecord(Record(num, ReadPayload(num, wire, s).value.0))
    decreases |s|, 1
  {
    if wire == START_GROUP { ReadGroupValid(num, s); }
  }

  lemma {:induction false} ReadGroupValid(num: nat, s: Bytes)
    requires ReadGroup(num, s).Some?
    ensures ValidRecords(ReadGroup(num, s).value.0)
    decreases |s|, 0
  {
    var (tag, t) := ReadTag(s).value;
    if TagWire(tag) != END_GROUP {
      ReadPayloadValid(TagNumber(tag), TagWire(tag), t);
      var (p, u) := ReadPayload(TagNumber(tag), TagWire(tag), t).value;
      ReadGroupValid(num, u);
    }
  }

  lemma ReadRecordValid(s: Bytes)
    requires ReadRecord(s).Some?
    ensures ValidRecord(ReadRecord(s).value.0)
  {
    var (tag, t) := ReadTag(s).value;
    ReadPayloadValid(TagNumber(tag), TagWire(tag), t);
  }

  lemma {:induction false} TokenizeValid(s: Bytes)
    requires Tokenize(s).Some?
    ensures ValidRecords(Tokenize(s).value)
    decreases |s|
  {
    if s != [] {
      var (r, t) := ReadRecord(s).value;
      ReadRecordValid(s);
      TokenizeValid(t);
      assert Tokenize(s).value == [r] + Tokenize(t).value;
    }
  }

  // ----- Later bytes do not disturb earlier records -----

  lemma TakeBytesPrefix(s: Bytes, n: nat, x: Bytes)
    requires n <= |s|
    ensures TakeBytes(s + x, n) == Some((s[..n], s[n..] + x))
  {
    assert (s + x)[..n] == s[..n] && (s + x)[n..] == s[n..] + x;
  }

  lemma ReadLenPrefix(s: Bytes, x: Bytes)
    requires ReadLen(s).Some?
    ensures ReadLen(s + x) == Some((ReadLen(s).value.0, ReadLen(s).value.1 + x))
  {
    ReadVarintPrefix(s, x);
    var (v, t) := ReadVarint(s).value;
    TakeBytesPrefix(t, Low32(v), x);
  }

  lemma {:induction false} ReadPayloadPrefix(num: nat, wire: nat, s: Bytes, x: Bytes)
    requires ReadPayload(num, wire, s).Some?
    ensures var (p, t) := ReadPayload(num, wire, s).value;
            ReadPayload(num, wire, s + x) == Some((p, t + x))
    decreases |s|, 1
  {
    match wire
    case 0 => ReadVarintPrefix(s, x);
    case 1 => TakeBytesPrefix(s, 8, x);
    case 2 => ReadLenPrefix(s, x);
    case 3 => ReadGroupPrefix(num, s, x);
    case 5 => TakeBytesPrefix(s, 4, x);
    case _ =>
  }

  lemma {:induction false} ReadGroupPrefix(num: nat, s: Bytes, x: Bytes)
    requires ReadGroup(num, s).Some?
    ensures var (rs, t) := ReadGroup(num, s).value;
            ReadGroup(num, s + x) == Some((rs, t + x))
    decreases |s|, 0
  {
    ReadVarintPrefix(s, x);
    var (tag, t) := ReadTag(s).value;
    if TagWire(tag) != END_GROUP {
      ReadPayloadPrefix(TagNumber(tag), TagWire(tag), t, x);
      ReadGroupPrefix(num, ReadPayload(TagNumber(tag), TagWire(tag), t).value.1, x);
    }
  }

  lemma ReadRecordPrefix(s: Bytes, x: Bytes)
    requires ReadRecord(s).Some?
    ensures ReadRecord(s + x) == Some((ReadRecord(s).value.0, ReadRecord(s).value.1 + x))
  {
    ReadVarintPrefix(s, x);
    var (tag, t) := ReadTag(s).value;
    ReadPayloadPrefix(TagNumber(tag), TagWire(tag), t, x);
  }

  /** Concatenating byte strings concatenates their records, and adds no other way to fail. */
  lemma TokenizeStep(s: Bytes)
    requires ReadRecord(s).Some?
    ensures var (r, t) := ReadRecord(s).value;
            && (Tokenize(t).None? ==> Tokenize(s).None?)
            && (Tokenize(t).Some? ==> Tokenize(s) == Some([r] + Tokenize(t).value))
  {
  }

  lemma {:induction false} TokenizeConcat(a: Bytes, b: Bytes)
    requires Tokenize(a).Some?
    ensures Tokenize(b).None? ==> Tokenize(a + b).None?
    ensures Tokenize(b).Some? ==> Tokenize(a + b) == Some(Tokenize(a).value + Tokenize(b).value)
    decreases |a|
  {
    if a == [] {
      assert a + b == b;
      assert Tokenize(b).Some? ==> [] + Tokenize(b).value == Tokenize(b).value;
    } else {
      var (r, t) := ReadRecord(a).value;
      ReadRecordPrefix(a, b);
      TokenizeConcat(t, b);
      TokenizeStep(a);
      TokenizeStep(a + b);
      if Tokenize(b).Some? { Assoc([r], Tokenize(t).value, Tokenize(b).value); }
    }
  }

  // ----- Sizes -----

  function VarintSize(n: nat): (k: nat)
    ensures k == |EncodeVarint(n)|
  {
    if n < 128 then 1 else 1 + VarintSize(n / 128)
  }

  /** A tag takes one byte exactly for the field numbers up to 15. */
  lemma OneByteTag(num: nat, wire: nat)
    requires wire < 8
    ensures |EncodeVarint(MakeTag(num, wire))| == 1 <==> num <= 15
    ensures num <= 15 ==> EncodeVarint(MakeTag(num, wire)) == [MakeTag(num, wire)]
  {
    if num > 15 { assert MakeTag(num, wire) >= 128; }
  }

  lemma {:induction false} EncodeRecordsConcat(a: seq<Record>, b: seq<Record>)
    ensures EncodeRecords(a + b) == EncodeRecords(a) + EncodeRecords(b)
    decreases |a|
  {
    if a == [] {
      assert a + b == b;
    } else {
      assert (a + b)[1..] == a[1..] + b;
      EncodeRecordsConcat(a[1..], b);
    }
  }

  // ----- The format in numbers -----

  /** The number that base-128 digits spell, the lowest first, whatever the top bits of the bytes are. */
  function Digits(s: Bytes): nat {
    if s == [] then 0 else s[0] % 128 + 128 * Digits(s[1..])
  }

  /** All bytes but the last have their top bit set. */
  predicate OneVarint(s: Bytes) {
    s != [] && s[|s| - 1] < 128 && forall i | 0 <= i < |s| - 1 :: s[i] >= 128
  }

  /** A varint spells its number in base 128, without digits to spare. */
  lemma {:induction false} VarintDigits(n: nat)
    ensures var s := EncodeVarint(n);
            OneVarint(s) && Digits(s) == n && (|s| > 1 ==> s[|s| - 1] != 0)
  {
    if n >= 128 {
      VarintDigits(n / 128);
      var t := EncodeVarint(n / 128);
      assert EncodeVarint(n)[1..] == t;
      assert forall i | 0 < i < |t| + 1 :: EncodeVarint(n)[i] == t[i - 1];
    } else {
      assert Digits([]) == 0 && [n][1..] == [];
    }
  }

  lemma {:induction false} DecodedDigits(s: Bytes, k: nat, budget: nat)
    requires 1 <= k <= |s| && k <= budget && OneVarint(s[..k])
    ensures DecodeVarint(s, budget) == Some((Digits(s[..k]), k))
    decreases k
  {
    assert Digits([]) == 0;
    if k == 1 {
      assert s[..1] == [s[0]] && [s[0]][1..] == [];
    } else {
      assert s[..k][0] == s[0] && s[..k][1..] == s[1..][..k - 1];
      var u := s[1..][..k - 1];
      assert forall i | 0 <= i < |u| :: u[i] == s[..k][i + 1];
      DecodedDigits(s[1..], k - 1, budget - 1);
    }
  }

  lemma {:induction false} DecodedIsVarint(s: Bytes, budget: nat)
    requires DecodeVarint(s, budget).Some?
    ensures OneVarint(s[..DecodeVarint(s, budget).value.1])
    decreases budget
  {
    var k := DecodeVarint(s, budget).value.1;
    if s[0] >= 128 {
      DecodedIsVarint(s[1..], budget - 1);
      assert s[..k] == [s[0]] + s[1..][..k - 1];
    }
  }

  /** What a reader makes of a varint: the low 64 bits of what up to ten bytes spell; more bytes fail. */
  lemma ReadVarintDigits(s: Bytes)
    ensures ReadVarint(s).Some? <==> exists k :: 1 <= k <= 10 && k <= |s| && OneVarint(s[..k])
    ensures forall k | 1 <= k <= 10 && k <= |s| && OneVarint(s[..k]) ::
              ReadVarint(s) == Some((Digits(s[..k]) % 0x1_0000_0000_0000_0000, s[k..]))
  {
    hide DecodeVarint, OneVarint;
    forall k | 1 <= k <= 10 && k <= |s| && OneVarint(s[..k])
      ensures ReadVarint(s) == Some((Digits(s[..k]) % 0x1_0000_0000_0000_0000, s[k..]))
    {
      DecodedDigits(s, k, 10);
    }
    if ReadVarint(s).Some? { DecodedIsVarint(s, 10); }
  }

  /** A record in numbers: 8 n plus 0 for a varint, 1 for eight bytes, 2 for a length, 3 and 4 around a group, 5 for four bytes. */
  lemma RecordLayout(n: nat, p: Payload)
    ensures EncodeRecord(Record(n, p)) ==
            match p
            case Varint(v) => EncodeVarint(8 * n) + EncodeVarint(v)
            case Fixed64(b) => EncodeVarint(8 * n + 1) + b
            case Len(data) => EncodeVarint(8 * n + 2) + (EncodeVarint(|data|) + data)
            case Group(recs) => EncodeVarint(8 * n + 3) + (EncodeRecords(recs) + EncodeVarint(8 * n + 4))
            case Fixed32(b) => EncodeVarint(8 * n + 5) + b
  {
  }

  /** Up to field number 15 the tag is the first byte. */
  lemma RecordTag(n: nat, p: Payload)
    requires n <= 15
    ensures EncodeRecord(Record(n, p))[0] ==
            8 * n + match p { case Varint(_) => 0 case Fixed64(_) => 1 case Len(_) => 2 case Group(_) => 3 case Fixed32(_) => 5 }
    ensures p.Group? ==> EncodeRecord(Record(n, p))[|EncodeRecord(Record(n, p))| - 1] == 8 * n + 4
  {
    RecordLayout(n, p);
  }

  lemma OneByteRead(b: Byte, t: Bytes)
    requires b < 128
    ensures ReadTag([b] + t) == Some((b, t))
  {
    assert ([b] + t)[1..] == t;
  }

  lemma TagThenPayload(b: Byte, t: Bytes)
    requires 0 < b < 128
    ensures ReadPayload(b / 8, b % 8, t).None? ==> ReadRecord([b] + t) == None
    ensures ReadPayload(b / 8, b % 8, t).Some? ==>
              ReadRecord([b] + t) == Some((Record(b / 8, ReadPayload(b / 8, b % 8, t).value.0), ReadPayload(b / 8, b % 8, t).value.1))
  {
    hide ReadPayload, ReadTag;
    OneByteRead(b, t);
  }

  /** After the tag 8 n comes a varint. */
  lemma VarintByTag(n: nat, t: Bytes)
    requires 1 <= n <= 15
    ensures ReadRecord([8 * n] + t) ==
            if ReadVarint(t).Some? then Some((Record(n, Varint(ReadVarint(t).value.0)), ReadVarint(t).value.1)) else None
  {
    hide ReadVarint, ReadRecord;
    TagThenPayload(8 * n, t);
  }

  /** After the tag 8 n + 1 come eight bytes. */
  lemma Fixed64ByTag(n: nat, t: Bytes)
    requires 1 <= n <= 15
    ensures ReadRecord([8 * n + 1] + t) == if |t| >= 8 then Some((Record(n, Fixed64(t[..8])), t[8..])) else None
  {
    hide ReadVarint, ReadRecord;
    TagThenPayload(8 * n + 1, t);
  }

  /** After the tag 8 n + 5 come four bytes. */
  lemma Fixed32ByTag(n: nat, t: Bytes)
    requires 1 <= n <= 15
    ensures ReadRecord([8 * n + 5] + t) == if |t| >= 4 then Some((Record(n, Fixed32(t[..4])), t[4..])) else None
  {
    hide ReadVarint, ReadRecord;
    TagThenPayload(8 * n + 5, t);
  }

  /** The tags that close a group, those of the two unused types, and zero start no record. */
  lemma NoRecordByTag(b: Byte, t: Bytes)
    requires b < 128 && (b == 0 || b % 8 in {4, 6, 7})
    ensures ReadRecord([b] + t) == None
  {
    hide ReadVarint;
    if b == 0 {
      OneByteRead(0, t);
    } else {
      hide ReadRecord;
      TagThenPayload(b, t);
    }
  }

  /** After the tag 8 n + 2 the low 32 bits of a varint say how many bytes come, 2^31 and more being an error. */
  lemma LengthByTag(n: nat, t: Bytes)
    requires 1 <= n <= 15
    ensures ReadVarint(t).None? ==> ReadRecord([8 * n + 2] + t) == None
    ensures ReadVarint(t).Some? ==>
              var (v, u) := ReadVarint(t).value;
              var size := v % 0x1_0000_0000;
              ReadRecord([8 * n + 2] + t) ==
              if size < 0x8000_0000 && size <= |u| then Some((Record(n, Len(u[..size])), u[size..])) else None
  {
    hide ReadVarint, ReadRecord;
    TagThenPayload(8 * n + 2, t);
  }

  /** After the tag 8 n + 3 come records, up to the tag 8 n + 4. */
  lemma GroupByTag(n: nat, recs: seq<Record>, t: Bytes)
    requires 1 <= n <= 15 && ValidRecords(recs)
    ensures ReadRecord([8 * n + 3] + (EncodeRecords(recs) + ([8 * n + 4] + t))) == Some((Record(n, Group(recs)), t))
  {
    hide ReadVarint, ReadRecord, ReadGroup, EncodeRecords, ValidRecords;
    TagThenPayload(8 * n + 3, EncodeRecords(recs) + ([8 * n + 4] + t));
    GroupRoundTrip(n, recs, t);
    assert EncodeVarint(MakeTag(n, END_GROUP)) == [8 * n + 4];
  }
}
