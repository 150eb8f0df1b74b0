/** Reading from a byte buffer under nested limits, and writing to a growing one. */
module Streams {
  import opened Options
  import opened Wire

  predicate IsSuffix(t: Bytes, s: Bytes) {
    |t| <= |s| && s[|s| - |t|..] == t
  }

  lemma SuffixTrans(a: Bytes, b: Bytes, c: Bytes)
    requires IsSuffix(a, b) && IsSuffix(b, c)
    ensures IsSuffix(a, c)
  {
  }

  lemma {:induction false} ReadPayloadSuffix(num: nat, wire: nat, s: Bytes)
    requires ReadPayload(num, wire, s).Some?
    ensures IsSuffix(ReadPayload(num, wire, s).value.1, s)
    decreases |s|, 1
  {
    match wire
    case 2 =>
      var (v, t) := ReadVarint(s).value;
      SuffixTrans(ReadLen(s).value.1, t, s);
    case 3 => ReadGroupSuffix(num, s);
    case _ =>
  }

  lemma {:induction false} ReadGroupSuffix(num: nat, s: Bytes)
    requires ReadGroup(num, s).Some?
    ensures IsSuffix(ReadGroup(num, s).value.1, s)
    decreases |s|, 0
  {
    var (tag, t) := ReadTag(s).value;
    if TagWire(tag) != END_GROUP {
      var (p, u) := ReadPayload(TagNumber(tag), TagWire(tag), t).value;
      var v := ReadGroup(num, u).value.1;
      assert ReadGroup(num, s).value.1 == v;
      ReadPayloadSuffix(TagNumber(tag), TagWire(tag), t);
      SuffixTrans(u, t, s);
      ReadGroupSuffix(num, u);
      SuffixTrans(v, u, s);
    }
  }

  /** Input over one buffer. A limit cuts the rest of the buffer off while a sub-message is read. */
  class CodedInputStream {
    const buffer: Bytes
    var pos: nat
    var limit: nat
    /** The last tag read was the end of the input or of the limit. */
    var atEnd: bool

    constructor (data: Bytes)
      ensures Valid() && Rest() == data && buffer == data && limit == |data| && !atEnd
    {
      buffer := data;
      pos, limit, atEnd := 0, |data|, false;
    }

    ghost predicate Valid()
      reads this
    {
      pos <= limit <= |buffer|
    }

    ghost function Rest(): (s: Bytes)
      requires Valid()
      reads this
    {
      buffer[pos..limit]
    }

    /** Moves to a suffix of what is left. */
    method SkipTo(ghost t: Bytes, left: nat)
      requires Valid() && IsSuffix(t, Rest()) && left == |t|
      modifies `pos
      ensures Valid() && Rest() == t
    {
      pos := limit - left;
    }

    /** The next tag, or 0 when there is none; atEnd tells the end apart from a malformed tag. */
    method ReadTag() returns (tag: nat)
      requires Valid()
      modifies `pos, `atEnd
      ensures Valid()
      ensures atEnd <==> old(Rest()) == []
      ensures match Wire.ReadTag(old(Rest())) {
                case None => tag == 0 && Rest() == old(Rest())
                case Some((v, t)) => tag == v && Rest() == t }
    {
      atEnd := pos == limit;
      match Wire.ReadTag(buffer[pos..limit]) {
        case None => tag := 0;
        case Some((v, t)) =>
          tag := v;
          SkipTo(t, |t|);
      }
    }

    /** Consumes the tag when it is the very next byte. */
    method ExpectTag(expected: nat) returns (found: bool)
      requires Valid() && expected < 128
      modifies `pos
      ensures Valid()
      ensures found <==> old(Rest()) != [] && old(Rest())[0] == expected
      ensures Rest() == if found then old(Rest())[1..] else old(Rest())
    {
      found := pos < limit && buffer[pos] == expected;
      if found { pos := pos + 1; }
    }

    method ExpectAtEnd() returns (end: bool)
      requires Valid()
      modifies `atEnd
      ensures Valid() && Rest() == old(Rest())
      ensures end <==> Rest() == []
      ensures atEnd == (end || old(atEnd))
    {
      end := pos == limit;
      if end { atEnd := true; }
    }

    method ReadVarint64() returns (r: Option<nat>)
      requires Valid()
      modifies `pos
      ensures Valid()
      ensures match ReadVarint(old(Rest())) {
                case None => r == None
                case Some((v, t)) => r == Some(v) && Rest() == t }
    {
      match ReadVarint(buffer[pos..limit]) {
        case None => r := None;
        case Some((v, t)) =>
          r := Some(v);
          SkipTo(t, |t|);
      }
    }

    method ReadRaw(n: nat) returns (r: Option<Bytes>)
      requires Valid()
      modifies `pos
      ensures Valid()
      ensures match TakeBytes(old(Rest()), n) {
                case None => r == None
                case Some((b, t)) => r == Some(b) && Rest() == t }
    {
      if n <= limit - pos {
        r := Some(buffer[pos..pos + n]);
        assert buffer[pos..pos + n] == Rest()[..n];
        pos := pos + n;
        assert Rest() == old(Rest())[n..];
      } else {
        r := None;
      }
    }

    method ReadString() returns (r: Option<Bytes>)
      requires Valid()
      modifies `pos
      ensures Valid()
      ensures match ReadLen(old(Rest())) {
                case None => r == None
                case Some((b, t)) => r == Some(b) && Rest() == t }
    {
      var length := ReadVarint64();
      match length {
        case None => r := None;
        case Some(v) =>
          if Low32(v) < TWO_31 { r := ReadRaw(Low32(v)); } else { r := None; }
      }
    }

    /** Reads the field whose tag was just read, whatever it is. */
    method SkipField(tag: nat) returns (r: Option<Payload>)
      requires Valid()
      modifies `pos
      ensures Valid()
      ensures match ReadPayload(TagNumber(tag), TagWire(tag), old(Rest())) {
                case None => r == None
                case Some((p, t)) => r == Some(p) && Rest() == t }
    {
      match ReadPayload(TagNumber(tag), TagWire(tag), buffer[pos..limit]) {
        case None => r := None;
        case Some((p, t)) =>
          r := Some(p);
          ReadPayloadSuffix(TagNumber(tag), TagWire(tag), Rest());
          SkipTo(t, |t|);
      }
    }

    /** Reads a length prefix and restricts the input to that many bytes; the old limit is returned. */
    method PushLength() returns (r: Option<nat>)
      requires Valid()
      modifies `pos, `limit
      ensures Valid()
      ensures match ReadLen(old(Rest())) {
                case None => r == None && limit == old(limit)
                case Some((b, t)) => r == Some(old(limit)) && Rest() == b && limit <= old(limit) && buffer[limit..old(limit)] == t }
    {
      var length := ReadVarint64();
      match length {
        case None => r := None;
        case Some(v) =>
          var n := Low32(v);
          if n < TWO_31 && n <= limit - pos {
            r := Some(limit);
            limit := pos + n;
          } else {
            r := None;
          }
      }
    }

    method PopLimit(oldLimit: nat)
      requires Valid() && limit <= oldLimit <= |buffer| && pos == limit
      modifies `limit, `atEnd
      ensures Valid() && limit == oldLimit && !atEnd
      ensures Rest() == buffer[old(limit)..oldLimit]
    {
      limit, atEnd := oldLimit, false;
    }
  }

  class CodedOutputStream {
    var out: Bytes

    constructor ()
      ensures out == []
    {
      out := [];
    }

    method Write(data: Bytes)
      modifies this
      ensures out == old(out) + data
    {
      out := out + data;
    }
  }

  /** Copies data into target at a position and returns the position after it. */
  method WriteToArray(data: Bytes, target: array<Byte>, at: nat) returns (next: nat)
    requires at + |data| <= target.Length
    modifies target
    ensures next == at + |data|
    ensures target[..] == old(target[..at]) + data + old(target[next..])
  {
    for i := 0 to |data|
      invariant target[..at] == old(target[..at])
      invariant target[at..at + i] == data[..i]
      invariant target[at + i..] == old(target[at + i..])
    {
      target[at + i] := data[i];
    }
    next := at + |data|;
    assert data[..|data|] == data;
    assert target[..] == target[..at] + target[at..next] + target[next..];
  }
}
