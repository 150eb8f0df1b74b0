/** Base64 with padding, as in section 4 of RFC 4648. */
module Base64 {
  import opened Options
  import opened Wire

  type Sextet = v: int | 0 <= v < 64

  const PAD: Byte := 61

  /** A-Z, a-z, 0-9, +, / */
  function Letter(v: Sextet): (c: Byte)
    ensures c != 61
  {
    if v < 26 then 65 + v
    else if v < 52 then 97 + (v - 26)
    else if v < 62 then 48 + (v - 52)
    else if v == 62 then 43
    else 47
  }

  function LetterValue(c: Byte): (v: Option<Sextet>)
    ensures v.Some? ==> Letter(v.value) == c
  {
    if 65 <= c < 91 then Some(c - 65)
    else if 97 <= c < 123 then Some(c - 97 + 26)
    else if 48 <= c < 58 then Some(c - 48 + 52)
    else if c == 43 then Some(62)
    else if c == 47 then Some(63)
    else None
  }

  lemma LetterRoundTrip(v: Sextet)
    ensures LetterValue(Letter(v)) == Some(v)
  {
  }

  function Letters(vs: seq<Sextet>): (s: Bytes)
    ensures |s| == |vs| && forall i | 0 <= i < |vs| :: s[i] == Letter(vs[i])
  {
    seq(|vs|, i requires 0 <= i < |vs| => Letter(vs[i]))
  }

  // The four sextets of three bytes, and the three bytes of four sextets.

  function First(a: Byte): Sextet { a / 4 }
  function Second(a: Byte, b: Byte): Sextet { a % 4 * 16 + b / 16 }
  function Third(b: Byte, c: Byte): Sextet { b % 16 * 4 + c / 64 }
  function Fourth(c: Byte): Sextet { c % 64 }

  function Upper(v: Sextet, w: Sextet): Byte { v * 4 + w / 16 }
  function Middle(w: Sextet, x: Sextet): Byte { w % 16 * 16 + x / 4 }
  function Lower(x: Sextet, y: Sextet): Byte { x % 4 * 64 + y }

  lemma Regroup(a: Byte, b: Byte, c: Byte)
    ensures Upper(First(a), Second(a, b)) == a
    ensures Middle(Second(a, b), Third(b, c)) == b
    ensures Lower(Third(b, c), Fourth(c)) == c
    ensures Second(a, 0) % 16 == 0 && Third(b, 0) % 4 == 0
  {
  }

  lemma Ungroup(v: Sextet, w: Sextet, x: Sextet, y: Sextet)
    ensures First(Upper(v, w)) == v
    ensures Second(Upper(v, w), Middle(w, x)) == w
    ensures Third(Middle(w, x), Lower(x, y)) == x
    ensures Fourth(Lower(x, y)) == y
    ensures w % 16 == 0 ==> Second(Upper(v, w), 0) == w
    ensures x % 4 == 0 ==> Third(Middle(w, x), 0) == x
  {
  }

  /** Three bytes are four sextets; a group cut short is filled up with zero bits. */
  function Sextets(s: Bytes): (vs: seq<Sextet>)
    ensures |vs| == (4 * |s| + 2) / 3
  {
    if s == [] then []
    else if |s| == 1 then [First(s[0]), Second(s[0], 0)]
    else if |s| == 2 then [First(s[0]), Second(s[0], s[1]), Third(s[1], 0)]
    else [First(s[0]), Second(s[0], s[1]), Third(s[1], s[2]), Fourth(s[2])] + Sextets(s[3..])
  }

  function PadCount(n: nat): (k: nat)
    ensures k <= 2
  {
    (3 - n % 3) % 3
  }

  function Encode(s: Bytes): Bytes {
    Letters(Sextets(s)) + seq(PadCount(|s|), i => PAD)
  }

  // ----- The encoder, six bits at a time -----

  /** The sextets still to come when a number of bits was read and not yet written. */
  function Pending(bits: nat, value: nat, s: Bytes): seq<Sextet>
    requires Held(bits, value)
    decreases |s|, bits
  {
    if bits == 0 then (if s == [] then [] else [s[0] / 4] + Pending(2, s[0] % 4, s[1..]))
    else if bits == 2 then (if s == [] then [value * 16] else [value * 16 + s[0] / 16] + Pending(4, s[0] % 16, s[1..]))
    else if bits == 4 then (if s == [] then [value * 4] else [value * 4 + s[0] / 64] + Pending(6, s[0] % 64, s[1..]))
    else [value] + Pending(0, 0, s)
  }

  lemma PendingStep(bits: nat, value: nat, s: Bytes)
    requires Held(bits, value)
    ensures bits == 0 && s == [] ==> Pending(bits, value, s) == []
    ensures bits == 0 && s != [] ==> Pending(bits, value, s) == [s[0] / 4] + Pending(2, s[0] % 4, s[1..])
    ensures bits == 2 && s == [] ==> Pending(bits, value, s) == [value * 16] + Pending(0, 0, [])
    ensures bits == 2 && s != [] ==> Pending(bits, value, s) == [value * 16 + s[0] / 16] + Pending(4, s[0] % 16, s[1..])
    ensures bits == 4 && s == [] ==> Pending(bits, value, s) == [value * 4] + Pending(0, 0, [])
    ensures bits == 4 && s != [] ==> Pending(bits, value, s) == [value * 4 + s[0] / 64] + Pending(6, s[0] % 64, s[1..])
    ensures bits == 6 ==> Pending(bits, value, s) == [value] + Pending(0, 0, s)
  {
  }

  lemma AfterTwo(b: Byte, t: Bytes)
    ensures t == [] ==> Pending(4, b % 16, t) == [Third(b, 0)]
    ensures t != [] ==> Pending(4, b % 16, t) == [Third(b, t[0]), Fourth(t[0])] + Pending(0, 0, t[1..])
  {
    hide Pending;
    PendingStep(4, b % 16, t);
    PendingStep(0, 0, []);
    if t != [] { PendingStep(6, t[0] % 64, t[1..]); }
  }

  lemma AfterOne(a: Byte, t: Bytes)
    ensures t == [] ==> Pending(2, a % 4, t) == [Second(a, 0)]
    ensures t != [] ==> Pending(2, a % 4, t) == [Second(a, t[0])] + Pending(4, t[0] % 16, t[1..])
  {
    hide Pending;
    PendingStep(2, a % 4, t);
    PendingStep(0, 0, []);
  }

  lemma AfterNone(s: Bytes)
    ensures s == [] ==> Pending(0, 0, s) == []
    ensures s != [] ==> Pending(0, 0, s) == [First(s[0])] + Pending(2, s[0] % 4, s[1..])
  {
    hide Pending;
    PendingStep(0, 0, s);
  }

  lemma {:induction false} PendingIsSextets(s: Bytes)
    ensures Pending(0, 0, s) == Sextets(s)
    decreases |s|
  {
    hide Pending, First, Second, Third, Fourth;
    AfterNone(s);
    if |s| >= 1 { AfterOne(s[0], s[1..]); }
    if |s| >= 2 {
      assert s[1..][0] == s[1] && s[1..][1..] == s[2..];
      AfterTwo(s[1], s[2..]);
    }
    if |s| >= 3 {
      assert s[2..][0] == s[2] && s[2..][1..] == s[3..];
      PendingIsSextets(s[3..]);
    }
  }

  predicate Held(bits: nat, value: nat) {
    (bits == 0 && value == 0) || (bits == 2 && value < 4) || (bits == 4 && value < 16) || (bits == 6 && value < 64)
  }

  /** The next sextet: a byte is read when fewer than six bits are held, zero bits are added at the end. */
  method NextSextet(input: Bytes, i: nat, bits: nat, value: nat) returns (v: Sextet, j: nat, left: nat, rest: nat)
    requires i <= |input| && Held(bits, value) && (i < |input| || bits > 0)
    ensures i <= j <= |input| && Held(left, rest) && (i == j ==> left < bits)
    ensures Pending(bits, value, input[i..]) == [v] + Pending(left, rest, input[j..])
  {
    PendingStep(bits, value, input[i..]);
    if bits == 6 { return value, i, 0, 0; }
    if i == |input| { return if bits == 2 then value * 16 else value * 4, i, 0, 0; }
    var byte := input[i];
    assert input[i..][0] == byte && input[i..][1..] == input[i + 1..];
    if bits == 0 { return byte / 4, i + 1, 2, byte % 4; }
    if bits == 2 { return value * 16 + byte / 16, i + 1, 4, byte % 16; }
    return value * 4 + byte / 64, i + 1, 6, byte % 64;
  }

  /** Base64Encode: six bits at a time, then the padding loop. The result tells whether anything was written. */
  method Base64Encode(input: Bytes) returns (output: Bytes, ok: bool)
    ensures output == Encode(input)
    ensures ok <==> input != []
  {
    hide Pending, Sextets, Letter, PadCount;
    PendingIsSextets(input);
    PendingStep(0, 0, []);
    ghost var done: seq<Sextet> := [];
    var i, bits, value := 0, 0, 0;
    output := [];
    while i < |input| || bits > 0
      invariant i <= |input| && Held(bits, value)
      invariant done + Pending(bits, value, input[i..]) == Sextets(input)
      invariant output == Letters(done)
      decreases |input| - i, bits
    {
      ghost var was := Pending(bits, value, input[i..]);
      var v;
      v, i, bits, value := NextSextet(input, i, bits, value);
      Wire.Assoc(done, [v], Pending(bits, value, input[i..]));
      output := output + [Letter(v)];
      done := done + [v];
    }
    assert input[i..] == [] && done + [] == done;
    assert done == Sextets(input);
    var padding := PadCount(|input|);
    ghost var text := output;
    for k := 0 to padding
      invariant output == text + seq(k, j => PAD)
    {
      output := output + [PAD];
    }
    ok := output != [];
    EncodedShape(input);
  }

  // ----- Shape and inverse -----

  /** Four characters for every three bytes begun, and padding exactly at the end. */
  lemma EncodedShape(s: Bytes)
    ensures |Encode(s)| == 4 * ((|s| + 2) / 3)
    ensures forall i | 0 <= i < |Encode(s)| :: Encode(s)[i] == PAD <==> i >= |Encode(s)| - PadCount(|s|)
  {
    PadArithmetic(|s|);
  }

  lemma PadArithmetic(n: nat)
    ensures (4 * n + 2) / 3 + PadCount(n) == 4 * ((n + 2) / 3)
  {
    var q, r := n / 3, n % 3;
    assert n == 3 * q + r;
  }

  /** A strict decoder: whole groups, padding only in the last, no stray bits under the padding. */
  function Decode(s: Bytes): (r: Option<Bytes>)
    decreases |s|
  {
    if s == [] then Some([])
    else if |s| < 4 then None
    else
      var a, b, c, d := LetterValue(s[0]), LetterValue(s[1]), LetterValue(s[2]), LetterValue(s[3]);
      if a.None? || b.None? then None
      else if |s| == 4 && s[2] == PAD && s[3] == PAD then
        (if b.value % 16 == 0 then Some([Upper(a.value, b.value)]) else None)
      else if c.None? then None
      else if |s| == 4 && s[3] == PAD then
        (if c.value % 4 == 0 then Some([Upper(a.value, b.value), Middle(b.value, c.value)]) else None)
      else if d.None? then None
      else
        match Decode(s[4..])
        case None => None
        case Some(rest) =>
          Some([Upper(a.value, b.value), Middle(b.value, c.value), Lower(c.value, d.value)] + rest)
  }

  lemma EncodeStep(s: Bytes)
    requires |s| >= 3
    ensures Encode(s) ==
            [Letter(First(s[0])), Letter(Second(s[0], s[1])), Letter(Third(s[1], s[2])), Letter(Fourth(s[2]))]
            + Encode(s[3..])
  {
    hide Letter, First, Second, Third, Fourth;
    assert PadCount(|s|) == PadCount(|s| - 3);
  }

  lemma EncodeShort(s: Bytes)
    ensures |s| == 0 ==> Encode(s) == []
    ensures |s| == 1 ==> Encode(s) == [Letter(First(s[0])), Letter(Second(s[0], 0)), PAD, PAD]
    ensures |s| == 2 ==> Encode(s) == [Letter(First(s[0])), Letter(Second(s[0], s[1])), Letter(Third(s[1], 0)), PAD]
  {
    hide Letter, First, Second, Third, Fourth;
  }

  lemma DecodeShort(v: Sextet, w: Sextet, x: Sextet)
    ensures Decode([]) == Some([])
    ensures w % 16 == 0 ==> Decode([Letter(v), Letter(w), PAD, PAD]) == Some([Upper(v, w)])
    ensures x % 4 == 0 ==> Decode([Letter(v), Letter(w), Letter(x), PAD]) == Some([Upper(v, w), Middle(w, x)])
  {
    hide Letter, LetterValue, Upper, Middle, Lower;
    LetterRoundTrip(v);
    LetterRoundTrip(w);
    LetterRoundTrip(x);
  }

  lemma DecodeGroup(v: Sextet, w: Sextet, x: Sextet, y: Sextet, t: Bytes)
    requires Decode(t).Some?
    ensures Decode([Letter(v), Letter(w), Letter(x), Letter(y)] + t) ==
            Some([Upper(v, w), Middle(w, x), Lower(x, y)] + Decode(t).value)
  {
    hide Letter, LetterValue, Upper, Middle, Lower;
    LetterRoundTrip(v);
    LetterRoundTrip(w);
    LetterRoundTrip(x);
    LetterRoundTrip(y);
    assert ([Letter(v), Letter(w), Letter(x), Letter(y)] + t)[4..] == t;
  }

  /** Decoding recovers every input. */
  lemma {:induction false} DecodeInvertsEncode(s: Bytes)
    ensures Decode(Encode(s)) == Some(s)
    decreases |s|
  {
    hide Encode, Letter, LetterValue, Decode, First, Second, Third, Fourth, Upper, Middle, Lower;
    EncodeShort(s);
    if s == [] {
      DecodeShort(0, 0, 0);
    } else if |s| == 1 {
      Regroup(s[0], 0, 0);
      DecodeShort(First(s[0]), Second(s[0], 0), 0);
      assert [s[0]] == s;
    } else if |s| == 2 {
      Regroup(s[0], s[1], 0);
      DecodeShort(First(s[0]), Second(s[0], s[1]), Third(s[1], 0));
      assert [s[0], s[1]] == s;
    } else {
      EncodeStep(s);
      DecodeInvertsEncode(s[3..]);
      Regroup(s[0], s[1], s[2]);
      DecodeGroup(First(s[0]), Second(s[0], s[1]), Third(s[1], s[2]), Fourth(s[2]), Encode(s[3..]));
      assert [s[0], s[1], s[2]] + s[3..] == s;
    }
  }

  /** And every text the decoder accepts is the encoding of what it decodes to. */
  lemma {:induction false} EncodeInvertsDecode(s: Bytes)
    requires Decode(s).Some?
    ensures Encode(Decode(s).value) == s
    decreases |s|
  {
    hide Encode, Letter, LetterValue, First, Second, Third, Fourth, Upper, Middle, Lower;
    var r := Decode(s).value;
    EncodeShort(r);
    if s != [] {
      var v, w := LetterValue(s[0]).value, LetterValue(s[1]).value;
      if |r| == 1 {
        Ungroup(v, w, 0, 0);
      } else if |r| == 2 {
        Ungroup(v, w, LetterValue(s[2]).value, 0);
      } else {
        Ungroup(v, w, LetterValue(s[2]).value, LetterValue(s[3]).value);
        EncodeInvertsDecode(s[4..]);
        EncodeStep(r);
        assert r[3..] == Decode(s[4..]).value;
        assert [s[0], s[1], s[2], s[3]] + s[4..] == s;
      }
    }
  }

  // ----- The encoding in numbers -----

  const CAPITALS: string := "ABCDEFGHIJKLMNOPQRSTUVWXYZ"
  const SMALL: string := "abcdefghijklmnopqrstuvwxyz"
  const FIGURES: string := "0123456789"

  /** The alphabet of section 4 of RFC 4648. */
  const ALPHABET: string := CAPITALS + SMALL + FIGURES + "+/"

  lemma InCapitals(v: nat)
    requires v < 26
    ensures |CAPITALS| == 26 && CAPITALS[v] as int == 65 + v
  {
  }

  lemma InSmall(v: nat)
    requires v < 26
    ensures |SMALL| == 26 && SMALL[v] as int == 97 + v
  {
  }

  lemma InFigures(v: nat)
    requires v < 10
    ensures |FIGURES| == 10 && FIGURES[v] as int == 48 + v
  {
  }

  /** The letter of a digit in base 64 is its place in the alphabet; padding is the equals sign. */
  lemma LetterInAlphabet(v: Sextet)
    ensures |ALPHABET| == 64 && Letter(v) == ALPHABET[v] as int
    ensures PAD == '=' as int
  {
    hide CAPITALS, SMALL, FIGURES;
    InCapitals(if v < 26 then v else 0);
    InSmall(if 26 <= v < 52 then v - 26 else 0);
    InFigures(if 52 <= v < 62 then v - 52 else 0);
  }

  lemma SextetsAt(s: Bytes, i: nat)
    requires 3 * i + 3 <= |s|
    ensures |Sextets(s)| >= 4 * i + 4
    ensures Sextets(s)[4 * i] == First(s[3 * i]) && Sextets(s)[4 * i + 1] == Second(s[3 * i], s[3 * i + 1])
    ensures Sextets(s)[4 * i + 2] == Third(s[3 * i + 1], s[3 * i + 2]) && Sextets(s)[4 * i + 3] == Fourth(s[3 * i + 2])
    decreases i
  {
    hide First, Second, Third, Fourth;
    if i > 0 { SextetsAt(s[3..], i - 1); }
  }

  lemma GroupNumber(a: Byte, b: Byte, c: Byte)
    ensures (a as int) * 0x1_0000 + (b as int) * 0x100 + c as int ==
            (First(a) as int) * 0x4_0000 + (Second(a, b) as int) * 0x1000 + (Third(b, c) as int) * 64 + Fourth(c) as int
  {
  }

  lemma DigitsOf(n: nat, v: Sextet, w: Sextet, x: Sextet, y: Sextet)
    requires n == (v as int) * 0x4_0000 + (w as int) * 0x1000 + (x as int) * 64 + y as int
    ensures n / 0x4_0000 == v && n / 0x1000 % 64 == w && n / 64 % 64 == x && n % 64 == y
  {
    assert n / 64 == (v as int) * 0x1000 + (w as int) * 64 + x as int;
    assert n / 0x1000 == (v as int) * 64 + w as int;
  }

  /** Every three bytes, taken as one number of 24 bits, are the four digits of that number in base 64, the highest first. */
  lemma GroupInNumbers(s: Bytes, i: nat)
    requires 3 * i + 3 <= |s|
    ensures |Encode(s)| >= 4 * i + 4 && |ALPHABET| == 64
    ensures var n := (s[3 * i] as int) * 0x1_0000 + (s[3 * i + 1] as int) * 0x100 + s[3 * i + 2] as int;
            && Encode(s)[4 * i] == ALPHABET[n / 0x4_0000] as int
            && Encode(s)[4 * i + 1] == ALPHABET[n / 0x1000 % 64] as int
            && Encode(s)[4 * i + 2] == ALPHABET[n / 64 % 64] as int
            && Encode(s)[4 * i + 3] == ALPHABET[n % 64] as int
  {
    hide First, Second, Third, Fourth, Sextets, Letter, ALPHABET;
    SextetsAt(s, i);
    var a, b, c := s[3 * i], s[3 * i + 1], s[3 * i + 2];
    GroupNumber(a, b, c);
    DigitsOf((a as int) * 0x1_0000 + (b as int) * 0x100 + c as int, First(a), Second(a, b), Third(b, c), Fourth(c));
    LetterInAlphabet(First(a));
    LetterInAlphabet(Second(a, b));
    LetterInAlphabet(Third(b, c));
    LetterInAlphabet(Fourth(c));
  }

  lemma {:induction false} SextetsFilled(s: Bytes, zeros: Bytes)
    requires |zeros| == PadCount(|s|) && forall i | 0 <= i < |zeros| :: zeros[i] == 0
    ensures Sextets(s) <= Sextets(s + zeros)
    decreases |s|
  {
    hide First, Second, Third, Fourth;
    if |s| >= 3 {
      assert (s + zeros)[3..] == s[3..] + zeros;
      SextetsFilled(s[3..], zeros);
    }
  }

  /** An input that ends within a group is encoded as if zero bytes filled the group, except for the padding at the end. */
  lemma TailFilled(s: Bytes, zeros: Bytes)
    requires |zeros| == (3 - |s| % 3) % 3 && forall i | 0 <= i < |zeros| :: zeros[i] == 0
    ensures |Encode(s + zeros)| == |Encode(s)|
    ensures forall i | 0 <= i < |Encode(s)| :: Encode(s)[i] == if i < |Encode(s)| - |zeros| then Encode(s + zeros)[i] else 61
  {
    hide Sextets, Letter;
    SextetsFilled(s, zeros);
    EncodedShape(s);
    EncodedShape(s + zeros);
  }
}
