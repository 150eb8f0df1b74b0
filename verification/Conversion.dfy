/**
 Type-directed conversion between C++ and Python values: booleans, fixed-width
 integers, strings, and vectors and maps of them to any depth.
 */
module Conversion {
  import opened Options
  import opened Wire

  /** C++ types. TLong is the one integer type that goes through Python's long objects. */
  datatype CppType = TBool | TInt(bits: Width, signed: bool) | TLong | TStr | TVec(elem: CppType) | TMap(key: CppType, value: CppType)

  datatype CppVal = CBool(b: bool) | CInt(n: int) | CStr(s: Bytes) | CVec(items: seq<CppVal>) | CMap(m: map<CppVal, CppVal>)

  /**
   Python objects as the converters tell them apart. An Int object holds a C long, a Long
   any integer. A Unicode object is seen through its encoding in the interpreter's default
   encoding, if it has one. Other objects may still convert to an integer by themselves.
   */
  datatype PyVal =
    | PyNone
    | PyBool(b: bool)
    | PyInt(n: Int64)
    | PyLong(big: int)
    | PyStr(s: Bytes)
    | PyUnicode(encoded: Option<Bytes>)
    | PyList(items: seq<PyVal>)
    | PyTuple(items: seq<PyVal>)
    | PyDict(d: map<PyVal, PyVal>)
    | PyOther(number: Option<Int64>)

  predicate ValidType(t: CppType) {
    match t
    case TInt(bits, signed) => bits < 64 || !signed
    case TVec(e) => ValidType(e)
    case TMap(k, v) => ValidType(k) && ValidType(v)
    case _ => true
  }

  // ----- Integers -----

  type Width = w: nat | w == 8 || w == 16 || w == 32 || w == 64 witness 8

  function Modulus(bits: Width): (p: int)
    ensures 0x100 <= p <= 0x1_0000_0000_0000_0000
  {
    if bits == 8 then 0x100 else if bits == 16 then 0x1_0000 else if bits == 32 then 0x1_0000_0000 else 0x1_0000_0000_0000_0000
  }

  /** The low bits of a number, in two's complement. */
  function Low(bits: Width, n: int): (u: int)
    ensures 0 <= u < Modulus(bits)
    ensures 0 <= n < Modulus(bits) ==> u == n
    ensures -Modulus(bits) <= n < 0 ==> u == n + Modulus(bits)
  {
    if bits == 8 then n % 0x100
    else if bits == 16 then n % 0x1_0000
    else if bits == 32 then n % 0x1_0000_0000
    else n % 0x1_0000_0000_0000_0000
  }

  predicate InRange(bits: Width, signed: bool, n: int) {
    if signed then -Modulus(bits) <= 2 * n < Modulus(bits) else 0 <= n < Modulus(bits)
  }

  /** A cast to an integer type. */
  function Cast(bits: Width, signed: bool, n: int): (w: int)
    ensures InRange(bits, signed, w)
    ensures InRange(bits, signed, n) ==> w == n
  {
    var u := Low(bits, n);
    if signed && 2 * u >= Modulus(bits) then u - Modulus(bits) else u
  }

  /** Above the signed maximum, a 64-bit unsigned value is a negative Python integer, and comes back. */
  lemma UnsignedWraps(n: int)
    requires InRange(64, false, n)
    ensures n > 0x7fff_ffff_ffff_ffff ==> Cast(64, true, n) == n - 0x1_0000_0000_0000_0000 < 0
    ensures Cast(64, false, Cast(64, true, n)) == n
  {
    hide Low;
  }

  // ----- Values of a type -----

  predicate HasType(t: CppType, v: CppVal)
    requires ValidType(t)
    decreases t
  {
    match t
    case TBool => v.CBool?
    case TInt(bits, signed) => v.CInt? && InRange(bits, signed, v.n)
    case TLong => v.CInt? && InRange(64, true, v.n)
    case TStr => v.CStr?
    case TVec(e) => v.CVec? && forall i | 0 <= i < |v.items| :: HasType(e, v.items[i])
    case TMap(k, r) => v.CMap? && forall x | x in v.m :: HasType(k, x) && HasType(r, v.m[x])
  }

  /** Types whose values are hashable in Python: lists and dictionaries are not. */
  predicate Scalar(t: CppType) {
    !t.TVec? && !t.TMap?
  }

  // ----- To Python -----

  function ScalarToPy(t: CppType, v: CppVal): (p: PyVal)
    requires ValidType(t) && HasType(t, v) && Scalar(t)
  {
    match t
    case TBool => PyBool(v.b)
    case TInt(bits, signed) => PyInt(Cast(64, true, v.n))
    case TLong => PyLong(v.n)
    case TStr => PyStr(v.s)
  }

  lemma ScalarInjective(t: CppType, v: CppVal, w: CppVal)
    requires ValidType(t) && HasType(t, v) && HasType(t, w) && Scalar(t)
    requires ScalarToPy(t, v) == ScalarToPy(t, w)
    ensures v == w
  {
    if t.TInt? { BackFromLong(t.bits, t.signed, v.n); BackFromLong(t.bits, t.signed, w.n); }
  }

  lemma BackFromLong(bits: Width, signed: bool, n: int)
    requires (bits < 64 || !signed) && InRange(bits, signed, n)
    ensures Cast(bits, signed, Cast(64, true, n)) == n
  {
    hide Cast;
    if bits == 64 { UnsignedWraps(n); } else { assert InRange(64, true, n); }
  }

  /** A vector becomes a list. A map becomes a dictionary, of the entries whose key can be hashed. */
  function ToPy(t: CppType, v: CppVal): (p: PyVal)
    requires ValidType(t) && HasType(t, v)
    decreases t, 1
  {
    match t
    case TVec(e) => PyList(seq(|v.items|, i requires 0 <= i < |v.items| => ToPy(e, v.items[i])))
    case TMap(k, r) =>
      if Scalar(k) then PyDict(DictOf(k, r, v.m, v.m.Keys)) else PyDict(map[])
    case _ => ScalarToPy(t, v)
  }

  /** The entries of a map with scalar keys, as dictionary entries. */
  function DictOf(k: CppType, r: CppType, m: map<CppVal, CppVal>, keys: set<CppVal>): (d: map<PyVal, PyVal>)
    requires ValidType(k) && ValidType(r) && Scalar(k) && keys <= m.Keys && HasType(TMap(k, r), CMap(m))
    ensures forall x | x in keys :: ScalarToPy(k, x) in d && d[ScalarToPy(k, x)] == ToPy(r, m[x])
    ensures forall p | p in d :: exists x :: x in keys && p == ScalarToPy(k, x)
    decreases TMap(k, r), 0
  {
    KeysDistinct(k, m);
    map x | x in keys :: ScalarToPy(k, x) := ToPy(r, m[x])
  }

  lemma KeysDistinct(k: CppType, m: map<CppVal, CppVal>)
    requires ValidType(k) && Scalar(k) && forall x | x in m :: HasType(k, x)
    ensures forall x, y | x in m && y in m && ScalarToPy(k, x) == ScalarToPy(k, y) :: x == y
  {
    forall x, y | x in m && y in m && ScalarToPy(k, x) == ScalarToPy(k, y) ensures x == y { ScalarInjective(k, x, y); }
  }

  // ----- To C++ -----

  /** What the converter of a type may make of a Python object; None is its error. */
  ghost predicate Reads(t: CppType, p: PyVal, r: Option<CppVal>)
    requires ValidType(t)
    decreases t, 1
  {
    match t
    case TBool => r == Some(CBool(p != PyBool(false) && p != PyNone))
    case TInt(bits, signed) =>
      if IntegerOf(p).Some? then r == Some(CInt(Cast(bits, signed, IntegerOf(p).value))) else r == None
    case TLong => if IntegerOf(p).Some? then r == Some(CInt(IntegerOf(p).value)) else r == None
    case TStr => if TextOf(p).Some? then r == Some(CStr(TextOf(p).value)) else r == None
    case TVec(e) =>
      if p.PyList? || p.PyTuple? then
        match r {
          case None => exists i :: 0 <= i < |p.items| && Reads(e, p.items[i], None)
          case Some(v) =>
            v.CVec? && |v.items| == |p.items| && forall i | 0 <= i < |p.items| :: Reads(e, p.items[i], Some(v.items[i]))
        }
      else r == None
    case TMap(k, e) =>
      if p.PyDict? then
        match r {
          case None => exists x :: x in p.d && (Reads(k, x, None) || Reads(e, p.d[x], None))
          case Some(v) =>
            && v.CMap?
            && (forall x | x in p.d :: KeyGiven(k, e, x, p.d[x], v.m))
            && (forall y | y in v.m :: EntryGiven(k, e, p.d, y, v.m[y]))
        }
      else r == None
  }

  /** A key of the dictionary is one of the map, and its value was read. */
  ghost predicate KeyGiven(k: CppType, e: CppType, x: PyVal, p: PyVal, m: map<CppVal, CppVal>)
    requires ValidType(k) && ValidType(e)
    decreases TMap(k, e), 0
  {
    (exists y :: y in m && Reads(k, x, Some(y))) && (exists w :: Reads(e, p, Some(w)))
  }

  /** An entry of the map is one of the dictionary's. */
  ghost predicate EntryGiven(k: CppType, e: CppType, d: map<PyVal, PyVal>, y: CppVal, v: CppVal)
    requires ValidType(k) && ValidType(e)
    decreases TMap(k, e), 0
  {
    exists x :: x in d && Reads(k, x, Some(y)) && Reads(e, d[x], Some(v))
  }

  /** The C long behind a Python number; a Long that does not fit is read as -1, without an error. */
  function IntegerOf(p: PyVal): Option<Int64>
  {
    match p
    case PyLong(n) => Some(if InRange(64, true, n) then n else -1)
    case PyInt(n) => Some(n)
    case PyBool(b) => Some(if b then 1 else 0)
    case _ => None
  }

  /** The bytes behind a Python text; a Unicode object that has no encoding is read as empty, without an error. */
  function TextOf(p: PyVal): Option<Bytes> {
    match p
    case PyStr(s) => Some(s)
    case PyUnicode(encoded) => Some(if encoded.Some? then encoded.value else [])
    case _ => None
  }

  // ----- The converters -----

  /** pyobj_from_cppobj. A map is walked in some order; PyDict_SetItem refuses what cannot be hashed, and says nothing. */
  method FromCpp(t: CppType, v: CppVal) returns (p: PyVal)
    requires ValidType(t) && HasType(t, v)
    ensures p == ToPy(t, v)
    decreases t
  {
    match t {
      case TBool => p := PyBool(v.b);
      case TInt(bits, signed) => p := PyInt(Cast(64, true, v.n));
      case TLong => p := PyLong(v.n);
      case TStr => p := PyStr(v.s);
      case TVec(e) =>
        var items := [];
        for i := 0 to |v.items|
          invariant |items| == i && forall j | 0 <= j < i :: items[j] == ToPy(e, v.items[j])
        {
          var item := FromCpp(e, v.items[i]);
          items := items + [item];
        }
        p := PyList(items);
      case TMap(k, r) =>
        var d := WriteDict(k, r, v.m);
        p := PyDict(d);
    }
  }

  method WriteDict(k: CppType, r: CppType, m: map<CppVal, CppVal>) returns (d: map<PyVal, PyVal>)
    requires ValidType(k) && ValidType(r) && HasType(TMap(k, r), CMap(m))
    ensures d == if Scalar(k) then DictOf(k, r, m, m.Keys) else map[]
    decreases TMap(k, r), 0
  {
    hide ToPy, HasType, ScalarToPy, ValidType, DictOf, SetItem, Scalar, WrittenSoFar;
    d := map[];
    var done, rest := {}, m.Keys;
    NothingWritten(k, r, m);
    while rest != {}
      invariant done + rest == m.Keys && done !! rest && d == WrittenSoFar(k, r, m, done)
      decreases |rest|
    {
      var x :| x in rest;
      EntryTyped(k, r, m, x);
      var key := FromCpp(k, x);
      var value := FromCpp(r, m[x]);
      DictGrows(k, r, m, done, x, d);
      d := SetItem(d, key, value);
      done, rest := done + {x}, rest - {x};
    }
    assert done == m.Keys;
    AllWritten(k, r, m);
  }

  /** The dictionary after the entries under some keys: those with unhashable keys have left no trace. */
  function WrittenSoFar(k: CppType, r: CppType, m: map<CppVal, CppVal>, keys: set<CppVal>): map<PyVal, PyVal>
    requires ValidType(k) && ValidType(r) && HasType(TMap(k, r), CMap(m)) && keys <= m.Keys
  {
    if Scalar(k) then DictOf(k, r, m, keys) else map[]
  }

  lemma AllWritten(k: CppType, r: CppType, m: map<CppVal, CppVal>)
    requires ValidType(k) && ValidType(r) && HasType(TMap(k, r), CMap(m))
    ensures WrittenSoFar(k, r, m, m.Keys) == if Scalar(k) then DictOf(k, r, m, m.Keys) else map[]
  {
  }

  lemma EntryTyped(k: CppType, r: CppType, m: map<CppVal, CppVal>, x: CppVal)
    requires ValidType(k) && ValidType(r) && HasType(TMap(k, r), CMap(m)) && x in m
    ensures HasType(k, x) && HasType(r, m[x])
  {
  }

  lemma NothingWritten(k: CppType, r: CppType, m: map<CppVal, CppVal>)
    requires ValidType(k) && ValidType(r) && HasType(TMap(k, r), CMap(m))
    ensures WrittenSoFar(k, r, m, {}) == map[]
  {
  }

  lemma ScalarHashable(k: CppType, x: CppVal)
    requires ValidType(k) && HasType(k, x)
    ensures Scalar(k) ==> ToPy(k, x) == ScalarToPy(k, x) && !ToPy(k, x).PyList? && !ToPy(k, x).PyDict?
    ensures !Scalar(k) ==> ToPy(k, x).PyList? || ToPy(k, x).PyDict?
  {
  }

  lemma KeyPick(k: CppType, e: CppType, m: map<CppVal, CppVal>, keys: set<CppVal>, p: PyVal) returns (x: CppVal)
    requires ValidType(k) && ValidType(e) && Scalar(k) && HasType(TMap(k, e), CMap(m)) && keys <= m.Keys
    requires p in DictOf(k, e, m, keys)
    ensures x in keys && HasType(k, x) && HasType(e, m[x]) && p == ScalarToPy(k, x) && DictOf(k, e, m, keys)[p] == ToPy(e, m[x])
  {
    hide DictOf, ScalarToPy, ToPy, ValidType;
    x :| x in keys && p == ScalarToPy(k, x);
  }

  lemma DictGrows(k: CppType, r: CppType, m: map<CppVal, CppVal>, done: set<CppVal>, x: CppVal, d: map<PyVal, PyVal>)
    requires ValidType(k) && ValidType(r) && HasType(TMap(k, r), CMap(m))
    requires done <= m.Keys && x in m && HasType(k, x) && HasType(r, m[x])
    requires d == WrittenSoFar(k, r, m, done)
    ensures SetItem(d, ToPy(k, x), ToPy(r, m[x])) == WrittenSoFar(k, r, m, done + {x})
  {
    hide HasType, ValidType, ToPy, ScalarToPy, DictOf, Scalar;
    ScalarHashable(k, x);
    if Scalar(k) {
      var now, key := DictOf(k, r, m, done + {x}), ScalarToPy(k, x);
      var written := d[key := ToPy(r, m[x])];
      forall p | p in written ensures p in now && written[p] == now[p] {
        if p != key {
          var y := KeyPick(k, r, m, done, p);
          assert y in done + {x};
        } else {
          assert x in done + {x};
        }
      }
      forall p | p in now ensures p in written {
        var y := KeyPick(k, r, m, done + {x}, p);
        assert y in done || y == x;
      }
      assert written == now;
    }
  }

  /** PyDict_SetItem. */
  function SetItem(d: map<PyVal, PyVal>, key: PyVal, value: PyVal): map<PyVal, PyVal> {
    if key.PyList? || key.PyDict? then d else d[key := value]
  }

  /** pyobj_to_cppobj: stops at the first item that does not convert. A dictionary is walked in some order. */
  method ToCpp(t: CppType, p: PyVal) returns (r: Option<CppVal>)
    requires ValidType(t)
    ensures Reads(t, p, r)
    decreases t
  {
    match t {
      case TBool => r := Some(CBool(p != PyBool(false) && p != PyNone));
      case TInt(bits, signed) =>
        if p.PyLong? {
          r := Some(CInt(Cast(bits, signed, if InRange(64, true, p.big) then p.big else -1)));
        } else if p.PyInt? || p.PyBool? {
          r := Some(CInt(Cast(bits, signed, if p.PyInt? then p.n else if p.b then 1 else 0)));
        } else {
          r := None;
        }
      case TLong =>
        if p.PyLong? {
          r := Some(CInt(if InRange(64, true, p.big) then p.big else -1));
        } else if p.PyInt? || p.PyBool? {
          r := Some(CInt(if p.PyInt? then p.n else if p.b then 1 else 0));
        } else {
          r := None;
        }
      case TStr =>
        if p.PyStr? {
          r := Some(CStr(p.s));
        } else if p.PyUnicode? {
          r := Some(CStr(if p.encoded.Some? then p.encoded.value else []));
        } else {
          r := None;
        }
      case TVec(e) =>
        if !p.PyTuple? && !p.PyList? { return None; }
        var items := [];
        for i := 0 to |p.items|
          invariant |items| == i && forall j | 0 <= j < i :: Reads(e, p.items[j], Some(items[j]))
        {
          var item := ToCpp(e, p.items[i]);
          if item.None? { return None; }
          items := items + [item.value];
        }
        r := Some(CVec(items));
      case TMap(k, e) =>
        if !p.PyDict? { return None; }
        r := ReadDict(k, e, p.d);
    }
  }

  method ReadDict(k: CppType, e: CppType, d: map<PyVal, PyVal>) returns (r: Option<CppVal>)
    requires ValidType(k) && ValidType(e)
    ensures Reads(TMap(k, e), PyDict(d), r)
    decreases TMap(k, e), 1
  {
    hide Reads, ValidType, ReadSoFar;
    var m := map[];
    var rest := d.Keys;
    NothingRead(k, e, d);
    while rest != {}
      invariant rest <= d.Keys && ReadSoFar(k, e, d, rest, m)
      decreases |rest|
    {
      var x :| x in rest;
      var entry := ReadEntry(k, e, d, x);
      if entry.None? { return None; }
      DictStep(k, e, d, rest, m, x, entry.value.0, entry.value.1, m[entry.value.0 := entry.value.1]);
      m := m[entry.value.0 := entry.value.1];
      rest := rest - {x};
    }
    DictReads(k, e, d, m);
    r := Some(CMap(m));
  }

  /** One entry: the key first, then the value. */
  method ReadEntry(k: CppType, e: CppType, d: map<PyVal, PyVal>, x: PyVal) returns (r: Option<(CppVal, CppVal)>)
    requires ValidType(k) && ValidType(e) && x in d
    ensures r.Some? ==> Reads(k, x, Some(r.value.0)) && Reads(e, d[x], Some(r.value.1))
    ensures r.None? ==> Reads(TMap(k, e), PyDict(d), None)
    decreases TMap(k, e), 0
  {
    hide Reads, ValidType;
    DictFails(k, e, d, x);
    var key := ToCpp(k, x);
    if key.None? { return None; }
    var value := ToCpp(e, d[x]);
    if value.None? { return None; }
    r := Some((key.value, value.value));
  }

  /** The map built when all but some keys of the dictionary have been read. */
  ghost predicate ReadSoFar(k: CppType, e: CppType, d: map<PyVal, PyVal>, rest: set<PyVal>, m: map<CppVal, CppVal>)
    requires ValidType(k) && ValidType(e)
  {
    && (forall x | x in d && x !in rest :: KeyGiven(k, e, x, d[x], m))
    && (forall y | y in m :: EntryGiven(k, e, d, y, m[y]))
  }

  lemma NothingRead(k: CppType, e: CppType, d: map<PyVal, PyVal>)
    requires ValidType(k) && ValidType(e)
    ensures ReadSoFar(k, e, d, d.Keys, map[])
  {
  }

  lemma KeyValuePick(k: CppType, e: CppType, x: PyVal, p: PyVal, m: map<CppVal, CppVal>) returns (y: CppVal, v: CppVal)
    requires ValidType(k) && ValidType(e) && KeyGiven(k, e, x, p, m)
    ensures y in m && Reads(k, x, Some(y)) && Reads(e, p, Some(v))
  {
    hide Reads, ValidType;
    y :| y in m && Reads(k, x, Some(y));
    v :| Reads(e, p, Some(v));
  }

  lemma KeyIs(k: CppType, e: CppType, z: PyVal, p: PyVal, m: map<CppVal, CppVal>, y: CppVal, v: CppVal)
    requires ValidType(k) && ValidType(e) && y in m && Reads(k, z, Some(y)) && Reads(e, p, Some(v))
    ensures KeyGiven(k, e, z, p, m)
  {
    hide Reads, ValidType;
  }

  lemma KeyStays(k: CppType, e: CppType, z: PyVal, p: PyVal, m: map<CppVal, CppVal>, y: CppVal, v: CppVal)
    requires ValidType(k) && ValidType(e)
    requires KeyGiven(k, e, z, p, m) || (Reads(k, z, Some(y)) && Reads(e, p, Some(v)))
    ensures KeyGiven(k, e, z, p, m[y := v])
  {
    hide Reads, ValidType, KeyGiven;
    if KeyGiven(k, e, z, p, m) {
      var w, u := KeyValuePick(k, e, z, p, m);
      KeyIs(k, e, z, p, m[y := v], w, u);
    } else {
      KeyIs(k, e, z, p, m[y := v], y, v);
    }
  }

  lemma EntryIs(k: CppType, e: CppType, d: map<PyVal, PyVal>, x: PyVal, y: CppVal, v: CppVal)
    requires ValidType(k) && ValidType(e) && x in d && Reads(k, x, Some(y)) && Reads(e, d[x], Some(v))
    ensures EntryGiven(k, e, d, y, v)
  {
    hide Reads, ValidType;
  }

  lemma DictStep(k: CppType, e: CppType, d: map<PyVal, PyVal>, rest: set<PyVal>, m: map<CppVal, CppVal>,
                 x: PyVal, y: CppVal, v: CppVal, n: map<CppVal, CppVal>)
    requires ValidType(k) && ValidType(e) && x in d && n == m[y := v] && ReadSoFar(k, e, d, rest, m)
    requires Reads(k, x, Some(y)) && Reads(e, d[x], Some(v))
    ensures ReadSoFar(k, e, d, rest - {x}, n)
  {
    hide Reads, ValidType, KeyGiven, EntryGiven;
    forall z | z in d && z !in rest - {x} ensures KeyGiven(k, e, z, d[z], n) { KeyStays(k, e, z, d[z], m, y, v); }
    EntryIs(k, e, d, x, y, v);
  }

  lemma DictFails(k: CppType, e: CppType, d: map<PyVal, PyVal>, x: PyVal)
    requires ValidType(k) && ValidType(e) && x in d
    ensures Reads(k, x, None) || Reads(e, d[x], None) ==> Reads(TMap(k, e), PyDict(d), None)
  {
  }

  /** A dictionary reads as a map when its keys and the map's correspond, and so do their values. */
  lemma DictReads(k: CppType, e: CppType, d: map<PyVal, PyVal>, m: map<CppVal, CppVal>)
    requires ValidType(k) && ValidType(e)
    ensures Reads(TMap(k, e), PyDict(d), Some(CMap(m))) <==> ReadSoFar(k, e, d, {}, m)
  {
    hide KeyGiven, EntryGiven, ValidType;
  }

  lemma DictReadsMap(k: CppType, e: CppType, d: map<PyVal, PyVal>, r: Option<CppVal>)
    requires ValidType(k) && ValidType(e) && Reads(TMap(k, e), PyDict(d), r)
    ensures r.None? ==> exists x :: x in d && (Reads(k, x, None) || Reads(e, d[x], None))
    ensures r.Some? ==> r.value.CMap?
  {
  }

  // ----- What survives a round trip -----

  /** The value without the entries of maps whose keys are vectors or maps. */
  function Kept(t: CppType, v: CppVal): (w: CppVal)
    requires ValidType(t) && HasType(t, v)
    decreases t
  {
    match t
    case TVec(e) => CVec(seq(|v.items|, i requires 0 <= i < |v.items| => Kept(e, v.items[i])))
    case TMap(k, r) => if Scalar(k) then CMap(map x | x in v.m :: Kept(r, v.m[x])) else CMap(map[])
    case _ => v
  }

  /** No map inside has both a container for key type and an entry. */
  predicate Keeps(t: CppType, v: CppVal)
    requires ValidType(t) && HasType(t, v)
    decreases t
  {
    match t
    case TVec(e) => forall i | 0 <= i < |v.items| :: Keeps(e, v.items[i])
    case TMap(k, r) => if Scalar(k) then forall x | x in v.m :: Keeps(r, v.m[x]) else v.m == map[]
    case _ => true
  }

  lemma {:induction false} KeptIff(t: CppType, v: CppVal)
    requires ValidType(t) && HasType(t, v)
    ensures Kept(t, v) == v <==> Keeps(t, v)
    decreases t
  {
    match t
    case TVec(e) =>
      forall i | 0 <= i < |v.items| ensures Kept(e, v.items[i]) == v.items[i] <==> Keeps(e, v.items[i]) { KeptIff(e, v.items[i]); }
      if Keeps(t, v) { assert Kept(t, v).items == v.items; }
    case TMap(k, r) =>
      forall x | x in v.m ensures Kept(r, v.m[x]) == v.m[x] <==> Keeps(r, v.m[x]) { KeptIff(r, v.m[x]); }
      if Scalar(k) {
        if Keeps(t, v) { assert Kept(t, v).m == v.m; }
        if Kept(t, v) == v { assert forall x | x in v.m :: Kept(t, v).m[x] == v.m[x]; }
      }
    case _ =>
  }

  lemma ScalarRead(t: CppType, v: CppVal, r: Option<CppVal>)
    requires ValidType(t) && HasType(t, v) && Scalar(t)
    ensures Reads(t, ScalarToPy(t, v), r) <==> r == Some(v)
  {
    if t.TInt? { BackFromLong(t.bits, t.signed, v.n); }
  }

  /** Whatever order dictionaries are walked in, to-C++ after to-Python keeps exactly that. */
  lemma {:induction false} RoundTrip(t: CppType, v: CppVal, r: Option<CppVal>)
    requires ValidType(t) && HasType(t, v) && Reads(t, ToPy(t, v), r)
    ensures r == Some(Kept(t, v))
    decreases t
  {
    match t
    case TVec(e) =>
      var items := ToPy(t, v).items;
      if r == None {
        var i :| 0 <= i < |items| && Reads(e, items[i], None);
        RoundTrip(e, v.items[i], None);
      } else {
        forall i | 0 <= i < |items| ensures r.value.items[i] == Kept(t, v).items[i] {
          RoundTrip(e, v.items[i], Some(r.value.items[i]));
        }
        assert r.value.items == Kept(t, v).items;
      }
    case TMap(k, e) =>
      if Scalar(k) {
        DictRoundTrip(k, e, v.m, r);
      } else {
        if r.Some? { assert r.value.m == map[]; }
      }
    case _ => ScalarRead(t, v, r);
  }

  lemma KeyBack(k: CppType, e: CppType, x: CppVal, p: PyVal, m: map<CppVal, CppVal>)
    requires ValidType(k) && ValidType(e) && Scalar(k) && HasType(k, x) && KeyGiven(k, e, ScalarToPy(k, x), p, m)
    ensures x in m
  {
    hide Reads, ScalarToPy, ValidType, HasType;
    var y :| y in m && Reads(k, ScalarToPy(k, x), Some(y));
    ScalarRead(k, x, Some(y));
  }

  lemma EntryPick(k: CppType, e: CppType, d: map<PyVal, PyVal>, y: CppVal, w: CppVal) returns (p: PyVal)
    requires ValidType(k) && ValidType(e) && EntryGiven(k, e, d, y, w)
    ensures p in d && Reads(k, p, Some(y)) && Reads(e, d[p], Some(w))
  {
    hide Reads, ValidType;
    p :| p in d && Reads(k, p, Some(y)) && Reads(e, d[p], Some(w));
  }

  lemma EntryBack(k: CppType, e: CppType, m: map<CppVal, CppVal>, y: CppVal, w: CppVal)
    requires ValidType(k) && ValidType(e) && Scalar(k) && HasType(TMap(k, e), CMap(m))
    requires EntryGiven(k, e, DictOf(k, e, m, m.Keys), y, w)
    ensures y in m && HasType(e, m[y]) && Reads(e, ToPy(e, m[y]), Some(w))
  {
    hide Reads, ScalarToPy, ToPy, DictOf, ValidType, HasType, EntryGiven;
    var p := EntryPick(k, e, DictOf(k, e, m, m.Keys), y, w);
    var x := KeyPick(k, e, m, m.Keys, p);
    ScalarRead(k, x, Some(y));
  }

  lemma KeptEntries(k: CppType, e: CppType, m: map<CppVal, CppVal>, n: map<CppVal, CppVal>)
    requires ValidType(k) && ValidType(e) && Scalar(k) && HasType(TMap(k, e), CMap(m))
    requires n.Keys == m.Keys && forall x | x in n :: HasType(e, m[x]) && n[x] == Kept(e, m[x])
    ensures CMap(n) == Kept(TMap(k, e), CMap(m))
  {
    assert n == Kept(TMap(k, e), CMap(m)).m;
  }

  lemma {:induction false} DictRoundTrip(k: CppType, e: CppType, m: map<CppVal, CppVal>, r: Option<CppVal>)
    requires ValidType(k) && ValidType(e) && Scalar(k) && HasType(TMap(k, e), CMap(m))
    requires Reads(TMap(k, e), PyDict(DictOf(k, e, m, m.Keys)), r)
    ensures r == Some(Kept(TMap(k, e), CMap(m)))
    decreases TMap(k, e), 0
  {
    hide Reads, ToPy, ScalarToPy, DictOf, KeyGiven, EntryGiven, HasType, ValidType, Kept;
    var d := DictOf(k, e, m, m.Keys);
    DictReadsMap(k, e, d, r);
    if r == None {
      var p :| p in d && (Reads(k, p, None) || Reads(e, d[p], None));
      var x := KeyPick(k, e, m, m.Keys, p);
      ScalarRead(k, x, None);
      RoundTrip(e, m[x], None);
    } else {
      var n := r.value.m;
      DictReads(k, e, d, n);
      forall x | x in m ensures x in n {
        EntryTyped(k, e, m, x);
        assert x in m.Keys && ScalarToPy(k, x) in d;
        KeyBack(k, e, x, d[ScalarToPy(k, x)], n);
      }
      forall y | y in n ensures y in m && HasType(e, m[y]) && n[y] == Kept(e, m[y]) {
        EntryBack(k, e, m, y, n[y]);
        RoundTrip(e, m[y], Some(n[y]));
      }
      KeptEntries(k, e, m, n);
    }
  }

  /** A value comes back unchanged exactly when no map with container keys inside it has an entry. */
  lemma RoundTripIff(t: CppType, v: CppVal, r: Option<CppVal>)
    requires ValidType(t) && HasType(t, v) && Reads(t, ToPy(t, v), r)
    ensures r == Some(v) <==> Keeps(t, v)
  {
    RoundTrip(t, v, r);
    KeptIff(t, v);
  }

  /** Types without such maps. */
  predicate ScalarKeys(t: CppType) {
    match t
    case TVec(e) => ScalarKeys(e)
    case TMap(k, r) => Scalar(k) && ScalarKeys(r)
    case _ => true
  }

  /** Every value of such a type comes back unchanged. */
  lemma {:induction false} ScalarKeysKeep(t: CppType, v: CppVal)
    requires ValidType(t) && ScalarKeys(t) && HasType(t, v)
    ensures Keeps(t, v)
    decreases t
  {
    match t
    case TVec(e) => forall i | 0 <= i < |v.items| ensures Keeps(e, v.items[i]) { ScalarKeysKeep(e, v.items[i]); }
    case TMap(k, r) => forall x | x in v.m ensures Keeps(r, v.m[x]) { ScalarKeysKeep(r, v.m[x]); }
    case _ =>
  }

  /** A map from vectors comes back empty. */
  lemma VectorKeyLost(r: Option<CppVal>)
    requires Reads(TMap(TVec(TBool), TBool), ToPy(TMap(TVec(TBool), TBool), CMap(map[CVec([]) := CBool(true)])), r)
    ensures r == Some(CMap(map[]))
  {
    RoundTrip(TMap(TVec(TBool), TBool), CMap(map[CVec([]) := CBool(true)]), r);
  }

  // ----- When a converter fails -----

  /** What a converter accepts. Only the booleans' takes everything. */
  predicate Convertible(t: CppType, p: PyVal)
    requires ValidType(t)
    decreases t
  {
    match t
    case TBool => true
    case TInt(_, _) => IntegerOf(p).Some?
    case TLong => IntegerOf(p).Some?
    case TStr => TextOf(p).Some?
    case TVec(e) => (p.PyList? || p.PyTuple?) && forall i | 0 <= i < |p.items| :: Convertible(e, p.items[i])
    case TMap(k, e) => p.PyDict? && forall x | x in p.d :: Convertible(k, x) && Convertible(e, p.d[x])
  }

  /** A converter fails exactly on what it does not accept, whatever order it walks dictionaries in. */
  lemma {:induction false} ReadsIffConvertible(t: CppType, p: PyVal, r: Option<CppVal>)
    requires ValidType(t) && Reads(t, p, r)
    ensures r.Some? <==> Convertible(t, p)
    decreases t
  {
    match t
    case TVec(e) =>
      if p.PyList? || p.PyTuple? {
        if r == None {
          var i :| 0 <= i < |p.items| && Reads(e, p.items[i], None);
          ReadsIffConvertible(e, p.items[i], None);
        } else {
          forall i | 0 <= i < |p.items| ensures Convertible(e, p.items[i]) {
            ReadsIffConvertible(e, p.items[i], Some(r.value.items[i]));
          }
        }
      }
    case TMap(k, e) => if p.PyDict? { DictIffConvertible(k, e, p.d, r); }
    case _ =>
  }

  /** What a converter produces is of its type. */
  lemma {:induction false} ReadsTyped(t: CppType, p: PyVal, v: CppVal)
    requires ValidType(t) && Reads(t, p, Some(v))
    ensures HasType(t, v)
    decreases t
  {
    match t
    case TVec(e) => forall i | 0 <= i < |v.items| ensures HasType(e, v.items[i]) { ReadsTyped(e, p.items[i], v.items[i]); }
    case TMap(k, e) =>
      forall y | y in v.m ensures HasType(k, y) && HasType(e, v.m[y]) {
        var x := EntryPick(k, e, p.d, y, v.m[y]);
        ReadsTyped(k, x, y);
        ReadsTyped(e, p.d[x], v.m[y]);
      }
    case _ =>
  }

  lemma {:induction false} DictIffConvertible(k: CppType, e: CppType, d: map<PyVal, PyVal>, r: Option<CppVal>)
    requires ValidType(k) && ValidType(e) && Reads(TMap(k, e), PyDict(d), r)
    ensures r.Some? <==> forall x | x in d :: Convertible(k, x) && Convertible(e, d[x])
    decreases TMap(k, e), 0
  {
    hide Reads, ValidType, Convertible, KeyGiven, EntryGiven;
    DictReadsMap(k, e, d, r);
    if r == None {
      var x :| x in d && (Reads(k, x, None) || Reads(e, d[x], None));
      if Reads(k, x, None) { ReadsIffConvertible(k, x, None); } else { ReadsIffConvertible(e, d[x], None); }
    } else {
      DictReads(k, e, d, r.value.m);
      forall x | x in d ensures Convertible(k, x) && Convertible(e, d[x]) {
        var y, v := KeyValuePick(k, e, x, d[x], r.value.m);
        ReadsIffConvertible(k, x, Some(y));
        ReadsIffConvertible(e, d[x], Some(v));
      }
    }
  }

  // ----- The conversions spelled out -----

  /** The ranges of the integer types. */
  lemma RangesOf(n: int)
    ensures InRange(8, true, n) <==> -0x80 <= n <= 0x7f
    ensures InRange(8, false, n) <==> 0 <= n <= 0xff
    ensures InRange(16, true, n) <==> -0x8000 <= n <= 0x7fff
    ensures InRange(16, false, n) <==> 0 <= n <= 0xffff
    ensures InRange(32, true, n) <==> -0x8000_0000 <= n <= 0x7fff_ffff
    ensures InRange(32, false, n) <==> 0 <= n <= 0xffff_ffff
    ensures InRange(64, true, n) <==> -0x8000_0000_0000_0000 <= n <= 0x7fff_ffff_ffff_ffff
    ensures InRange(64, false, n) <==> 0 <= n <= 0xffff_ffff_ffff_ffff
  {
  }

  lemma Cast8(signed: bool, n: int)
    ensures (Cast(8, signed, n) - n) % 0x100 == 0
  {
    var q, u := n / 0x100, n % 0x100;
    assert n == 0x100 * q + u;
    assert (u - n) == 0x100 * (-q) && (u - 0x100 - n) == 0x100 * (-q - 1);
  }

  lemma Cast16(signed: bool, n: int)
    ensures (Cast(16, signed, n) - n) % 0x1_0000 == 0
  {
    var q, u := n / 0x1_0000, n % 0x1_0000;
    assert n == 0x1_0000 * q + u;
    assert (u - n) == 0x1_0000 * (-q) && (u - 0x1_0000 - n) == 0x1_0000 * (-q - 1);
  }

  lemma Cast32(signed: bool, n: int)
    ensures (Cast(32, signed, n) - n) % 0x1_0000_0000 == 0
  {
    var q, u := n / 0x1_0000_0000, n % 0x1_0000_0000;
    assert n == 0x1_0000_0000 * q + u;
    assert (u - n) == 0x1_0000_0000 * (-q) && (u - 0x1_0000_0000 - n) == 0x1_0000_0000 * (-q - 1);
  }

  lemma Cast64(signed: bool, n: int)
    ensures (Cast(64, signed, n) - n) % 0x1_0000_0000_0000_0000 == 0
  {
    var q, u := n / 0x1_0000_0000_0000_0000, n % 0x1_0000_0000_0000_0000;
    assert n == 0x1_0000_0000_0000_0000 * q + u;
    assert (u - n) == 0x1_0000_0000_0000_0000 * (-q) && (u - 0x1_0000_0000_0000_0000 - n) == 0x1_0000_0000_0000_0000 * (-q - 1);
  }

  /** A cast keeps the low bits. */
  lemma CastCongruent(bits: Width, signed: bool, n: int)
    ensures bits == 8 ==> (Cast(bits, signed, n) - n) % 0x100 == 0
    ensures bits == 16 ==> (Cast(bits, signed, n) - n) % 0x1_0000 == 0
    ensures bits == 32 ==> (Cast(bits, signed, n) - n) % 0x1_0000_0000 == 0
    ensures bits == 64 ==> (Cast(bits, signed, n) - n) % 0x1_0000_0000_0000_0000 == 0
  {
    hide Cast;
    Cast8(signed, n);
    Cast16(signed, n);
    Cast32(signed, n);
    Cast64(signed, n);
  }

  /**
   The Python object for a C++ value: a bool, an int with the same low 64 bits, a long, a
   string of the same bytes, a list of the items' objects in their order, or a dictionary of
   the entries' objects, which is empty if the keys are vectors or maps.
   */
  lemma ObjectOf(t: CppType, v: CppVal)
    requires ValidType(t) && HasType(t, v)
    ensures var p := ToPy(t, v);
            match t
            case TBool => p == PyBool(v.b)
            case TInt(_, _) => p.PyInt? && (p.n - v.n) % 0x1_0000_0000_0000_0000 == 0
            case TLong => p == PyLong(v.n)
            case TStr => p == PyStr(v.s)
            case TVec(e) => p.PyList? && |p.items| == |v.items| && forall i | 0 <= i < |v.items| :: p.items[i] == ToPy(e, v.items[i])
            case TMap(k, r) =>
              && p.PyDict? && (k.TVec? || k.TMap? ==> p.d == map[])
              && (!k.TVec? && !k.TMap? ==>
                    && (forall x | x in v.m :: ToPy(k, x) in p.d && p.d[ToPy(k, x)] == ToPy(r, v.m[x]))
                    && forall key | key in p.d :: exists x :: x in v.m && key == ToPy(k, x))
  {
    hide Cast, DictOf;
    match t {
      case TInt(bits, signed) => CastCongruent(64, true, v.n);
      case TMap(k, r) => if Scalar(k) { forall x | x in v.m ensures ToPy(k, x) == ScalarToPy(k, x) { ScalarHashable(k, x); } }
      case _ =>
    }
  }

  /** The integer that an object stands for, as far as a C++ integer can be made of it. */
  ghost predicate StandsFor(p: PyVal, n: int) {
    match p
    case PyInt(i) => n == i
    case PyBool(b) => n == if b then 1 else 0
    case PyLong(i) => n == if -0x8000_0000_0000_0000 <= i <= 0x7fff_ffff_ffff_ffff then i else -1
    case _ => false
  }

  /** What each scalar type reads: false is only False and None; a number that is too wide is cut; texts give their bytes. */
  lemma ScalarReads(t: CppType, p: PyVal, r: Option<CppVal>)
    requires ValidType(t) && Reads(t, p, r)
    ensures t == TBool ==> r == Some(CBool(!(p == PyBool(false) || p == PyNone)))
    ensures t == TStr ==>
              match p
              case PyStr(s) => r == Some(CStr(s))
              case PyUnicode(Some(s)) => r == Some(CStr(s))
              case PyUnicode(None) => r == Some(CStr([]))
              case _ => r == None
    ensures t == TLong ==>
              if r == None then forall n :: !StandsFor(p, n) else r.value.CInt? && StandsFor(p, r.value.n)
    ensures t.TInt? ==>
              if r == None then forall n :: !StandsFor(p, n)
              else r.value.CInt? && exists n :: StandsFor(p, n) && r.value.n == Cast(t.bits, t.signed, n)
  {
    hide Cast;
    if IntegerOf(p).Some? { assert StandsFor(p, IntegerOf(p).value); }
  }
}
