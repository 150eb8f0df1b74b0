/** The cursor with which an extension function takes its arguments, one converter call after another. */
module Arguments {
  import opened Options
  import opened Conversion

  /** The items that can be taken: as many as are left, and convert, in turn. */
  function Taken(items: seq<PyVal>, ts: seq<CppType>): (n: nat)
    requires forall t | t in ts :: ValidType(t)
    ensures n <= |items| && n <= |ts|
    decreases |ts|
  {
    if ts == [] || items == [] then 0
    else
      assert ts[0] in ts;
      if Convertible(ts[0], items[0]) then 1 + Taken(items[1..], ts[1..]) else 0
  }

  lemma TakenStep(items: seq<PyVal>, ts: seq<CppType>, at: nat, k: nat)
    requires at <= |items| && k < |ts| && forall t | t in ts :: ValidType(t)
    ensures ts[k] in ts
    ensures Taken(items[at..], ts[k..]) ==
            if at < |items| && Convertible(ts[k], items[at]) then 1 + Taken(items[at + 1..], ts[k + 1..]) else 0
  {
    assert ts[k..][0] == ts[k] && ts[k..][1..] == ts[k + 1..];
    if at < |items| { assert items[at..][0] == items[at] && items[at..][1..] == items[at + 1..]; }
  }

  lemma TakenEnd(items: seq<PyVal>, ts: seq<CppType>, at: nat)
    ensures at <= |items| ==> Taken(items[at..], ts[|ts|..]) == 0
  {
  }

  /** Everything can be taken exactly when there are enough items and the first ones all convert. */
  lemma {:induction false} AllTaken(items: seq<PyVal>, ts: seq<CppType>)
    requires forall t | t in ts :: ValidType(t)
    ensures Taken(items, ts) == |ts| <==>
            |ts| <= |items| && forall i | 0 <= i < |ts| :: assert ts[i] in ts; Convertible(ts[i], items[i])
    ensures forall i | 0 <= i < Taken(items, ts) :: assert ts[i] in ts; Convertible(ts[i], items[i])
    decreases |ts|
  {
    if ts != [] && items != [] {
      assert ts[0] in ts;
      AllTaken(items[1..], ts[1..]);
      var n := Taken(items[1..], ts[1..]);
      forall i | 0 < i < |ts| && i < |items| ensures ts[i] == ts[1..][i - 1] && items[i] == items[1..][i - 1] {}
    }
  }

  class PyExtTool {
    /** The argument tuple, once it is known to be one. */
    var items: seq<PyVal>
    var size: nat
    var index: nat
    var err: bool
    var address: int

    ghost predicate Valid()
      reads this
    {
      !err ==> size == |items| && index <= size
    }

    /** Arguments arrive as a pair: the address of a function, which is anything that converts to a C long, and a tuple. */
    static function Packed(args: PyVal): (r: Option<(int, seq<PyVal>)>)
    {
      if args.PyTuple? && |args.items| == 2 && IsAddress(args.items[0]) && args.items[1].PyTuple? then
        Some((AddressOf(args.items[0]), args.items[1].items))
      else None
    }

    static predicate IsAddress(p: PyVal) {
      p.PyInt? || p.PyBool? || (p.PyLong? && InRange(64, true, p.big)) || (p.PyOther? && p.number.Some?)
    }

    static function AddressOf(p: PyVal): int
      requires IsAddress(p)
    {
      match p
      case PyInt(n) => n
      case PyBool(b) => if b then 1 else 0
      case PyOther(number) => number.value
      case _ => p.big
    }

    constructor (args: PyVal)
      ensures Valid() && index == 0
      ensures err <==> Packed(args).None?
      ensures !err ==> address == Packed(args).value.0 && items == Packed(args).value.1
    {
      index, err, address := 0, false, 0;
      items, size := [], 0;
      new;
      if !(args.PyTuple? && |args.items| == 2 && IsAddress(args.items[0])) {
        err := true;
        return;
      }
      address := AddressOf(args.items[0]);
      if !args.items[1].PyTuple? {
        err := true;
        return;
      }
      items := args.items[1].items;
      size := |items|;
    }

    /** parse_arg: the next item, converted. After an error nothing happens any more. */
    method ParseArg(t: CppType) returns (r: Option<CppVal>)
      requires Valid() && ValidType(t)
      modifies `index, `err
      ensures Valid()
      ensures r.Some? <==> !old(err) && old(index) < |items| && Convertible(t, items[old(index)])
      ensures err <==> r.None?
      ensures index == old(index) + if r.Some? then 1 else 0
      ensures r.Some? ==> Reads(t, items[old(index)], r) && HasType(t, r.value)
    {
      r := None;
      if !err {
        if index >= size {
          err := true;
          return;
        }
        r := ToCpp(t, items[index]);
        ReadsIffConvertible(t, items[index], r);
        if r.None? {
          err := true;
          return;
        }
        ReadsTyped(t, items[index], r.value);
        index := index + 1;
      }
    }

    /** A chain of parse_arg calls, one for each parameter of a function. */
    method ParseAll(ts: seq<CppType>) returns (vs: seq<Option<CppVal>>)
      requires Valid() && forall t | t in ts :: ValidType(t)
      modifies `index, `err
      ensures Valid() && |vs| == |ts|
      ensures old(err) ==> err && index == old(index)
      ensures !old(err) ==>
                var n := Taken(items[old(index)..], ts);
                && index == old(index) + n
                && (err <==> n < |ts|)
                && (forall i | 0 <= i < |ts| :: vs[i].Some? <==> i < n)
                && (forall i | 0 <= i < n :: assert ts[i] in ts; Reads(ts[i], items[old(index) + i], vs[i]))
    {
      hide Taken, Reads, Convertible, HasType, ValidType;
      vs := [];
      assert ts[0..] == ts;
      TakenEnd(items, ts, index);
      ghost var n := if err then 0 else Taken(items[index..], ts);
      for k := 0 to |ts|
        invariant Valid() && |vs| == k
        invariant old(err) ==> err && index == old(index)
        invariant !old(err) ==> index == old(index) + (if k < n then k else n) && (err <==> n < k)
        invariant !old(err) && !err ==> n == k + Taken(items[index..], ts[k..])
        invariant !old(err) ==> forall i | 0 <= i < k :: vs[i].Some? <==> i < n
        invariant !old(err) ==> forall i | 0 <= i < k && i < n :: assert ts[i] in ts; Reads(ts[i], items[old(index) + i], vs[i])
      {
        assert ts[k] in ts;
        if !err { TakenStep(items, ts, index, k); }
        var v := ParseArg(ts[k]);
        vs := vs + [v];
      }
      if !err { TakenEnd(items, ts, index); }
    }
  }

  /** The C long that an object converts to; one out of range does not. */
  ghost predicate ConvertsTo(p: PyVal, n: int) {
    match p
    case PyInt(i) => n == i
    case PyBool(b) => n == if b then 1 else 0
    case PyLong(i) => n == i && -0x8000_0000_0000_0000 <= i <= 0x7fff_ffff_ffff_ffff
    case PyOther(Some(i)) => n == i
    case _ => false
  }

  /** The right arguments are exactly the tuples of two: what converts to a C long, and a tuple. */
  lemma PackedPair(args: PyVal, address: int, items: seq<PyVal>)
    ensures PyExtTool.Packed(args) == Some((address, items)) <==>
            exists p :: args == PyTuple([p, PyTuple(items)]) && ConvertsTo(p, address)
  {
    if PyExtTool.Packed(args) == Some((address, items)) {
      assert args.items == [args.items[0], PyTuple(items)];
      assert ConvertsTo(args.items[0], address);
    }
  }

  /** A whole call: it succeeds exactly when the pair is right, there are enough items, and the first ones convert. */
  method TakeArguments(args: PyVal, ts: seq<CppType>) returns (ok: bool, taken: nat, vs: seq<Option<CppVal>>)
    requires forall t | t in ts :: ValidType(t)
    ensures var packed := PyExtTool.Packed(args);
            ok <==> packed.Some? && |ts| <= |packed.value.1|
                    && forall i | 0 <= i < |ts| :: assert ts[i] in ts; Convertible(ts[i], packed.value.1[i])
    ensures var packed := PyExtTool.Packed(args);
            taken == if packed.None? then 0 else Taken(packed.value.1, ts)
    ensures |vs| == |ts| && (ok ==> forall i | 0 <= i < |ts| :: vs[i].Some?)
  {
    var tool := new PyExtTool(args);
    vs := tool.ParseAll(ts);
    ok, taken := !tool.err, tool.index;
    if PyExtTool.Packed(args).Some? {
      assert tool.items[0..] == tool.items;
      AllTaken(tool.items, ts);
    }
  }
}
