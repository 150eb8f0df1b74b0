/**
 The registry of classes for Python: one pass over the registered classes copies into
 each the methods and properties of its base that it does not have yet.
 */
module Registry {
  import opened Options

  /** A registered method or property: its name, and what it calls. */
  datatype Entry = Entry(name: string, target: nat)

  datatype Kind = Methods | Properties

  datatype ClassInfo = ClassInfo(name: string, inherits: string, methods: seq<Entry>, properties: seq<Entry>) {
    function Table(kind: Kind): seq<Entry> {
      if kind == Methods then methods else properties
    }
  }

  // ----- Tables -----

  /** The first entry for a name, which is the one that counts. */
  function Lookup(es: seq<Entry>, name: string): (e: Option<Entry>)
    ensures e.Some? ==> e.value in es && e.value.name == name
    ensures e.None? ==> forall x | x in es :: x.name != name
  {
    if es == [] then None else if es[0].name == name then Some(es[0]) else Lookup(es[1..], name)
  }

  /** A table extended by the entries of another whose names it lacks. */
  function Extend(own: seq<Entry>, base: seq<Entry>): seq<Entry>
    decreases |base|
  {
    if base == [] then own
    else Extend(if Lookup(own, base[0].name).Some? then own else own + [base[0]], base[1..])
  }

  lemma {:induction false} LookupAppend(es: seq<Entry>, e: Entry, name: string)
    ensures Lookup(es + [e], name) == if Lookup(es, name).Some? then Lookup(es, name) else if e.name == name then Some(e) else None
  {
    if es != [] {
      assert (es + [e])[1..] == es[1..] + [e];
      LookupAppend(es[1..], e, name);
    }
  }

  /** In an extended table the own entry for a name comes first, then the base's first one. */
  lemma {:induction false} LookupExtend(own: seq<Entry>, base: seq<Entry>, name: string)
    ensures Lookup(Extend(own, base), name) == if Lookup(own, name).Some? then Lookup(own, name) else Lookup(base, name)
    decreases |base|
  {
    if base != [] {
      LookupAppend(own, base[0], name);
      LookupExtend(if Lookup(own, base[0].name).Some? then own else own + [base[0]], base[1..], name);
    }
  }

  lemma {:induction false} ExtendNothing(own: seq<Entry>, base: seq<Entry>)
    requires forall e | e in base :: Lookup(own, e.name).Some?
    ensures Extend(own, base) == own
    decreases |base|
  {
    if base != [] {
      assert base[0] in base;
      ExtendNothing(own, base[1..]);
    }
  }

  lemma {:induction false} FoundInside(es: seq<Entry>, e: Entry)
    requires e in es
    ensures Lookup(es, e.name).Some?
  {
    if es[0].name != e.name { FoundInside(es[1..], e); }
  }

  lemma ExtendSelf(es: seq<Entry>)
    ensures Extend(es, es) == es
  {
    forall e | e in es ensures Lookup(es, e.name).Some? { FoundInside(es, e); }
    ExtendNothing(es, es);
  }

  // ----- Classes -----

  /** The first class of a name. */
  function Find(cs: seq<ClassInfo>, name: string): (i: Option<nat>)
    ensures i.Some? ==> i.value < |cs| && cs[i.value].name == name && forall j | 0 <= j < i.value :: cs[j].name != name
    ensures i.None? ==> forall c | c in cs :: c.name != name
  {
    if cs == [] then None
    else if cs[0].name == name then Some(0)
    else
      match Find(cs[1..], name)
      case None => None
      case Some(k) =>
        assert forall j | 0 < j < k + 1 :: cs[j] == cs[1..][j - 1];
        Some(k + 1)
  }

  /** Every base is registered; the names of classes never change. */
  predicate BasesRegistered(cs: seq<ClassInfo>) {
    forall c | c in cs :: c.inherits == "" || Find(cs, c.inherits).Some?
  }

  /** The base of class i, if it has one. */
  function Base(cs: seq<ClassInfo>, i: nat): (b: Option<nat>)
    requires BasesRegistered(cs) && i < |cs|
    ensures b.Some? ==> b.value < |cs|
  {
    if cs[i].inherits == "" then None else assert cs[i] in cs; Find(cs, cs[i].inherits)
  }

  predicate SameNames(cs: seq<ClassInfo>, ds: seq<ClassInfo>) {
    |cs| == |ds| && forall i | 0 <= i < |cs| :: cs[i].name == ds[i].name && cs[i].inherits == ds[i].inherits
  }

  lemma {:induction false} FindSame(cs: seq<ClassInfo>, ds: seq<ClassInfo>, name: string)
    requires SameNames(cs, ds)
    ensures Find(cs, name) == Find(ds, name)
  {
    if cs != [] { FindSame(cs[1..], ds[1..], name); }
  }

  lemma BaseSame(cs: seq<ClassInfo>, ds: seq<ClassInfo>)
    requires SameNames(cs, ds) && BasesRegistered(cs)
    ensures BasesRegistered(ds) && forall i: nat | i < |cs| :: Base(ds, i) == Base(cs, i)
  {
    forall name ensures Find(cs, name) == Find(ds, name) { FindSame(cs, ds, name); }
    forall d | d in ds ensures d.inherits == "" || Find(ds, d.inherits).Some? {
      var i :| 0 <= i < |ds| && ds[i] == d;
      assert cs[i] in cs;
    }
  }

  /** What one round of the pass does to class i. */
  function Inherit(cs: seq<ClassInfo>, i: nat): (ds: seq<ClassInfo>)
    requires BasesRegistered(cs) && i < |cs|
    ensures SameNames(cs, ds) && BasesRegistered(ds)
    ensures forall j | 0 <= j < |cs| && j != i :: ds[j] == cs[j]
  {
    match Base(cs, i)
    case None => cs
    case Some(b) =>
      var ds := cs[i := cs[i].(methods := Extend(cs[i].methods, cs[b].methods), properties := Extend(cs[i].properties, cs[b].properties))];
      BaseSame(cs, ds);
      ds
  }

  /** The pass up to class n. */
  function Pass(cs: seq<ClassInfo>, n: nat): (ds: seq<ClassInfo>)
    requires BasesRegistered(cs) && n <= |cs|
    ensures SameNames(cs, ds) && BasesRegistered(ds)
    ensures forall i | n <= i < |cs| :: ds[i] == cs[i]
  {
    if n == 0 then cs else Inherit(Pass(cs, n - 1), n - 1)
  }

  class PyRegistry {
    var classes: seq<ClassInfo>

    constructor (classes: seq<ClassInfo>)
      ensures this.classes == classes
    {
      this.classes := classes;
    }

    /** is_method_exist and is_property_exist. */
    static method IsEntryExist(es: seq<Entry>, name: string) returns (found: bool)
      ensures found <==> Lookup(es, name).Some?
    {
      for i := 0 to |es|
        invariant Lookup(es[i..], name) == Lookup(es, name)
      {
        assert es[i..][1..] == es[i + 1..];
        if es[i].name == name { return true; }
      }
      return false;
    }

    /** get_pyclass_info_by_name. */
    method GetPyclassInfoByName(name: string) returns (i: Option<nat>)
      ensures i == Find(classes, name)
    {
      for k := 0 to |classes|
        invariant forall j | 0 <= j < k :: classes[j].name != name
      {
        if classes[k].name == name {
          FirstFound(classes, name, k);
          return Some(k);
        }
      }
      return None;
    }

    /** One of the two loops that copy what class i lacks from the table of class b. */
    method CopyMissing(i: nat, b: nat, kind: Kind)
      requires i < |classes| && b < |classes|
      modifies this
      ensures classes == old(classes)[i := WithTable(old(classes)[i], kind,
                           Extend(old(classes)[i].Table(kind), old(classes)[b].Table(kind)))]
    {
      ghost var start, base := classes, classes[b].Table(kind);
      if b == i { ExtendSelf(base); }
      var n := 0;
      assert base[0..] == base && start[i := WithTable(start[i], kind, start[i].Table(kind))] == start;
      while n < |classes[b].Table(kind)|
        invariant n <= |base| && |classes| == |start| && classes[b].Table(kind) == base
        invariant classes == start[i := WithTable(start[i], kind, classes[i].Table(kind))]
        invariant b == i ==> classes == start
        invariant Extend(classes[i].Table(kind), base[n..]) == Extend(start[i].Table(kind), base)
        decreases |base| - n
      {
        var e := classes[b].Table(kind)[n];
        assert base[n..][0] == e && base[n..][1..] == base[n + 1..];
        if b == i { FoundInside(base, e); }
        var exists_ := IsEntryExist(classes[i].Table(kind), e.name);
        if !exists_ {
          classes := classes[i := WithTable(classes[i], kind, classes[i].Table(kind) + [e])];
        }
        n := n + 1;
      }
      assert base[n..] == [];
    }

    /** The inheritance part of init_pyclass. An unregistered base is a failed assertion there. */
    method InitPyclass()
      requires BasesRegistered(classes)
      modifies this
      ensures classes == Pass(old(classes), |old(classes)|)
    {
      hide WithTable, Extend, Find, BasesRegistered, Inherit;
      ghost var start := classes;
      for i := 0 to |classes|
        invariant |classes| == |start| && classes == Pass(start, i)
      {
        InheritBothTables(classes, i);
        if classes[i].inherits != "" {
          var base := GetPyclassInfoByName(classes[i].inherits);
          CopyMissing(i, base.value, Methods);
          CopyMissing(i, base.value, Properties);
        }
      }
    }
  }

  function WithTable(c: ClassInfo, kind: Kind, es: seq<Entry>): ClassInfo {
    if kind == Methods then c.(methods := es) else c.(properties := es)
  }

  /** The two loops together are one round. */
  lemma InheritBothTables(cs: seq<ClassInfo>, i: nat)
    requires BasesRegistered(cs) && i < |cs|
    ensures cs[i].inherits == "" ==> Inherit(cs, i) == cs
    ensures cs[i].inherits != "" ==>
              Find(cs, cs[i].inherits).Some? &&
              var b := Find(cs, cs[i].inherits).value;
              var ds := cs[i := WithTable(cs[i], Methods, Extend(cs[i].Table(Methods), cs[b].Table(Methods)))];
              Inherit(cs, i) == ds[i := WithTable(ds[i], Properties, Extend(ds[i].Table(Properties), ds[b].Table(Properties)))]
  {
    hide Extend, Find;
    assert cs[i] in cs;
  }

  lemma {:induction false} FirstFound(cs: seq<ClassInfo>, name: string, k: nat)
    requires k < |cs| && cs[k].name == name && forall j | 0 <= j < k :: cs[j].name != name
    ensures Find(cs, name) == Some(k)
  {
    var f := Find(cs, name);
    assert cs[k] in cs;
  }

  // ----- What a class lists in the end -----

  /**
   The classes whose names class i gets to see, nearest first. The chain of bases ends
   with the first one that is registered later, or is the class itself: what that one
   would inherit has not been copied into it yet.
   */
  function Chain(cs: seq<ClassInfo>, i: nat): (chain: seq<nat>)
    requires BasesRegistered(cs) && i < |cs|
    ensures chain != [] && chain[0] == i && forall j | 0 <= j < |chain| :: chain[j] < |cs|
  {
    match Base(cs, i)
    case None => [i]
    case Some(b) => if b < i then [i] + Chain(cs, b) else if b == i then [i] else [i, b]
  }

  /** The entry for a name in the nearest class that has one of its own. */
  function Nearest(cs: seq<ClassInfo>, chain: seq<nat>, kind: Kind, name: string): Option<Entry>
    requires forall j | 0 <= j < |chain| :: chain[j] < |cs|
  {
    if chain == [] then None
    else
      assert chain[0] in chain;
      var own := Lookup(cs[chain[0]].Table(kind), name);
      if own.Some? then own else Nearest(cs, chain[1..], kind, name)
  }

  /** Class i as it is when its turn is over, and ever after. */
  lemma {:induction false} PassFixed(cs: seq<ClassInfo>, i: nat, n: nat)
    requires BasesRegistered(cs) && i < n <= |cs|
    ensures Pass(cs, n)[i] == Pass(cs, i + 1)[i]
    decreases n
  {
    hide Inherit, BasesRegistered;
    if i + 1 < n { PassFixed(cs, i, n - 1); }
  }

  lemma TurnOf(cs: seq<ClassInfo>, i: nat)
    requires BasesRegistered(cs) && i < |cs|
    ensures Base(cs, i).None? ==> Pass(cs, i + 1)[i] == cs[i]
    ensures Base(cs, i).Some? ==> forall kind :: Pass(cs, i + 1)[i].Table(kind) == Extend(cs[i].Table(kind), Pass(cs, i)[Base(cs, i).value].Table(kind))
  {
    hide Extend, Find;
    BaseSame(cs, Pass(cs, i));
  }

  /**
   For every registration order: the first entry that class i lists for a name is that of
   the nearest class on its chain.
   */
  lemma {:induction false} EffectiveTable(cs: seq<ClassInfo>, i: nat, kind: Kind, name: string)
    requires BasesRegistered(cs) && i < |cs|
    ensures Lookup(Pass(cs, |cs|)[i].Table(kind), name) == Nearest(cs, Chain(cs, i), kind, name)
    decreases i
  {
    hide Pass, Extend, Find, BasesRegistered, Lookup;
    PassFixed(cs, i, |cs|);
    TurnOf(cs, i);
    var own := cs[i].Table(kind);
    match Base(cs, i)
    case None =>
      NearestStep(cs, [i], kind, name);
    case Some(b) =>
      NearestStep(cs, Chain(cs, i), kind, name);
      LookupExtend(own, Pass(cs, i)[b].Table(kind), name);
      if b < i {
        assert ([i] + Chain(cs, b))[1..] == Chain(cs, b);
        PassFixed(cs, b, i);
        PassFixed(cs, b, |cs|);
        EffectiveTable(cs, b, kind, name);
      } else {
        LaterUntouched(cs, i, b);
        if b != i { assert [i, b][1..] == [b]; NearestStep(cs, [b], kind, name); }
      }
  }

  lemma LaterUntouched(cs: seq<ClassInfo>, i: nat, b: nat)
    requires BasesRegistered(cs) && i <= b < |cs|
    ensures Pass(cs, i)[b] == cs[b]
  {
  }

  lemma NearestStep(cs: seq<ClassInfo>, chain: seq<nat>, kind: Kind, name: string)
    requires chain != [] && forall j | 0 <= j < |chain| :: chain[j] < |cs|
    ensures chain[0] < |cs|
    ensures var own := Lookup(cs[chain[0]].Table(kind), name);
            Nearest(cs, chain, kind, name) == if own.Some? then own else if |chain| == 1 then None else Nearest(cs, chain[1..], kind, name)
  {
    assert chain[0] in chain;
  }

  // ----- The ancestors of a class -----

  /** The class n bases up, if there is one. */
  function Ancestor(cs: seq<ClassInfo>, i: nat, n: nat): (a: Option<nat>)
    requires BasesRegistered(cs) && i < |cs|
    ensures a.Some? ==> a.value < |cs|
    decreases n
  {
    if n == 0 then Some(i)
    else
      match Base(cs, i)
      case None => None
      case Some(b) => Ancestor(cs, b, n - 1)
  }

  predicate HasOwn(cs: seq<ClassInfo>, c: nat, kind: Kind, name: string)
    requires c < |cs|
  {
    Lookup(cs[c].Table(kind), name).Some?
  }

  /** Class i lists the name in the end. */
  predicate Lists(cs: seq<ClassInfo>, i: nat, kind: Kind, name: string)
    requires BasesRegistered(cs) && i < |cs|
  {
    Lookup(Pass(cs, |cs|)[i].Table(kind), name).Some?
  }

  predicate AncestorHas(cs: seq<ClassInfo>, i: nat, n: nat, kind: Kind, name: string)
    requires BasesRegistered(cs) && i < |cs|
  {
    Ancestor(cs, i, n).Some? && HasOwn(cs, Ancestor(cs, i, n).value, kind, name)
  }

  lemma {:induction false} NearestSome(cs: seq<ClassInfo>, chain: seq<nat>, kind: Kind, name: string)
    requires forall j | 0 <= j < |chain| :: chain[j] < |cs|
    ensures Nearest(cs, chain, kind, name).Some? <==> exists c :: c in chain && HasOwn(cs, c, kind, name)
    decreases |chain|
  {
    if chain != [] {
      assert chain[0] in chain;
      NearestSome(cs, chain[1..], kind, name);
    }
  }

  /** The chain is a run of ancestors from the class itself. */
  lemma {:induction false} ChainAncestors(cs: seq<ClassInfo>, i: nat)
    requires BasesRegistered(cs) && i < |cs|
    ensures forall n | 0 <= n < |Chain(cs, i)| :: Ancestor(cs, i, n) == Some(Chain(cs, i)[n])
    decreases i
  {
    match Base(cs, i)
    case None =>
    case Some(b) =>
      assert forall n: nat | n > 0 :: Ancestor(cs, i, n) == Ancestor(cs, b, n - 1);
      if b < i {
        ChainAncestors(cs, b);
      } else {
        assert Ancestor(cs, b, 0) == Some(b);
      }
  }

  /** A class never lists a name that no ancestor has. */
  lemma NothingForeign(cs: seq<ClassInfo>, i: nat, kind: Kind, name: string)
    requires BasesRegistered(cs) && i < |cs| && Lists(cs, i, kind, name)
    ensures exists n: nat :: AncestorHas(cs, i, n, kind, name)
  {
    hide Pass, Lookup, HasOwn, Chain;
    EffectiveTable(cs, i, kind, name);
    NearestSome(cs, Chain(cs, i), kind, name);
    ChainAncestors(cs, i);
    var c :| c in Chain(cs, i) && HasOwn(cs, c, kind, name);
    var n :| 0 <= n < |Chain(cs, i)| && Chain(cs, i)[n] == c;
    assert AncestorHas(cs, i, n, kind, name);
  }

  /** Class i lists every name of every ancestor. */
  ghost predicate Complete(cs: seq<ClassInfo>, i: nat, kind: Kind)
    requires BasesRegistered(cs) && i < |cs|
  {
    forall n: nat, name | AncestorHas(cs, i, n, kind, name) :: Lists(cs, i, kind, name)
  }

  /** No ancestor beyond the chain has a name that the classes of the chain lack. */
  ghost predicate NothingBeyond(cs: seq<ClassInfo>, i: nat, kind: Kind)
    requires BasesRegistered(cs) && i < |cs|
  {
    forall n: nat, name | n >= |Chain(cs, i)| && AncestorHas(cs, i, n, kind, name) ::
      exists c :: c in Chain(cs, i) && HasOwn(cs, c, kind, name)
  }

  lemma ListsIffOnChain(cs: seq<ClassInfo>, i: nat, kind: Kind, name: string)
    requires BasesRegistered(cs) && i < |cs|
    ensures Lists(cs, i, kind, name) <==> exists c :: c in Chain(cs, i) && HasOwn(cs, c, kind, name)
  {
    hide Pass, Lookup, HasOwn, Chain;
    EffectiveTable(cs, i, kind, name);
    NearestSome(cs, Chain(cs, i), kind, name);
  }

  /**
   Whatever the order of registration: class i inherits everything exactly when no
   ancestor beyond the first base registered late has anything new.
   */
  lemma CompleteIff(cs: seq<ClassInfo>, i: nat, kind: Kind)
    requires BasesRegistered(cs) && i < |cs|
    ensures Complete(cs, i, kind) <==> NothingBeyond(cs, i, kind)
  {
    hide Lists, HasOwn, Chain, Ancestor;
    ChainAncestors(cs, i);
    forall name ensures Lists(cs, i, kind, name) <==> exists c :: c in Chain(cs, i) && HasOwn(cs, c, kind, name) {
      ListsIffOnChain(cs, i, kind, name);
    }
    if Complete(cs, i, kind) {
      forall n: nat, name | n >= |Chain(cs, i)| && AncestorHas(cs, i, n, kind, name)
        ensures exists c :: c in Chain(cs, i) && HasOwn(cs, c, kind, name)
      {
        assert Lists(cs, i, kind, name);
      }
    }
    if NothingBeyond(cs, i, kind) {
      forall n: nat, name | AncestorHas(cs, i, n, kind, name)
        ensures Lists(cs, i, kind, name)
      {
        if n < |Chain(cs, i)| { assert Chain(cs, i)[n] in Chain(cs, i); }
      }
    }
  }

  /** Every base comes before the classes derived from it. */
  predicate BasesFirst(cs: seq<ClassInfo>)
    requires BasesRegistered(cs)
  {
    forall i: nat | i < |cs| :: Base(cs, i).Some? ==> Base(cs, i).value < i
  }

  /** Then the chain is all of the ancestors. */
  lemma {:induction false} ChainIsAll(cs: seq<ClassInfo>, i: nat, n: nat)
    requires BasesRegistered(cs) && BasesFirst(cs) && i < |cs|
    ensures Ancestor(cs, i, n).Some? <==> n < |Chain(cs, i)|
    ensures n < |Chain(cs, i)| ==> Ancestor(cs, i, n) == Some(Chain(cs, i)[n])
    decreases i
  {
    if n > 0 && Base(cs, i).Some? { ChainIsAll(cs, Base(cs, i).value, n - 1); }
  }

  lemma {:induction false} NearestAt(cs: seq<ClassInfo>, chain: seq<nat>, kind: Kind, name: string, n: nat)
    requires forall j | 0 <= j < |chain| :: chain[j] < |cs|
    requires n < |chain| && HasOwn(cs, chain[n], kind, name) && forall j | 0 <= j < n :: !HasOwn(cs, chain[j], kind, name)
    ensures Nearest(cs, chain, kind, name) == Lookup(cs[chain[n]].Table(kind), name)
    decreases n
  {
    if n > 0 { NearestAt(cs, chain[1..], kind, name, n - 1); }
  }

  /** With bases first, every class lists exactly the names of itself and of all its ancestors, to any depth. */
  lemma EffectiveNames(cs: seq<ClassInfo>, i: nat, kind: Kind, name: string)
    requires BasesRegistered(cs) && BasesFirst(cs) && i < |cs|
    ensures Lists(cs, i, kind, name) <==> exists n: nat :: AncestorHas(cs, i, n, kind, name)
  {
    hide Lists, HasOwn, Chain, Ancestor;
    if Lists(cs, i, kind, name) { NothingForeign(cs, i, kind, name); }
    if n: nat :| AncestorHas(cs, i, n, kind, name) {
      ChainIsAll(cs, i, n);
      ListsIffOnChain(cs, i, kind, name);
      assert Chain(cs, i)[n] in Chain(cs, i);
    }
  }

  /** And the first entry it lists for a name is the nearest ancestor's. */
  lemma FirstIsNearest(cs: seq<ClassInfo>, i: nat, kind: Kind, name: string, n: nat)
    requires BasesRegistered(cs) && BasesFirst(cs) && i < |cs|
    requires AncestorHas(cs, i, n, kind, name) && forall m: nat | m < n :: !AncestorHas(cs, i, m, kind, name)
    ensures Lookup(Pass(cs, |cs|)[i].Table(kind), name) == Lookup(cs[Ancestor(cs, i, n).value].Table(kind), name)
  {
    hide Pass, Lookup, HasOwn, Chain, Ancestor, Nearest;
    forall m: nat | m <= n ensures m < |Chain(cs, i)| && Ancestor(cs, i, m) == Some(Chain(cs, i)[m]) {
      ChainIsAll(cs, i, n);
      ChainIsAll(cs, i, m);
    }
    forall j: nat | j < n ensures !HasOwn(cs, Chain(cs, i)[j], kind, name) { assert !AncestorHas(cs, i, j, kind, name); }
    EffectiveTable(cs, i, kind, name);
    NearestAt(cs, Chain(cs, i), kind, name, n);
  }

  /** Registered from the most derived class down, a class misses what its base inherits. */
  lemma LateBaseLoses()
    ensures var cs := [ClassInfo("C", "B", [], []), ClassInfo("B", "A", [], []), ClassInfo("A", "", [Entry("m", 0)], [])];
            BasesRegistered(cs) && AncestorHas(cs, 0, 2, Methods, "m") && !Lists(cs, 0, Methods, "m")
  {
    var cs := [ClassInfo("C", "B", [], []), ClassInfo("B", "A", [], []), ClassInfo("A", "", [Entry("m", 0)], [])];
    FirstFound(cs, "B", 1);
    FirstFound(cs, "A", 2);
    assert Base(cs, 0) == Some(1) && Base(cs, 1) == Some(2);
    assert Ancestor(cs, 1, 1) == Some(2);
    ListsIffOnChain(cs, 0, Methods, "m");
    assert Chain(cs, 0) == [0, 1];
  }
}
