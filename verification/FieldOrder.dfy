/**
 What a parse depends on: for each field, the records of that field in their order,
 and the unknown records in theirs. How records of different fields interleave makes
 no difference.
 */
module FieldOrder {
  import opened Options
  import opened Wire
  import opened Codec

  /** The records that field k claims, in order. */
  function OfField(sch: Schema, k: nat, rs: seq<Record>): (ps: seq<Record>)
    requires k < |sch.fields|
    ensures forall p | p in ps :: p in rs && Known(sch, p) && p.num == k + 1
    ensures forall r | r in rs && Known(sch, r) && r.num == k + 1 :: r in ps
  {
    if rs == [] then []
    else (if Known(sch, rs[0]) && rs[0].num == k + 1 then [rs[0]] else []) + OfField(sch, k, rs[1..])
  }

  /** The records no field claims, in order. */
  function Unclaimed(sch: Schema, rs: seq<Record>): seq<Record> {
    if rs == [] then []
    else (if Known(sch, rs[0]) then [] else [rs[0]]) + Unclaimed(sch, rs[1..])
  }

  /** One field's value after its own records, starting from v; None when one of them is malformed. */
  function Replay(t: FieldType, v: Option<Value>, rs: seq<Record>): (res: Option<Option<Value>>)
    requires v.Some? ==> Typed(t, v.value)
    requires forall r | r in rs :: ValidRecord(r) && WireType(r.payload) == WireOf(t)
    ensures res.Some? && res.value.Some? ==> Typed(t, res.value.value)
    ensures res.Some? ==> (res.value.Some? <==> v.Some? || rs != [])
    decreases |rs|
  {
    if rs == [] then Some(v)
    else
      assert rs[0] in rs && ValidRecord(rs[0]);
      match ReadField(t, v, rs[0].payload)
      case None => None
      case Some(w) => Replay(t, Some(w), rs[1..])
  }

  lemma OfFieldReplayable(sch: Schema, k: nat, rs: seq<Record>)
    requires k < |sch.fields| && ValidRecords(rs)
    ensures forall r | r in OfField(sch, k, rs) :: ValidRecord(r) && WireType(r.payload) == WireOf(sch.fields[k])
  {
  }

  /** The records of field k, replayed onto its old value. */
  function FieldAfter(sch: Schema, m: Message, rs: seq<Record>, k: nat): (res: Option<Option<Value>>)
    requires WellFormed(sch, m) && ValidRecords(rs) && k < |sch.fields|
  {
    OfFieldReplayable(sch, k, rs);
    Replay(sch.fields[k], m.fields[k], OfField(sch, k, rs))
  }

  ghost predicate AllReplay(sch: Schema, m: Message, rs: seq<Record>)
    requires WellFormed(sch, m) && ValidRecords(rs)
  {
    forall k: nat | k < |sch.fields| :: FieldAfter(sch, m, rs, k).Some?
  }

  lemma FieldAfterStep(sch: Schema, m: Message, rs: seq<Record>, k: nat)
    requires WellFormed(sch, m) && ValidRecords(rs) && rs != [] && k < |sch.fields|
    ensures ValidRecord(rs[0])
    ensures Apply(sch, m, rs[0]).Some? ==>
              FieldAfter(sch, m, rs, k) == FieldAfter(sch, Apply(sch, m, rs[0]).value, rs[1..], k)
    ensures Apply(sch, m, rs[0]).None? && rs[0].num == k + 1 ==> FieldAfter(sch, m, rs, k).None?
  {
    assert rs[0] in rs;
    var tail := OfField(sch, k, rs[1..]);
    if Known(sch, rs[0]) && rs[0].num == k + 1 {
      assert OfField(sch, k, rs) == [rs[0]] + tail && ([rs[0]] + tail)[1..] == tail;
    } else {
      assert OfField(sch, k, rs) == tail;
    }
  }

  lemma AllReplayStep(sch: Schema, m: Message, rs: seq<Record>)
    requires WellFormed(sch, m) && ValidRecords(rs) && rs != []
    ensures ValidRecord(rs[0])
    ensures Apply(sch, m, rs[0]).None? ==> !AllReplay(sch, m, rs)
    ensures Apply(sch, m, rs[0]).Some? ==> (AllReplay(sch, m, rs) <==> AllReplay(sch, Apply(sch, m, rs[0]).value, rs[1..]))
  {
    assert rs[0] in rs;
    match Apply(sch, m, rs[0])
    case None =>
      var k: nat := rs[0].num - 1;
      FieldAfterStep(sch, m, rs, k);
      assert !FieldAfter(sch, m, rs, k).Some?;
    case Some(x) =>
      forall k: nat | k < |sch.fields| ensures FieldAfter(sch, m, rs, k) == FieldAfter(sch, x, rs[1..], k) {
        FieldAfterStep(sch, m, rs, k);
      }
  }

  /** A record sequence is accepted exactly when each field's own records are. */
  lemma {:induction false} AcceptedByField(sch: Schema, m: Message, rs: seq<Record>)
    requires WellFormed(sch, m) && ValidRecords(rs)
    ensures ApplyAll(sch, m, rs).Some? <==> AllReplay(sch, m, rs)
    decreases |rs|
  {
    if rs != [] {
      AllReplayStep(sch, m, rs);
      match Apply(sch, m, rs[0])
      case None =>
      case Some(x) => AcceptedByField(sch, x, rs[1..]);
    }
  }

  /** Each field of the result is the replay of that field's own records. */
  lemma {:induction false} ResultByField(sch: Schema, m: Message, rs: seq<Record>, k: nat)
    requires WellFormed(sch, m) && ValidRecords(rs) && k < |sch.fields|
    requires ApplyAll(sch, m, rs).Some?
    ensures FieldAfter(sch, m, rs, k) == Some(ApplyAll(sch, m, rs).value.fields[k])
    decreases |rs|
  {
    if rs != [] {
      FieldAfterStep(sch, m, rs, k);
      ResultByField(sch, Apply(sch, m, rs[0]).value, rs[1..], k);
    }
  }

  /** The unclaimed records are appended to the unknown ones, in order. */
  lemma {:induction false} UnknownAppended(sch: Schema, m: Message, rs: seq<Record>)
    requires WellFormed(sch, m) && ValidRecords(rs)
    requires ApplyAll(sch, m, rs).Some?
    ensures ApplyAll(sch, m, rs).value.unknown == m.unknown + Unclaimed(sch, rs)
    decreases |rs|
  {
    if rs == [] {
      assert m.unknown + [] == m.unknown;
    } else {
      assert rs[0] in rs;
      var x := Apply(sch, m, rs[0]).value;
      UnknownAppended(sch, x, rs[1..]);
      assert x.unknown + Unclaimed(sch, rs[1..]) == m.unknown + Unclaimed(sch, rs);
    }
  }

  /** Same records for every field and the same unclaimed records. */
  ghost predicate SameByField(sch: Schema, rs: seq<Record>, qs: seq<Record>) {
    && (forall k: nat | k < |sch.fields| :: OfField(sch, k, rs) == OfField(sch, k, qs))
    && Unclaimed(sch, rs) == Unclaimed(sch, qs)
  }

  /** The order between records of different fields never matters, to acceptance or to the result. */
  lemma OrderIndependence(sch: Schema, m: Message, rs: seq<Record>, qs: seq<Record>)
    requires WellFormed(sch, m) && ValidRecords(rs) && ValidRecords(qs)
    requires SameByField(sch, rs, qs)
    ensures ApplyAll(sch, m, rs) == ApplyAll(sch, m, qs)
  {
    AcceptedByField(sch, m, rs);
    AcceptedByField(sch, m, qs);
    assert forall k: nat | k < |sch.fields| :: FieldAfter(sch, m, rs, k) == FieldAfter(sch, m, qs, k);
    if ApplyAll(sch, m, rs).Some? {
      var x, y := ApplyAll(sch, m, rs).value, ApplyAll(sch, m, qs).value;
      forall k: nat | k < |sch.fields| ensures x.fields[k] == y.fields[k] {
        ResultByField(sch, m, rs, k);
        ResultByField(sch, m, qs, k);
      }
      assert x.fields == y.fields;
      UnknownAppended(sch, m, rs);
      UnknownAppended(sch, m, qs);
    }
  }

  // ----- Permutations of distinct fields -----

  predicate DistinctFields(rs: seq<Record>) {
    forall i, j | 0 <= i < j < |rs| :: rs[i].num != rs[j].num
  }

  lemma {:induction false} OfAbsentField(sch: Schema, k: nat, rs: seq<Record>)
    requires k < |sch.fields| && forall r | r in rs :: r.num != k + 1
    ensures OfField(sch, k, rs) == []
  {
    if rs != [] {
      assert rs[0] in rs;
      OfAbsentField(sch, k, rs[1..]);
    }
  }

  lemma {:induction false} OfDistinctField(sch: Schema, k: nat, rs: seq<Record>)
    requires k < |sch.fields| && DistinctFields(rs)
    ensures |OfField(sch, k, rs)| <= 1
  {
    if rs != [] {
      if rs[0].num == k + 1 {
        OfAbsentField(sch, k, rs[1..]);
      } else {
        OfDistinctField(sch, k, rs[1..]);
      }
    }
  }

  lemma {:induction false} NoneUnclaimed(sch: Schema, rs: seq<Record>)
    requires forall r | r in rs :: Known(sch, r)
    ensures Unclaimed(sch, rs) == []
  {
    if rs != [] {
      assert rs[0] in rs;
      NoneUnclaimed(sch, rs[1..]);
    }
  }

  lemma SameSingleton(a: seq<Record>, b: seq<Record>)
    requires |a| <= 1 && |b| <= 1
    requires forall r :: r in a <==> r in b
    ensures a == b
  {
    if a != [] { assert a[0] in b; }
    if b != [] { assert b[0] in a; }
  }

  lemma SameDistinctField(sch: Schema, k: nat, rs: seq<Record>, qs: seq<Record>)
    requires k < |sch.fields| && DistinctFields(rs) && DistinctFields(qs)
    requires forall r :: r in rs <==> r in qs
    ensures OfField(sch, k, rs) == OfField(sch, k, qs)
  {
    OfDistinctField(sch, k, rs);
    OfDistinctField(sch, k, qs);
    SameSingleton(OfField(sch, k, rs), OfField(sch, k, qs));
  }

  lemma PermutationMembers(rs: seq<Record>, qs: seq<Record>)
    requires multiset(rs) == multiset(qs)
    ensures forall r :: r in rs <==> r in qs
  {
    forall r ensures r in rs <==> r in qs {
      assert r in rs <==> r in multiset(rs);
      assert r in qs <==> r in multiset(qs);
    }
  }

  /** Any permutation of the encodings of distinct declared fields parses to the same message. */
  lemma PermutedFields(sch: Schema, rs: seq<Record>, qs: seq<Record>)
    requires ValidRecords(rs) && DistinctFields(rs) && DistinctFields(qs)
    requires forall r | r in rs :: Known(sch, r)
    requires multiset(rs) == multiset(qs)
    ensures Parse(sch, EncodeRecords(rs)) == Parse(sch, EncodeRecords(qs))
  {
    PermutationMembers(rs, qs);
    forall k: nat | k < |sch.fields| ensures OfField(sch, k, rs) == OfField(sch, k, qs) {
      SameDistinctField(sch, k, rs, qs);
    }
    NoneUnclaimed(sch, rs);
    NoneUnclaimed(sch, qs);
    OrderIndependence(sch, Empty(sch), rs, qs);
    TokenizeInvertsEncode(rs);
    TokenizeInvertsEncode(qs);
  }

  // ----- Required fields -----

  /** Field k has a record of its wire type. */
  predicate Occurs(sch: Schema, rs: seq<Record>, k: nat) {
    exists r :: r in rs && Known(sch, r) && r.num == k + 1
  }

  /** Every required field has a record of its wire type. */
  ghost predicate RequiredOccur(sch: Schema, rs: seq<Record>)
    requires ValidSchema(sch)
  {
    forall k: nat | k < sch.required :: Occurs(sch, rs, k)
  }

  /** An accepted input is initialized exactly when each required field occurs in it with its wire type. */
  lemma InitializedIffRequiredOccur(sch: Schema, s: Bytes)
    requires ValidSchema(sch) && Parse(sch, s).Some?
    ensures Initialized(sch, Parse(sch, s).value) <==> RequiredOccur(sch, Tokenize(s).value)
  {
    var rs := Tokenize(s).value;
    TokenizeValid(s);
    var m := Parse(sch, s).value;
    forall k: nat | k < |sch.fields|
      ensures m.fields[k].Some? <==> Occurs(sch, rs, k)
    {
      OfFieldReplayable(sch, k, rs);
      var ps := OfField(sch, k, rs);
      ResultByField(sch, Empty(sch), rs, k);
      if ps != [] { assert ps[0] in ps; }
    }
  }

  /** Unknown records survive a parse, all of them and in order. */
  lemma UnknownSurvive(sch: Schema, s: Bytes)
    requires Parse(sch, s).Some?
    ensures Parse(sch, s).value.unknown == Unclaimed(sch, Tokenize(s).value)
  {
    TokenizeValid(s);
    UnknownAppended(sch, Empty(sch), Tokenize(s).value);
  }
}
