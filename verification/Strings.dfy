/** The in-place replacement of every occurrence of a pattern in a string. */
module Strings {
  import opened Wire

  predicate OccursAt(s: Bytes, p: Bytes, i: nat) {
    i <= |s| && p <= s[i..]
  }

  ghost predicate OccursNowhere(s: Bytes, p: Bytes, from: nat, to: nat) {
    forall i: nat | from <= i < to :: !OccursAt(s, p, i)
  }

  /** Greedy leftmost substitution, reading the string once from the left. */
  function Subst(s: Bytes, p: Bytes, q: Bytes): Bytes
    requires p != []
    decreases |s|
  {
    if p <= s then q + Subst(s[|p|..], p, q)
    else if s == [] then []
    else [s[0]] + Subst(s[1..], p, q)
  }

  class StringBuffer {
    var text: Bytes

    constructor (text: Bytes)
      ensures this.text == text
    {
      this.text := text;
    }

    /** std::string::find: the first occurrence at or after a position, or none. */
    method Find(p: Bytes, from: nat) returns (found: bool, at: nat)
      requires from <= |text|
      ensures from <= at <= |text| && OccursNowhere(text, p, from, at)
      ensures if found then OccursAt(text, p, at) else OccursNowhere(text, p, from, |text| + 1)
    {
      at := from;
      while at + |p| <= |text|
        invariant from <= at <= |text| && OccursNowhere(text, p, from, at)
      {
        assert OccursAt(text, p, at) <==> text[at..at + |p|] == p;
        if text[at..at + |p|] == p { return true, at; }
        if at == |text| { return false, at; }
        at := at + 1;
      }
      return false, at;
    }

    /** replace_all. The pattern must not be empty: an empty one is found for ever. */
    method ReplaceAll(p: Bytes, q: Bytes)
      requires p != []
      modifies this
      ensures text == Subst(old(text), p, q)
    {
      hide Subst, OccursAt, OccursNowhere;
      var pos := 0;
      ghost var rest := text;
      assert [] + Subst(text, p, q) == Subst(text, p, q);
      var found, at := Find(p, pos);
      while found
        invariant pos <= at <= |text| && rest == text[pos..]
        invariant text[..pos] + Subst(rest, p, q) == Subst(old(text), p, q)
        invariant OccursNowhere(text, p, pos, at)
        invariant if found then OccursAt(text, p, at) else OccursNowhere(text, p, pos, |text| + 1)
        decreases |rest|, found
      {
        ghost var was := text;
        FromOffset(text, p, pos, at);
        OccursFits(text, p, at);
        SubstSkips(rest, p, q, at - pos);
        ReplaceStep(text, p, q, pos, at);
        text := text[..at] + q + text[at + |p|..];
        pos := at + |q|;
        rest := text[pos..];
        found, at := Find(p, pos);
      }
      FromOffset(text, p, pos, |text|);
      SubstNowhere(rest, p, q);
      assert text[..pos] + text[pos..] == text;
    }
  }

  lemma OccursFits(s: Bytes, p: Bytes, i: nat)
    requires OccursAt(s, p, i)
    ensures i + |p| <= |s|
  {
  }

  lemma ReplaceStep(s: Bytes, p: Bytes, q: Bytes, pos: nat, at: nat)
    requires p != [] && pos <= at && at + |p| <= |s|
    requires Subst(s[pos..], p, q) == s[pos..][..at - pos] + Subst(s[pos..][at - pos..], p, q)
    requires OccursAt(s, p, at)
    ensures var t := s[..at] + q + s[at + |p|..];
            && t[at + |q|..] == s[at + |p|..]
            && s[..pos] + Subst(s[pos..], p, q) == t[..at + |q|] + Subst(t[at + |q|..], p, q)
  {
    hide Subst;
    var t := s[..at] + q + s[at + |p|..];
    assert s[pos..][at - pos..] == s[at..];
    SubstMatch(s[at..], p, q);
    assert s[at..][|p|..] == s[at + |p|..] == t[at + |q|..];
    assert s[..pos] + s[pos..][..at - pos] == s[..at] && t[..at + |q|] == s[..at] + q;
    Wire.Assoc(s[..pos], s[pos..][..at - pos], Subst(s[at..], p, q));
    Wire.Assoc(s[..at], q, Subst(s[at + |p|..], p, q));
  }

  lemma SubstMatch(s: Bytes, p: Bytes, q: Bytes)
    requires p != [] && p <= s
    ensures Subst(s, p, q) == q + Subst(s[|p|..], p, q)
  {
  }

  lemma SubstMiss(s: Bytes, p: Bytes, q: Bytes)
    requires s != [] && p != [] && !(p <= s)
    ensures Subst(s, p, q) == [s[0]] + Subst(s[1..], p, q)
  {
  }

  lemma ShiftOccurrence(s: Bytes, p: Bytes, k: nat, i: nat)
    requires k <= |s| && k <= i
    ensures OccursAt(s, p, i) <==> OccursAt(s[k..], p, i - k)
  {
    if i <= |s| { assert s[k..][i - k..] == s[i..]; }
  }

  lemma FromOffset(s: Bytes, p: Bytes, k: nat, n: nat)
    requires k <= n <= |s|
    ensures OccursNowhere(s, p, k, n) ==> OccursNowhere(s[k..], p, 0, n - k)
    ensures OccursNowhere(s, p, k, n + 1) ==> OccursNowhere(s[k..], p, 0, n - k + 1)
  {
    forall i: nat ensures OccursAt(s, p, k + i) <==> OccursAt(s[k..], p, i) { ShiftOccurrence(s, p, k, k + i); }
  }

  /** Up to the first occurrence nothing changes. */
  lemma {:induction false} SubstSkips(s: Bytes, p: Bytes, q: Bytes, n: nat)
    requires p != [] && n <= |s| && OccursNowhere(s, p, 0, n)
    ensures Subst(s, p, q) == s[..n] + Subst(s[n..], p, q)
    decreases n
  {
    hide Subst;
    if n == 0 {
      assert s[n..] == s && s[..n] == [] && [] + Subst(s, p, q) == Subst(s, p, q);
    } else {
      assert !OccursAt(s, p, 0) && s[0..] == s;
      SubstMiss(s, p, q);
      FromOffset(s, p, 1, n);
      SubstSkips(s[1..], p, q, n - 1);
      assert s[1..][n - 1..] == s[n..] && [s[0]] + s[1..][..n - 1] == s[..n];
      Wire.Assoc([s[0]], s[1..][..n - 1], Subst(s[n..], p, q));
    }
  }

  lemma SubstNowhere(s: Bytes, p: Bytes, q: Bytes)
    requires p != [] && OccursNowhere(s, p, 0, |s| + 1)
    ensures Subst(s, p, q) == s
  {
    SubstSkips(s, p, q, |s|);
    assert s[|s|..] == [] && s[..|s|] == s;
  }

  // ----- What the substitution is: cut at the occurrences, join with the replacement -----

  /** The pieces between the occurrences that a scan from the left finds. */
  function Split(s: Bytes, p: Bytes): (pieces: seq<Bytes>)
    requires p != []
    ensures pieces != []
    decreases |s|
  {
    if p <= s then [[]] + Split(s[|p|..], p)
    else if s == [] then [[]]
    else
      var rest := Split(s[1..], p);
      [[s[0]] + rest[0]] + rest[1..]
  }

  function Join(pieces: seq<Bytes>, glue: Bytes): Bytes
    requires pieces != []
  {
    if |pieces| == 1 then pieces[0] else pieces[0] + glue + Join(pieces[1..], glue)
  }

  /**
   The pattern does not occur in what is left of the string before the end of the piece
   that was cut off it, and not at all in the last piece.
   */
  ghost predicate CutLeftmost(pieces: seq<Bytes>, p: Bytes)
    requires pieces != []
  {
    OccursNowhere(Join(pieces, p), p, 0, if |pieces| == 1 then |pieces[0]| + 1 else |pieces[0]|)
    && (|pieces| > 1 ==> CutLeftmost(pieces[1..], p))
  }

  lemma JoinCut(pieces: seq<Bytes>, glue: Bytes)
    requires pieces != []
    ensures Join([[]] + pieces, glue) == glue + Join(pieces, glue)
  {
    assert ([[]] + pieces)[1..] == pieces;
    assert [] + glue == glue;
  }

  lemma JoinLonger(x: Bytes, pieces: seq<Bytes>, glue: Bytes)
    requires pieces != []
    ensures Join([x + pieces[0]] + pieces[1..], glue) == x + Join(pieces, glue)
  {
    if |pieces| > 1 {
      assert ([x + pieces[0]] + pieces[1..])[1..] == pieces[1..];
      Wire.Assoc(x, pieces[0], glue);
      Wire.Assoc(x, pieces[0] + glue, Join(pieces[1..], glue));
    }
  }

  /** The pieces joined with the pattern are the string; joined with the replacement they are the result. */
  lemma {:induction false} SubstIsJoin(s: Bytes, p: Bytes, q: Bytes)
    requires p != []
    ensures Join(Split(s, p), p) == s
    ensures Join(Split(s, p), q) == Subst(s, p, q)
    decreases |s|
  {
    hide Join;
    if p <= s {
      SubstIsJoin(s[|p|..], p, q);
      JoinCut(Split(s[|p|..], p), p);
      JoinCut(Split(s[|p|..], p), q);
      assert p + s[|p|..] == s;
    } else if s == [] {
      JoinOne([], p);
      JoinOne([], q);
    } else {
      SubstIsJoin(s[1..], p, q);
      JoinLonger([s[0]], Split(s[1..], p), p);
      JoinLonger([s[0]], Split(s[1..], p), q);
      assert [s[0]] + s[1..] == s;
    }
  }

  lemma JoinOne(x: Bytes, glue: Bytes)
    ensures Join([x], glue) == x
  {
  }

  /** No earlier cut was possible anywhere. */
  lemma {:induction false} SplitIsLeftmost(s: Bytes, p: Bytes)
    requires p != []
    ensures CutLeftmost(Split(s, p), p)
    decreases |s|
  {
    hide Join;
    SubstIsJoin(s, p, p);
    if p <= s {
      SplitIsLeftmost(s[|p|..], p);
      assert ([[]] + Split(s[|p|..], p))[1..] == Split(s[|p|..], p);
    } else if s == [] {
      assert OccursNowhere(s, p, 0, 1);
    } else {
      var rest := Split(s[1..], p);
      SplitIsLeftmost(s[1..], p);
      SubstIsJoin(s[1..], p, p);
      assert ([[s[0]] + rest[0]] + rest[1..])[1..] == rest[1..];
      assert s[0..] == s;
      assert !OccursAt(s, p, 0);
      forall i: nat | 1 <= i ensures OccursAt(s, p, i) <==> OccursAt(s[1..], p, i - 1) { ShiftOccurrence(s, p, 1, i); }
    }
  }

  lemma FirstPiece(pieces: seq<Bytes>, p: Bytes)
    requires pieces != []
    ensures |pieces| > 1 && pieces[0] == [] ==> Join(pieces, p) == p + Join(pieces[1..], p)
    ensures pieces[0] != [] ==>
              Join(pieces, p) != [] && Join(pieces, p)[0] == pieces[0][0]
              && Join(pieces, p)[1..] == Join([pieces[0][1..]] + pieces[1..], p)
  {
    if |pieces| > 1 && pieces[0] == [] { assert [] + p == p; }
    if pieces[0] != [] {
      var shorter := [pieces[0][1..]] + pieces[1..];
      JoinLonger(pieces[0][..1], shorter, p);
      assert pieces[0][..1] + shorter[0] == pieces[0] && [pieces[0]] + shorter[1..] == pieces;
    }
  }

  /** Only one way of cutting a string is leftmost. */
  lemma {:induction false} CutUnique(pieces: seq<Bytes>, p: Bytes)
    requires p != [] && pieces != [] && CutLeftmost(pieces, p)
    ensures Split(Join(pieces, p), p) == pieces
    decreases |pieces|, |pieces[0]|
  {
    hide Join;
    var s := Join(pieces, p);
    FirstPiece(pieces, p);
    assert s[0..] == s;
    if pieces[0] != [] {
      var shorter := [pieces[0][1..]] + pieces[1..];
      assert !OccursAt(s, p, 0);
      forall i: nat ensures OccursAt(s[1..], p, i) <==> OccursAt(s, p, i + 1) { ShiftOccurrence(s, p, 1, i + 1); }
      assert shorter[1..] == pieces[1..];
      CutUnique(shorter, p);
      assert [[s[0]] + shorter[0]] + shorter[1..] == pieces by { assert [s[0]] + pieces[0][1..] == pieces[0]; }
    } else if |pieces| > 1 {
      assert s[|p|..] == Join(pieces[1..], p);
      CutUnique(pieces[1..], p);
      assert [[]] + pieces[1..] == pieces;
    } else {
      assert pieces == [[]];
      JoinOne([], p);
    }
  }

  // ----- Deleting characters -----

  function Without(s: Bytes, drop: set<Byte>): (r: Bytes) {
    if s == [] then [] else (if s[0] in drop then [] else [s[0]]) + Without(s[1..], drop)
  }

  lemma {:induction false} DeleteOne(s: Bytes, c: Byte)
    ensures Subst(s, [c], []) == Without(s, {c})
  {
    if s != [] {
      assert [c] <= s <==> s[0] == c;
      DeleteOne(s[1..], c);
    }
  }

  lemma {:induction false} WithoutTwice(s: Bytes, a: set<Byte>, b: set<Byte>)
    ensures Without(Without(s, a), b) == Without(s, a + b)
  {
    if s != [] {
      WithoutTwice(s[1..], a, b);
      var t := Without(s[1..], a);
      if s[0] in a {
        assert Without(s, a) == t;
      } else {
        assert Without(s, a) == [s[0]] + t && ([s[0]] + t)[1..] == t;
      }
    }
  }

  const CARRIAGE_RETURN: Byte := 13
  const LINE_FEED: Byte := 10

  /** Deleting carriage returns, then line feeds, keeps exactly the other characters, in order. */
  lemma LineBreaksDeleted(s: Bytes)
    ensures Subst(Subst(s, [CARRIAGE_RETURN], []), [LINE_FEED], []) == Without(s, {CARRIAGE_RETURN, LINE_FEED})
  {
    DeleteOne(s, CARRIAGE_RETURN);
    DeleteOne(Without(s, {CARRIAGE_RETURN}), LINE_FEED);
    WithoutTwice(s, {CARRIAGE_RETURN}, {LINE_FEED});
    assert {CARRIAGE_RETURN} + {LINE_FEED} == {CARRIAGE_RETURN, LINE_FEED};
  }
}
