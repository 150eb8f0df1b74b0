/** The 32-bit word in which a message keeps one presence bit for each of its fields. */
module HasBits {
  const MAX_FIELDS: nat := 15

  function Bit(i: nat): bv32
    requires i < 16
  {
    match i
    case 0 => 0x1 case 1 => 0x2 case 2 => 0x4 case 3 => 0x8
    case 4 => 0x10 case 5 => 0x20 case 6 => 0x40 case 7 => 0x80
    case 8 => 0x100 case 9 => 0x200 case 10 => 0x400 case 11 => 0x800
    case 12 => 0x1000 case 13 => 0x2000 case 14 => 0x4000 case _ => 0x8000
  }

  predicate Has(h: bv32, i: nat)
    requires i < 16
  {
    h & Bit(i) != 0
  }

  function Set(h: bv32, i: nat): bv32
    requires i < 16
  {
    h | Bit(i)
  }

  function Unset(h: bv32, i: nat): bv32
    requires i < 16
  {
    h & !Bit(i)
  }

  lemma BitsDisjoint(i: nat, j: nat)
    requires i < 16 && j < 16 && i != j
    ensures Bit(i) & Bit(j) == 0
  {
  }

  lemma OrDisjoint(h: bv32, a: bv32, b: bv32)
    ensures a & b == 0 ==> (h | a) & b == h & b
  {
  }

  lemma AndNotDisjoint(h: bv32, a: bv32, b: bv32)
    ensures a & b == 0 ==> (h & !a) & b == h & b
  {
  }

  lemma OrSame(h: bv32, a: bv32)
    ensures (h | a) & a == a
    ensures (h & !a) & a == 0
  {
  }

  lemma BitNonZero(i: nat)
    requires i < 16
    ensures Bit(i) != 0
  {
  }

  lemma SetOther(h: bv32, i: nat, j: nat)
    requires i < 16 && j < 16 && i != j
    ensures Set(h, i) & Bit(j) == h & Bit(j)
  {
    BitsDisjoint(i, j);
    OrDisjoint(h, Bit(i), Bit(j));
  }

  lemma UnsetOther(h: bv32, i: nat, j: nat)
    requires i < 16 && j < 16 && i != j
    ensures Unset(h, i) & Bit(j) == h & Bit(j)
  {
    BitsDisjoint(i, j);
    AndNotDisjoint(h, Bit(i), Bit(j));
  }

  /** Setting a bit sets that bit and no other. */
  lemma HasSet(h: bv32, i: nat, j: nat)
    requires i < 16 && j < 16
    ensures Has(Set(h, i), j) <==> i == j || Has(h, j)
  {
    if i == j {
      OrSame(h, Bit(i));
      BitNonZero(i);
    } else {
      SetOther(h, i, j);
    }
  }

  /** Clearing a bit clears that bit and no other. */
  lemma HasUnset(h: bv32, i: nat, j: nat)
    requires i < 16 && j < 16
    ensures Has(Unset(h, i), j) <==> i != j && Has(h, j)
  {
    if i == j {
      OrSame(h, Bit(i));
    } else {
      UnsetOther(h, i, j);
    }
  }

  lemma HasSetAll(h: bv32, k: nat)
    requires k < 16
    ensures forall i: nat | i < 16 :: Has(Set(h, k), i) <==> i == k || Has(h, i)
  {
    forall i: nat | i < 16 ensures Has(Set(h, k), i) <==> i == k || Has(h, i) { HasSet(h, k, i); }
  }

  lemma HasUnsetAll(h: bv32, k: nat)
    requires k < 16
    ensures forall i: nat | i < 16 :: Has(Unset(h, k), i) <==> i != k && Has(h, i)
  {
    forall i: nat | i < 16 ensures Has(Unset(h, k), i) <==> i != k && Has(h, i) { HasUnset(h, k, i); }
  }

  /** The mask of a group of eight fields tells whether any bit of the group is set. */
  lemma LowGroupMask(h: bv32)
    ensures h & 0xff == 0 <==> forall i: nat | i < 8 :: !Has(h, i)
  {
    if forall i: nat | i < 8 :: !Has(h, i) {
      assert !Has(h, 0) && !Has(h, 1) && !Has(h, 2) && !Has(h, 3);
      assert !Has(h, 4) && !Has(h, 5) && !Has(h, 6) && !Has(h, 7);
    }
  }

  lemma HighGroupMask(h: bv32)
    ensures h & 0xff00 == 0 <==> forall i: nat | 8 <= i < 16 :: !Has(h, i)
  {
    if forall i: nat | 8 <= i < 16 :: !Has(h, i) {
      assert !Has(h, 8) && !Has(h, 9) && !Has(h, 10) && !Has(h, 11);
      assert !Has(h, 12) && !Has(h, 13) && !Has(h, 14) && !Has(h, 15);
    }
  }

  /** The mask that IsInitialized tests when the first k fields are the required ones. */
  function RequiredMask(k: nat): bv32
    requires k <= 4
  {
    match k
    case 0 => 0x0 case 1 => 0x1 case 2 => 0x3 case 3 => 0x7 case _ => 0xf
  }

  predicate HasFirst(h: bv32, k: nat)
    requires k <= 4
  {
    k == 0 || (HasFirst(h, k - 1) && Has(h, k - 1))
  }

  lemma {:induction false} HasFirstAll(h: bv32, k: nat)
    requires k <= 4
    ensures HasFirst(h, k) <==> forall i: nat | i < k :: Has(h, i)
  {
    hide Has;
    if k > 0 { HasFirstAll(h, k - 1); }
  }

  lemma Mask0(h: bv32)
    ensures h & 0x0 == 0x0
  {
  }

  lemma Mask1(h: bv32)
    ensures h & 0x1 == 0x1 <==> HasFirst(h, 1)
  {
  }

  lemma Mask3(h: bv32)
    ensures h & 0x3 == 0x3 <==> HasFirst(h, 2)
  {
    Mask1(h);
    assert h & 0x3 == 0x3 <==> h & 0x1 == 0x1 && h & 0x2 != 0;
  }

  lemma Mask7(h: bv32)
    ensures h & 0x7 == 0x7 <==> HasFirst(h, 3)
  {
    Mask3(h);
    assert h & 0x7 == 0x7 <==> h & 0x3 == 0x3 && h & 0x4 != 0;
  }

  lemma Mask15(h: bv32)
    ensures h & 0xf == 0xf <==> HasFirst(h, 4)
  {
    Mask7(h);
    assert h & 0xf == 0xf <==> h & 0x7 == 0x7 && h & 0x8 != 0;
  }

  lemma MaskTestCases(h: bv32, k: nat)
    requires k <= 4
    ensures h & RequiredMask(k) == RequiredMask(k) <==> HasFirst(h, k)
  {
    match k
    case 0 => Mask0(h);
    case 1 => Mask1(h);
    case 2 => Mask3(h);
    case 3 => Mask7(h);
    case _ => Mask15(h);
  }

  predicate PassesMask(h: bv32, k: nat)
    requires k <= 4
  {
    h & RequiredMask(k) == RequiredMask(k)
  }

  /** The mask test passes exactly when every required bit is set. */
  lemma MaskTest(h: bv32, k: nat)
    requires k <= 4
    ensures PassesMask(h, k) <==> forall i: nat | i < k :: Has(h, i)
  {
    MaskTestCases(h, k);
    HasFirstAll(h, k);
  }
}
