/** Facts about 64-bit masks that the occupancy maps rely on. Each lemma
    states one bitwise fact in the exact shape its callers use. */
module BitMasks {
  /** Every bit set in `a` is also set in `b`. */
  predicate Within(a: bv64, b: bv64)
  {
    a | b == b
  }

  /** The single-bit mask of square index `i`. */
  function Bit(i: nat): bv64
    requires i < 64
  {
    (1 as bv64) << i
  }

  /** Whether bit `i` of `mask` is set. */
  predicate HasBit(mask: bv64, i: nat)
    requires i < 64
  {
    mask & Bit(i) != 0
  }

  lemma EmptyWithin(c: bv64)
    ensures Within(0, c)
  {
  }

  lemma WithinEqual(a: bv64, b: bv64, c: bv64)
    requires a == b && Within(b, c)
    ensures Within(a, c)
  {
  }

  lemma WithinJoinLeft(a: bv64, b: bv64, d: bv64)
    requires d == a | b
    ensures Within(a, d)
  {
  }

  lemma WithinJoinRight(a: bv64, b: bv64, d: bv64)
    requires d == a | b
    ensures Within(b, d)
  {
  }

  lemma JoinWithin(a: bv64, b: bv64, d: bv64, c: bv64)
    requires d == a | b
    requires Within(a, c)
    requires Within(b, c)
    ensures Within(d, c)
  {
  }

  lemma WithinTrans(a: bv64, b: bv64, c: bv64)
    requires Within(a, b) && Within(b, c)
    ensures Within(a, c)
  {
  }

  lemma JoinEmpty(w: bv64, b: bv64, l: bv64)
    requires w == 0 && b == 0 && l == 0
    ensures w | b == l
  {
  }

  lemma JoinEmptyRight(w: bv64, b: bv64, l: bv64)
    requires w == l && b == 0
    ensures w | b == l
  {
  }

  lemma JoinEmptyLeft(w: bv64, b: bv64, l: bv64)
    requires w == 0 && b == l
    ensures w | b == l
  {
  }

  /** Joining two folds step by step: if the earlier joins agree and the
      new masks agree, so do the extended joins. */
  lemma JoinPairs(w0: bv64, b0: bv64, l0: bv64, wm: bv64, bm: bv64, lm: bv64)
    requires w0 | b0 == l0 && wm | bm == lm
    ensures (w0 | wm) | (b0 | bm) == l0 | lm
  {
  }

  lemma WithinAntisymmetric(a: bv64, b: bv64)
    requires Within(a, b) && Within(b, a)
    ensures a == b
  {
  }

  /** A bit set in `a` is set in every mask that contains `a`. */
  lemma WithinHasBit(a: bv64, c: bv64, i: nat)
    requires i < 64 && Within(a, c) && HasBit(a, i)
    ensures HasBit(c, i)
  {
  }

  /** A mask without bit `i` is contained in the mask of every other bit. */
  lemma WithinOthers(a: bv64, i: nat)
    requires i < 64 && !HasBit(a, i)
    ensures Within(a, !Bit(i))
  {
  }

  lemma OthersLackBit(a: bv64, i: nat)
    requires i < 64 && Within(a, !Bit(i))
    ensures !HasBit(a, i)
  {
  }
}
