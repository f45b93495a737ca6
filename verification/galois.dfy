/** Arithmetic in GF(2^8) modulo x^8 + x^4 + x^3 + x + 1, the field that the AES
  * round functions multiply in, and the byte-level multiplier that fills the
  * multiplication table.
  *
  * `Mul` is the specification: the carry-less product of `a` and `b`, written as
  * the xor of `a * x^k` over the set bits `k` of `b`. `GMulByte` is the
  * shift-and-add loop of the implementation and is proved to compute `Mul`.
  */
module GaloisField {

  /** Multiplication by x: shift left and reduce by 0x1b when the top bit falls out. */
  function XTime(a: bv8): bv8 { (a << 1) ^ ((0 - (a >> 7)) & 0x1b) }

  /** a * x^k */
  function XPow(a: bv8, k: nat): bv8 { if k == 0 then a else XTime(XPow(a, k - 1)) }

  function Half(b: bv8): bv8 { b >> 1 }

  /** Bit k of b, as 0 or 1. */
  function Bit(b: bv8, k: nat): bv8 { if k == 0 then b & 1 else Bit(Half(b), k - 1) }

  lemma HalfXor(x: bv8, y: bv8) ensures Half(x ^ y) == Half(x) ^ Half(y) {}

  /** a if bit k of b is set, else 0. */
  function Select(b: bv8, k: nat, a: bv8): bv8 { a & (0 - Bit(b, k)) }

  /** The xor of Select(b, j, a * x^j) over k <= j < 8. */
  function MulFrom(a: bv8, b: bv8, k: nat): bv8
    requires k <= 8
    decreases 8 - k, a, b
  { if k == 8 then 0 else Select(b, k, XPow(a, k)) ^ MulFrom(a, b, k + 1) }

  /** The field product. */
  function Mul(a: bv8, b: bv8): bv8 { MulFrom(a, b, 0) }

  lemma {:induction false} BitRange(b: bv8, k: nat)
    ensures Bit(b, k) == 0 || Bit(b, k) == 1
  { if k > 0 { BitRange(Half(b), k - 1); } }

  lemma {:induction false} BitXorAt(x: bv8, y: bv8, z: bv8, k: nat)
    requires z == x ^ y
    ensures Bit(z, k) == Bit(x, k) ^ Bit(y, k)
  {
    if k > 0 {
      HalfXor(x, y);
      BitXorAt(Half(x), Half(y), Half(z), k - 1);
    }
  }

  lemma BitXor(x: bv8, y: bv8, k: nat)
    ensures Bit(x ^ y, k) == Bit(x, k) ^ Bit(y, k)
  { BitXorAt(x, y, x ^ y, k); }

  lemma XTimeLinear(x: bv8, y: bv8) ensures XTime(x ^ y) == XTime(x) ^ XTime(y) {}
  lemma {:induction false} XPowLinear(x: bv8, y: bv8, k: nat)
    ensures XPow(x ^ y, k) == XPow(x, k) ^ XPow(y, k)
  { if k > 0 { XPowLinear(x, y, k - 1); XTimeLinear(XPow(x, k - 1), XPow(y, k - 1)); } }

  lemma MulFromUnfold(a: bv8, b: bv8, k: nat) requires k < 8
    ensures MulFrom(a, b, k) == Select(b, k, XPow(a, k)) ^ MulFrom(a, b, k + 1) {}

  lemma SelectXor(a: bv8, x: bv8, y: bv8, k: nat)
    ensures Select(x ^ y, k, a) == Select(x, k, a) ^ Select(y, k, a)
  {
    BitXor(x, y, k); BitRange(x, k); BitRange(y, k);
  }

  lemma SelectXTime(b: bv8, k: nat, v: bv8)
    ensures XTime(Select(b, k, v)) == Select(b, k, XTime(v))
  { BitRange(b, k); }

  lemma XorRegroup(Z: bv8, X: bv8, Y: bv8, sz: bv8, mz: bv8, sx: bv8, mx: bv8, sy: bv8, my: bv8)
    ensures Z == sz ^ mz && X == sx ^ mx && Y == sy ^ my && sz == sx ^ sy && mz == mx ^ my ==> Z == X ^ Y
  {}

  lemma {:induction false} DistRightFrom(a: bv8, x: bv8, y: bv8, k: nat)
    requires k <= 8
    ensures MulFrom(a, x ^ y, k) == MulFrom(a, x, k) ^ MulFrom(a, y, k)
    decreases 8 - k
  {
    if k < 8 {
      DistRightFrom(a, x, y, k + 1);
      MulFromUnfold(a, x ^ y, k); MulFromUnfold(a, x, k); MulFromUnfold(a, y, k);
      SelectXor(XPow(a, k), x, y, k);
      XorRegroup(MulFrom(a, x ^ y, k), MulFrom(a, x, k), MulFrom(a, y, k),
        Select(x ^ y, k, XPow(a, k)), MulFrom(a, x ^ y, k + 1), Select(x, k, XPow(a, k)), MulFrom(a, x, k + 1), Select(y, k, XPow(a, k)), MulFrom(a, y, k + 1));
    }
  }

  lemma SelectXorLeftAt(p: bv8, q: bv8, r: bv8, b: bv8, k: nat)
    requires r == p ^ q
    ensures Select(b, k, r) == Select(b, k, p) ^ Select(b, k, q)
  {}

  lemma SelectPowLinear(x: bv8, y: bv8, b: bv8, k: nat)
    ensures Select(b, k, XPow(x ^ y, k)) == Select(b, k, XPow(x, k)) ^ Select(b, k, XPow(y, k))
  {
    XPowLinear(x, y, k);
    SelectXorLeftAt(XPow(x, k), XPow(y, k), XPow(x ^ y, k), b, k);
  }

  lemma {:induction false} DistLeftFrom(x: bv8, y: bv8, b: bv8, k: nat)
    requires k <= 8
    ensures MulFrom(x ^ y, b, k) == MulFrom(x, b, k) ^ MulFrom(y, b, k)
    decreases 8 - k
  {
    if k < 8 {
      DistLeftFrom(x, y, b, k + 1);
      MulFromUnfold(x ^ y, b, k); MulFromUnfold(x, b, k); MulFromUnfold(y, b, k);
      SelectPowLinear(x, y, b, k);
      XorRegroup(MulFrom(x ^ y, b, k), MulFrom(x, b, k), MulFrom(y, b, k),
        Select(b, k, XPow(x ^ y, k)), MulFrom(x ^ y, b, k + 1), Select(b, k, XPow(x, k)), MulFrom(x, b, k + 1), Select(b, k, XPow(y, k)), MulFrom(y, b, k + 1));
    }
  }

  lemma HalfShr(b: bv8, k: nat)
    requires 0 < k < 8
    ensures (Half(b) >> (k - 1)) & 1 == (b >> k) & 1
  {}

  lemma {:induction false} BitIs(b: bv8, k: nat)
    requires k < 8
    ensures Bit(b, k) == (b >> k) & 1
  {
    if k > 0 {
      BitIs(Half(b), k - 1);
      HalfShr(b, k);
    }
  }

  function Shl(b: bv8): bv8 { b << 1 }

  function Truncated(a: bv8, b: bv8, k: nat): bv8
    requires k <= 7
    decreases 7 - k
  { if k == 7 then 0 else Select(b, k, XPow(a, k + 1)) ^ Truncated(a, b, k + 1) }

  lemma ShlShr(b: bv8, k: nat)
    requires k < 7
    ensures (Shl(b) >> (k + 1)) & 1 == (b >> k) & 1
  {}

  lemma SelectShift(b: bv8, k: nat, v: bv8)
    requires k < 7
    ensures Select(Shl(b), k + 1, v) == Select(b, k, v)
  {
    BitIs(Shl(b), k + 1);
    BitIs(b, k);
    ShlShr(b, k);
  }

  lemma XorCongruence(Z: bv8, X: bv8, p: bv8, q: bv8, r: bv8, t: bv8)
    ensures Z == p ^ q && X == r ^ t && p == r && q == t ==> Z == X
  {}

  lemma {:induction false} ShiftedTail(a: bv8, b: bv8, k: nat)
    requires k <= 7
    ensures MulFrom(a, Shl(b), k + 1) == Truncated(a, b, k)
    decreases 7 - k
  {
    if k < 7 {
      ShiftedTail(a, b, k + 1);
      MulFromUnfold(a, Shl(b), k + 1);
      SelectShift(b, k, XPow(a, k + 1));
      XorCongruence(MulFrom(a, Shl(b), k + 1), Truncated(a, b, k),
        Select(Shl(b), k + 1, XPow(a, k + 1)), MulFrom(a, Shl(b), k + 2),
        Select(b, k, XPow(a, k + 1)), Truncated(a, b, k + 1));
    }
  }

  lemma XTimeRegroup(Z: bv8, T: bv8, E: bv8, p: bv8, q: bv8, p1: bv8, t1: bv8)
    ensures Z == p ^ q && T == p1 ^ t1 && XTime(p) == p1 && XTime(q) == t1 ^ E ==> XTime(Z) == T ^ E
  { XTimeLinear(p, q); }

  lemma TailBase(a: bv8, b: bv8)
    ensures XTime(MulFrom(a, b, 7)) == Truncated(a, b, 7) ^ Select(b, 7, XPow(a, 8))
  {
    MulFromUnfold(a, b, 7);
    SelectXTime(b, 7, XPow(a, 7));
  }

  lemma {:induction false} XTimeTail(a: bv8, b: bv8, k: nat)
    requires k <= 7
    ensures XTime(MulFrom(a, b, k)) == Truncated(a, b, k) ^ Select(b, 7, XPow(a, 8))
    decreases 7 - k
  {
    if k == 7 {
      TailBase(a, b);
    } else {
      MulFromUnfold(a, b, k);
      SelectXTime(b, k, XPow(a, k));
      XTimeTail(a, b, k + 1);
      XTimeRegroup(MulFrom(a, b, k), Truncated(a, b, k), Select(b, 7, XPow(a, 8)),
        Select(b, k, XPow(a, k)), MulFrom(a, b, k + 1), Select(b, k, XPow(a, k + 1)), Truncated(a, b, k + 1));
    }
  }

  lemma ReductionNested(q: bv8)
    ensures XTime(XTime(XTime(XTime(XTime(XTime(XTime(XTime(q)))))))) == q ^ XTime(q) ^ XTime(XTime(XTime(q))) ^ XTime(XTime(XTime(XTime(q))))
  {}

  lemma Reduction(a: bv8)
    ensures XPow(a, 8) == a ^ XPow(a, 1) ^ XPow(a, 3) ^ XPow(a, 4)
  {
    ReductionNested(a);
    assert XPow(a, 1) == XTime(a);
    assert XPow(a, 2) == XTime(XTime(a));
    assert XPow(a, 3) == XTime(XTime(XTime(a)));
    assert XPow(a, 4) == XTime(XPow(a, 3));
    assert XPow(a, 5) == XTime(XPow(a, 4));
    assert XPow(a, 6) == XTime(XPow(a, 5));
    assert XPow(a, 7) == XTime(XPow(a, 6));
  }

  lemma MulByPolyHigh(a: bv8)
    ensures MulFrom(a, 0x1b, 4) == XPow(a, 4)
  {
    MulFromUnfold(a, 0x1b, 4); MulFromUnfold(a, 0x1b, 5); MulFromUnfold(a, 0x1b, 6); MulFromUnfold(a, 0x1b, 7);
  }

  lemma MulByPolyMid(a: bv8)
    ensures MulFrom(a, 0x1b, 2) == XPow(a, 3) ^ XPow(a, 4)
  {
    MulFromUnfold(a, 0x1b, 2); MulFromUnfold(a, 0x1b, 3);
    MulByPolyHigh(a);
  }

  lemma MulByPoly(a: bv8)
    ensures Mul(a, 0x1b) == a ^ XPow(a, 1) ^ XPow(a, 3) ^ XPow(a, 4)
  {
    MulFromUnfold(a, 0x1b, 0); MulFromUnfold(a, 0x1b, 1);
    MulByPolyMid(a);
  }

  lemma {:induction false} BitZero(k: nat)
    ensures Bit(0, k) == 0
  { if k > 0 { BitZero(k - 1); } }

  lemma {:induction false} MulFromZero(a: bv8, k: nat)
    requires k <= 8
    ensures MulFrom(a, 0, k) == 0
    decreases 8 - k
  {
    if k < 8 {
      MulFromZero(a, k + 1);
      BitZero(k);
    }
  }

  lemma MulZeroRight(q: bv8)
    ensures Mul(q, 0) == 0
  { MulFromZero(q, 0); }

  lemma MulSelect(q: bv8, s: bv8, k: nat, v: bv8)
    ensures Mul(q, Select(s, k, v)) == Select(s, k, Mul(q, v))
  {
    BitRange(s, k);
    if Bit(s, k) == 0 {
      MulZeroRight(q);
      assert Select(s, k, v) == 0;
      assert Select(s, k, Mul(q, v)) == 0;
    } else {
      assert Select(s, k, v) == v;
      assert Select(s, k, Mul(q, v)) == Mul(q, v);
    }
  }

  lemma XTimeSplit(b: bv8)
    ensures XTime(b) == Shl(b) ^ Select(b, 7, 0x1b)
  { BitIs(b, 7); }

  lemma SelectShiftZero(b: bv8, v: bv8)
    ensures Select(Shl(b), 0, v) == 0
  {}

  lemma ShiftedHead(a: bv8, b: bv8, k: nat)
    requires k == 0
    ensures MulFrom(a, Shl(b), k) == MulFrom(a, Shl(b), k + 1)
  {
    MulFromUnfold(a, Shl(b), k);
    SelectShiftZero(b, XPow(a, k));
  }

  lemma ShiftedMul(a: bv8, b: bv8)
    ensures Mul(a, Shl(b)) == Truncated(a, b, 0)
  {
    ShiftedHead(a, b, 0);
    ShiftedTail(a, b, 0);
  }

  lemma XTimeMul(a: bv8, b: bv8)
    ensures XTime(Mul(a, b)) == Truncated(a, b, 0) ^ Select(b, 7, XPow(a, 8))
  { XTimeTail(a, b, 0); }

  lemma MulDistAt(q: bv8, z: bv8, x: bv8, y: bv8)
    requires z == x ^ y
    ensures Mul(q, z) == Mul(q, x) ^ Mul(q, y)
  { DistRightFrom(q, x, y, 0); }

  /** Distributivity over xor in the second argument. */
  lemma MulDistRight(a: bv8, x: bv8, y: bv8)
    ensures Mul(a, x ^ y) == Mul(a, x) ^ Mul(a, y)
  { MulDistAt(a, x ^ y, x, y); }

  lemma XTimeArg(a: bv8, b: bv8)
    ensures Mul(a, XTime(b)) == Mul(a, Shl(b)) ^ Mul(a, Select(b, 7, 0x1b))
  {
    XTimeSplit(b);
    MulDistAt(a, XTime(b), Shl(b), Select(b, 7, 0x1b));
  }

  lemma ModReduce(a: bv8)
    ensures Mul(a, 0x1b) == XPow(a, 8)
  {
    MulByPoly(a);
    Reduction(a);
  }

  lemma OverflowTerm(a: bv8, b: bv8)
    ensures Mul(a, Select(b, 7, 0x1b)) == Select(b, 7, XPow(a, 8))
  {
    MulSelect(a, b, 7, 0x1b);
    ModReduce(a);
  }

  lemma XorSubstitute(Z: bv8, X: bv8, m1: bv8, m2: bv8, t: bv8, e: bv8)
    ensures Z == m1 ^ m2 && m1 == t && m2 == e && X == t ^ e ==> Z == X
  {}

  lemma MulXTimeRight(a: bv8, b: bv8)
    ensures Mul(a, XTime(b)) == XTime(Mul(a, b))
  {
    XTimeArg(a, b);
    ShiftedMul(a, b);
    OverflowTerm(a, b);
    XTimeMul(a, b);
    XorSubstitute(Mul(a, XTime(b)), XTime(Mul(a, b)), Mul(a, Shl(b)), Mul(a, Select(b, 7, 0x1b)),
      Truncated(a, b, 0), Select(b, 7, XPow(a, 8)));
  }

  lemma {:induction false} MulXPow(q: bv8, p: bv8, k: nat)
    ensures Mul(q, XPow(p, k)) == XPow(Mul(q, p), k)
  {
    if k > 0 {
      MulXPow(q, p, k - 1);
      MulXTimeRight(q, XPow(p, k - 1));
    }
  }

  lemma AssocHead(q: bv8, p: bv8, s: bv8, k: nat)
    ensures Mul(q, Select(s, k, XPow(p, k))) == Select(s, k, XPow(Mul(q, p), k))
  {
    MulSelect(q, s, k, XPow(p, k));
    MulXPow(q, p, k);
  }

  lemma AssocSplit(q: bv8, p: bv8, s: bv8, k: nat, A: bv8, B: bv8, C: bv8)
    requires k < 8
    requires A == MulFrom(p, s, k) && B == Select(s, k, XPow(p, k)) && C == MulFrom(p, s, k + 1)
    ensures Mul(q, A) == Mul(q, B) ^ Mul(q, C)
  {
    MulFromUnfold(p, s, k);
    MulDistAt(q, A, B, C);
  }

  lemma {:induction false} AssocFrom(q: bv8, p: bv8, s: bv8, k: nat)
    requires k <= 8
    ensures Mul(q, MulFrom(p, s, k)) == MulFrom(Mul(q, p), s, k)
    decreases 8 - k
  {
    if k == 8 {
      MulZeroRight(q);
    } else {
      AssocFrom(q, p, s, k + 1);
      AssocSplit(q, p, s, k, MulFrom(p, s, k), Select(s, k, XPow(p, k)), MulFrom(p, s, k + 1));
      AssocHead(q, p, s, k);
      MulFromUnfold(Mul(q, p), s, k);
      XorSubstitute(Mul(q, MulFrom(p, s, k)), MulFrom(Mul(q, p), s, k),
        Mul(q, Select(s, k, XPow(p, k))), Mul(q, MulFrom(p, s, k + 1)),
        Select(s, k, XPow(Mul(q, p), k)), MulFrom(Mul(q, p), s, k + 1));
    }
  }

  lemma MulAssoc(q: bv8, p: bv8, s: bv8)
    ensures Mul(q, Mul(p, s)) == Mul(Mul(q, p), s)
  { AssocFrom(q, p, s, 0); }

  lemma {:induction false} MulDistLeftAt(x: bv8, y: bv8, z: bv8, b: bv8)
    requires z == x ^ y
    ensures Mul(z, b) == Mul(x, b) ^ Mul(y, b)
  { DistLeftFrom(x, y, b, 0); }


  lemma AssocAt(c: bv8, k: bv8, s: bv8, m: bv8, e: bv8)
    requires m == Mul(k, s) && e == Mul(c, k)
    ensures Mul(c, m) == Mul(e, s)
  { MulAssoc(c, k, s); }
  lemma MulFromEnd(a: bv8, b: bv8)
    ensures MulFrom(a, b, 8) == 0
  {}

  lemma MulOneLeft(x: bv8)
    ensures Mul(1, x) == x
  {
    MulFromUnfold(1, x, 0); MulFromUnfold(1, x, 1); MulFromUnfold(1, x, 2); MulFromUnfold(1, x, 3);
    MulFromUnfold(1, x, 4); MulFromUnfold(1, x, 5); MulFromUnfold(1, x, 6); MulFromUnfold(1, x, 7);
    MulFromEnd(1, x);
    BitIs(x, 0); BitIs(x, 1); BitIs(x, 2); BitIs(x, 3);
    BitIs(x, 4); BitIs(x, 5); BitIs(x, 6); BitIs(x, 7);
  }

  lemma {:induction false} XPowZero(k: nat)
    ensures XPow(0, k) == 0
  { if k > 0 { XPowZero(k - 1); } }

  lemma {:induction false} MulFromZeroLeft(b: bv8, k: nat)
    requires k <= 8
    ensures MulFrom(0, b, k) == 0
    decreases 8 - k
  {
    if k < 8 {
      MulFromZeroLeft(b, k + 1);
      XPowZero(k);
    }
  }

  lemma MulZeroLeft(x: bv8)
    ensures Mul(0, x) == 0
  { MulFromZeroLeft(x, 0); }

  lemma MulOneRight(x: bv8)
    ensures Mul(x, 1) == x
  {
    MulFromUnfold(x, 1, 0); MulFromUnfold(x, 1, 1); MulFromUnfold(x, 1, 2); MulFromUnfold(x, 1, 3);
    MulFromUnfold(x, 1, 4); MulFromUnfold(x, 1, 5); MulFromUnfold(x, 1, 6); MulFromUnfold(x, 1, 7);
    MulFromEnd(x, 1);
  }

  lemma MulTwoRight(x: bv8)
    ensures Mul(x, 2) == XTime(x)
  {
    MulFromUnfold(x, 2, 0); MulFromUnfold(x, 2, 1); MulFromUnfold(x, 2, 2); MulFromUnfold(x, 2, 3);
    MulFromUnfold(x, 2, 4); MulFromUnfold(x, 2, 5); MulFromUnfold(x, 2, 6); MulFromUnfold(x, 2, 7);
    MulFromEnd(x, 2);
  }

  lemma MulThreeRight(x: bv8)
    ensures Mul(x, 3) == XTime(x) ^ x
  {
    MulFromUnfold(x, 3, 0); MulFromUnfold(x, 3, 1); MulFromUnfold(x, 3, 2); MulFromUnfold(x, 3, 3);
    MulFromUnfold(x, 3, 4); MulFromUnfold(x, 3, 5); MulFromUnfold(x, 3, 6); MulFromUnfold(x, 3, 7);
    MulFromEnd(x, 3);
  }


  lemma {:induction false} XPowXTime(a: bv8, k: nat)
    ensures XPow(XTime(a), k) == XTime(XPow(a, k))
  { if k > 0 { XPowXTime(a, k - 1); } }

  lemma {:induction false} MulFromXTime(a: bv8, b: bv8, k: nat)
    requires k <= 8
    ensures MulFrom(XTime(a), b, k) == XTime(MulFrom(a, b, k))
    decreases 8 - k
  {
    if k < 8 {
      var s, m := Select(b, k, XPow(a, k)), MulFrom(a, b, k + 1);
      MulFromXTime(a, b, k + 1);
      XPowXTime(a, k);
      SelectXTime(b, k, XPow(a, k));
      MulFromUnfold(XTime(a), b, k);
      MulFromUnfold(a, b, k);
      XTimeLinear(s, m);
      XorSubstitute(MulFrom(XTime(a), b, k), XTime(MulFrom(a, b, k)),
        Select(b, k, XPow(XTime(a), k)), MulFrom(XTime(a), b, k + 1), XTime(s), XTime(m));
    }
  }

  /** Multiplying the left factor by x multiplies the product by x. */
  lemma MulXTimeLeft(a: bv8, b: bv8)
    ensures Mul(XTime(a), b) == XTime(Mul(a, b))
  { MulFromXTime(a, b, 0); }

  /** The products by {02} and {03} of section 4.2.1 of FIPS-197, with the
    * constant on the left as in the MixColumns matrix. */
  lemma MulTwoLeft(x: bv8)
    ensures Mul(2, x) == XTime(x)
  {
    MulXTimeLeft(1, x);
    MulOneLeft(x);
  }

  lemma MulThreeLeft(x: bv8)
    ensures Mul(3, x) == XTime(x) ^ x
  {
    MulTwoLeft(x);
    MulOneLeft(x);
    MulDistLeft(2, 1, x);
  }

  // ---------------------------------------------------------------------------
  // Properties that the AES code relies on: the products by 0, 1, 2 and 3 and
  // distributivity over xor in each argument.

  /** Distributivity over xor in the first argument. */
  lemma MulDistLeft(x: bv8, y: bv8, b: bv8)
    ensures Mul(x ^ y, b) == Mul(x, b) ^ Mul(y, b)
  { DistLeftFrom(x, y, b, 0); }

  /** Multiplying by 2 is one overflow step of the multiplication loop. */
  lemma MulTwoIsOverflowStep(a: bv8)
    ensures Mul(a, 2) == if a & 0x80 != 0 then (a << 1) ^ 0x1b else a << 1
  {
    MulTwoRight(a);
    XTimeOverflow(a);
  }

  // ---------------------------------------------------------------------------
  // The multiplication loop.

  /** b shifted right k times. */
  function Shr(b: bv8, k: nat): bv8 { if k == 0 then b else Shr(Half(b), k - 1) }

  lemma {:induction false} BitShr(b: bv8, k: nat)
    ensures Bit(b, k) == Shr(b, k) & 1
  { if k > 0 { BitShr(Half(b), k - 1); } }

  lemma {:induction false} ShrStep(b: bv8, k: nat)
    ensures Shr(b, k + 1) == Half(Shr(b, k))
  { if k > 0 { ShrStep(Half(b), k - 1); } }

  /** XTime is the loop's "shift, then xor 0x1b on overflow". */
  lemma XTimeOverflow(a: bv8)
    ensures XTime(a) == if a & 0x80 != 0 then (a << 1) ^ 0x1b else a << 1
  {}

  /** The xor of Select(b, j, a * x^j) over j < k: what the loop has accumulated after k rounds. */
  function MulUpTo(a: bv8, b: bv8, k: nat): bv8
    requires k <= 8
  { if k == 0 then 0 else MulUpTo(a, b, k - 1) ^ Select(b, k - 1, XPow(a, k - 1)) }

  lemma {:induction false} MulUpToFrom(a: bv8, b: bv8, k: nat)
    requires k <= 8
    ensures MulUpTo(a, b, k) ^ MulFrom(a, b, k) == Mul(a, b)
  {
    if k > 0 {
      MulUpToFrom(a, b, k - 1);
    }
  }

  lemma ProductStep(a0: bv8, b0: bv8, k: nat, p: bv8, a: bv8, b: bv8, p2: bv8)
    requires k < 8 && a == XPow(a0, k) && b == Shr(b0, k) && p == MulUpTo(a0, b0, k)
    requires p2 == (if b & 1 != 0 then p ^ a else p)
    ensures p2 == MulUpTo(a0, b0, k + 1)
  {
    BitShr(b0, k);
  }

  lemma MultiplicandStep(a0: bv8, k: nat, a: bv8, a2: bv8)
    requires a == XPow(a0, k)
    requires a2 == (if a & 0x80 != 0 then (a << 1) ^ 0x1b else a << 1)
    ensures a2 == XPow(a0, k + 1)
  {
    XTimeOverflow(a);
  }

  lemma MultiplierStep(b0: bv8, k: nat, b: bv8, b2: bv8)
    requires b == Shr(b0, k) && b2 == b >> 1
    ensures b2 == Shr(b0, k + 1)
  {
    ShrStep(b0, k);
  }

  /** Peasant multiplication: eight rounds of "add a if the low bit of b is set,
    * multiply a by x, halve b". */
  method GMulByte(a: bv8, b: bv8) returns (p: bv8)
    ensures p == Mul(a, b)
  {
    var a0, b0 := a, b;
    var a, b := a, b;
    p := 0;
    for counter := 0 to 8
      invariant a == XPow(a0, counter)
      invariant b == Shr(b0, counter)
      invariant p == MulUpTo(a0, b0, counter)
    {
      ghost var p1, a1, b1 := p, a, b;
      if b & 1 != 0 {
        p := p ^ a;
      }
      var overflow := a & 0x80 != 0;
      a := a << 1;
      if overflow {
        a := a ^ 0x1b;
      }
      b := b >> 1;
      ProductStep(a0, b0, counter, p1, a1, b1, p);
      MultiplicandStep(a0, counter, a1, a);
      MultiplierStep(b0, counter, b1, b);
    }
    MulUpToFrom(a0, b0, 8);
  }

  /** The product of two table indices. */
  function MulAt(x: int, y: int): bv8
    requires 0 <= x < 256 && 0 <= y < 256
  { Mul(x as bv8, y as bv8) }

  /** The 256 x 256 table of all byte products. */
  method FillGMulTable() returns (table: array2<bv8>)
    ensures fresh(table) && table.Length0 == 256 && table.Length1 == 256
    ensures forall x, y :: 0 <= x < 256 && 0 <= y < 256 ==> table[x, y] == MulAt(x, y)
  {
    table := new bv8[256, 256];
    for x := 0 to 256
      invariant forall i, j :: 0 <= i < x && 0 <= j < 256 ==> table[i, j] == MulAt(i, j)
    {
      for y := 0 to 256
        invariant forall i, j :: 0 <= i < x && 0 <= j < 256 ==> table[i, j] == MulAt(i, j)
        invariant forall j :: 0 <= j < y ==> table[x, j] == MulAt(x, j)
      {
        table[x, y] := GMulByte(x as bv8, y as bv8);
      }
    }
  }
}
