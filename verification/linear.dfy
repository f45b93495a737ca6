/** Vectors and matrices over GF(2^8), enough to show that the InvMixColumns
  * matrix is the inverse of the MixColumns matrix: each column transform is a
  * matrix-vector product, products compose, and the product of the two
  * matrices is the identity.
  */
module MatrixAlgebra {
  import opened GaloisField

  /** The xor of p[j] over k <= j < |p|. */
  function SumFrom(p: seq<bv8>, k: nat): bv8
    requires k <= |p|
    decreases |p| - k
  { if k == |p| then 0 else p[k] ^ SumFrom(p, k + 1) }

  /** The entrywise products r[j] * s[j]. */
  function Products(r: seq<bv8>, s: seq<bv8>): (p: seq<bv8>)
    requires |r| == |s|
    ensures |p| == |r| && forall i :: 0 <= i < |r| ==> p[i] == Mul(r[i], s[i])
  { seq(|r|, i requires 0 <= i < |r| => Mul(r[i], s[i])) }

  /** The xor of r[j] * s[j] over k <= j < |r|. */
  function DotFrom(r: seq<bv8>, s: seq<bv8>, k: nat): bv8
    requires |r| == |s| && k <= |r|
  { SumFrom(Products(r, s), k) }

  /** The inner product. */
  function Dot(r: seq<bv8>, s: seq<bv8>): bv8
    requires |r| == |s|
  { DotFrom(r, s, 0) }

  function Scale(c: bv8, r: seq<bv8>): (t: seq<bv8>)
    ensures |t| == |r| && forall i :: 0 <= i < |r| ==> t[i] == Mul(c, r[i])
  { seq(|r|, i requires 0 <= i < |r| => Mul(c, r[i])) }

  function Add(r: seq<bv8>, q: seq<bv8>): (t: seq<bv8>)
    requires |r| == |q|
    ensures |t| == |r| && forall i :: 0 <= i < |r| ==> t[i] == r[i] ^ q[i]
  { seq(|r|, i requires 0 <= i < |r| => r[i] ^ q[i]) }

  function Zeros(n: nat): (z: seq<bv8>)
    ensures |z| == n && forall i :: 0 <= i < n ==> z[i] == 0
  { seq(n, i => 0) }

  /** Multiplication distributes over a sum. */
  lemma {:induction false} ScaleSum(c: bv8, p: seq<bv8>, k: nat)
    requires k <= |p|
    ensures Mul(c, SumFrom(p, k)) == SumFrom(Scale(c, p), k)
    decreases |p| - k
  {
    if k == |p| {
      MulZeroRight(c);
    } else {
      ScaleSum(c, p, k + 1);
      ScaleSumStep(c, p[k], SumFrom(p, k + 1), SumFrom(p, k), SumFrom(Scale(c, p), k + 1), SumFrom(Scale(c, p), k));
    }
  }

  lemma ScaleSumStep(c: bv8, x: bv8, t: bv8, z: bv8, u: bv8, w: bv8)
    requires z == x ^ t && Mul(c, t) == u && w == Mul(c, x) ^ u
    ensures Mul(c, z) == w
  {
    MulDistAt(c, z, x, t);
  }

  /** Sums are additive. */
  lemma {:induction false} SumAdd(p: seq<bv8>, q: seq<bv8>, k: nat)
    requires |p| == |q| && k <= |p|
    ensures SumFrom(p, k) ^ SumFrom(q, k) == SumFrom(Add(p, q), k)
    decreases |p| - k
  {
    if k < |p| {
      SumAdd(p, q, k + 1);
    }
  }

  lemma {:induction false} SumZeros(n: nat, k: nat)
    requires k <= n
    ensures SumFrom(Zeros(n), k) == 0
    decreases n - k
  {
    if k < n {
      SumZeros(n, k + 1);
    }
  }

  lemma ProductsScale(c: bv8, r: seq<bv8>, s: seq<bv8>)
    requires |r| == |s|
    ensures Products(Scale(c, r), s) == Scale(c, Products(r, s))
  {
    forall i | 0 <= i < |r|
      ensures Products(Scale(c, r), s)[i] == Scale(c, Products(r, s))[i]
    {
      AssocAt(c, r[i], s[i], Mul(r[i], s[i]), Mul(c, r[i]));
    }
  }

  lemma ProductsAdd(r: seq<bv8>, q: seq<bv8>, s: seq<bv8>)
    requires |r| == |q| == |s|
    ensures Products(Add(r, q), s) == Add(Products(r, s), Products(q, s))
  {
    forall i | 0 <= i < |r|
      ensures Products(Add(r, q), s)[i] == Add(Products(r, s), Products(q, s))[i]
    {
      MulDistLeftAt(r[i], q[i], r[i] ^ q[i], s[i]);
    }
  }

  lemma ProductsZeros(s: seq<bv8>)
    ensures Products(Zeros(|s|), s) == Zeros(|s|)
  {
    forall i | 0 <= i < |s|
      ensures Products(Zeros(|s|), s)[i] == 0
    {
      MulZeroLeft(s[i]);
    }
  }

  lemma ScaleDot(c: bv8, r: seq<bv8>, s: seq<bv8>)
    requires |r| == |s|
    ensures Mul(c, Dot(r, s)) == Dot(Scale(c, r), s)
  {
    ScaleSum(c, Products(r, s), 0);
    ProductsScale(c, r, s);
  }

  lemma DotAdd(r: seq<bv8>, q: seq<bv8>, s: seq<bv8>)
    requires |r| == |q| == |s|
    ensures Dot(r, s) ^ Dot(q, s) == Dot(Add(r, q), s)
  {
    SumAdd(Products(r, s), Products(q, s), 0);
    ProductsAdd(r, q, s);
  }

  lemma DotZeros(s: seq<bv8>)
    ensures Dot(Zeros(|s|), s) == 0
  {
    ProductsZeros(s);
    SumZeros(|s|, 0);
  }

  predicate Shaped(B: seq<seq<bv8>>, n: nat)
  { forall i :: 0 <= i < |B| ==> |B[i]| == n }

  function MatVec(B: seq<seq<bv8>>, s: seq<bv8>): (v: seq<bv8>)
    requires Shaped(B, |s|)
    ensures |v| == |B| && forall i :: 0 <= i < |B| ==> v[i] == Dot(B[i], s)
  { seq(|B|, i requires 0 <= i < |B| => Dot(B[i], s)) }

  /** The xor of a[j] * B[j] over k <= j < |a|: a row vector times a matrix. */
  function LinFrom(a: seq<bv8>, B: seq<seq<bv8>>, n: nat, k: nat): (v: seq<bv8>)
    requires |a| == |B| && Shaped(B, n) && k <= |a|
    ensures |v| == n
    decreases |a| - k
  { if k == |a| then Zeros(n) else Add(Scale(a[k], B[k]), LinFrom(a, B, n, k + 1)) }

  lemma {:induction false} DotMatVec(a: seq<bv8>, B: seq<seq<bv8>>, s: seq<bv8>, k: nat)
    requires |a| == |B| && Shaped(B, |s|) && k <= |a|
    ensures DotFrom(a, MatVec(B, s), k) == Dot(LinFrom(a, B, |s|, k), s)
    decreases |a| - k
  {
    if k == |a| {
      DotZeros(s);
    } else {
      DotMatVec(a, B, s, k + 1);
      ScaleDot(a[k], B[k], s);
      DotAdd(Scale(a[k], B[k]), LinFrom(a, B, |s|, k + 1), s);
    }
  }

  function MatMul(A: seq<seq<bv8>>, B: seq<seq<bv8>>, n: nat): (C: seq<seq<bv8>>)
    requires Shaped(A, |B|) && Shaped(B, n)
    ensures |C| == |A| && Shaped(C, n)
    ensures forall i :: 0 <= i < |A| ==> C[i] == LinFrom(A[i], B, n, 0)
  { seq(|A|, i requires 0 <= i < |A| => LinFrom(A[i], B, n, 0)) }

  lemma MatVecCompose(A: seq<seq<bv8>>, B: seq<seq<bv8>>, s: seq<bv8>)
    requires Shaped(A, |B|) && Shaped(B, |s|)
    ensures MatVec(A, MatVec(B, s)) == MatVec(MatMul(A, B, |s|), s)
  {
    forall i | 0 <= i < |A|
      ensures MatVec(A, MatVec(B, s))[i] == MatVec(MatMul(A, B, |s|), s)[i]
    {
      DotMatVec(A[i], B, s, 0);
    }
  }

  function Column(B: seq<seq<bv8>>, n: nat, j: nat): (c: seq<bv8>)
    requires Shaped(B, n) && j < n
    ensures |c| == |B| && forall i :: 0 <= i < |B| ==> c[i] == B[i][j]
  { seq(|B|, i requires 0 <= i < |B| => B[i][j]) }

  lemma {:induction false} LinFromEntry(a: seq<bv8>, B: seq<seq<bv8>>, n: nat, k: nat, j: nat)
    requires |a| == |B| && Shaped(B, n) && k <= |a| && j < n
    ensures LinFrom(a, B, n, k)[j] == DotFrom(a, Column(B, n, j), k)
    decreases |a| - k
  {
    if k < |a| {
      LinFromEntry(a, B, n, k + 1, j);
    }
  }

  function Unit(n: nat, j: nat): (u: seq<bv8>)
    ensures |u| == n && forall i :: 0 <= i < n ==> u[i] == if i == j then 1 else 0
  { seq(n, i => if i == j then 1 else 0) }

  function Identity(n: nat): (I: seq<seq<bv8>>)
    ensures |I| == n && Shaped(I, n) && forall i :: 0 <= i < n ==> I[i] == Unit(n, i)
  { seq(n, i requires 0 <= i < n => Unit(n, i)) }

  lemma {:induction false} DotUnit(s: seq<bv8>, j: nat, k: nat)
    requires j < |s| && k <= |s|
    ensures DotFrom(Unit(|s|, j), s, k) == if k <= j then s[j] else 0
    decreases |s| - k
  {
    if k < |s| {
      DotUnit(s, j, k + 1);
      if k == j { MulOneLeft(s[k]); } else { MulZeroLeft(s[k]); }
    }
  }

  lemma MatVecIdentity(s: seq<bv8>)
    ensures MatVec(Identity(|s|), s) == s
  {
    forall j | 0 <= j < |s|
      ensures MatVec(Identity(|s|), s)[j] == s[j]
    {
      DotUnit(s, j, 0);
    }
  }

  lemma Chain4(D0: bv8, D1: bv8, D2: bv8, D3: bv8, D4: bv8, m0: bv8, m1: bv8, m2: bv8, m3: bv8)
    ensures D0 == m0 ^ D1 && D1 == m1 ^ D2 && D2 == m2 ^ D3 && D3 == m3 ^ D4 && D4 == 0 ==> D0 == m0 ^ m1 ^ m2 ^ m3
  {}

  lemma Dot4(r: seq<bv8>, s: seq<bv8>)
    requires |r| == |s| == 4
    ensures Dot(r, s) == Mul(r[0], s[0]) ^ Mul(r[1], s[1]) ^ Mul(r[2], s[2]) ^ Mul(r[3], s[3])
  {
    Chain4(DotFrom(r, s, 0), DotFrom(r, s, 1), DotFrom(r, s, 2), DotFrom(r, s, 3), DotFrom(r, s, 4),
      Mul(r[0], s[0]), Mul(r[1], s[1]), Mul(r[2], s[2]), Mul(r[3], s[3]));
  }

  /** The coefficients of MixColumns and of InvMixColumns, row by row. */
  const MixMatrix: seq<seq<bv8>> := [[2, 3, 1, 1], [1, 2, 3, 1], [1, 1, 2, 3], [3, 1, 1, 2]]
  const InvMixMatrix: seq<seq<bv8>> := [[14, 11, 13, 9], [9, 14, 11, 13], [13, 9, 14, 11], [11, 13, 9, 14]]

  lemma Cell00()
    ensures Dot(InvMixMatrix[0], Column(MixMatrix, 4, 0)) == 1
  {
    Dot4(InvMixMatrix[0], Column(MixMatrix, 4, 0));
    MulTwoRight(InvMixMatrix[0][0]); MulOneRight(InvMixMatrix[0][1]); MulOneRight(InvMixMatrix[0][2]); MulThreeRight(InvMixMatrix[0][3]);
  }

  lemma Cell01()
    ensures Dot(InvMixMatrix[0], Column(MixMatrix, 4, 1)) == 0
  {
    Dot4(InvMixMatrix[0], Column(MixMatrix, 4, 1));
    MulThreeRight(InvMixMatrix[0][0]); MulTwoRight(InvMixMatrix[0][1]); MulOneRight(InvMixMatrix[0][2]); MulOneRight(InvMixMatrix[0][3]);
  }

  lemma Cell02()
    ensures Dot(InvMixMatrix[0], Column(MixMatrix, 4, 2)) == 0
  {
    Dot4(InvMixMatrix[0], Column(MixMatrix, 4, 2));
    MulOneRight(InvMixMatrix[0][0]); MulThreeRight(InvMixMatrix[0][1]); MulTwoRight(InvMixMatrix[0][2]); MulOneRight(InvMixMatrix[0][3]);
  }

  lemma Cell03()
    ensures Dot(InvMixMatrix[0], Column(MixMatrix, 4, 3)) == 0
  {
    Dot4(InvMixMatrix[0], Column(MixMatrix, 4, 3));
    MulOneRight(InvMixMatrix[0][0]); MulOneRight(InvMixMatrix[0][1]); MulThreeRight(InvMixMatrix[0][2]); MulTwoRight(InvMixMatrix[0][3]);
  }

  lemma Cell10()
    ensures Dot(InvMixMatrix[1], Column(MixMatrix, 4, 0)) == 0
  {
    Dot4(InvMixMatrix[1], Column(MixMatrix, 4, 0));
    MulTwoRight(InvMixMatrix[1][0]); MulOneRight(InvMixMatrix[1][1]); MulOneRight(InvMixMatrix[1][2]); MulThreeRight(InvMixMatrix[1][3]);
  }

  lemma Cell11()
    ensures Dot(InvMixMatrix[1], Column(MixMatrix, 4, 1)) == 1
  {
    Dot4(InvMixMatrix[1], Column(MixMatrix, 4, 1));
    MulThreeRight(InvMixMatrix[1][0]); MulTwoRight(InvMixMatrix[1][1]); MulOneRight(InvMixMatrix[1][2]); MulOneRight(InvMixMatrix[1][3]);
  }

  lemma Cell12()
    ensures Dot(InvMixMatrix[1], Column(MixMatrix, 4, 2)) == 0
  {
    Dot4(InvMixMatrix[1], Column(MixMatrix, 4, 2));
    MulOneRight(InvMixMatrix[1][0]); MulThreeRight(InvMixMatrix[1][1]); MulTwoRight(InvMixMatrix[1][2]); MulOneRight(InvMixMatrix[1][3]);
  }

  lemma Cell13()
    ensures Dot(InvMixMatrix[1], Column(MixMatrix, 4, 3)) == 0
  {
    Dot4(InvMixMatrix[1], Column(MixMatrix, 4, 3));
    MulOneRight(InvMixMatrix[1][0]); MulOneRight(InvMixMatrix[1][1]); MulThreeRight(InvMixMatrix[1][2]); MulTwoRight(InvMixMatrix[1][3]);
  }

  lemma Cell20()
    ensures Dot(InvMixMatrix[2], Column(MixMatrix, 4, 0)) == 0
  {
    Dot4(InvMixMatrix[2], Column(MixMatrix, 4, 0));
    MulTwoRight(InvMixMatrix[2][0]); MulOneRight(InvMixMatrix[2][1]); MulOneRight(InvMixMatrix[2][2]); MulThreeRight(InvMixMatrix[2][3]);
  }

  lemma Cell21()
    ensures Dot(InvMixMatrix[2], Column(MixMatrix, 4, 1)) == 0
  {
    Dot4(InvMixMatrix[2], Column(MixMatrix, 4, 1));
    MulThreeRight(InvMixMatrix[2][0]); MulTwoRight(InvMixMatrix[2][1]); MulOneRight(InvMixMatrix[2][2]); MulOneRight(InvMixMatrix[2][3]);
  }

  lemma Cell22()
    ensures Dot(InvMixMatrix[2], Column(MixMatrix, 4, 2)) == 1
  {
    Dot4(InvMixMatrix[2], Column(MixMatrix, 4, 2));
    MulOneRight(InvMixMatrix[2][0]); MulThreeRight(InvMixMatrix[2][1]); MulTwoRight(InvMixMatrix[2][2]); MulOneRight(InvMixMatrix[2][3]);
  }

  lemma Cell23()
    ensures Dot(InvMixMatrix[2], Column(MixMatrix, 4, 3)) == 0
  {
    Dot4(InvMixMatrix[2], Column(MixMatrix, 4, 3));
    MulOneRight(InvMixMatrix[2][0]); MulOneRight(InvMixMatrix[2][1]); MulThreeRight(InvMixMatrix[2][2]); MulTwoRight(InvMixMatrix[2][3]);
  }

  lemma Cell30()
    ensures Dot(InvMixMatrix[3], Column(MixMatrix, 4, 0)) == 0
  {
    Dot4(InvMixMatrix[3], Column(MixMatrix, 4, 0));
    MulTwoRight(InvMixMatrix[3][0]); MulOneRight(InvMixMatrix[3][1]); MulOneRight(InvMixMatrix[3][2]); MulThreeRight(InvMixMatrix[3][3]);
  }

  lemma Cell31()
    ensures Dot(InvMixMatrix[3], Column(MixMatrix, 4, 1)) == 0
  {
    Dot4(InvMixMatrix[3], Column(MixMatrix, 4, 1));
    MulThreeRight(InvMixMatrix[3][0]); MulTwoRight(InvMixMatrix[3][1]); MulOneRight(InvMixMatrix[3][2]); MulOneRight(InvMixMatrix[3][3]);
  }

  lemma Cell32()
    ensures Dot(InvMixMatrix[3], Column(MixMatrix, 4, 2)) == 0
  {
    Dot4(InvMixMatrix[3], Column(MixMatrix, 4, 2));
    MulOneRight(InvMixMatrix[3][0]); MulThreeRight(InvMixMatrix[3][1]); MulTwoRight(InvMixMatrix[3][2]); MulOneRight(InvMixMatrix[3][3]);
  }

  lemma Cell33()
    ensures Dot(InvMixMatrix[3], Column(MixMatrix, 4, 3)) == 1
  {
    Dot4(InvMixMatrix[3], Column(MixMatrix, 4, 3));
    MulOneRight(InvMixMatrix[3][0]); MulOneRight(InvMixMatrix[3][1]); MulThreeRight(InvMixMatrix[3][2]); MulTwoRight(InvMixMatrix[3][3]);
  }

  lemma InvMixCell(i: nat, j: nat)
    requires i < 4 && j < 4
    ensures Dot(InvMixMatrix[i], Column(MixMatrix, 4, j)) == if i == j then 1 else 0
  {
    if i == 0 {
      if j == 0 { Cell00(); } else if j == 1 { Cell01(); } else if j == 2 { Cell02(); } else { Cell03(); }
    } else if i == 1 {
      if j == 0 { Cell10(); } else if j == 1 { Cell11(); } else if j == 2 { Cell12(); } else { Cell13(); }
    } else if i == 2 {
      if j == 0 { Cell20(); } else if j == 1 { Cell21(); } else if j == 2 { Cell22(); } else { Cell23(); }
    } else {
      if j == 0 { Cell30(); } else if j == 1 { Cell31(); } else if j == 2 { Cell32(); } else { Cell33(); }
    }
  }

  lemma InvMixTimesMix()
    ensures MatMul(InvMixMatrix, MixMatrix, 4) == Identity(4)
  {
    var C := MatMul(InvMixMatrix, MixMatrix, 4);
    forall i | 0 <= i < 4
      ensures C[i] == Identity(4)[i]
    {
      forall j | 0 <= j < 4
        ensures C[i][j] == Identity(4)[i][j]
      {
        LinFromEntry(InvMixMatrix[i], MixMatrix, 4, 0, j);
        InvMixCell(i, j);
      }
    }
  }
}
