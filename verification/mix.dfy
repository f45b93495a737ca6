/** MixColumns and InvMixColumns over NBytes. Every output byte of a column is
  * the xor of four GMul products of a matrix constant with a state byte,
  * evaluated left to right; InvMixColumns also casts every output to a byte
  * and back, which fails on an output that is not fully known.
  */
module AesMix {
  import opened Outcomes
  import opened Ternary
  import opened GaloisField
  import opened MatrixAlgebra
  import opened AesGMul
  import opened StateLayout
  import Cipher

  predicate Square4(m: seq<seq<bv8>>)
  { |m| == 4 && Shaped(m, 4) }

  /** One output byte: ((m0 * s0 ^ m1 * s1) ^ m2 * s2) ^ m3 * s3 with NByte
    * GMul and xor. */
  function MixEntry(row: seq<bv8>, col: seq<Bits>): Bits
    requires |row| == 4 && |col| == 4
  {
    XorValue(XorValue(XorValue(
      GMulValue(FromByte(row[0]), col[0]),
      GMulValue(FromByte(row[1]), col[1])),
      GMulValue(FromByte(row[2]), col[2])),
      GMulValue(FromByte(row[3]), col[3]))
  }

  /** The four outputs of one column. */
  function MixColumn(m: seq<seq<bv8>>, col: seq<Bits>): (r: seq<Bits>)
    requires Square4(m) && |col| == 4
    ensures |r| == 4
  { [MixEntry(m[0], col), MixEntry(m[1], col), MixEntry(m[2], col), MixEntry(m[3], col)] }

  /** The outputs of every column of s. */
  function MixColumnsOf(m: seq<seq<bv8>>, s: seq<Bits>): (cols: seq<seq<Bits>>)
    requires Square4(m) && |s| % 4 == 0
    ensures |cols| == |s| / 4 && Quads(cols)
  { seq(|s| / 4, j requires 0 <= j < |s| / 4 => MixColumn(m, s[4 * j..4 * j + 4])) }

  /** The outputs of every column, in state order. */
  function MixAll(m: seq<seq<bv8>>, s: seq<Bits>): (r: seq<Bits>)
    requires Square4(m) && |s| % 4 == 0
    ensures |r| == |s|
  {
    var cols := MixColumnsOf(m, s);
    if |cols| == 0 then [] else ConcatAt(cols, 0, 0); Concat(cols)
  }

  /** MixColumns(state) as a value. */
  function MixColumnsValue(s: seq<Bits>): (r: seq<Bits>)
    requires |s| % 4 == 0
    ensures |r| == |s|
  { MixAll(MixMatrix, s) }

  predicate AllKnown(raw: seq<Bits>)
  { forall k :: 0 <= k < |raw| ==> Deterministic(raw[k]) }

  lemma KnownAppend(res: seq<Bits>, v0: Bits, v1: Bits, v2: Bits, v3: Bits)
    requires AllKnown(res) && Deterministic(v0) && Deterministic(v1) && Deterministic(v2) && Deterministic(v3)
    ensures AllKnown(res + [v0, v1, v2, v3])
  {}

  /** The cast of every output to byte and back: NotFiniteNumber if one is
    * not fully known, otherwise the outputs unchanged. */
  function Casted(raw: seq<Bits>): Result<seq<Bits>>
  {
    if AllKnown(raw) then Success(raw)
    else Failure(NotFiniteNumber)
  }

  /** InvMixColumns(state) as a value. */
  function InvMixColumnsValue(s: seq<Bits>): (r: Result<seq<Bits>>)
    requires |s| % 4 == 0
    ensures r.Success? ==> |r.value| == |s|
  { Casted(MixAll(InvMixMatrix, s)) }

  /** One output byte: the four GMul calls, left to right, xor-ed together. */
  method Entry(memo: GMulMemo, row: seq<bv8>, col: seq<Bits>) returns (e: Bits)
    requires memo.Valid() && |row| == 4 && |col| == 4
    modifies memo
    ensures memo.Valid() && e == MixEntry(row, col)
    ensures CacheKept(old(memo.cache), memo.cache)
    ensures old(memo.table) != null ==> memo.table == old(memo.table)
  {
    ghost var c0 := memo.cache;
    var g0 := memo.GMul(FromByte(row[0]), col[0]);
    ghost var c1 := memo.cache;
    var g1 := memo.GMul(FromByte(row[1]), col[1]);
    ghost var c2 := memo.cache;
    CacheKeptTrans(c0, c1, c2);
    var x := XorValue(g0, g1);
    var g2 := memo.GMul(FromByte(row[2]), col[2]);
    ghost var c3 := memo.cache;
    CacheKeptTrans(c0, c2, c3);
    x := XorValue(x, g2);
    var g3 := memo.GMul(FromByte(row[3]), col[3]);
    CacheKeptTrans(c0, c3, memo.cache);
    e := XorValue(x, g3);
  }

  /** One output byte of InvMixColumns: the four GMul calls and the cast to
    * byte, which fails on an unknown bit, and back. */
  method InvEntry(memo: GMulMemo, row: seq<bv8>, col: seq<Bits>) returns (r: Result<Bits>)
    requires memo.Valid() && |row| == 4 && |col| == 4
    modifies memo
    ensures memo.Valid()
    ensures r == if Deterministic(MixEntry(row, col)) then Success(MixEntry(row, col)) else Failure(NotFiniteNumber)
    ensures r.Success? ==> Deterministic(r.value)
    ensures CacheKept(old(memo.cache), memo.cache)
    ensures old(memo.table) != null ==> memo.table == old(memo.table)
  {
    var e := Entry(memo, row, col);
    var b :- ToByte(e);
    ToByteRoundTrip(e);
    return Success(FromByte(b));
  }

  lemma ColumnIs(m: seq<seq<bv8>>, s: seq<Bits>, c: nat, e0: Bits, e1: Bits, e2: Bits, e3: Bits)
    requires Square4(m) && |s| % 4 == 0 && c < |s| / 4
    requires e0 == MixEntry(m[0], s[4 * c..4 * c + 4]) && e1 == MixEntry(m[1], s[4 * c..4 * c + 4])
    requires e2 == MixEntry(m[2], s[4 * c..4 * c + 4]) && e3 == MixEntry(m[3], s[4 * c..4 * c + 4])
    ensures MixColumnsOf(m, s)[c] == [e0, e1, e2, e3]
  {}

  /** The column loop of MixColumns, for the matrix m: the four output bytes
    * of every column. */
  method MixWith(memo: GMulMemo, m: seq<seq<bv8>>, state: seq<Bits>) returns (res: seq<Bits>)
    requires memo.Valid() && Square4(m) && |state| % 4 == 0
    modifies memo
    ensures memo.Valid() && res == MixAll(m, state)
    ensures CacheKept(old(memo.cache), memo.cache)
    ensures old(memo.table) != null ==> memo.table == old(memo.table)
  {
    ghost var cols := MixColumnsOf(m, state);
    res := [];
    for c := 0 to |state| / 4
      invariant memo.Valid()
      invariant res == Concat(cols[..c])
      invariant CacheKept(old(memo.cache), memo.cache)
      invariant old(memo.table) != null ==> memo.table == old(memo.table)
    {
      var col := state[4 * c..4 * c + 4];
      var e0 := Entry(memo, m[0], col);
      var e1 := Entry(memo, m[1], col);
      var e2 := Entry(memo, m[2], col);
      var e3 := Entry(memo, m[3], col);
      ConcatSnoc(cols, c);
      ColumnIs(m, state, c, e0, e1, e2, e3);
      res := res + [e0, e1, e2, e3];
    }
    assert cols[..|state| / 4] == cols;
  }

  /** MixColumns(state): the column loop with the MixColumns matrix. */
  method MixColumns(memo: GMulMemo, state: seq<Bits>) returns (res: seq<Bits>)
    requires memo.Valid() && |state| % 4 == 0
    modifies memo
    ensures memo.Valid() && res == MixColumnsValue(state)
    ensures CacheKept(old(memo.cache), memo.cache)
    ensures old(memo.table) != null ==> memo.table == old(memo.table)
  {
    res := MixWith(memo, MixMatrix, state);
  }

  /** Output i of column c sits at position 4 * c + i. */
  lemma MixAllAt(m: seq<seq<bv8>>, s: seq<Bits>, c: nat, i: nat)
    requires Square4(m) && |s| % 4 == 0 && c < |s| / 4 && i < 4
    ensures MixAll(m, s)[4 * c + i] == MixEntry(m[i], s[4 * c..4 * c + 4])
  {
    var cols := MixColumnsOf(m, s);
    ConcatAt(cols, c, i);
    var col := MixColumn(m, s[4 * c..4 * c + 4]);
    assert cols[c] == col;
    assert col[i] == MixEntry(m[i], s[4 * c..4 * c + 4]) by {
      if i == 0 {} else if i == 1 {} else if i == 2 {} else {}
    }
  }

  /** An output that is not fully known makes the cast fail. */
  lemma CastFails(m: seq<seq<bv8>>, s: seq<Bits>, c: nat, i: nat)
    requires Square4(m) && |s| % 4 == 0 && c < |s| / 4 && i < 4
    requires !Deterministic(MixEntry(m[i], s[4 * c..4 * c + 4]))
    ensures Casted(MixAll(m, s)) == Failure(NotFiniteNumber)
  {
    MixAllAt(m, s, c, i);
    var raw := MixAll(m, s);
    assert !Deterministic(raw[4 * c + i]);
  }

  /** The column loop of InvMixColumns, for the matrix m: the four output
    * bytes of every column, each cast to byte and back, stopping at the
    * first that is not fully known. */
  method CastMixWith(memo: GMulMemo, m: seq<seq<bv8>>, state: seq<Bits>) returns (r: Result<seq<Bits>>)
    requires memo.Valid() && Square4(m) && |state| % 4 == 0
    modifies memo
    ensures memo.Valid() && r == Casted(MixAll(m, state))
    ensures CacheKept(old(memo.cache), memo.cache)
    ensures old(memo.table) != null ==> memo.table == old(memo.table)
  {
    ghost var cols := MixColumnsOf(m, state);
    var res: seq<Bits> := [];
    for c := 0 to |state| / 4
      invariant memo.Valid()
      invariant res == Concat(cols[..c])
      invariant AllKnown(res)
      invariant CacheKept(old(memo.cache), memo.cache)
      invariant old(memo.table) != null ==> memo.table == old(memo.table)
    {
      var col := state[4 * c..4 * c + 4];
      var r0 := InvEntry(memo, m[0], col);
      if r0.Failure? {
        CastFails(m, state, c, 0);
        return Failure(r0.error);
      }
      var r1 := InvEntry(memo, m[1], col);
      if r1.Failure? {
        CastFails(m, state, c, 1);
        return Failure(r1.error);
      }
      var r2 := InvEntry(memo, m[2], col);
      if r2.Failure? {
        CastFails(m, state, c, 2);
        return Failure(r2.error);
      }
      var r3 := InvEntry(memo, m[3], col);
      if r3.Failure? {
        CastFails(m, state, c, 3);
        return Failure(r3.error);
      }
      ConcatSnoc(cols, c);
      ColumnIs(m, state, c, r0.value, r1.value, r2.value, r3.value);
      KnownAppend(res, r0.value, r1.value, r2.value, r3.value);
      res := res + [r0.value, r1.value, r2.value, r3.value];
    }
    assert cols[..|state| / 4] == cols;
    return Success(res);
  }

  /** InvMixColumns(state): the column loop with the InvMixColumns matrix. */
  method InvMixColumns(memo: GMulMemo, state: seq<Bits>) returns (r: Result<seq<Bits>>)
    requires memo.Valid() && |state| % 4 == 0
    modifies memo
    ensures memo.Valid() && r == InvMixColumnsValue(state)
    ensures CacheKept(old(memo.cache), memo.cache)
    ensures old(memo.table) != null ==> memo.table == old(memo.table)
  {
    r := CastMixWith(memo, InvMixMatrix, state);
  }

  // ---------------------------------------------------------------- known states

  /** Xor of two known NBytes, in variable form. */
  lemma XorKnownAt(a: Bits, b: Bits, x: bv8, y: bv8, z: bv8)
    requires a == FromByte(x) && b == FromByte(y) && z == x ^ y
    ensures XorValue(a, b) == FromByte(z)
  {
    XorFromBytes(x, y);
  }

  /** An output whose four products are known bytes is their xor. */
  lemma EntryKnown(row: seq<bv8>, col: seq<Bits>, p0: bv8, p1: bv8, p2: bv8, p3: bv8)
    requires |row| == 4 && |col| == 4
    requires GMulValue(FromByte(row[0]), col[0]) == FromByte(p0)
    requires GMulValue(FromByte(row[1]), col[1]) == FromByte(p1)
    requires GMulValue(FromByte(row[2]), col[2]) == FromByte(p2)
    requires GMulValue(FromByte(row[3]), col[3]) == FromByte(p3)
    ensures MixEntry(row, col) == FromByte(p0 ^ p1 ^ p2 ^ p3)
  {
    var f0, f1, f2, f3 := FromByte(p0), FromByte(p1), FromByte(p2), FromByte(p3);
    calc {
      MixEntry(row, col);
      XorValue(XorValue(XorValue(f0, f1), f2), f3);
      { XorFromBytes(p0, p1); }
      XorValue(XorValue(FromByte(p0 ^ p1), f2), f3);
      { XorFromBytes(p0 ^ p1, p2); }
      XorValue(FromByte(p0 ^ p1 ^ p2), f3);
      { XorFromBytes(p0 ^ p1 ^ p2, p3); }
      FromByte(p0 ^ p1 ^ p2 ^ p3);
    }
  }

  /** On known bytes one output is the field dot product of the row and the
    * column. */
  lemma MixEntryLift(row: seq<bv8>, col: seq<bv8>)
    requires |row| == 4 && |col| == 4
    ensures MixEntry(row, Lift(col)) == FromByte(Dot(row, col))
  {
    GMulKnown(row[0], col[0]);
    GMulKnown(row[1], col[1]);
    GMulKnown(row[2], col[2]);
    GMulKnown(row[3], col[3]);
    EntryKnown(row, Lift(col), Mul(row[0], col[0]), Mul(row[1], col[1]), Mul(row[2], col[2]), Mul(row[3], col[3]));
    Dot4(row, col);
  }

  /** On a known column the outputs are the matrix times the column. */
  lemma MixColumnLift(m: seq<seq<bv8>>, c: seq<Bits>, col: seq<bv8>)
    requires Square4(m) && |col| == 4 && c == Lift(col)
    ensures MixColumn(m, c) == Lift(MatVec(m, col))
  {
    MixEntryLift(m[0], col);
    MixEntryLift(m[1], col);
    MixEntryLift(m[2], col);
    MixEntryLift(m[3], col);
    LiftFour(MatVec(m, col));
  }

  /** On a known 16-byte state the column loop is the matrix times every
    * column. */
  lemma MixAllLift(m: seq<seq<bv8>>, s: seq<bv8>)
    requires Square4(m) && |s| == 16
    ensures MixAll(m, Lift(s)) == Lift(MatVec(m, s[0..4]) + MatVec(m, s[4..8]) + MatVec(m, s[8..12]) + MatVec(m, s[12..16]))
  {
    var v0, v1, v2, v3 := MatVec(m, s[0..4]), MatVec(m, s[4..8]), MatVec(m, s[8..12]), MatVec(m, s[12..16]);
    var cols := MixColumnsOf(m, Lift(s));
    calc {
      MixAll(m, Lift(s));
      Concat(cols);
      { Concat4(cols); }
      cols[0] + cols[1] + cols[2] + cols[3];
      { ColumnLift(m, s, 0); ColumnLift(m, s, 1); ColumnLift(m, s, 2); ColumnLift(m, s, 3); }
      Lift(v0) + Lift(v1) + Lift(v2) + Lift(v3);
      { LiftConcat(v0, v1); LiftConcat(v0 + v1, v2); LiftConcat(v0 + v1 + v2, v3); }
      Lift(v0 + v1 + v2 + v3);
    }
  }

  /** Column j of a known 16-byte state. */
  lemma ColumnLift(m: seq<seq<bv8>>, s: seq<bv8>, j: nat)
    requires Square4(m) && |s| == 16 && j < 4
    ensures MixColumnsOf(m, Lift(s))[j] == Lift(MatVec(m, s[4 * j..4 * j + 4]))
  {
    var t, col := Lift(s), s[4 * j..4 * j + 4];
    var c := t[4 * j..4 * j + 4];
    assert c == Lift(col) by { LiftSlice(s, 4 * j, 4 * j + 4); }
    assert MixColumnsOf(m, t)[j] == MixColumn(m, c);
    MixColumnLift(m, c, col);
  }

  /** On a known state MixColumns is the byte-level MixColumns. */
  lemma MixColumnsLift(s: seq<bv8>)
    requires |s| == 16
    ensures MixColumnsValue(Lift(s)) == Lift(Cipher.MixColumns(s))
  {
    MixAllLift(MixMatrix, s);
  }

  /** On a known state every output of InvMixColumns is known, so the casts
    * succeed and the result is the byte-level InvMixColumns. */
  lemma InvMixColumnsLift(s: seq<bv8>)
    requires |s| == 16
    ensures InvMixColumnsValue(Lift(s)) == Success(Lift(Cipher.InvMixColumns(s)))
  {
    MixAllLift(InvMixMatrix, s);
    var raw := Lift(Cipher.InvMixColumns(s));
    forall k | 0 <= k < 16
      ensures Deterministic(raw[k])
    {
      FromByteRoundTrip(Cipher.InvMixColumns(s)[k]);
    }
  }

  // ---------------------------------------------------------------- soundness

  /** A known byte times an NByte agrees with the byte times any byte the
    * NByte stands for. */
  lemma ProductSound(r: bv8, t: Bits, x: bv8)
    requires Agrees(x, t)
    ensures Agrees(Mul(r, x), GMulValue(FromByte(r), t))
  {
    AgreesFromByte(r, r);
    GMulSound(FromByte(r), t, r, x);
  }

  /** The xor of four NBytes agrees with the xor of bytes they stand for. */
  lemma XorFourSound(g0: Bits, g1: Bits, g2: Bits, g3: Bits, m0: bv8, m1: bv8, m2: bv8, m3: bv8)
    requires Agrees(m0, g0) && Agrees(m1, g1) && Agrees(m2, g2) && Agrees(m3, g3)
    ensures Agrees(m0 ^ m1 ^ m2 ^ m3, XorValue(XorValue(XorValue(g0, g1), g2), g3))
  {
    XorThreeSound(g0, g1, g2, m0, m1, m2);
    XorSound(XorValue(XorValue(g0, g1), g2), g3, m0 ^ m1 ^ m2, m3);
  }
  /** The xor of three NBytes agrees with the xor of bytes they stand for. */
  lemma XorThreeSound(g0: Bits, g1: Bits, g2: Bits, m0: bv8, m1: bv8, m2: bv8)
    requires Agrees(m0, g0) && Agrees(m1, g1) && Agrees(m2, g2)
    ensures Agrees(m0 ^ m1 ^ m2, XorValue(XorValue(g0, g1), g2))
  {
    XorSound(g0, g1, m0, m1);
    XorSound(XorValue(g0, g1), g2, m0 ^ m1, m2);
  }

  /** One output of the column loop agrees with the field dot product of the
    * row and any column the input column stands for. */
  lemma MixEntrySound(row: seq<bv8>, col: seq<Bits>, xs: seq<bv8>)
    requires |row| == 4 && |col| == 4 && AgreesAll(xs, col)
    ensures Agrees(Dot(row, xs), MixEntry(row, col))
  {
    ProductSound(row[0], col[0], xs[0]);
    ProductSound(row[1], col[1], xs[1]);
    ProductSound(row[2], col[2], xs[2]);
    ProductSound(row[3], col[3], xs[3]);
    XorFourSound(GMulValue(FromByte(row[0]), col[0]), GMulValue(FromByte(row[1]), col[1]),
                 GMulValue(FromByte(row[2]), col[2]), GMulValue(FromByte(row[3]), col[3]),
                 Mul(row[0], xs[0]), Mul(row[1], xs[1]), Mul(row[2], xs[2]), Mul(row[3], xs[3]));
    Dot4(row, xs);
  }

  /** The matrix times each column of a 16-byte state, in state order. */
  function MatColumns(m: seq<seq<bv8>>, xs: seq<bv8>): (r: seq<bv8>)
    requires Square4(m) && |xs| == 16
    ensures |r| == 16
  {
    MatVec(m, xs[0..4]) + MatVec(m, xs[4..8]) + MatVec(m, xs[8..12]) + MatVec(m, xs[12..16])
  }

  /** Output i of column c of the byte-level product. */
  lemma MatColumnsAt(m: seq<seq<bv8>>, xs: seq<bv8>, c: nat, i: nat)
    requires Square4(m) && |xs| == 16 && c < 4 && i < 4
    ensures MatColumns(m, xs)[4 * c + i] == Dot(m[i], xs[4 * c..4 * c + 4])
  {
    var vs := seq(4, j requires 0 <= j < 4 => MatVec(m, xs[4 * j..4 * j + 4]));
    Concat4(vs);
    ConcatAt(vs, c, i);
  }

  /** Output k of the column loop, row k % 4 of column k / 4, agrees with
    * the byte-level product. */
  lemma MixAllSoundAt(m: seq<seq<bv8>>, xs: seq<bv8>, s: seq<Bits>, k: nat)
    requires Square4(m) && |s| == 16 && AgreesAll(xs, s) && k < 16
    ensures Agrees(MatColumns(m, xs)[k], MixAll(m, s)[k])
  {
    var c, i := k / 4, k % 4;
    assert k == 4 * c + i;
    var col, ys := s[4 * c..4 * c + 4], xs[4 * c..4 * c + 4];
    AgreesSlice(xs, s, 4 * c, 4 * c + 4);
    MixEntrySound(m[i], col, ys);
    MixAllAt(m, s, c, i);
    MatColumnsAt(m, xs, c, i);
    assert MatColumns(m, xs)[k] == Dot(m[i], ys) && MixAll(m, s)[k] == MixEntry(m[i], col);
  }

  /** Every output of the column loop agrees with the matrix times the
    * columns of any state the input stands for. */
  lemma MixAllSound(m: seq<seq<bv8>>, xs: seq<bv8>, s: seq<Bits>)
    requires Square4(m) && |s| == 16 && AgreesAll(xs, s)
    ensures AgreesAll(MatColumns(m, xs), MixAll(m, s))
  {
    forall k | 0 <= k < 16
      ensures Agrees(MatColumns(m, xs)[k], MixAll(m, s)[k])
    {
      MixAllSoundAt(m, xs, s, k);
    }
  }

  /** MixColumns over NBytes is sound: each output agrees with the byte-level
    * MixColumns of any state the input stands for. */
  lemma MixColumnsSound(xs: seq<bv8>, s: seq<Bits>)
    requires |s| == 16 && AgreesAll(xs, s)
    ensures AgreesAll(Cipher.MixColumns(xs), MixColumnsValue(s))
  {
    MixAllSound(MixMatrix, xs, s);
  }

  /** When InvMixColumns succeeds, each output agrees with the byte-level
    * InvMixColumns of any state the input stands for. */
  lemma InvMixColumnsSound(xs: seq<bv8>, s: seq<Bits>)
    requires |s| == 16 && AgreesAll(xs, s) && InvMixColumnsValue(s).Success?
    ensures AgreesAll(Cipher.InvMixColumns(xs), InvMixColumnsValue(s).value)
  {
    MixAllSound(InvMixMatrix, xs, s);
  }
}
