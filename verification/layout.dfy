/** The byte layout of the 16-byte AES state: position 4 * c + r holds row r of
  * column c. ShiftRows and InvShiftRows only move bytes, so they are stated
  * here once for any element type and used by the concrete cipher over bytes
  * and by the engine over NBytes alike.
  */
module StateLayout {

  /** Where each position of ShiftRows and of InvShiftRows is read from. */
  const ShiftSource: seq<int> := [0, 5, 10, 15, 4, 9, 14, 3, 8, 13, 2, 7, 12, 1, 6, 11]
  const InvShiftSource: seq<int> := [0, 13, 10, 7, 4, 1, 14, 11, 8, 5, 2, 15, 12, 9, 6, 3]

  /** ShiftRows rotates row r left by r columns (section 5.1.2 of FIPS-197). */
  function ShiftRows<T>(s: seq<T>): (r: seq<T>)
    requires |s| == 16
    ensures |r| == 16
  {
    seq(16, k requires 0 <= k < 16 => s[ShiftSource[k]])
  }

  /** InvShiftRows rotates row r right by r columns (section 5.3.1 of FIPS-197). */
  function InvShiftRows<T>(s: seq<T>): (r: seq<T>)
    requires |s| == 16
    ensures |r| == 16
  {
    seq(16, k requires 0 <= k < 16 => s[InvShiftSource[k]])
  }

  lemma ShiftRowsIndex<T>(s: seq<T>, k: nat)
    requires |s| == 16 && k < 16
    ensures 0 <= ShiftSource[k] < 16 && ShiftRows(s)[k] == s[ShiftSource[k]]
    ensures 0 <= InvShiftSource[k] < 16 && InvShiftRows(s)[k] == s[InvShiftSource[k]]
  {
    if k < 8 {
      if k == 0 {} else if k == 1 {} else if k == 2 {} else if k == 3 {}
      else if k == 4 {} else if k == 5 {} else if k == 6 {} else {}
    } else {
      if k == 8 {} else if k == 9 {} else if k == 10 {} else if k == 11 {}
      else if k == 12 {} else if k == 13 {} else if k == 14 {} else {}
    }
  }

  /** The index formula of the ShiftRows loop picks the same byte as the layout:
    * position 4 * i + j is read from row j of column (j + i) % 4. */
  lemma ShiftRowsAt<T>(s: seq<T>, i: nat, j: nat)
    requires |s| == 16 && i < 4 && j < 4
    ensures ShiftRows(s)[i * 4 + j] == s[((j + i) % 4) * 4 + j]
  {
    if i == 0 {
      if j == 0 {} else if j == 1 {} else if j == 2 {} else {}
    } else if i == 1 {
      if j == 0 {} else if j == 1 {} else if j == 2 {} else {}
    } else if i == 2 {
      if j == 0 {} else if j == 1 {} else if j == 2 {} else {}
    } else {
      if j == 0 {} else if j == 1 {} else if j == 2 {} else {}
    }
  }

  /** The index formula of the InvShiftRows loop, which scatters position
    * 4 * i + j to row j of column (j + i) % 4, agrees with the layout. */
  lemma InvShiftRowsAt<T>(s: seq<T>, i: nat, j: nat)
    requires |s| == 16 && i < 4 && j < 4
    ensures InvShiftRows(s)[((j + i) % 4) * 4 + j] == s[i * 4 + j]
  {
    if i == 0 {
      if j == 0 {} else if j == 1 {} else if j == 2 {} else {}
    } else if i == 1 {
      if j == 0 {} else if j == 1 {} else if j == 2 {} else {}
    } else if i == 2 {
      if j == 0 {} else if j == 1 {} else if j == 2 {} else {}
    } else {
      if j == 0 {} else if j == 1 {} else if j == 2 {} else {}
    }
  }

  /** The two source tables are inverse permutations of 0 .. 15. */
  lemma ShiftSourceInverse(k: nat)
    requires k < 16
    ensures 0 <= ShiftSource[k] < 16 && InvShiftSource[ShiftSource[k]] == k
    ensures 0 <= InvShiftSource[k] < 16 && ShiftSource[InvShiftSource[k]] == k
  {
    if k < 8 {
      if k == 0 {} else if k == 1 {} else if k == 2 {} else if k == 3 {}
      else if k == 4 {} else if k == 5 {} else if k == 6 {} else {}
    } else {
      if k == 8 {} else if k == 9 {} else if k == 10 {} else if k == 11 {}
      else if k == 12 {} else if k == 13 {} else if k == 14 {} else {}
    }
  }

  /** InvShiftRows undoes ShiftRows, and ShiftRows undoes InvShiftRows. */
  lemma ShiftRowsInverse<T>(s: seq<T>)
    requires |s| == 16
    ensures InvShiftRows(ShiftRows(s)) == s
    ensures ShiftRows(InvShiftRows(s)) == s
  {
    forall k | 0 <= k < 16
      ensures InvShiftRows(ShiftRows(s))[k] == s[k] && ShiftRows(InvShiftRows(s))[k] == s[k]
    {
      ShiftSourceInverse(k);
      ShiftRowsIndex(s, InvShiftSource[k]);
      ShiftRowsIndex(s, ShiftSource[k]);
    }
  }

  /** Both leave row 0 (positions 0, 4, 8 and 12) in place. */
  lemma ShiftRowsRowZero<T>(s: seq<T>)
    requires |s| == 16
    ensures forall k :: 0 <= k < 16 && k % 4 == 0 ==> ShiftRows(s)[k] == s[k] && InvShiftRows(s)[k] == s[k]
  {
    forall k | 0 <= k < 16 && k % 4 == 0
      ensures ShiftRows(s)[k] == s[k] && InvShiftRows(s)[k] == s[k]
    {
      if k == 0 {} else if k == 4 {} else if k == 8 {} else {}
    }
  }

  /** A state read as its columns: the concatenation of the column sequences. */
  function Concat<T>(cols: seq<seq<T>>): seq<T>
    decreases |cols|
  {
    if |cols| == 0 then [] else Concat(cols[..|cols| - 1]) + cols[|cols| - 1]
  }

  /** Every column has four entries. */
  predicate Quads<T>(cols: seq<seq<T>>)
  { forall j :: 0 <= j < |cols| ==> |cols[j]| == 4 }

  lemma ConcatSnoc<T>(cols: seq<seq<T>>, c: nat)
    requires c < |cols|
    ensures Concat(cols[..c + 1]) == Concat(cols[..c]) + cols[c]
  {
    assert cols[..c + 1][..c] == cols[..c];
  }

  /** Entry i of column c sits at position 4 * c + i. */
  lemma {:induction false} ConcatAt<T>(cols: seq<seq<T>>, c: nat, i: nat)
    requires Quads(cols) && c < |cols| && i < 4
    ensures |Concat(cols)| == 4 * |cols| && Concat(cols)[4 * c + i] == cols[c][i]
    decreases |cols|
  {
    var front := cols[..|cols| - 1];
    assert Quads(front);
    if c == |cols| - 1 {
      if c > 0 {
        ConcatAt(front, 0, 0);
      }
    } else {
      ConcatAt(front, c, i);
    }
  }

  /** A four-column state is its columns in order. */
  lemma Concat4<T>(cols: seq<seq<T>>)
    requires |cols| == 4
    ensures Concat(cols) == cols[0] + cols[1] + cols[2] + cols[3]
  {
    calc {
      Concat(cols);
      { assert cols[..4] == cols; ConcatSnoc(cols, 3); }
      Concat(cols[..3]) + cols[3];
      { ConcatSnoc(cols, 2); }
      Concat(cols[..2]) + cols[2] + cols[3];
      { ConcatSnoc(cols, 1); }
      Concat(cols[..1]) + cols[1] + cols[2] + cols[3];
      { ConcatSnoc(cols, 0); assert Concat(cols[..0]) == []; }
      cols[0] + cols[1] + cols[2] + cols[3];
    }
  }
}
