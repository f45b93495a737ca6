/** AES over plain bytes, written from FIPS-197 and parameterised by the list
  * of round keys: the reference the ternary engine is compared with. The
  * mixing step is the matrix product of section 5.1.3 of FIPS-197, and the
  * key expansion is the word recurrence of section 5.2 of FIPS-197, built
  * from the byte operations here.
  */
module Cipher {
  import opened GaloisField
  import opened MatrixAlgebra
  import opened SBoxTables
  import opened StateLayout
  import KeySchedule

  /** A list of round keys of 16 bytes each, at least an initial and a final one. */
  predicate RoundKeys(rks: seq<seq<bv8>>)
  { |rks| >= 2 && forall r :: 0 <= r < |rks| ==> |rks[r]| == 16 }

  /** The index of the final round key. */
  function Final<T>(rks: seq<T>): nat
    requires |rks| >= 1
  { |rks| - 1 }

  function SubBytes(s: seq<bv8>): (r: seq<bv8>)
    ensures |r| == |s| && forall i :: 0 <= i < |s| ==> r[i] == SubByte(s[i])
  { seq(|s|, i requires 0 <= i < |s| => SubByte(s[i])) }

  function InvSubBytes(s: seq<bv8>): (r: seq<bv8>)
    ensures |r| == |s| && forall i :: 0 <= i < |s| ==> r[i] == InvSubByte(s[i])
  { seq(|s|, i requires 0 <= i < |s| => InvSubByte(s[i])) }

  function AddRoundKey(s: seq<bv8>, k: seq<bv8>): (r: seq<bv8>)
    requires |s| <= |k|
    ensures |r| == |s| && forall i :: 0 <= i < |s| ==> r[i] == s[i] ^ k[i]
  { seq(|s|, i requires 0 <= i < |s| => s[i] ^ k[i]) }

  /** Each column times the MixColumns matrix. */
  function MixColumns(s: seq<bv8>): (r: seq<bv8>)
    requires |s| == 16
    ensures |r| == 16
  {
    MatVec(MixMatrix, s[0..4]) + MatVec(MixMatrix, s[4..8]) + MatVec(MixMatrix, s[8..12]) + MatVec(MixMatrix, s[12..16])
  }

  /** Each column times the InvMixColumns matrix. */
  function InvMixColumns(s: seq<bv8>): (r: seq<bv8>)
    requires |s| == 16
    ensures |r| == 16
  {
    MatVec(InvMixMatrix, s[0..4]) + MatVec(InvMixMatrix, s[4..8]) + MatVec(InvMixMatrix, s[8..12]) + MatVec(InvMixMatrix, s[12..16])
  }

  /** One middle round of the cipher. */
  function Round(s: seq<bv8>, k: seq<bv8>): (r: seq<bv8>)
    requires |s| == 16 && |k| == 16
    ensures |r| == 16
  { AddRoundKey(MixColumns(ShiftRows(SubBytes(s))), k) }

  /** One middle round of the inverse cipher. */
  function InvRound(s: seq<bv8>, k: seq<bv8>): (r: seq<bv8>)
    requires |s| == 16 && |k| == 16
    ensures |r| == 16
  { InvSubBytes(InvShiftRows(InvMixColumns(AddRoundKey(s, k)))) }

  /** The state after the initial key addition and rounds 1 .. n - 1. */
  function EncryptUpTo(p: seq<bv8>, rks: seq<seq<bv8>>, n: nat): (s: seq<bv8>)
    requires |p| == 16 && RoundKeys(rks) && 1 <= n < |rks|
    ensures |s| == 16
  {
    if n == 1 then AddRoundKey(p, rks[0]) else Round(EncryptUpTo(p, rks, n - 1), rks[n - 1])
  }

  function EncryptBlock(p: seq<bv8>, rks: seq<seq<bv8>>): (c: seq<bv8>)
    requires |p| == 16 && RoundKeys(rks)
    ensures |c| == 16
  {
    AddRoundKey(ShiftRows(SubBytes(EncryptUpTo(p, rks, Final(rks)))), rks[Final(rks)])
  }

  /** The state of the inverse cipher once the final round and the rounds
    * |rks| - 2 down to n have been undone. */
  function DecryptDownTo(c: seq<bv8>, rks: seq<seq<bv8>>, n: nat): (s: seq<bv8>)
    requires |c| == 16 && RoundKeys(rks) && 1 <= n < |rks|
    ensures |s| == 16
    decreases |rks| - n
  {
    if n == Final(rks) then InvSubBytes(InvShiftRows(AddRoundKey(c, rks[Final(rks)])))
    else InvRound(DecryptDownTo(c, rks, n + 1), rks[n])
  }

  function DecryptBlock(c: seq<bv8>, rks: seq<seq<bv8>>): (p: seq<bv8>)
    requires |c| == 16 && RoundKeys(rks)
    ensures |p| == 16
  { AddRoundKey(DecryptDownTo(c, rks, 1), rks[0]) }

  // ---------------------------------------------------------------- inverses

  lemma InvSubBytesSubBytes(s: seq<bv8>)
    ensures InvSubBytes(SubBytes(s)) == s
  {
    forall i | 0 <= i < |s|
      ensures InvSubBytes(SubBytes(s))[i] == s[i]
    {
      InvSubByteOfSubByte(s[i]);
    }
  }

  lemma AddRoundKeyTwice(s: seq<bv8>, k: seq<bv8>)
    requires |s| <= |k|
    ensures AddRoundKey(AddRoundKey(s, k), k) == s
  {
    assert forall i :: 0 <= i < |s| ==> AddRoundKey(AddRoundKey(s, k), k)[i] == s[i];
  }

  /** The InvMixColumns matrix undoes the MixColumns matrix on a column. */
  lemma InvMixColumn(col: seq<bv8>)
    requires |col| == 4
    ensures MatVec(InvMixMatrix, MatVec(MixMatrix, col)) == col
  {
    MatVecCompose(InvMixMatrix, MixMatrix, col);
    InvMixTimesMix();
    MatVecIdentity(col);
  }

  /** Column j of the four columns a + b + c + d. */
  lemma ColumnOf(a: seq<bv8>, b: seq<bv8>, c: seq<bv8>, d: seq<bv8>)
    requires |a| == 4 && |b| == 4 && |c| == 4 && |d| == 4
    ensures var s := a + b + c + d; s[0..4] == a && s[4..8] == b && s[8..12] == c && s[12..16] == d
  {}

  /** A state is the concatenation of its four columns. */
  lemma Columns(s: seq<bv8>)
    requires |s| == 16
    ensures s == s[0..4] + s[4..8] + s[8..12] + s[12..16]
  {}

  lemma InvMixColumnsMixColumns(s: seq<bv8>)
    requires |s| == 16
    ensures InvMixColumns(MixColumns(s)) == s
  {
    var c0, c1, c2, c3 := s[0..4], s[4..8], s[8..12], s[12..16];
    ColumnOf(MatVec(MixMatrix, c0), MatVec(MixMatrix, c1), MatVec(MixMatrix, c2), MatVec(MixMatrix, c3));
    InvMixColumn(c0);
    InvMixColumn(c1);
    InvMixColumn(c2);
    InvMixColumn(c3);
    Columns(s);
  }

  /** A middle round of the inverse cipher undoes the round with the same key. */
  lemma InvRoundRound(s: seq<bv8>, k: seq<bv8>)
    requires |s| == 16 && |k| == 16
    ensures InvRound(Round(s, k), k) == s
  {
    var t := ShiftRows(SubBytes(s));
    AddRoundKeyTwice(MixColumns(t), k);
    InvMixColumnsMixColumns(t);
    ShiftRowsInverse(SubBytes(s));
    InvSubBytesSubBytes(s);
  }

  /** The inverse cipher, run on the ciphertext down to round n, has reached
    * the state the cipher had before round n. */
  predicate UndoneTo(p: seq<bv8>, rks: seq<seq<bv8>>, n: nat)
    requires |p| == 16 && RoundKeys(rks) && 1 <= n < |rks|
  { DecryptDownTo(EncryptBlock(p, rks), rks, n) == EncryptUpTo(p, rks, n) }

  /** Undoing the final round of the ciphertext gives the state before it. */
  lemma DecryptFinal(p: seq<bv8>, rks: seq<seq<bv8>>)
    requires |p| == 16 && RoundKeys(rks)
    ensures UndoneTo(p, rks, Final(rks))
  {
    var s := EncryptUpTo(p, rks, Final(rks));
    var u := SubBytes(s);
    AddRoundKeyTwice(ShiftRows(u), rks[Final(rks)]);
    ShiftRowsInverse(u);
    InvSubBytesSubBytes(s);
  }

  /** A middle round is undone: if undoing down to round n + 1 gives the state
    * before round n + 1, undoing round n as well gives the state before n. */
  lemma DecryptStep(p: seq<bv8>, rks: seq<seq<bv8>>, n: nat)
    requires |p| == 16 && RoundKeys(rks) && 1 <= n < |rks| - 1
    requires UndoneTo(p, rks, n + 1)
    ensures UndoneTo(p, rks, n)
  {
    var s := EncryptUpTo(p, rks, n);
    assert EncryptUpTo(p, rks, n + 1) == Round(s, rks[n]);
    InvRoundRound(s, rks[n]);
  }

  /** Undoing down to round 1 of the ciphertext gives the state before round 1. */
  lemma DecryptDownToEncrypt(p: seq<bv8>, rks: seq<seq<bv8>>)
    requires |p| == 16 && RoundKeys(rks)
    ensures UndoneTo(p, rks, 1)
  {
    DecryptFinal(p, rks);
    var n := Final(rks);
    while n > 1
      invariant 1 <= n < |rks| && UndoneTo(p, rks, n)
    {
      DecryptStep(p, rks, n - 1);
      n := n - 1;
    }
  }

  /** Decryption with the same round keys gives the plaintext back. */
  lemma DecryptEncrypt(p: seq<bv8>, rks: seq<seq<bv8>>)
    requires |p| == 16 && RoundKeys(rks)
    ensures DecryptBlock(EncryptBlock(p, rks), rks) == p
  {
    DecryptDownToEncrypt(p, rks);
    AddRoundKeyTwice(p, rks[0]);
  }

  // ---------------------------------------------------------------- key expansion

  /** The byte operations of the key expansion: the S-box, xor and the
    * round constants. */
  const Bytes: KeySchedule.ByteOps<bv8> := KeySchedule.ByteOps(SubByte, (a: bv8, b: bv8) => a ^ b, KeySchedule.Rcon)

  /** Each constant after the first is the one before it times x. */
  lemma RconStep(j: nat)
    requires 1 <= j < 10
    ensures KeySchedule.Rcon[j + 1] == XTime(KeySchedule.Rcon[j])
  {
    if j == 1 {} else if j == 2 {} else if j == 3 {} else if j == 4 {} else if j == 5 {}
    else if j == 6 {} else if j == 7 {} else if j == 8 {} else {}
  }

  /** Entries 1 .. 10 of the table are the powers x^0 .. x^9 of
    * section 5.2 of FIPS-197. */
  lemma RconPowers(j: nat)
    requires 1 <= j <= 10
    ensures KeySchedule.Rcon[j] == XPow(1, j - 1)
  {
    var k := 1;
    while k < j
      invariant 1 <= k <= j && KeySchedule.Rcon[k] == XPow(1, k - 1)
    {
      RconStep(k);
      k := k + 1;
    }
  }

  /** The expanded key of section 5.2 of FIPS-197 cut into round keys of 16
    * bytes. */
  function KeyExpansion(key: seq<bv8>, nk: nat): (rks: seq<seq<bv8>>)
    requires KeySchedule.KeyWords(nk) && |key| >= 4 * nk
    ensures |rks| == KeySchedule.RoundCount(nk) && RoundKeys(rks)
  {
    KeySchedule.KeyExpansion(Bytes, key, nk)
  }
}
