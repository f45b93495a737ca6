/** Known answers from the examples of FIPS-197: the second round key of the
  * key expansion of Appendix A.1 of FIPS-197 and the first column of round 1
  * of the cipher example of Appendix B of FIPS-197, before and after MixColumns. Each answer is
  * reached through the general lemmas about the model, with the literal
  * bytes kept to small lemmas that the verifier evaluates.
  */
module KnownAnswers {
  import opened GaloisField
  import opened MatrixAlgebra
  import opened KeySchedule
  import opened Ternary
  import Cipher
  import SBoxTables
  import AesKeys

  /** The cipher key of Appendix A.1 of FIPS-197. */
  const CipherKey: seq<bv8> := [0x2b, 0x7e, 0x15, 0x16, 0x28, 0xae, 0xd2, 0xa6, 0xab, 0xf7, 0x15, 0x88, 0x09, 0xcf, 0x4f, 0x3c]

  // ---------------------------------------------------------------- key expansion

  /** SubWord of the byte cipher is the S-box on each of the four bytes. */
  lemma SBoxWord(w: seq<bv8>)
    requires |w| == 4
    ensures SubWord(Cipher.Bytes, w) == [SBoxTables.SubByte(w[0]), SBoxTables.SubByte(w[1]), SBoxTables.SubByte(w[2]), SBoxTables.SubByte(w[3])]
  {}

  /** Word w4 of Appendix A.1 of FIPS-197: RotWord, SubWord and Rcon[1] applied to w3,
    * xor w0. */
  lemma Word4()
    ensures StepWord(Cipher.Bytes, [0x2b, 0x7e, 0x15, 0x16], [0x09, 0xcf, 0x4f, 0x3c], 4, 4) == [0xa0, 0xfa, 0xfe, 0x17]
  {
    SBoxWord([0xcf, 0x4f, 0x3c, 0x09]);
    assert SBoxTables.SubByte(0xcf) == 0x8a && SBoxTables.SubByte(0x4f) == 0x84;
    assert SBoxTables.SubByte(0x3c) == 0xeb && SBoxTables.SubByte(0x09) == 0x01;
  }

  /** Words w5, w6 and w7 of Appendix A.1 of FIPS-197: w[i - 4] xor w[i - 1]. */
  lemma Word5()
    ensures StepWord(Cipher.Bytes, [0x28, 0xae, 0xd2, 0xa6], [0xa0, 0xfa, 0xfe, 0x17], 4, 5) == [0x88, 0x54, 0x2c, 0xb1]
  {}

  lemma Word6()
    ensures StepWord(Cipher.Bytes, [0xab, 0xf7, 0x15, 0x88], [0x88, 0x54, 0x2c, 0xb1], 4, 6) == [0x23, 0xa3, 0x39, 0x39]
  {}

  lemma Word7()
    ensures StepWord(Cipher.Bytes, [0x09, 0xcf, 0x4f, 0x3c], [0x23, 0xa3, 0x39, 0x39], 4, 7) == [0x2a, 0x6c, 0x76, 0x05]
  {}

  /** Word i of the expansion of a 4-word key, from known words i - 4 and
    * i - 1. */
  lemma NextKeyWord(key: seq<bv8>, i: nat, a: seq<bv8>, b: seq<bv8>)
    requires |key| >= 16 && 4 <= i < 44
    requires Word(ExpandUpTo(Cipher.Bytes, key, 4, 44), i - 4) == a && Word(ExpandUpTo(Cipher.Bytes, key, 4, 44), i - 1) == b
    ensures Word(ExpandUpTo(Cipher.Bytes, key, 4, 44), i) == StepWord(Cipher.Bytes, a, b, 4, i)
  {
    RecurrenceStep(Cipher.Bytes, key, 4, i, 44);
  }

  /** Round key 1 of any key whose words are those of the key of
    * Appendix A.1 of FIPS-197 is words w4 .. w7 listed there. */
  lemma SecondRoundKeyOf(key: seq<bv8>)
    requires |key| == 16
    requires Word(key, 0) == [0x2b, 0x7e, 0x15, 0x16] && Word(key, 1) == [0x28, 0xae, 0xd2, 0xa6]
    requires Word(key, 2) == [0xab, 0xf7, 0x15, 0x88] && Word(key, 3) == [0x09, 0xcf, 0x4f, 0x3c]
    ensures Cipher.KeyExpansion(key, 4)[1] ==
      [0xa0, 0xfa, 0xfe, 0x17] + [0x88, 0x54, 0x2c, 0xb1] + [0x23, 0xa3, 0x39, 0x39] + [0x2a, 0x6c, 0x76, 0x05]
  {
    var ops := Cipher.Bytes;
    KeyWord(ops, key, 4, 0);
    KeyWord(ops, key, 4, 1);
    KeyWord(ops, key, 4, 2);
    KeyWord(ops, key, 4, 3);
    NextKeyWord(key, 4, [0x2b, 0x7e, 0x15, 0x16], [0x09, 0xcf, 0x4f, 0x3c]);
    Word4();
    NextKeyWord(key, 5, [0x28, 0xae, 0xd2, 0xa6], [0xa0, 0xfa, 0xfe, 0x17]);
    Word5();
    NextKeyWord(key, 6, [0xab, 0xf7, 0x15, 0x88], [0x88, 0x54, 0x2c, 0xb1]);
    Word6();
    NextKeyWord(key, 7, [0x09, 0xcf, 0x4f, 0x3c], [0x23, 0xa3, 0x39, 0x39]);
    Word7();
    RoundKeyWords(ops, key, 4, 1);
  }

  /** Round key 1 of the key of Appendix A.1 of FIPS-197. */
  lemma SecondRoundKey()
    ensures Cipher.KeyExpansion(CipherKey, 4)[1] ==
      [0xa0, 0xfa, 0xfe, 0x17] + [0x88, 0x54, 0x2c, 0xb1] + [0x23, 0xa3, 0x39, 0x39] + [0x2a, 0x6c, 0x76, 0x05]
  {
    assert Word(CipherKey, 0) == [0x2b, 0x7e, 0x15, 0x16] && Word(CipherKey, 1) == [0x28, 0xae, 0xd2, 0xa6];
    assert Word(CipherKey, 2) == [0xab, 0xf7, 0x15, 0x88] && Word(CipherKey, 3) == [0x09, 0xcf, 0x4f, 0x3c];
    SecondRoundKeyOf(CipherKey);
  }

  /** GenRoundKeys on an NByte key that the key of Appendix A.1 of FIPS-197
    * agrees with (for instance the fully known one) succeeds, and the byte
    * words w4 .. w7 listed there agree with its round key 1. */
  lemma ScheduleSecondRoundKey(key: seq<bv8>, K: seq<Bits>)
    requires |key| == 16 && AgreesAll(key, K)
    requires Word(key, 0) == [0x2b, 0x7e, 0x15, 0x16] && Word(key, 1) == [0x28, 0xae, 0xd2, 0xa6]
    requires Word(key, 2) == [0xab, 0xf7, 0x15, 0x88] && Word(key, 3) == [0x09, 0xcf, 0x4f, 0x3c]
    ensures AesKeys.Schedule(K).Success?
    ensures AgreesAll([0xa0, 0xfa, 0xfe, 0x17] + [0x88, 0x54, 0x2c, 0xb1] + [0x23, 0xa3, 0x39, 0x39] + [0x2a, 0x6c, 0x76, 0x05],
      AesKeys.Schedule(K).value[1])
  {
    AesKeys.ScheduleSound(key, K);
    SecondRoundKeyOf(key);
    assert AgreesAll(Cipher.KeyExpansion(key, 4)[1], AesKeys.Schedule(K).value[1]);
  }

  // ---------------------------------------------------------------- MixColumns

  /** A sequence of four given by its entries. */
  lemma FourEntries(v: seq<bv8>, e0: bv8, e1: bv8, e2: bv8, e3: bv8)
    requires |v| == 4 && v[0] == e0 && v[1] == e1 && v[2] == e2 && v[3] == e3
    ensures v == [e0, e1, e2, e3]
  {}

  /** A column times the MixColumns matrix, given its four row products. */
  lemma MixColumnOf(col: seq<bv8>, e0: bv8, e1: bv8, e2: bv8, e3: bv8)
    requires |col| == 4
    requires Dot([2, 3, 1, 1], col) == e0 && Dot([1, 2, 3, 1], col) == e1
    requires Dot([1, 1, 2, 3], col) == e2 && Dot([3, 1, 1, 2], col) == e3
    ensures MatVec(MixMatrix, col) == [e0, e1, e2, e3]
  {
    FourEntries(MatVec(MixMatrix, col), e0, e1, e2, e3);
  }

  /** The four row products of the column d4 bf 5d 30, each a sum of xtime
    * products as in equation (5.6) of section 5.1.3 of FIPS-197. */
  lemma MixEntry0()
    ensures Dot([2, 3, 1, 1], [0xd4, 0xbf, 0x5d, 0x30]) == 0x04
  {
    Dot4([2, 3, 1, 1], [0xd4, 0xbf, 0x5d, 0x30]);
    MulTwoLeft(0xd4); MulThreeLeft(0xbf); MulOneLeft(0x5d); MulOneLeft(0x30);
  }

  lemma MixEntry1()
    ensures Dot([1, 2, 3, 1], [0xd4, 0xbf, 0x5d, 0x30]) == 0x66
  {
    Dot4([1, 2, 3, 1], [0xd4, 0xbf, 0x5d, 0x30]);
    MulOneLeft(0xd4); MulTwoLeft(0xbf); MulThreeLeft(0x5d); MulOneLeft(0x30);
  }

  lemma MixEntry2()
    ensures Dot([1, 1, 2, 3], [0xd4, 0xbf, 0x5d, 0x30]) == 0x81
  {
    Dot4([1, 1, 2, 3], [0xd4, 0xbf, 0x5d, 0x30]);
    MulOneLeft(0xd4); MulOneLeft(0xbf); MulTwoLeft(0x5d); MulThreeLeft(0x30);
  }

  lemma MixEntry3()
    ensures Dot([3, 1, 1, 2], [0xd4, 0xbf, 0x5d, 0x30]) == 0xe5
  {
    Dot4([3, 1, 1, 2], [0xd4, 0xbf, 0x5d, 0x30]);
    MulThreeLeft(0xd4); MulOneLeft(0xbf); MulOneLeft(0x5d); MulTwoLeft(0x30);
  }

  /** The first column of the state in round 1 of the example of
    * Appendix B of FIPS-197, before and after MixColumns. */
  lemma MixColumnExample()
    ensures MatVec(MixMatrix, [0xd4, 0xbf, 0x5d, 0x30]) == [0x04, 0x66, 0x81, 0xe5]
  {
    MixEntry0(); MixEntry1(); MixEntry2(); MixEntry3();
    MixColumnOf([0xd4, 0xbf, 0x5d, 0x30], 0x04, 0x66, 0x81, 0xe5);
  }
}
