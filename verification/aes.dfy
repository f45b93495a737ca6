/** Encrypt and Decrypt over NBytes: the round key schedule, the initial key
  * addition, the middle rounds and the final round of FIPS-197, with every
  * transform taken from the engine. Decrypt fails when InvMixColumns meets an
  * output that is not fully known, and both fail on a key of unknown size.
  */
module Aes {
  import opened Outcomes
  import opened Ternary
  import opened StateLayout
  import opened AesGMul
  import opened AesMix
  import opened AesRounds
  import opened AesKeys
  import KeySchedule
  import Cipher

  /** Round keys of 16 NBytes, at least an initial and a final one. */
  predicate KeyList(rks: seq<seq<Bits>>)
  { |rks| >= 2 && forall r :: 0 <= r < |rks| ==> |rks[r]| == 16 }

  // ---------------------------------------------------------------- encryption

  /** One middle round: SBox, ShiftRows, MixColumns, AddRoundKey. */
  function RoundValue(s: seq<Bits>, k: seq<Bits>): (r: seq<Bits>)
    requires |s| == 16 && |k| == 16
    ensures |r| == 16
  { AddRoundKeyValue(MixColumnsValue(ShiftRows(SBoxState(s, false))), k) }

  /** The state after the initial key addition and rounds 1 .. n - 1. */
  function EncryptUpTo(p: seq<Bits>, rks: seq<seq<Bits>>, n: nat): (s: seq<Bits>)
    requires |p| == 16 && KeyList(rks) && 1 <= n < |rks|
    ensures |s| == 16
  {
    if n == 1 then AddRoundKeyValue(p, rks[0]) else RoundValue(EncryptUpTo(p, rks, n - 1), rks[n - 1])
  }

  /** The ciphertext for the given round keys: the middle rounds, then SBox,
    * ShiftRows and the last key. */
  function EncryptRounds(p: seq<Bits>, rks: seq<seq<Bits>>): (c: seq<Bits>)
    requires |p| == 16 && KeyList(rks)
    ensures |c| == 16
  {
    AddRoundKeyValue(ShiftRows(SBoxState(EncryptUpTo(p, rks, Cipher.Final(rks)), false)), rks[Cipher.Final(rks)])
  }

  /** The result of Encrypt(plaintext, key). A plaintext that is not 16
    * NBytes long runs out of the bounds of a round key (when longer) or of
    * the ShiftRows state (when shorter) once the round keys are built. */
  function EncryptValue(p: seq<Bits>, key: seq<Bits>): Result<seq<Bits>>
  {
    ScheduleShape(key);
    match Schedule(key)
    case Failure(e) => Failure(e)
    case Success(rks) => if |p| != 16 then Failure(IndexOutOfRange) else Success(EncryptRounds(p, rks))
  }

  /** The body of the round loop of Encrypt. */
  method EncryptRound(memo: GMulMemo, state: seq<Bits>, roundKey: seq<Bits>) returns (res: seq<Bits>)
    requires memo.Valid() && |state| == 16 && |roundKey| == 16
    modifies memo
    ensures memo.Valid() && res == RoundValue(state, roundKey)
    ensures CacheKept(old(memo.cache), memo.cache)
  {
    res := SBox(state, false);
    res := ShiftRowsState(res);
    res := MixColumns(memo, res);
    res := AddRoundKey(res, roundKey);
  }

  /** Encrypt(plaintext, key): the round keys, then the rounds. */
  method Encrypt(memo: GMulMemo, plaintext: seq<Bits>, key: seq<Bits>) returns (res: Result<seq<Bits>>)
    requires memo.Valid()
    modifies memo
    ensures memo.Valid() && res == EncryptValue(plaintext, key)
    ensures CacheKept(old(memo.cache), memo.cache)
  {
    var keys :- GenRoundKeys(key);
    if |plaintext| != 16 {
      return Failure(IndexOutOfRange);
    }
    ScheduleShape(key);
    var state := EncryptWithKeys(memo, plaintext, keys);
    return Success(state);
  }

  /** The rounds of Encrypt once the round keys are known. The state after
    * round r is the value of EncryptUpTo at r + 1. */
  method EncryptWithKeys(memo: GMulMemo, plaintext: seq<Bits>, roundKeys: seq<seq<Bits>>) returns (res: seq<Bits>)
    requires memo.Valid() && |plaintext| == 16 && KeyList(roundKeys)
    modifies memo
    ensures memo.Valid() && res == EncryptRounds(plaintext, roundKeys)
    ensures CacheKept(old(memo.cache), memo.cache)
  {
    var r := 0;
    var state := AddRoundKey(plaintext, roundKeys[r]);
    r := 1;
    while r < |roundKeys| - 1
      invariant 1 <= r <= |roundKeys| - 1
      invariant memo.Valid() && state == EncryptUpTo(plaintext, roundKeys, r)
      invariant CacheKept(old(memo.cache), memo.cache)
    {
      ghost var before := memo.cache;
      state := EncryptRound(memo, state, roundKeys[r]);
      CacheKeptTrans(old(memo.cache), before, memo.cache);
      r := r + 1;
    }
    assert r == Cipher.Final(roundKeys);
    state := SBox(state, false);
    state := ShiftRowsState(state);
    res := AddRoundKey(state, roundKeys[r]);
  }

  // ---------------------------------------------------------------- decryption

  /** One middle round of Decrypt: AddRoundKey, InvMixColumns (which may fail),
    * InvShiftRows, InvSBox. */
  function InvRoundValue(s: seq<Bits>, k: seq<Bits>): (r: Result<seq<Bits>>)
    requires |s| == 16 && |k| == 16
    ensures r.Success? ==> |r.value| == 16
  {
    match InvMixColumnsValue(AddRoundKeyValue(s, k))
    case Failure(e) => Failure(e)
    case Success(t) => Success(SBoxState(InvShiftRows(t), true))
  }

  /** The state once the final round and the rounds |rks| - 2 down to n have
    * been undone, or the failure of one of them. */
  function DecryptDownTo(c: seq<Bits>, rks: seq<seq<Bits>>, n: nat): (r: Result<seq<Bits>>)
    requires |c| == 16 && KeyList(rks) && 1 <= n < |rks|
    ensures r.Success? ==> |r.value| == 16
    decreases |rks| - n
  {
    if n == Cipher.Final(rks) then Success(SBoxState(InvShiftRows(AddRoundKeyValue(c, rks[Cipher.Final(rks)])), true))
    else
      match DecryptDownTo(c, rks, n + 1)
      case Failure(e) => Failure(e)
      case Success(s) => InvRoundValue(s, rks[n])
  }

  /** The plaintext for the given round keys: all rounds undone, then the
    * first key. */
  function DecryptRounds(c: seq<Bits>, rks: seq<seq<Bits>>): (r: Result<seq<Bits>>)
    requires |c| == 16 && KeyList(rks)
    ensures r.Success? ==> |r.value| == 16
  {
    match DecryptDownTo(c, rks, 1)
    case Failure(e) => Failure(e)
    case Success(s) => Success(AddRoundKeyValue(s, rks[0]))
  }

  /** The result of Decrypt(ciphertext, key), failing like Encrypt on a
    * ciphertext that is not 16 NBytes long. */
  function DecryptValue(c: seq<Bits>, key: seq<Bits>): Result<seq<Bits>>
  {
    ScheduleShape(key);
    match Schedule(key)
    case Failure(e) => Failure(e)
    case Success(rks) => if |c| != 16 then Failure(IndexOutOfRange) else DecryptRounds(c, rks)
  }

  /** Once undoing a round has failed, Decrypt fails with the same error. */
  lemma DecryptFailureKept(c: seq<Bits>, rks: seq<seq<Bits>>, n: nat, e: Exception)
    requires |c| == 16 && KeyList(rks) && 1 <= n < |rks|
    requires DecryptDownTo(c, rks, n) == Failure(e)
    ensures DecryptRounds(c, rks) == Failure(e)
  {
    var k := n - 1;
    var i := n;
    while k > 0
      invariant 0 <= k && i == k + 1 && DecryptDownTo(c, rks, i) == Failure(e)
    {
      i := i - 1;
      k := k - 1;
    }
    assert i == 1;
  }

  /** The body of the round loop of Decrypt, which stops at the failure of
    * InvMixColumns. */
  method DecryptRound(memo: GMulMemo, state: seq<Bits>, roundKey: seq<Bits>) returns (res: Result<seq<Bits>>)
    requires memo.Valid() && |state| == 16 && |roundKey| == 16
    modifies memo
    ensures memo.Valid() && res == InvRoundValue(state, roundKey)
    ensures CacheKept(old(memo.cache), memo.cache)
  {
    var s := AddRoundKey(state, roundKey);
    var mixed := InvMixColumns(memo, s);
    if mixed.Failure? {
      return Failure(mixed.error);
    }
    s := InvShiftRowsState(mixed.value);
    s := SBox(s, true);
    return Success(s);
  }

  /** Decrypt(ciphertext, key): the round keys, then the rounds undone. */
  method Decrypt(memo: GMulMemo, ciphertext: seq<Bits>, key: seq<Bits>) returns (res: Result<seq<Bits>>)
    requires memo.Valid()
    modifies memo
    ensures memo.Valid() && res == DecryptValue(ciphertext, key)
    ensures CacheKept(old(memo.cache), memo.cache)
  {
    var keys :- GenRoundKeys(key);
    if |ciphertext| != 16 {
      return Failure(IndexOutOfRange);
    }
    ScheduleShape(key);
    res := DecryptWithKeys(memo, ciphertext, keys);
  }

  /** The rounds of Decrypt once the round keys are known. Before undoing
    * round r the state is the value of DecryptDownTo at r + 1. */
  method DecryptWithKeys(memo: GMulMemo, ciphertext: seq<Bits>, roundKeys: seq<seq<Bits>>) returns (res: Result<seq<Bits>>)
    requires memo.Valid() && |ciphertext| == 16 && KeyList(roundKeys)
    modifies memo
    ensures memo.Valid() && res == DecryptRounds(ciphertext, roundKeys)
    ensures CacheKept(old(memo.cache), memo.cache)
  {
    var r := |roundKeys| - 1;
    assert r == Cipher.Final(roundKeys);
    var state := AddRoundKey(ciphertext, roundKeys[r]);
    state := InvShiftRowsState(state);
    state := SBox(state, true);
    r := r - 1;
    while r > 0
      invariant 0 <= r < |roundKeys| - 1
      invariant memo.Valid() && DecryptDownTo(ciphertext, roundKeys, r + 1) == Success(state)
      invariant CacheKept(old(memo.cache), memo.cache)
    {
      ghost var before := memo.cache;
      var undone := DecryptRound(memo, state, roundKeys[r]);
      CacheKeptTrans(old(memo.cache), before, memo.cache);
      if undone.Failure? {
        DecryptFailureKept(ciphertext, roundKeys, r, undone.error);
        return Failure(undone.error);
      }
      state := undone.value;
      r := r - 1;
    }
    assert r == 0;
    assert DecryptDownTo(ciphertext, roundKeys, 1) == Success(state);
    state := AddRoundKey(state, roundKeys[0]);
    return Success(state);
  }

  // ---------------------------------------------------------------- errors

  /** The only way undoing the rounds can fail is an InvMixColumns output
    * that is not fully known. */
  lemma DecryptDownToErrors(c: seq<Bits>, rks: seq<seq<Bits>>, n: nat)
    requires |c| == 16 && KeyList(rks) && 1 <= n < |rks|
    ensures DecryptDownTo(c, rks, n).Failure? ==> DecryptDownTo(c, rks, n).error == NotFiniteNumber
  {
    var i := Cipher.Final(rks);
    while i > n
      invariant n <= i < |rks|
      invariant DecryptDownTo(c, rks, i).Failure? ==> DecryptDownTo(c, rks, i).error == NotFiniteNumber
    {
      DecryptErrorStep(c, rks, i);
      i := i - 1;
    }
    assert i == n;
  }

  lemma DecryptErrorStep(c: seq<Bits>, rks: seq<seq<Bits>>, i: nat)
    requires |c| == 16 && KeyList(rks) && 1 < i < |rks|
    requires DecryptDownTo(c, rks, i).Failure? ==> DecryptDownTo(c, rks, i).error == NotFiniteNumber
    ensures DecryptDownTo(c, rks, i - 1).Failure? ==> DecryptDownTo(c, rks, i - 1).error == NotFiniteNumber
  {
    var before := DecryptDownTo(c, rks, i);
    if before.Success? {
      InvRoundErrors(before.value, rks[i - 1]);
    }
  }

  lemma InvRoundErrors(s: seq<Bits>, k: seq<Bits>)
    requires |s| == 16 && |k| == 16
    ensures InvRoundValue(s, k).Failure? ==> InvRoundValue(s, k).error == NotFiniteNumber
  {}

  lemma DecryptNotOutOfRange(c: seq<Bits>, rks: seq<seq<Bits>>)
    requires |c| == 16 && KeyList(rks)
    ensures DecryptRounds(c, rks).Failure? ==> DecryptRounds(c, rks).error == NotFiniteNumber
  {
    DecryptDownToErrors(c, rks, 1);
  }

  /** The key is checked first: a key that is not 4, 6 or 8 words long makes
    * both fail with KeyOfUnknownSize, whatever the text. */
  lemma KeySizeErrors(text: seq<Bits>, key: seq<Bits>)
    ensures !KeySchedule.KeyWords(|key| / 4) ==>
      EncryptValue(text, key) == Failure(KeyOfUnknownSize) && DecryptValue(text, key) == Failure(KeyOfUnknownSize)
  {
    ScheduleShape(key);
  }

  /** Encrypt fails exactly when the key has an unknown size or the text is
    * not 16 NBytes long, and then with the error of whichever is checked
    * first; Decrypt fails in the same cases, and besides those only when
    * InvMixColumns meets an output that is not fully known. */
  lemma EncryptErrors(text: seq<Bits>, key: seq<Bits>)
    ensures EncryptValue(text, key).Failure? <==> !KeySchedule.KeyWords(|key| / 4) || |text| != 16
    ensures KeySchedule.KeyWords(|key| / 4) && |text| != 16 ==>
      EncryptValue(text, key) == Failure(IndexOutOfRange) && DecryptValue(text, key) == Failure(IndexOutOfRange)
    ensures DecryptValue(text, key) == Failure(IndexOutOfRange) ==> KeySchedule.KeyWords(|key| / 4) && |text| != 16
  {
    ScheduleShape(key);
    if KeySchedule.KeyWords(|key| / 4) && |text| == 16 {
      DecryptNotOutOfRange(text, Schedule(key).value);
    }
  }

  // ---------------------------------------------------------------- known blocks

  lemma RoundLift(s: seq<bv8>, k: seq<bv8>)
    requires |s| == 16 && |k| == 16
    ensures RoundValue(Lift(s), Lift(k)) == Lift(Cipher.Round(s, k))
  {
    var u := Cipher.SubBytes(s);
    var v := ShiftRows(u);
    calc {
      RoundValue(Lift(s), Lift(k));
      AddRoundKeyValue(MixColumnsValue(ShiftRows(SBoxState(Lift(s), false))), Lift(k));
      { SBoxStateLift(s); }
      AddRoundKeyValue(MixColumnsValue(ShiftRows(Lift(u))), Lift(k));
      { ShiftRowsLift(u); }
      AddRoundKeyValue(MixColumnsValue(Lift(v)), Lift(k));
      { MixColumnsLift(v); }
      AddRoundKeyValue(Lift(Cipher.MixColumns(v)), Lift(k));
      { AddRoundKeyLift(Cipher.MixColumns(v), k); }
      Lift(Cipher.Round(s, k));
    }
  }

  lemma InvRoundLift(s: seq<bv8>, k: seq<bv8>)
    requires |s| == 16 && |k| == 16
    ensures InvRoundValue(Lift(s), Lift(k)) == Success(Lift(Cipher.InvRound(s, k)))
  {
    var u := Cipher.AddRoundKey(s, k);
    var v := Cipher.InvMixColumns(u);
    AddRoundKeyLift(s, k);
    InvMixColumnsLift(u);
    calc {
      InvRoundValue(Lift(s), Lift(k));
      Success(SBoxState(InvShiftRows(Lift(v)), true));
      { InvShiftRowsLift(v); }
      Success(SBoxState(Lift(InvShiftRows(v)), true));
      { SBoxStateLift(InvShiftRows(v)); }
      Success(Lift(Cipher.InvRound(s, k)));
    }
  }

  /** Lifted round keys are round keys of 16 NBytes, with the same final
    * index. */
  lemma LiftKeyList(rks: seq<seq<bv8>>)
    requires Cipher.RoundKeys(rks)
    ensures KeyList(LiftKeys(rks)) && Cipher.Final(LiftKeys(rks)) == Cipher.Final(rks)
  {}

  /** The initial key addition of a known block. */
  lemma EncryptFirstLift(p: seq<bv8>, rks: seq<seq<bv8>>)
    requires |p| == 16 && Cipher.RoundKeys(rks)
    ensures KeyList(LiftKeys(rks)) && EncryptUpTo(Lift(p), LiftKeys(rks), 1) == Lift(Cipher.EncryptUpTo(p, rks, 1))
  {
    LiftKeyList(rks);
    AddRoundKeyLift(p, rks[0]);
  }

  /** One more round of a known block. */
  lemma EncryptStepLift(p: seq<bv8>, rks: seq<seq<bv8>>, n: nat)
    requires |p| == 16 && Cipher.RoundKeys(rks) && 2 <= n < |rks|
    requires KeyList(LiftKeys(rks)) && EncryptUpTo(Lift(p), LiftKeys(rks), n - 1) == Lift(Cipher.EncryptUpTo(p, rks, n - 1))
    ensures EncryptUpTo(Lift(p), LiftKeys(rks), n) == Lift(Cipher.EncryptUpTo(p, rks, n))
  {
    var s := Cipher.EncryptUpTo(p, rks, n - 1);
    calc {
      EncryptUpTo(Lift(p), LiftKeys(rks), n);
      RoundValue(EncryptUpTo(Lift(p), LiftKeys(rks), n - 1), LiftKeys(rks)[n - 1]);
      RoundValue(Lift(s), Lift(rks[n - 1]));
      { RoundLift(s, rks[n - 1]); }
      Lift(Cipher.Round(s, rks[n - 1]));
      Lift(Cipher.EncryptUpTo(p, rks, n));
    }
  }

  /** On known blocks the encryption rounds are those of the byte-level
    * cipher. */
  lemma EncryptUpToLift(p: seq<bv8>, rks: seq<seq<bv8>>, n: nat)
    requires |p| == 16 && Cipher.RoundKeys(rks) && 1 <= n < |rks|
    ensures KeyList(LiftKeys(rks)) && EncryptUpTo(Lift(p), LiftKeys(rks), n) == Lift(Cipher.EncryptUpTo(p, rks, n))
  {
    EncryptFirstLift(p, rks);
    var i := 1;
    while i < n
      invariant 1 <= i <= n && EncryptUpTo(Lift(p), LiftKeys(rks), i) == Lift(Cipher.EncryptUpTo(p, rks, i))
    {
      EncryptStepLift(p, rks, i + 1);
      i := i + 1;
    }
    assert i == n;
  }

  lemma EncryptRoundsLift(p: seq<bv8>, rks: seq<seq<bv8>>)
    requires |p| == 16 && Cipher.RoundKeys(rks)
    ensures KeyList(LiftKeys(rks)) && EncryptRounds(Lift(p), LiftKeys(rks)) == Lift(Cipher.EncryptBlock(p, rks))
  {
    var last := Cipher.Final(rks);
    var s := Cipher.EncryptUpTo(p, rks, last);
    var u := Cipher.SubBytes(s);
    EncryptUpToLift(p, rks, last);
    LiftKeyList(rks);
    calc {
      EncryptRounds(Lift(p), LiftKeys(rks));
      AddRoundKeyValue(ShiftRows(SBoxState(Lift(s), false)), Lift(rks[last]));
      { SBoxStateLift(s); }
      AddRoundKeyValue(ShiftRows(Lift(u)), Lift(rks[last]));
      { ShiftRowsLift(u); }
      AddRoundKeyValue(Lift(ShiftRows(u)), Lift(rks[last]));
      { AddRoundKeyLift(ShiftRows(u), rks[last]); }
      Lift(Cipher.EncryptBlock(p, rks));
    }
  }

  /** One more round undone on a known block. */
  lemma DecryptStepLift(c: seq<bv8>, rks: seq<seq<bv8>>, i: nat)
    requires |c| == 16 && Cipher.RoundKeys(rks) && 1 < i < |rks|
    requires KeyList(LiftKeys(rks)) && DecryptDownTo(Lift(c), LiftKeys(rks), i) == Success(Lift(Cipher.DecryptDownTo(c, rks, i)))
    ensures DecryptDownTo(Lift(c), LiftKeys(rks), i - 1) == Success(Lift(Cipher.DecryptDownTo(c, rks, i - 1)))
  {
    var s := Cipher.DecryptDownTo(c, rks, i);
    calc {
      DecryptDownTo(Lift(c), LiftKeys(rks), i - 1);
      InvRoundValue(Lift(s), LiftKeys(rks)[i - 1]);
      InvRoundValue(Lift(s), Lift(rks[i - 1]));
      { InvRoundLift(s, rks[i - 1]); }
      Success(Lift(Cipher.InvRound(s, rks[i - 1])));
      Success(Lift(Cipher.DecryptDownTo(c, rks, i - 1)));
    }
  }

  /** The final round undone on a known block. */
  lemma DecryptLastLift(c: seq<bv8>, rks: seq<seq<bv8>>)
    requires |c| == 16 && Cipher.RoundKeys(rks)
    ensures KeyList(LiftKeys(rks))
    ensures DecryptDownTo(Lift(c), LiftKeys(rks), Cipher.Final(rks)) == Success(Lift(Cipher.DecryptDownTo(c, rks, Cipher.Final(rks))))
  {
    LiftKeyList(rks);
    var last := Cipher.Final(rks);
    var u := Cipher.AddRoundKey(c, rks[last]);
    calc {
      DecryptDownTo(Lift(c), LiftKeys(rks), last);
      Success(SBoxState(InvShiftRows(AddRoundKeyValue(Lift(c), Lift(rks[last]))), true));
      { AddRoundKeyLift(c, rks[last]); }
      Success(SBoxState(InvShiftRows(Lift(u)), true));
      { InvShiftRowsLift(u); }
      Success(SBoxState(Lift(InvShiftRows(u)), true));
      { SBoxStateLift(InvShiftRows(u)); }
      Success(Lift(Cipher.DecryptDownTo(c, rks, last)));
    }
  }

  /** On known blocks the decryption rounds are those of the byte-level
    * inverse cipher, and none of them fails. */
  lemma DecryptDownToLift(c: seq<bv8>, rks: seq<seq<bv8>>, n: nat)
    requires |c| == 16 && Cipher.RoundKeys(rks) && 1 <= n < |rks|
    ensures KeyList(LiftKeys(rks)) && DecryptDownTo(Lift(c), LiftKeys(rks), n) == Success(Lift(Cipher.DecryptDownTo(c, rks, n)))
  {
    DecryptLastLift(c, rks);
    var k := |rks| - 1 - n;
    var i := Cipher.Final(rks);
    while k > 0
      invariant 0 <= k && i == n + k && i < |rks|
      invariant DecryptDownTo(Lift(c), LiftKeys(rks), i) == Success(Lift(Cipher.DecryptDownTo(c, rks, i)))
    {
      DecryptStepLift(c, rks, i);
      i := i - 1;
      k := k - 1;
    }
    assert i == n;
  }

  lemma DecryptRoundsLift(c: seq<bv8>, rks: seq<seq<bv8>>)
    requires |c| == 16 && Cipher.RoundKeys(rks)
    ensures KeyList(LiftKeys(rks)) && DecryptRounds(Lift(c), LiftKeys(rks)) == Success(Lift(Cipher.DecryptBlock(c, rks)))
  {
    DecryptDownToLift(c, rks, 1);
    AddRoundKeyLift(Cipher.DecryptDownTo(c, rks, 1), rks[0]);
  }

  /** On a known plaintext and key Encrypt is the FIPS-197 cipher with the
    * FIPS-197 key expansion. */
  lemma EncryptLift(p: seq<bv8>, key: seq<bv8>)
    requires |p| == 16 && KeySchedule.KeyWords(|key| / 4)
    ensures EncryptValue(Lift(p), Lift(key)) == Success(Lift(Cipher.EncryptBlock(p, Cipher.KeyExpansion(key, |key| / 4))))
  {
    var rks := Cipher.KeyExpansion(key, |key| / 4);
    ScheduleLift(key);
    EncryptRoundsLift(p, rks);
  }

  /** On a known ciphertext and key Decrypt succeeds and is the FIPS-197
    * inverse cipher. */
  lemma DecryptLift(c: seq<bv8>, key: seq<bv8>)
    requires |c| == 16 && KeySchedule.KeyWords(|key| / 4)
    ensures DecryptValue(Lift(c), Lift(key)) == Success(Lift(Cipher.DecryptBlock(c, Cipher.KeyExpansion(key, |key| / 4))))
  {
    var rks := Cipher.KeyExpansion(key, |key| / 4);
    ScheduleLift(key);
    DecryptRoundsLift(c, rks);
  }

  /** For a fully known plaintext P and key K of 4, 6 or 8 words, Encrypt
    * succeeds and Decrypt(Encrypt(P, K), K) gives P back. */
  lemma DecryptEncrypt(p: seq<bv8>, key: seq<bv8>)
    requires |p| == 16 && KeySchedule.KeyWords(|key| / 4)
    ensures EncryptValue(Lift(p), Lift(key)).Success?
    ensures DecryptValue(EncryptValue(Lift(p), Lift(key)).value, Lift(key)) == Success(Lift(p))
  {
    var rks := Cipher.KeyExpansion(key, |key| / 4);
    var c := Cipher.EncryptBlock(p, rks);
    EncryptLift(p, key);
    DecryptLift(c, key);
    Cipher.DecryptEncrypt(p, rks);
  }

  // ---------------------------------------------------------------- soundness

  /** A middle round agrees with the byte-level round of any state and round
    * key the NBytes stand for. */
  lemma RoundSound(xs: seq<bv8>, s: seq<Bits>, ks: seq<bv8>, k: seq<Bits>)
    requires |s| == 16 && |k| == 16 && AgreesAll(xs, s) && AgreesAll(ks, k)
    ensures AgreesAll(Cipher.Round(xs, ks), RoundValue(s, k))
  {
    var u, t := Cipher.SubBytes(xs), SBoxState(s, false);
    SBoxStateSound(xs, s);
    ShiftRowsSound(u, t);
    MixColumnsSound(ShiftRows(u), ShiftRows(t));
    AddRoundKeyStateSound(Cipher.MixColumns(ShiftRows(u)), MixColumnsValue(ShiftRows(t)), ks, k);
  }

  /** A middle round undone, when InvMixColumns succeeds, agrees with the
    * byte-level inverse round of any state and round key the NBytes stand
    * for. */
  lemma InvRoundSound(xs: seq<bv8>, s: seq<Bits>, ks: seq<bv8>, k: seq<Bits>)
    requires |s| == 16 && |k| == 16 && AgreesAll(xs, s) && AgreesAll(ks, k)
    requires InvRoundValue(s, k).Success?
    ensures AgreesAll(Cipher.InvRound(xs, ks), InvRoundValue(s, k).value)
  {
    var u, a := Cipher.AddRoundKey(xs, ks), AddRoundKeyValue(s, k);
    AddRoundKeyStateSound(xs, s, ks, k);
    InvMixColumnsSound(u, a);
    var v, t := Cipher.InvMixColumns(u), InvMixColumnsValue(a).value;
    ShiftRowsSound(v, t);
    SBoxStateSound(InvShiftRows(v), InvShiftRows(t));
  }

  /** The initial key addition agrees with the byte-level one. */
  lemma EncryptFirstSound(p: seq<bv8>, P: seq<Bits>, ref: seq<seq<bv8>>, rks: seq<seq<Bits>>)
    requires |P| == 16 && AgreesAll(p, P) && KeyList(rks) && KeysAgree(ref, rks)
    ensures Cipher.RoundKeys(ref)
    ensures AgreesAll(Cipher.EncryptUpTo(p, ref, 1), EncryptUpTo(P, rks, 1))
  {
    AddRoundKeyStateSound(p, P, ref[0], rks[0]);
  }

  /** One more round keeps the NByte state in agreement with the byte state. */
  lemma EncryptStepSound(p: seq<bv8>, P: seq<Bits>, ref: seq<seq<bv8>>, rks: seq<seq<Bits>>, n: nat)
    requires |P| == 16 && AgreesAll(p, P) && KeyList(rks) && KeysAgree(ref, rks) && Cipher.RoundKeys(ref)
    requires 2 <= n < |rks|
    requires AgreesAll(Cipher.EncryptUpTo(p, ref, n - 1), EncryptUpTo(P, rks, n - 1))
    ensures AgreesAll(Cipher.EncryptUpTo(p, ref, n), EncryptUpTo(P, rks, n))
  {
    RoundSound(Cipher.EncryptUpTo(p, ref, n - 1), EncryptUpTo(P, rks, n - 1), ref[n - 1], rks[n - 1]);
  }

  /** After the initial key addition and rounds 1 .. n - 1 the NByte state
    * agrees with the byte state. */
  lemma EncryptUpToSound(p: seq<bv8>, P: seq<Bits>, ref: seq<seq<bv8>>, rks: seq<seq<Bits>>, n: nat)
    requires |P| == 16 && AgreesAll(p, P) && KeyList(rks) && KeysAgree(ref, rks) && 1 <= n < |rks|
    ensures Cipher.RoundKeys(ref)
    ensures AgreesAll(Cipher.EncryptUpTo(p, ref, n), EncryptUpTo(P, rks, n))
  {
    EncryptFirstSound(p, P, ref, rks);
    var i := 1;
    while i < n
      invariant 1 <= i <= n && AgreesAll(Cipher.EncryptUpTo(p, ref, i), EncryptUpTo(P, rks, i))
    {
      EncryptStepSound(p, P, ref, rks, i + 1);
      i := i + 1;
    }
    assert i == n;
  }

  /** The final round, without MixColumns, agrees with the byte-level one. */
  lemma FinalRoundSound(xs: seq<bv8>, s: seq<Bits>, ks: seq<bv8>, k: seq<Bits>)
    requires |s| == 16 && |k| == 16 && AgreesAll(xs, s) && AgreesAll(ks, k)
    ensures AgreesAll(Cipher.AddRoundKey(ShiftRows(Cipher.SubBytes(xs)), ks), AddRoundKeyValue(ShiftRows(SBoxState(s, false)), k))
  {
    SBoxStateSound(xs, s);
    ShiftRowsSound(Cipher.SubBytes(xs), SBoxState(s, false));
    AddRoundKeyStateSound(ShiftRows(Cipher.SubBytes(xs)), ShiftRows(SBoxState(s, false)), ks, k);
  }

  /** The ciphertext over NBytes agrees with the byte-level ciphertext for
    * round keys that agree. */
  lemma EncryptRoundsSound(p: seq<bv8>, P: seq<Bits>, ref: seq<seq<bv8>>, rks: seq<seq<Bits>>)
    requires |P| == 16 && AgreesAll(p, P) && KeyList(rks) && KeysAgree(ref, rks)
    ensures Cipher.RoundKeys(ref)
    ensures AgreesAll(Cipher.EncryptBlock(p, ref), EncryptRounds(P, rks))
  {
    var last := Cipher.Final(rks);
    EncryptUpToSound(p, P, ref, rks, last);
    assert last == Cipher.Final(ref) && AgreesAll(ref[last], rks[last]);
    FinalRoundSound(Cipher.EncryptUpTo(p, ref, last), EncryptUpTo(P, rks, last), ref[last], rks[last]);
  }

  /** Encrypt is sound: on a 16-NByte plaintext and a key of 4, 6 or 8 words
    * it succeeds, and each NByte of the ciphertext agrees with the FIPS-197
    * ciphertext of any plaintext and key the inputs stand for. */
  lemma EncryptSound(p: seq<bv8>, P: seq<Bits>, key: seq<bv8>, K: seq<Bits>)
    requires |P| == 16 && AgreesAll(p, P) && AgreesAll(key, K) && KeySchedule.KeyWords(|key| / 4)
    ensures EncryptValue(P, K).Success?
    ensures AgreesAll(Cipher.EncryptBlock(p, Cipher.KeyExpansion(key, |key| / 4)), EncryptValue(P, K).value)
  {
    ScheduleSound(key, K);
    ScheduleShape(K);
    EncryptRoundsSound(p, P, Cipher.KeyExpansion(key, |key| / 4), Schedule(K).value);
  }

  /** The final round undone agrees with the byte-level one. */
  lemma InvFinalRoundSound(xs: seq<bv8>, s: seq<Bits>, ks: seq<bv8>, k: seq<Bits>)
    requires |s| == 16 && |k| == 16 && AgreesAll(xs, s) && AgreesAll(ks, k)
    ensures AgreesAll(Cipher.InvSubBytes(InvShiftRows(Cipher.AddRoundKey(xs, ks))), SBoxState(InvShiftRows(AddRoundKeyValue(s, k)), true))
  {
    var u, a := Cipher.AddRoundKey(xs, ks), AddRoundKeyValue(s, k);
    AddRoundKeyStateSound(xs, s, ks, k);
    ShiftRowsSound(u, a);
    SBoxStateSound(InvShiftRows(u), InvShiftRows(a));
  }

  /** Undoing the final round of the ciphertext agrees with the byte-level
    * inverse cipher. */
  lemma DecryptLastSound(c: seq<bv8>, C: seq<Bits>, ref: seq<seq<bv8>>, rks: seq<seq<Bits>>)
    requires |C| == 16 && AgreesAll(c, C) && KeyList(rks) && KeysAgree(ref, rks)
    ensures Cipher.RoundKeys(ref) && DecryptDownTo(C, rks, Cipher.Final(rks)).Success?
    ensures AgreesAll(Cipher.DecryptDownTo(c, ref, Cipher.Final(ref)), DecryptDownTo(C, rks, Cipher.Final(rks)).value)
  {
    var last := Cipher.Final(rks);
    assert last == Cipher.Final(ref) && AgreesAll(ref[last], rks[last]);
    InvFinalRoundSound(c, C, ref[last], rks[last]);
  }

  /** When undoing down to round n succeeds, the NByte state agrees with the
    * byte state of the inverse cipher. */
  lemma {:induction false} DecryptDownToSound(c: seq<bv8>, C: seq<Bits>, ref: seq<seq<bv8>>, rks: seq<seq<Bits>>, n: nat)
    requires |C| == 16 && AgreesAll(c, C) && KeyList(rks) && KeysAgree(ref, rks) && 1 <= n < |rks|
    requires DecryptDownTo(C, rks, n).Success?
    ensures Cipher.RoundKeys(ref)
    ensures AgreesAll(Cipher.DecryptDownTo(c, ref, n), DecryptDownTo(C, rks, n).value)
    decreases |rks| - n
  {
    DecryptLastSound(c, C, ref, rks);
    if n < Cipher.Final(rks) {
      DecryptDownToSound(c, C, ref, rks, n + 1);
      InvRoundSound(Cipher.DecryptDownTo(c, ref, n + 1), DecryptDownTo(C, rks, n + 1).value, ref[n], rks[n]);
    }
  }

  /** Decrypt is sound: when it succeeds on a 16-NByte ciphertext and a key of
    * 4, 6 or 8 words, each NByte of the plaintext agrees with the FIPS-197
    * inverse cipher of any ciphertext and key the inputs stand for. */
  lemma DecryptSound(c: seq<bv8>, C: seq<Bits>, key: seq<bv8>, K: seq<Bits>)
    requires |C| == 16 && AgreesAll(c, C) && AgreesAll(key, K) && KeySchedule.KeyWords(|key| / 4)
    requires DecryptValue(C, K).Success?
    ensures AgreesAll(Cipher.DecryptBlock(c, Cipher.KeyExpansion(key, |key| / 4)), DecryptValue(C, K).value)
  {
    var ref := Cipher.KeyExpansion(key, |key| / 4);
    ScheduleSound(key, K);
    ScheduleShape(K);
    var rks := Schedule(K).value;
    DecryptDownToSound(c, C, ref, rks, 1);
    AddRoundKeyStateSound(Cipher.DecryptDownTo(c, ref, 1), DecryptDownTo(C, rks, 1).value, ref[0], rks[0]);
  }
}
