/** GenRoundKeys over NBytes: the key is cut into N words, N = key length / 4,
  * the word array W of 4 * R words is filled by the recurrence of
  * section 5.2 of FIPS-197 (R = 11, 13 or 15 for N = 4, 6 or 8), and W is cut
  * into R round keys of 16 NBytes. Any other N is rejected. The recurrence itself is the
  * one of KeySchedule, over the NByte operations.
  */
module AesKeys {
  import opened Outcomes
  import opened Ternary
  import opened AesRounds
  import opened KeySchedule
  import Cipher

  /** The NByte operations of GenRoundKeys: the forward S-box, the NByte xor,
    * and the round constants as known NBytes. */
  const Ops: ByteOps<Bits> := ByteOps(b => SBoxValue(b, false), XorValue, Lift(Rcon))

  /** The result of GenRoundKeys(key). */
  function Schedule(key: seq<Bits>): Result<seq<seq<Bits>>>
  {
    var nk := |key| / 4;
    if !KeyWords(nk) then Failure(KeyOfUnknownSize)
    else Success(KeyExpansion(Ops, key, nk))
  }

  // ---------------------------------------------------------------- the method

  /** SetWord(i, word): positions 4 * i .. 4 * i + 3 of W receive the word. */
  method SetWord<T>(W: array<T>, i: nat, word: seq<T>)
    requires 4 * i + 4 <= W.Length && |word| == 4
    modifies W
    ensures W[..4 * i + 4] == old(W[..4 * i]) + word
    ensures forall k :: 4 * i + 4 <= k < W.Length ==> W[k] == old(W[k])
  {
    W[4 * i] := word[0];
    W[4 * i + 1] := word[1];
    W[4 * i + 2] := word[2];
    W[4 * i + 3] := word[3];
    assert W[..4 * i + 4] == old(W[..4 * i]) + word;
  }

  /** The key words K[0 .. N - 1]. */
  method KeyWordsOf<T>(key: seq<T>) returns (K: seq<seq<T>>)
    ensures |K| == |key| / 4
    ensures forall i :: 0 <= i < |K| ==> K[i] == key[4 * i..4 * i + 4]
  {
    K := [];
    for i := 0 to |key| / 4
      invariant |K| == i
      invariant forall j :: 0 <= j < i ==> K[j] == key[4 * j..4 * j + 4]
    {
      K := K + [[key[i * 4 + 0], key[i * 4 + 1], key[i * 4 + 2], key[i * 4 + 3]]];
    }
  }

  /** The body of the filling loop: word i from the key words K or from
    * words i - N and i - 1 of w, the words filled so far. */
  method NewWord<T>(ops: ByteOps<T>, key: seq<T>, nk: nat, K: seq<seq<T>>, w: seq<T>, i: nat) returns (word: seq<T>)
    requires |ops.rcon| == 11 && KeyWords(nk) && |key| >= 4 * nk && |K| == nk
    requires forall j :: 0 <= j < nk ==> K[j] == key[4 * j..4 * j + 4]
    requires i < 4 * RoundCount(nk) && |w| == 4 * i
    ensures word == NextWord(ops, key, nk, w, i)
  {
    if i < nk {
      word := K[i];
    } else if WordMod(i, nk) == 0 {
      RconIndex(i, nk);
      word := XorRcon(ops, XorWord(ops, Word(w, i - nk), SubWord(ops, RotWord(Word(w, i - 1)))), WordDiv(i, nk));
    } else if nk > 6 && WordMod(i, nk) == 4 {
      word := XorWord(ops, Word(w, i - nk), SubWord(ops, Word(w, i - 1)));
    } else {
      word := XorWord(ops, Word(w, i - nk), Word(w, i - 1));
    }
  }

  /** Words 0 .. 4 * R - 1 filled into W, each from the words before it. */
  method FillWords<T>(ops: ByteOps<T>, key: seq<T>, nk: nat, K: seq<seq<T>>, W: array<T>)
    requires |ops.rcon| == 11 && KeyWords(nk) && |key| >= 4 * nk && |K| == nk
    requires forall i :: 0 <= i < nk ==> K[i] == key[4 * i..4 * i + 4]
    requires W.Length == 16 * RoundCount(nk)
    modifies W
    ensures W[..] == ExpandUpTo(ops, key, nk, 4 * RoundCount(nk))
  {
    var n := 4 * RoundCount(nk);
    var i := 0;
    while i < n
      invariant i <= n
      invariant W[..4 * i] == ExpandUpTo(ops, key, nk, i)
    {
      FillWord(ops, key, nk, K, W, i);
      i := i + 1;
    }
    assert W[..] == W[..4 * n];
  }

  /** One iteration of the filling loop: word i appended to words 0 .. i - 1. */
  method FillWord<T>(ops: ByteOps<T>, key: seq<T>, nk: nat, K: seq<seq<T>>, W: array<T>, i: nat)
    requires |ops.rcon| == 11 && KeyWords(nk) && |key| >= 4 * nk && |K| == nk
    requires forall j :: 0 <= j < nk ==> K[j] == key[4 * j..4 * j + 4]
    requires W.Length == 16 * RoundCount(nk) && i < 4 * RoundCount(nk)
    requires W[..4 * i] == ExpandUpTo(ops, key, nk, i)
    modifies W
    ensures W[..4 * (i + 1)] == ExpandUpTo(ops, key, nk, i + 1)
  {
    var word := NewWord(ops, key, nk, K, W[..4 * i], i);
    SetWord(W, i, word);
    ExpandNext(ops, key, nk, i);
  }

  /** Round key i: a fresh array of 16 NBytes copied from W. */
  method CopyRoundKey(W: array<Bits>, i: nat) returns (rk: seq<Bits>)
    requires 16 * i + 16 <= W.Length
    ensures rk == W[16 * i..16 * i + 16]
  {
    var row := new Bits[16];
    for j := 0 to 16
      invariant row[..j] == W[i * 16..i * 16 + j]
    {
      row[j] := W[i * 16 + j];
    }
    assert row[..] == row[..16];
    rk := row[..];
  }

  /** W cut into R round keys. */
  method CutRoundKeys(W: array<Bits>, R: nat) returns (rks: seq<seq<Bits>>)
    requires W.Length == 16 * R
    ensures rks == Split(W[..], R)
  {
    rks := [];
    for i := 0 to R
      invariant rks == Split(W[..], R)[..i]
    {
      var rk := CopyRoundKey(W, i);
      assert Split(W[..], R)[..i + 1] == Split(W[..], R)[..i] + [rk];
      rks := rks + [rk];
    }
  }

  /** GenRoundKeys(key): the key schedule, or KeyOfUnknownSize when the key is
    * not 4, 6 or 8 words long. */
  method GenRoundKeys(key: seq<Bits>) returns (r: Result<seq<seq<Bits>>>)
    ensures r == Schedule(key)
  {
    var nk := |key| / 4;
    var K := KeyWordsOf(key);
    var R: nat;
    if nk == 4 {
      R := 11;
    } else if nk == 6 {
      R := 13;
    } else if nk == 8 {
      R := 15;
    } else {
      return Failure(KeyOfUnknownSize);
    }
    var W := new Bits[R * 4 * 4];
    FillWords(Ops, key, nk, K, W);
    var rks := CutRoundKeys(W, R);
    return Success(rks);
  }

  // ---------------------------------------------------------------- properties

  /** A key is accepted exactly when its length is 16 .. 19, 24 .. 27 or
    * 32 .. 35 bytes; the schedule then has 11, 13 or 15 round keys of 16
    * NBytes each. */
  lemma ScheduleShape(key: seq<Bits>)
    ensures Schedule(key).Success? <==> 16 <= |key| < 20 || 24 <= |key| < 28 || 32 <= |key| < 36
    ensures Schedule(key).Failure? ==> Schedule(key).error == KeyOfUnknownSize
    ensures Schedule(key).Success? ==>
      var rks := Schedule(key).value;
      (|rks| == 11 || |rks| == 13 || |rks| == 15) &&
      |rks| == |key| / 4 + 7 &&
      forall r :: 0 <= r < |rks| ==> |rks[r]| == 16
  {
  }

  /** The first round key of an accepted key is its first 16 NBytes. */
  lemma ScheduleFirstKey(key: seq<Bits>)
    requires Schedule(key).Success?
    ensures Schedule(key).value[0] == key[0..16]
  {
    FirstRoundKey(Ops, key, |key| / 4);
  }

  // ---------------------------------------------------------------- known keys

  /** Every round key lifted to NBytes. */
  function LiftKeys(rks: seq<seq<bv8>>): (r: seq<seq<Bits>>)
    ensures |r| == |rks| && forall j :: 0 <= j < |rks| ==> r[j] == Lift(rks[j])
  { seq(|rks|, j requires 0 <= j < |rks| => Lift(rks[j])) }

  lemma LiftIsMap(s: seq<bv8>)
    ensures Lift(s) == Map(FromByte, s)
  {}

  lemma LiftKeysIsMap(rks: seq<seq<bv8>>)
    ensures LiftKeys(rks) == MapKeys(FromByte, rks)
  {
    forall j | 0 <= j < |rks|
      ensures LiftKeys(rks)[j] == MapKeys(FromByte, rks)[j]
    {
      LiftIsMap(rks[j]);
    }
  }

  /** A known byte stays known through the S-box, xor and the round
    * constants: FromByte carries the byte operations to the NByte ones. */
  lemma OpsCarry()
    ensures Carries(FromByte, Cipher.Bytes, Ops)
  {
    forall x: bv8
      ensures Ops.sbox(FromByte(x)) == FromByte(Cipher.Bytes.sbox(x))
    {
      SBoxKnown(x, false);
    }
    forall x: bv8, y: bv8
      ensures Ops.xor(FromByte(x), FromByte(y)) == FromByte(Cipher.Bytes.xor(x, y))
    {
      XorFromBytes(x, y);
    }
  }

  /** On a known key of 4, 6 or 8 words the schedule is the byte-level key
    * expansion of FIPS-197. */
  lemma ScheduleLift(key: seq<bv8>)
    requires KeyWords(|key| / 4)
    ensures Schedule(Lift(key)) == Success(LiftKeys(Cipher.KeyExpansion(key, |key| / 4)))
  {
    var nk := |key| / 4;
    assert |Lift(key)| / 4 == nk;
    OpsCarry();
    LiftIsMap(key);
    KeyExpansionMap(FromByte, Cipher.Bytes, Ops, key, nk);
    LiftKeysIsMap(Cipher.KeyExpansion(key, nk));
  }

  // ---------------------------------------------------------------- soundness

  /** Agreement of a byte with an NByte, as a relation. */
  const Agree: (bv8, Bits) -> bool := (x: bv8, t: Bits) => Agrees(x, t)

  lemma AgreeRelated(xs: seq<bv8>, ts: seq<Bits>)
    ensures AgreesAll(xs, ts) <==> Related(Agree, xs, ts)
  {
    assert forall i :: 0 <= i < |xs| && i < |ts| ==> Agree(xs[i], ts[i]) == Agrees(xs[i], ts[i]);
  }

  /** The NByte S-box, xor and round constants agree with the byte ones. */
  lemma OpsRespect()
    ensures Respects(Agree, Cipher.Bytes, Ops)
  {
    forall x: bv8, y: Bits | Agree(x, y)
      ensures Agree(Cipher.Bytes.sbox(x), Ops.sbox(y))
    {
      SBoxSound(y, x, false);
    }
    forall x1: bv8, y1: Bits, x2: bv8, y2: Bits | Agree(x1, y1) && Agree(x2, y2)
      ensures Agree(Cipher.Bytes.xor(x1, x2), Ops.xor(y1, y2))
    {
      XorSound(y1, y2, x1, x2);
    }
    forall j | 0 <= j < 11
      ensures Agree(Cipher.Bytes.rcon[j], Ops.rcon[j])
    {
      AgreesFromByte(Rcon[j], Rcon[j]);
    }
  }

  /** Every round key of the byte-level expansion of key agrees with the
    * round key at the same position of the NByte schedule. */
  predicate KeysAgree(ref: seq<seq<bv8>>, rks: seq<seq<Bits>>)
  { |ref| == |rks| && forall r :: 0 <= r < |rks| ==> AgreesAll(ref[r], rks[r]) }

  /** GenRoundKeys is sound: on an NByte key of 4, 6 or 8 words it succeeds,
    * and its round keys agree with the FIPS-197 round keys of any byte key
    * the NByte key stands for. */
  lemma ScheduleSound(key: seq<bv8>, K: seq<Bits>)
    requires AgreesAll(key, K) && KeyWords(|key| / 4)
    ensures Schedule(K).Success?
    ensures KeysAgree(Cipher.KeyExpansion(key, |key| / 4), Schedule(K).value)
  {
    var nk := |key| / 4;
    OpsRespect();
    AgreeRelated(key, K);
    KeyExpansionRelated(Agree, Cipher.Bytes, Ops, key, K, nk);
    var ref, rks := Cipher.KeyExpansion(key, nk), KeyExpansion(Ops, K, nk);
    forall r | 0 <= r < |rks|
      ensures AgreesAll(ref[r], rks[r])
    {
      AgreeRelated(ref[r], rks[r]);
    }
  }
}
