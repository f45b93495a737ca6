/** The round transforms of the AES engine over NBytes: the S-box lookups,
  * ShiftRows, AddRoundKey, and MixColumns with its memoised multiplier. A
  * state is a sequence of NByte values; each transform reads its input and
  * builds a new state in a loop, and is proved against a function on values.
  * Each transform is also shown to agree with the byte-level cipher on fully
  * known states.
  */
module AesRounds {
  import opened Outcomes
  import opened Ternary
  import opened GaloisField
  import opened MatrixAlgebra
  import opened SBoxTables
  import opened StateLayout
  import Cipher

  // ---------------------------------------------------------------- S-box

  /** The S-box (or inverse S-box) table as NBytes, each built from its byte
    * by the implicit byte conversion. */
  function SBoxTable(inverse: bool): (box: seq<Bits>)
    ensures |box| == 256
    ensures forall x: bv8 :: box[x] == FromByte(if inverse then InvSubByte(x) else SubByte(x))
  { seq(256, i requires 0 <= i < 256 => FromByte(if inverse then InvSubByte(i as bv8) else SubByte(i as bv8))) }

  /** SBox(holder, inverse): holder.Lookup(box). */
  function SBoxValue(holder: Bits, inverse: bool): Bits
  { LookupValue(holder, SBoxTable(inverse)) }

  /** On a known byte v the S-box gives the known byte box[v]. */
  lemma SBoxKnown(v: bv8, inverse: bool)
    ensures SBoxValue(FromByte(v), inverse) == FromByte(if inverse then InvSubByte(v) else SubByte(v))
  {
    FromByteRoundTrip(v);
    LookupDeterministic(FromByte(v), SBoxTable(inverse));
  }

  /** For every byte x of holder, box[x] is a byte of the result. */
  lemma SBoxSound(holder: Bits, x: bv8, inverse: bool)
    requires Agrees(x, holder)
    ensures Agrees(if inverse then InvSubByte(x) else SubByte(x), SBoxValue(holder, inverse))
  {
    var y := if inverse then InvSubByte(x) else SubByte(x);
    AgreesFromByte(y, y);
    LookupSound(holder, SBoxTable(inverse), x, y);
  }

  /** The inverse S-box undoes the S-box on known bytes. */
  lemma InvSBoxSBox(v: bv8)
    ensures SBoxValue(SBoxValue(FromByte(v), false), true) == FromByte(v)
  {
    SBoxKnown(v, false);
    SBoxKnown(SubByte(v), true);
    InvSubByteOfSubByte(v);
  }

  /** SBox(state) and InvSBox(state): the S-box of every NByte. */
  function SBoxState(s: seq<Bits>, inverse: bool): (r: seq<Bits>)
    ensures |r| == |s| && forall i :: 0 <= i < |s| ==> r[i] == SBoxValue(s[i], inverse)
  { seq(|s|, i requires 0 <= i < |s| => SBoxValue(s[i], inverse)) }

  method SBox(state: seq<Bits>, inverse: bool) returns (res: seq<Bits>)
    ensures res == SBoxState(state, inverse)
  {
    var a := new Bits[|state|];
    for i := 0 to |state|
      invariant forall j :: 0 <= j < i ==> a[j] == SBoxValue(state[j], inverse)
    {
      a[i] := SBoxValue(state[i], inverse);
    }
    res := a[..];
  }

  /** Each byte of the S-box state agrees with SubBytes (and the inverse
    * S-box state with InvSubBytes) of any state the input stands for. */
  lemma SBoxStateSound(xs: seq<bv8>, s: seq<Bits>)
    requires AgreesAll(xs, s)
    ensures AgreesAll(Cipher.SubBytes(xs), SBoxState(s, false))
    ensures AgreesAll(Cipher.InvSubBytes(xs), SBoxState(s, true))
  {
    forall i | 0 <= i < |xs|
      ensures Agrees(Cipher.SubBytes(xs)[i], SBoxState(s, false)[i])
      ensures Agrees(Cipher.InvSubBytes(xs)[i], SBoxState(s, true)[i])
    {
      SBoxSound(s[i], xs[i], false);
      SBoxSound(s[i], xs[i], true);
    }
  }

  /** On a known state the S-box transforms are SubBytes and InvSubBytes. */
  lemma SBoxStateLift(s: seq<bv8>)
    ensures SBoxState(Lift(s), false) == Lift(Cipher.SubBytes(s))
    ensures SBoxState(Lift(s), true) == Lift(Cipher.InvSubBytes(s))
  {
    forall i | 0 <= i < |s|
      ensures SBoxState(Lift(s), false)[i] == Lift(Cipher.SubBytes(s))[i]
      ensures SBoxState(Lift(s), true)[i] == Lift(Cipher.InvSubBytes(s))[i]
    {
      SBoxKnown(s[i], false);
      SBoxKnown(s[i], true);
    }
  }

  // ---------------------------------------------------------------- ShiftRows

  /** ShiftRows(state): res[4 * i + j] is state[((j + i) % 4) * 4 + j]. */
  method ShiftRowsState(state: seq<Bits>) returns (res: seq<Bits>)
    requires |state| == 16
    ensures res == ShiftRows(state)
  {
    var a := new Bits[16];
    for i := 0 to 4
      invariant forall k :: 0 <= k < 4 * i ==> a[k] == ShiftRows(state)[k]
    {
      for j := 0 to 4
        invariant forall k :: 0 <= k < 4 * i + j ==> a[k] == ShiftRows(state)[k]
      {
        ShiftRowsAt(state, i, j);
        a[i * 4 + j] := state[((j + i) % 4) * 4 + j];
      }
    }
    res := a[..];
  }

  lemma InvShiftSourceAt(i: nat, j: nat)
    requires i < 4 && j < 4
    ensures 0 <= ((j + i) % 4) * 4 + j < 16 && InvShiftSource[((j + i) % 4) * 4 + j] == i * 4 + j
  {
    if i == 0 {
      if j == 0 {} else if j == 1 {} else if j == 2 {} else {}
    } else if i == 1 {
      if j == 0 {} else if j == 1 {} else if j == 2 {} else {}
    } else if i == 2 {
      if j == 0 {} else if j == 1 {} else if j == 2 {} else {}
    } else {
      if j == 0 {} else if j == 1 {} else if j == 2 {} else {}
    }
  }

  /** InvShiftRows(state): state[4 * i + j] goes to res[((j + i) % 4) * 4 + j].
    * The loop visits the sources in order, so after source 4 * i + j every
    * position whose source comes earlier has been written. */
  method InvShiftRowsState(state: seq<Bits>) returns (res: seq<Bits>)
    requires |state| == 16
    ensures res == InvShiftRows(state)
  {
    var a := new Bits[16];
    for i := 0 to 4
      invariant forall k :: 0 <= k < 16 && InvShiftSource[k] < 4 * i ==> a[k] == InvShiftRows(state)[k]
    {
      for j := 0 to 4
        invariant forall k :: 0 <= k < 16 && InvShiftSource[k] < 4 * i + j ==> a[k] == InvShiftRows(state)[k]
      {
        InvShiftSourceAt(i, j);
        InvShiftRowsAt(state, i, j);
        a[((j + i) % 4) * 4 + j] := state[i * 4 + j];
      }
    }
    res := a[..];
  }

  lemma ShiftRowsLift(s: seq<bv8>)
    requires |s| == 16
    ensures ShiftRows(Lift(s)) == Lift(ShiftRows(s))
  {
    forall k | 0 <= k < 16
      ensures ShiftRows(Lift(s))[k] == Lift(ShiftRows(s))[k]
    {
      ShiftRowsIndex(Lift(s), k);
      ShiftRowsIndex(s, k);
    }
  }

  /** ShiftRows and InvShiftRows move each NByte with the byte it stands for. */
  lemma ShiftRowsSound(xs: seq<bv8>, s: seq<Bits>)
    requires |s| == 16 && AgreesAll(xs, s)
    ensures AgreesAll(ShiftRows(xs), ShiftRows(s)) && AgreesAll(InvShiftRows(xs), InvShiftRows(s))
  {
    forall k | 0 <= k < 16
      ensures Agrees(ShiftRows(xs)[k], ShiftRows(s)[k]) && Agrees(InvShiftRows(xs)[k], InvShiftRows(s)[k])
    {
      ShiftRowsIndex(xs, k);
      ShiftRowsIndex(s, k);
    }
  }

  lemma InvShiftRowsLift(s: seq<bv8>)
    requires |s| == 16
    ensures InvShiftRows(Lift(s)) == Lift(InvShiftRows(s))
  {
    forall k | 0 <= k < 16
      ensures InvShiftRows(Lift(s))[k] == Lift(InvShiftRows(s))[k]
    {
      ShiftRowsIndex(Lift(s), k);
      ShiftRowsIndex(s, k);
    }
  }

  // ---------------------------------------------------------------- AddRoundKey

  /** AddRoundKey: the NByte xor of each state byte with the round key byte. */
  function AddRoundKeyValue(s: seq<Bits>, k: seq<Bits>): (r: seq<Bits>)
    requires |s| <= |k|
    ensures |r| == |s| && forall i :: 0 <= i < |s| ==> r[i] == XorValue(s[i], k[i])
  { seq(|s|, i requires 0 <= i < |s| => XorValue(s[i], k[i])) }

  method AddRoundKey(state: seq<Bits>, roundKey: seq<Bits>) returns (res: seq<Bits>)
    requires |state| <= |roundKey|
    ensures res == AddRoundKeyValue(state, roundKey)
  {
    var a := new Bits[|state|];
    for i := 0 to |state|
      invariant forall j :: 0 <= j < i ==> a[j] == XorValue(state[j], roundKey[j])
    {
      a[i] := XorValue(state[i], roundKey[i]);
    }
    res := a[..];
  }

  /** On known bytes AddRoundKey is the byte-level one. */
  lemma AddRoundKeyLift(s: seq<bv8>, k: seq<bv8>)
    requires |s| <= |k|
    ensures AddRoundKeyValue(Lift(s), Lift(k)) == Lift(Cipher.AddRoundKey(s, k))
  {
    forall i | 0 <= i < |s|
      ensures AddRoundKeyValue(Lift(s), Lift(k))[i] == Lift(Cipher.AddRoundKey(s, k))[i]
    {
      XorFromBytes(s[i], k[i]);
    }
  }

  /** Every byte x ^ y with x of s[i] and y of k[i] is a byte of the result. */
  lemma AddRoundKeySound(s: seq<Bits>, k: seq<Bits>, i: nat, x: bv8, y: bv8)
    requires |s| <= |k| && i < |s| && Agrees(x, s[i]) && Agrees(y, k[i])
    ensures Agrees(x ^ y, AddRoundKeyValue(s, k)[i])
  {
    XorSound(s[i], k[i], x, y);
  }

  /** AddRoundKey of a state and a key agrees with the byte-level AddRoundKey
    * of any state and key they stand for. */
  lemma AddRoundKeyStateSound(xs: seq<bv8>, s: seq<Bits>, ks: seq<bv8>, k: seq<Bits>)
    requires AgreesAll(xs, s) && AgreesAll(ks, k) && |s| <= |k|
    ensures AgreesAll(Cipher.AddRoundKey(xs, ks), AddRoundKeyValue(s, k))
  {
    forall i | 0 <= i < |s|
      ensures Agrees(Cipher.AddRoundKey(xs, ks)[i], AddRoundKeyValue(s, k)[i])
    {
      AddRoundKeySound(s, k, i, xs[i], ks[i]);
    }
  }
}
