/** The ternary byte domain as values: eight bits, each carrying a Known and
  * a Value flag, index 0 being the most significant bit. A byte x lies in
  * the concretisation of an NByte t when x agrees with t on every known bit.
  * The operations of the NByte class are specified by the functions here.
  */
module Ternary {
  import opened Outcomes

  /** One ternary bit. An unknown bit still carries a Value flag, which
    * equality and hashing observe. */
  datatype NBit = NBit(value: bool, known: bool)

  /** The eight bits of an NByte, most significant first. */
  type Bits = s: seq<NBit> | |s| == 8
    witness [NBit(false, true), NBit(false, true), NBit(false, true), NBit(false, true),
             NBit(false, true), NBit(false, true), NBit(false, true), NBit(false, true)]

  // ---------------------------------------------------------------- bits of a byte

  /** The mask of bit i, that is 0x80 >> i. */
  function Mask(i: nat): bv8
    requires i < 8
  {
    if i == 0 then 0x80 else if i == 1 then 0x40 else if i == 2 then 0x20 else if i == 3 then 0x10
    else if i == 4 then 0x08 else if i == 5 then 0x04 else if i == 6 then 0x02 else 0x01
  }

  lemma MaskIsShift(i: nat)
    requires i < 8
    ensures Mask(i) == (0x80 as bv8) >> i
  {
    if i == 0 {} else if i == 1 {} else if i == 2 {} else if i == 3 {}
    else if i == 4 {} else if i == 5 {} else if i == 6 {} else {}
  }

  /** Whether bit i (0 the most significant) of x is set. */
  predicate Test(x: bv8, i: nat)
    requires i < 8
  { x & Mask(i) != 0 }

  predicate OneBit(m: bv8)
  { m == 0x80 || m == 0x40 || m == 0x20 || m == 0x10 || m == 0x08 || m == 0x04 || m == 0x02 || m == 0x01 }

  lemma MaskOneBit(i: nat)
    requires i < 8
    ensures OneBit(Mask(i))
  {}

  lemma XorOneBit(x: bv8, y: bv8, z: bv8, m: bv8)
    requires z == x ^ y && OneBit(m)
    ensures (z & m != 0) == ((x & m != 0) != (y & m != 0))
  {}

  lemma TestXor(x: bv8, y: bv8, i: nat)
    requires i < 8
    ensures Test(x ^ y, i) == (Test(x, i) != Test(y, i))
  {
    MaskOneBit(i);
    XorOneBit(x, y, x ^ y, Mask(i));
  }

  /** Two bytes with the same eight bits are equal. */
  lemma BitsDetermineByte(x: bv8, y: bv8)
    requires forall i :: 0 <= i < 8 ==> Test(x, i) == Test(y, i)
    ensures x == y
  {
    assert Test(x, 0) == Test(y, 0) && Test(x, 1) == Test(y, 1);
    assert Test(x, 2) == Test(y, 2) && Test(x, 3) == Test(y, 3);
    assert Test(x, 4) == Test(y, 4) && Test(x, 5) == Test(y, 5);
    assert Test(x, 6) == Test(y, 6) && Test(x, 7) == Test(y, 7);
  }

  lemma OrderAt0(x: bv8, y: bv8)
    requires !Test(x, 0) && Test(y, 0)
    ensures x < y
  {
  }

  lemma OrderAt1(x: bv8, y: bv8)
    requires forall j :: 0 <= j < 1 ==> Test(x, j) == Test(y, j)
    requires !Test(x, 1) && Test(y, 1)
    ensures x < y
  {
    assert Test(x, 0) == Test(y, 0);
  }

  lemma OrderAt2(x: bv8, y: bv8)
    requires forall j :: 0 <= j < 2 ==> Test(x, j) == Test(y, j)
    requires !Test(x, 2) && Test(y, 2)
    ensures x < y
  {
    assert Test(x, 0) == Test(y, 0) && Test(x, 1) == Test(y, 1);
  }

  lemma OrderAt3(x: bv8, y: bv8)
    requires forall j :: 0 <= j < 3 ==> Test(x, j) == Test(y, j)
    requires !Test(x, 3) && Test(y, 3)
    ensures x < y
  {
    assert Test(x, 0) == Test(y, 0) && Test(x, 1) == Test(y, 1) && Test(x, 2) == Test(y, 2);
  }

  lemma OrderAt4(x: bv8, y: bv8)
    requires forall j :: 0 <= j < 4 ==> Test(x, j) == Test(y, j)
    requires !Test(x, 4) && Test(y, 4)
    ensures x < y
  {
    assert Test(x, 0) == Test(y, 0) && Test(x, 1) == Test(y, 1) && Test(x, 2) == Test(y, 2) && Test(x, 3) == Test(y, 3);
  }

  lemma OrderAt5(x: bv8, y: bv8)
    requires forall j :: 0 <= j < 5 ==> Test(x, j) == Test(y, j)
    requires !Test(x, 5) && Test(y, 5)
    ensures x < y
  {
    assert Test(x, 0) == Test(y, 0) && Test(x, 1) == Test(y, 1) && Test(x, 2) == Test(y, 2) && Test(x, 3) == Test(y, 3) && Test(x, 4) == Test(y, 4);
  }

  lemma OrderAt6(x: bv8, y: bv8)
    requires forall j :: 0 <= j < 6 ==> Test(x, j) == Test(y, j)
    requires !Test(x, 6) && Test(y, 6)
    ensures x < y
  {
    assert Test(x, 0) == Test(y, 0) && Test(x, 1) == Test(y, 1) && Test(x, 2) == Test(y, 2) && Test(x, 3) == Test(y, 3) && Test(x, 4) == Test(y, 4) && Test(x, 5) == Test(y, 5);
  }

  lemma OrderAt7(x: bv8, y: bv8)
    requires forall j :: 0 <= j < 7 ==> Test(x, j) == Test(y, j)
    requires !Test(x, 7) && Test(y, 7)
    ensures x < y
  {
    assert Test(x, 0) == Test(y, 0) && Test(x, 1) == Test(y, 1) && Test(x, 2) == Test(y, 2) && Test(x, 3) == Test(y, 3) && Test(x, 4) == Test(y, 4) && Test(x, 5) == Test(y, 5) && Test(x, 6) == Test(y, 6);
  }

  /** Two bytes that agree above bit i, where x has bit i clear and y has it
    * set, are ordered. */
  lemma OrderAt(x: bv8, y: bv8, i: nat)
    requires i < 8
    requires forall j :: 0 <= j < i ==> Test(x, j) == Test(y, j)
    requires !Test(x, i) && Test(y, i)
    ensures x < y
  {
    if i == 0 { OrderAt0(x, y); }
    else if i == 1 { OrderAt1(x, y); }
    else if i == 2 { OrderAt2(x, y); }
    else if i == 3 { OrderAt3(x, y); }
    else if i == 4 { OrderAt4(x, y); }
    else if i == 5 { OrderAt5(x, y); }
    else if i == 6 { OrderAt6(x, y); }
    else { OrderAt7(x, y); }
  }

  // ---------------------------------------------------------------- NBit

  /** The NBit(char) constructor: X or x is an unknown bit (Value false),
    * 1 and 0 are known bits, anything else is an ArgumentException. */
  function ParseBit(c: char): Result<NBit>
  {
    if c == 'X' || c == 'x' then Success(NBit(false, false))
    else if c == '1' then Success(NBit(true, true))
    else if c == '0' then Success(NBit(false, true))
    else Failure(UnknownValue(c))
  }

  /** NBit.ToString. */
  function ShowBit(b: NBit): char
  { if b.known then (if b.value then '1' else '0') else 'X' }

  /** The NBit xor operator: the values are xored, and the result is known
    * when both operands are. */
  function XorBit(a: NBit, b: NBit): NBit
  { NBit(a.value != b.value, a.known && b.known) }

  /** The NBit == operator: both unknown, or equal values. */
  predicate EqBit(a: NBit, b: NBit)
  { (!a.known && !b.known) || a.value == b.value }

  /** The NBit != operator: both known with different values. */
  predicate NeqBit(a: NBit, b: NBit)
  { a.known && b.known && a.value != b.value }

  /** NBit.GetHashCode: Value in bit 0, Known in bit 1. */
  function HashBit(b: NBit): (h: int)
  { (if b.value then 1 else 0) + (if b.known then 2 else 0) }

  lemma ParseShowBit(b: NBit)
    ensures ParseBit(ShowBit(b)) == Success(if b.known then b else NBit(false, false))
  {}

  lemma ShowParseBit(c: char)
    ensures ParseBit(c).Success? <==> c in {'0', '1', 'X', 'x'}
    ensures ParseBit(c).Success? ==> ShowBit(ParseBit(c).value) == (if c == 'x' then 'X' else c)
  {}

  lemma EqBitReflexive(a: NBit)
    ensures EqBit(a, a)
  {}

  lemma NeqBitNotEq(a: NBit, b: NBit)
    ensures NeqBit(a, b) ==> !EqBit(a, b)
    ensures NeqBit(a, b) <==> a.known && b.known && !EqBit(a, b)
  {}

  /** != is not the negation of ==: a known 0 and an unknown bit whose Value
    * is set are neither equal nor different. */
  lemma NeqBitIsNotNegation()
    ensures !EqBit(NBit(false, true), NBit(true, false)) && !NeqBit(NBit(false, true), NBit(true, false))
  {}

  lemma HashBitInjective(a: NBit, b: NBit)
    ensures 0 <= HashBit(a) < 4
    ensures HashBit(a) == HashBit(b) ==> a == b
  {}

  // ---------------------------------------------------------------- bytes

  /** NByte.Set(v) and the NByte(byte) constructor: every bit known, bit i
    * taken from mask 0x80 >> i. */
  function FromByte(v: bv8): Bits
  { seq(8, i requires 0 <= i < 8 => NBit(Test(v, i), true)) }

  /** NByte.Deterministic. */
  predicate Deterministic(t: Bits)
  { forall i :: 0 <= i < 8 ==> t[i].known }

  /** The byte accumulated by the byte cast from bits 0 .. k-1: mask i is or-ed
    * in when bit i has Value set. */
  function PackUpTo(t: Bits, k: nat): bv8
    requires k <= 8
    decreases k
  { if k == 0 then 0 else PackUpTo(t, k - 1) | (if t[k - 1].value then Mask(k - 1) else 0) }

  function Pack(t: Bits): bv8
  { PackUpTo(t, 8) }

  /** The byte cast: NotFiniteNumberException on an unknown bit. */
  function ToByte(t: Bits): (r: Result<bv8>)
  { if Deterministic(t) then Success(Pack(t)) else Failure(NotFiniteNumber) }

  lemma OrOneBit(x: bv8, y: bv8, z: bv8, m: bv8)
    requires z == x | y && OneBit(m)
    ensures (z & m != 0) == ((x & m != 0) || (y & m != 0))
  {}

  lemma OrTest(x: bv8, y: bv8, z: bv8, i: nat)
    requires i < 8 && z == x | y
    ensures Test(z, i) == (Test(x, i) || Test(y, i))
  {
    MaskOneBit(i);
    OrOneBit(x, y, z, Mask(i));
  }

  /** Mask j has bit i set exactly when i == j; 0 has no bit set. */
  lemma FlagTest(b: bool, i: nat, j: nat)
    requires i < 8 && j < 8
    ensures Test(if b then Mask(j) else 0, i) == (b && i == j)
  {
    if b {
      if i == 0 {} else if i == 1 {} else if i == 2 {} else if i == 3 {}
      else if i == 4 {} else if i == 5 {} else if i == 6 {} else {}
    }
  }

  /** Bit i of the partial byte cast is the Value of bit i once i is passed. */
  lemma {:induction false} PackUpToBit(t: Bits, k: nat, i: nat)
    requires k <= 8 && i < 8
    ensures Test(PackUpTo(t, k), i) == (i < k && t[i].value)
  {
    if k > 0 {
      PackUpToBit(t, k - 1, i);
      var f: bv8 := if t[k - 1].value then Mask(k - 1) else 0;
      FlagTest(t[k - 1].value, i, k - 1);
      OrTest(PackUpTo(t, k - 1), f, PackUpTo(t, k), i);
    }
  }

  lemma PackBit(t: Bits, i: nat)
    requires i < 8
    ensures Test(Pack(t), i) == t[i].value
  {
    PackUpToBit(t, 8, i);
  }

  /** Converting a byte to an NByte and back gives the byte again. */
  lemma FromByteRoundTrip(v: bv8)
    ensures Deterministic(FromByte(v))
    ensures ToByte(FromByte(v)) == Success(v)
  {
    var t := FromByte(v);
    forall i | 0 <= i < 8
      ensures Test(Pack(t), i) == Test(v, i)
    {
      PackBit(t, i);
    }
    BitsDetermineByte(Pack(t), v);
  }

  /** A deterministic NByte is the conversion of its byte. */
  lemma ToByteRoundTrip(t: Bits)
    requires Deterministic(t)
    ensures FromByte(Pack(t)) == t
  {
    forall i | 0 <= i < 8
      ensures FromByte(Pack(t))[i] == t[i]
    {
      PackBit(t, i);
    }
  }

  /** The byte cast fails exactly when some bit is unknown. */
  lemma ToByteFails(t: Bits)
    ensures ToByte(t).Failure? <==> exists i :: 0 <= i < 8 && !t[i].known
    ensures ToByte(t).Failure? ==> ToByte(t).error == NotFiniteNumber
  {}

  // ---------------------------------------------------------------- concretisation

  /** x lies in the concretisation of t: it agrees with t on every known bit. */
  predicate Agrees(x: bv8, t: Bits)
  { forall i :: 0 <= i < 8 && t[i].known ==> Test(x, i) == t[i].value }

  /** Each byte of xs agrees with the NByte at the same position. */
  predicate AgreesAll(xs: seq<bv8>, ts: seq<Bits>)
  { |xs| == |ts| && forall i :: 0 <= i < |xs| ==> Agrees(xs[i], ts[i]) }

  /** A byte's own NByte stands for that byte alone. */
  lemma AgreesFromByte(x: bv8, v: bv8)
    ensures Agrees(x, FromByte(v)) <==> x == v
  {
    if Agrees(x, FromByte(v)) {
      BitsDetermineByte(x, v);
    }
  }

  // ---------------------------------------------------------------- xor

  /** The NByte xor operator, bit by bit. */
  function XorValue(a: Bits, b: Bits): Bits
  { seq(8, i requires 0 <= i < 8 => XorBit(a[i], b[i])) }

  /** On deterministic operands xor is byte xor. */
  lemma XorFromBytes(x: bv8, y: bv8)
    ensures XorValue(FromByte(x), FromByte(y)) == FromByte(x ^ y)
  {
    forall i | 0 <= i < 8
      ensures XorValue(FromByte(x), FromByte(y))[i] == FromByte(x ^ y)[i]
    {
      TestXor(x, y, i);
    }
  }

  /** Xor over-approximates: the xor of two concrete members is a member. */
  lemma XorSound(a: Bits, b: Bits, x: bv8, y: bv8)
    requires Agrees(x, a) && Agrees(y, b)
    ensures Agrees(x ^ y, XorValue(a, b))
  {
    forall i | 0 <= i < 8 && XorValue(a, b)[i].known
      ensures Test(x ^ y, i) == XorValue(a, b)[i].value
    {
      TestXor(x, y, i);
    }
  }

  /** A result bit of xor is known exactly when both operand bits are. */
  lemma XorKnown(a: Bits, b: Bits)
    ensures Deterministic(XorValue(a, b)) <==> Deterministic(a) && Deterministic(b)
  {
    if Deterministic(XorValue(a, b)) {
      forall i | 0 <= i < 8
        ensures a[i].known && b[i].known
      {
        assert XorValue(a, b)[i].known;
      }
    }
  }

  // ---------------------------------------------------------------- enumeration

  /** The number of unknown bits among t[k..]. */
  function CountFrom(t: seq<NBit>, k: nat): nat
    requires k <= |t|
    decreases |t| - k
  { if k == |t| then 0 else (if t[k].known then 0 else 1) + CountFrom(t, k + 1) }

  function UnknownCount(t: Bits): nat
  { CountFrom(t, 0) }

  function Pow2(n: nat): (p: nat)
  { if n == 0 then 1 else 2 * Pow2(n - 1) }

  lemma {:induction false} CountUpdate(t: seq<NBit>, i: nat, b: NBit, k: nat)
    requires i < |t| && !t[i].known && b.known && k <= |t|
    ensures CountFrom(t[i := b], k) == CountFrom(t, k) - (if k <= i then 1 else 0)
    decreases |t| - k
  {
    if k < |t| {
      CountUpdate(t, i, b, k + 1);
    }
  }

  lemma {:induction false} CountZero(t: seq<NBit>, k: nat)
    requires k <= |t|
    ensures CountFrom(t, k) == 0 <==> forall j :: k <= j < |t| ==> t[j].known
    decreases |t| - k
  {
    if k < |t| {
      CountZero(t, k + 1);
    }
  }

  /** t with bit i made known with value b, as PossibleValues does to its copy. */
  function Assign(t: Bits, i: nat, b: bool): Bits
    requires i < 8
  { t[i := NBit(b, true)] }

  /** The first unknown bit at or after k. */
  function FirstUnknownFrom(t: Bits, k: nat): (i: nat)
    requires k <= 8 && exists j :: k <= j < 8 && !t[j].known
    ensures k <= i < 8 && !t[i].known && forall j :: k <= j < i ==> t[j].known
    decreases 8 - k
  { if !t[k].known then k else FirstUnknownFrom(t, k + 1) }

  lemma {:induction false} FirstUnknownAt(t: Bits, k: nat, i: nat)
    requires k <= i < 8 && !t[i].known && forall j :: k <= j < i ==> t[j].known
    ensures FirstUnknownFrom(t, k) == i
    decreases i - k
  {
    if k < i {
      FirstUnknownAt(t, k + 1, i);
    }
  }

  /** The first unknown bit is the one every earlier bit of which is known. */
  lemma FirstUnknownUnique(t: Bits, i: nat)
    requires i < 8 && !t[i].known && forall j :: 0 <= j < i ==> t[j].known
    ensures FirstUnknownFrom(t, 0) == i
  {
    FirstUnknownAt(t, 0, i);
  }

  /** NByte.PossibleValues: a deterministic NByte gives its byte; otherwise the
    * first unknown bit is set to a known 0, then to a known 1, and the two
    * enumerations are concatenated. */
  function Enum(t: Bits): seq<bv8>
    decreases UnknownCount(t)
  {
    if Deterministic(t) then [Pack(t)]
    else
      var i := FirstUnknownFrom(t, 0);
      CountUpdate(t, i, NBit(false, true), 0);
      CountUpdate(t, i, NBit(true, true), 0);
      Enum(Assign(t, i, false)) + Enum(Assign(t, i, true))
  }

  lemma DeterministicCount(t: Bits)
    ensures Deterministic(t) <==> UnknownCount(t) == 0
  {
    CountZero(t, 0);
  }

  /** PossibleValues returns 2^k bytes for k unknown bits. */
  lemma {:induction false} EnumLength(t: Bits)
    ensures |Enum(t)| == Pow2(UnknownCount(t))
    decreases UnknownCount(t)
  {
    DeterministicCount(t);
    if !Deterministic(t) {
      var i := FirstUnknownFrom(t, 0);
      CountUpdate(t, i, NBit(false, true), 0);
      CountUpdate(t, i, NBit(true, true), 0);
      EnumLength(Assign(t, i, false));
      EnumLength(Assign(t, i, true));
      assert Enum(t) == Enum(Assign(t, i, false)) + Enum(Assign(t, i, true));
      assert Pow2(UnknownCount(t)) == 2 * Pow2(UnknownCount(t) - 1);
    }
  }

  lemma {:induction false} Pow2Positive(n: nat)
    ensures Pow2(n) >= 1
  {
    if n > 0 {
      Pow2Positive(n - 1);
    }
  }

  lemma EnumNonEmpty(t: Bits)
    ensures |Enum(t)| >= 1
  {
    EnumLength(t);
    Pow2Positive(UnknownCount(t));
  }

  /** Every enumerated byte agrees with the known bits. */
  lemma {:induction false} EnumSound(t: Bits, x: bv8)
    requires x in Enum(t)
    ensures Agrees(x, t)
    decreases UnknownCount(t)
  {
    if Deterministic(t) {
      forall i | 0 <= i < 8
        ensures Test(x, i) == t[i].value
      {
        PackBit(t, i);
      }
    } else {
      var i := FirstUnknownFrom(t, 0);
      CountUpdate(t, i, NBit(false, true), 0);
      CountUpdate(t, i, NBit(true, true), 0);
      if x in Enum(Assign(t, i, false)) {
        EnumSound(Assign(t, i, false), x);
      } else {
        EnumSound(Assign(t, i, true), x);
      }
    }
  }

  /** Every byte that agrees with the known bits is enumerated. */
  lemma {:induction false} EnumComplete(t: Bits, x: bv8)
    requires Agrees(x, t)
    ensures x in Enum(t)
    decreases UnknownCount(t)
  {
    if Deterministic(t) {
      forall i | 0 <= i < 8
        ensures Test(x, i) == Test(Pack(t), i)
      {
        PackBit(t, i);
      }
      BitsDetermineByte(x, Pack(t));
    } else {
      var i := FirstUnknownFrom(t, 0);
      CountUpdate(t, i, NBit(false, true), 0);
      CountUpdate(t, i, NBit(true, true), 0);
      var b := Test(x, i);
      assert Agrees(x, Assign(t, i, b));
      EnumComplete(Assign(t, i, b), x);
    }
  }

  /** PossibleValues enumerates exactly the concretisation. */
  lemma EnumExact(t: Bits, x: bv8)
    ensures x in Enum(t) <==> Agrees(x, t)
  {
    if x in Enum(t) {
      EnumSound(t, x);
    }
    if Agrees(x, t) {
      EnumComplete(t, x);
    }
  }

  predicate StrictlyAscending(s: seq<bv8>)
  { forall p, q :: 0 <= p < q < |s| ==> s[p] < s[q] }

  lemma AscendingConcat(u: seq<bv8>, v: seq<bv8>)
    requires StrictlyAscending(u) && StrictlyAscending(v)
    requires forall p, q :: 0 <= p < |u| && 0 <= q < |v| ==> u[p] < v[q]
    ensures StrictlyAscending(u + v)
  {
    forall p, q | 0 <= p < q < |u + v|
      ensures (u + v)[p] < (u + v)[q]
    {
      if q < |u| {
      } else if p >= |u| {
        assert (u + v)[p] == v[p - |u|] && (u + v)[q] == v[q - |u|];
      } else {
        assert (u + v)[p] == u[p] && (u + v)[q] == v[q - |u|];
      }
    }
  }

  /** PossibleValues lists its bytes in strictly ascending order. */
  lemma {:induction false} EnumAscending(t: Bits)
    ensures StrictlyAscending(Enum(t))
    decreases UnknownCount(t)
  {
    if !Deterministic(t) {
      var i := FirstUnknownFrom(t, 0);
      CountUpdate(t, i, NBit(false, true), 0);
      CountUpdate(t, i, NBit(true, true), 0);
      var lo, hi := Enum(Assign(t, i, false)), Enum(Assign(t, i, true));
      EnumAscending(Assign(t, i, false));
      EnumAscending(Assign(t, i, true));
      forall p, q | 0 <= p < |lo| && 0 <= q < |hi|
        ensures lo[p] < hi[q]
      {
        EnumSound(Assign(t, i, false), lo[p]);
        EnumSound(Assign(t, i, true), hi[q]);
        forall j | 0 <= j < i
          ensures Test(lo[p], j) == Test(hi[q], j)
        {
          assert Assign(t, i, false)[j] == t[j] == Assign(t, i, true)[j];
        }
        assert Assign(t, i, false)[i] == NBit(false, true);
        assert Assign(t, i, true)[i] == NBit(true, true);
        OrderAt(lo[p], hi[q], i);
      }
      AscendingConcat(lo, hi);
    }
  }

  // ---------------------------------------------------------------- join

  /** One bit of NByte.Join: a known bit becomes unknown unless the other bit
    * is known with the same value; the Value flag is never touched. */
  function JoinBit(a: NBit, o: NBit): NBit
  {
    if !a.known then a
    else if !o.known || o.value != a.value then NBit(a.value, false)
    else a
  }

  /** NByte.Join, bit by bit. */
  function JoinValue(t: Bits, o: Bits): Bits
  { seq(8, i requires 0 <= i < 8 => JoinBit(t[i], o[i])) }

  /** Join keeps a bit known exactly when both sides know the same value. */
  lemma JoinKnown(t: Bits, o: Bits, i: nat)
    requires i < 8
    ensures JoinValue(t, o)[i].known <==> t[i].known && o[i].known && o[i].value == t[i].value
    ensures JoinValue(t, o)[i].value == t[i].value
  {}

  /** Join widens: both sides' concretisations are kept. */
  lemma JoinSound(t: Bits, o: Bits, x: bv8)
    requires Agrees(x, t) || Agrees(x, o)
    ensures Agrees(x, JoinValue(t, o))
  {
    forall i | 0 <= i < 8 && JoinValue(t, o)[i].known
      ensures Test(x, i) == JoinValue(t, o)[i].value
    {
      JoinKnown(t, o, i);
    }
  }

  /** Joining with an identical copy changes nothing. */
  lemma JoinSelf(t: Bits)
    ensures JoinValue(t, t) == t
  {
    assert forall i :: 0 <= i < 8 ==> JoinValue(t, t)[i] == t[i];
  }

  /** The left fold of Join over rs, starting from acc. */
  function JoinAll(acc: Bits, rs: seq<Bits>): Bits
    decreases |rs|
  { if |rs| == 0 then acc else JoinValue(JoinAll(acc, rs[..|rs| - 1]), rs[|rs| - 1]) }

  /** A bit of a fold of Joins is known exactly when every joined NByte knows
    * it with the starting value; the value is the starting one. */
  lemma {:induction false} JoinAllKnown(acc: Bits, rs: seq<Bits>, i: nat)
    requires i < 8
    ensures JoinAll(acc, rs)[i].value == acc[i].value
    ensures JoinAll(acc, rs)[i].known <==>
      acc[i].known && forall j :: 0 <= j < |rs| ==> rs[j][i].known && rs[j][i].value == acc[i].value
    decreases |rs|
  {
    if |rs| > 0 {
      var front := rs[..|rs| - 1];
      JoinAllKnown(acc, front, i);
      JoinKnown(JoinAll(acc, front), rs[|rs| - 1], i);
      assert forall j :: 0 <= j < |front| ==> front[j] == rs[j];
    }
  }

  /** A fold of Joins keeps the concretisation of every joined NByte. */
  lemma JoinAllSound(acc: Bits, rs: seq<Bits>, x: bv8)
    requires Agrees(x, acc) || exists j :: 0 <= j < |rs| && Agrees(x, rs[j])
    ensures Agrees(x, JoinAll(acc, rs))
  {
    forall i | 0 <= i < 8 && JoinAll(acc, rs)[i].known
      ensures Test(x, i) == JoinAll(acc, rs)[i].value
    {
      JoinAllKnown(acc, rs, i);
    }
  }

  // ---------------------------------------------------------------- lookup

  /** The table entries PossibleValues selects, in enumeration order. */
  function Selected(t: Bits, table: seq<Bits>): (rs: seq<Bits>)
    requires |table| == 256
  {
    var idx := Enum(t);
    seq(|idx|, j requires 0 <= j < |idx| => table[idx[j]])
  }

  /** NByte.Lookup: a copy of the first selected entry, joined with every
    * selected entry in turn. */
  function LookupValue(t: Bits, table: seq<Bits>): Bits
    requires |table| == 256
  {
    EnumNonEmpty(t);
    JoinAll(Selected(t, table)[0], Selected(t, table))
  }

  /** Lookup over-approximates: for every byte x of t, the concretisation of
    * table[x] is kept. */
  lemma LookupSound(t: Bits, table: seq<Bits>, x: bv8, y: bv8)
    requires |table| == 256
    requires Agrees(x, t) && Agrees(y, table[x])
    ensures Agrees(y, LookupValue(t, table))
  {
    EnumNonEmpty(t);
    EnumComplete(t, x);
    var idx := Enum(t);
    var j :| 0 <= j < |idx| && idx[j] == x;
    assert Selected(t, table)[j] == table[x];
    JoinAllSound(Selected(t, table)[0], Selected(t, table), y);
  }

  /** A bit of a lookup is known exactly when the entries of every byte of t
    * know it with the same value. */
  lemma LookupKnown(t: Bits, table: seq<Bits>, i: nat)
    requires |table| == 256 && i < 8
    ensures LookupValue(t, table)[i].known <==>
      forall x: bv8 :: Agrees(x, t) ==> table[x][i].known && table[x][i].value == LookupValue(t, table)[i].value
  {
    EnumNonEmpty(t);
    var rs := Selected(t, table);
    var idx := Enum(t);
    JoinAllKnown(rs[0], rs, i);
    var r := LookupValue(t, table);
    if r[i].known {
      forall x: bv8 | Agrees(x, t)
        ensures table[x][i].known && table[x][i].value == r[i].value
      {
        EnumComplete(t, x);
        var j :| 0 <= j < |idx| && idx[j] == x;
        assert rs[j] == table[x];
      }
    } else if forall x: bv8 :: Agrees(x, t) ==> table[x][i].known && table[x][i].value == r[i].value {
      forall j | 0 <= j < |rs|
        ensures rs[j][i].known && rs[j][i].value == rs[0][i].value
      {
        EnumSound(t, idx[j]);
        EnumSound(t, idx[0]);
      }
      assert false;
    }
  }

  /** A lookup of a known byte is that entry of the table. */
  lemma LookupDeterministic(t: Bits, table: seq<Bits>)
    requires |table| == 256 && Deterministic(t)
    ensures LookupValue(t, table) == table[Pack(t)]
  {
    var rs := Selected(t, table);
    assert Enum(t) == [Pack(t)];
    assert rs == [table[Pack(t)]];
    assert rs[..0] == [];
    assert JoinAll(rs[0], rs) == JoinValue(rs[0], rs[0]);
    JoinSelf(table[Pack(t)]);
  }

  // ---------------------------------------------------------------- strings

  /** The bits parsed from s[k..], or the exception for the first bad char. */
  function ParseFrom(s: string, k: nat): (r: Result<seq<NBit>>)
    requires k <= |s|
    ensures r.Success? ==> |r.value| == |s| - k
    decreases |s| - k
  {
    if k == |s| then Success([])
    else match ParseBit(s[k])
      case Failure(e) => Failure(e)
      case Success(b) =>
        match ParseFrom(s, k + 1)
        case Failure(e) => Failure(e)
        case Success(rest) => Success([b] + rest)
  }

  /** The NByte(string) constructor. */
  function Parse(s: string): Result<Bits>
  {
    if |s| != 8 then Failure(IncorrectLength(|s|))
    else match ParseFrom(s, 0)
      case Failure(e) => Failure(e)
      case Success(bits) => var t: Bits := bits; Success(t)
  }

  /** NByte.ToString. */
  function Show(t: Bits): string
  { seq(8, i requires 0 <= i < 8 => ShowBit(t[i])) }

  predicate TernaryChar(c: char)
  { c == '0' || c == '1' || c == 'X' || c == 'x' }

  lemma {:induction false} ParseFromSpec(s: string, k: nat)
    requires k <= |s|
    ensures ParseFrom(s, k).Success? <==> forall j :: k <= j < |s| ==> TernaryChar(s[j])
    ensures ParseFrom(s, k).Success? ==>
      forall j :: k <= j < |s| ==> ParseFrom(s, k).value[j - k] == ParseBit(s[j]).value
    ensures ParseFrom(s, k).Failure? ==> exists j :: k <= j < |s| && ParseFrom(s, k).error == UnknownValue(s[j]) && !TernaryChar(s[j])
    decreases |s| - k
  {
    if k < |s| {
      ParseFromSpec(s, k + 1);
    }
  }

  lemma {:induction false} ParseFromFirstBad(s: string, m: nat, k: nat)
    requires m <= k < |s| && !TernaryChar(s[k]) && forall j :: m <= j < k ==> TernaryChar(s[j])
    ensures ParseFrom(s, m) == Failure(UnknownValue(s[k]))
    decreases k - m
  {
    if m < k {
      ParseFromFirstBad(s, m + 1, k);
    }
  }

  /** The string constructor reports the first character that is not 0, 1,
    * X or x. */
  lemma ParseFirstBad(s: string, k: nat)
    requires |s| == 8 && k < 8 && !TernaryChar(s[k]) && forall j :: 0 <= j < k ==> TernaryChar(s[j])
    ensures Parse(s) == Failure(UnknownValue(s[k]))
  {
    ParseFromFirstBad(s, 0, k);
  }

  /** The string constructor succeeds exactly on eight characters over
    * 0, 1, X and x, and fails with the matching exception otherwise. */
  lemma ParseSpec(s: string)
    ensures Parse(s).Success? <==> |s| == 8 && forall j :: 0 <= j < |s| ==> TernaryChar(s[j])
    ensures |s| != 8 ==> Parse(s) == Failure(IncorrectLength(|s|))
    ensures |s| == 8 && Parse(s).Failure? ==> exists j :: 0 <= j < 8 && Parse(s).error == UnknownValue(s[j]) && !TernaryChar(s[j])
  {
    ParseFromSpec(s, 0);
  }

  /** ToString writes eight characters over 0, 1 and X. */
  lemma ShowChars(t: Bits)
    ensures |Show(t)| == 8 && forall j :: 0 <= j < 8 ==> Show(t)[j] in {'0', '1', 'X'}
  {}

  /** A string over 0, 1 and X survives a parse and a ToString. */
  lemma ShowParse(s: string)
    requires |s| == 8 && forall j :: 0 <= j < 8 ==> s[j] in {'0', '1', 'X'}
    ensures Parse(s).Success? && Show(Parse(s).value) == s
  {
    ParseFromSpec(s, 0);
    assert forall j :: 0 <= j < 8 ==> Show(Parse(s).value)[j] == s[j];
  }

  /** ToString then parse keeps every known bit and resets the Value of an
    * unknown bit to false. */
  lemma ParseShow(t: Bits)
    ensures Parse(Show(t)).Success?
    ensures forall j :: 0 <= j < 8 ==> Parse(Show(t)).value[j] == (if t[j].known then t[j] else NBit(false, false))
  {
    var s := Show(t);
    ParseFromSpec(s, 0);
    forall j | 0 <= j < 8
      ensures TernaryChar(s[j])
    {
      assert s[j] == ShowBit(t[j]);
    }
    var r := ParseFrom(s, 0);
    assert Parse(s).value == r.value;
    forall j | 0 <= j < 8
      ensures Parse(s).value[j] == (if t[j].known then t[j] else NBit(false, false))
    {
      assert s[j] == ShowBit(t[j]);
      assert r.value[j - 0] == ParseBit(s[j]).value;
      ParseShowBit(t[j]);
    }
  }

  // ---------------------------------------------------------------- equality and hashing

  /** The NByte == operator: bitwise NBit ==. */
  predicate Equal(a: Bits, b: Bits)
  { forall i :: 0 <= i < 8 ==> EqBit(a[i], b[i]) }

  /** On known bytes, NByte == is byte equality. */
  lemma EqualFromBytes(x: bv8, y: bv8)
    ensures Equal(FromByte(x), FromByte(y)) <==> x == y
  {
    if Equal(FromByte(x), FromByte(y)) {
      forall i | 0 <= i < 8
        ensures Test(x, i) == Test(y, i)
      {
        assert EqBit(FromByte(x)[i], FromByte(y)[i]);
      }
      BitsDetermineByte(x, y);
    }
  }

  /** GetHashCode over bits 0 .. k-1: shift left by two, or in the bit hash. */
  function HashUpTo(t: Bits, k: nat): int
    requires k <= 8
    decreases k
  { if k == 0 then 0 else HashUpTo(t, k - 1) * 4 + HashBit(t[k - 1]) }

  function Hash(t: Bits): int
  { HashUpTo(t, 8) }

  function Pow4(k: nat): nat
  { if k == 0 then 1 else 4 * Pow4(k - 1) }

  lemma {:induction false} HashUpToBound(t: Bits, k: nat)
    requires k <= 8
    ensures 0 <= HashUpTo(t, k) < Pow4(k)
  {
    if k > 0 {
      HashUpToBound(t, k - 1);
      HashBitInjective(t[k - 1], t[k - 1]);
    }
  }

  lemma {:induction false} HashUpToInjective(a: Bits, b: Bits, k: nat)
    requires k <= 8
    requires HashUpTo(a, k) == HashUpTo(b, k)
    ensures a[..k] == b[..k]
  {
    if k > 0 {
      HashUpToBound(a, k - 1);
      HashUpToBound(b, k - 1);
      HashBitInjective(a[k - 1], b[k - 1]);
      HashBitInjective(b[k - 1], a[k - 1]);
      HashUpToInjective(a, b, k - 1);
      assert a[..k] == a[..k - 1] + [a[k - 1]];
      assert b[..k] == b[..k - 1] + [b[k - 1]];
    }
  }

  /** The hash of an NByte lies below 2^16 and determines the NByte. */
  lemma HashInjective(a: Bits, b: Bits)
    ensures 0 <= Hash(a) < 0x1_0000
    ensures Hash(a) == Hash(b) ==> a == b
  {
    HashUpToBound(a, 8);
    if Hash(a) == Hash(b) {
      HashUpToInjective(a, b, 8);
      assert a == a[..8] && b == b[..8];
    }
  }

  /** Reading a 32-bit pattern as a two's complement int. */
  function Int32(n: int): int
    requires 0 <= n < 0x1_0000_0000
  { if n < 0x8000_0000 then n else n - 0x1_0000_0000 }

  /** The GMul cache key (a.GetHashCode() << 16) | b.GetHashCode(): the low
    * sixteen bits of the shifted hash are zero, so the or is an addition, and
    * the shift wraps around into the sign bit. */
  function LookupKey(a: Bits, b: Bits): int
  {
    HashInjective(a, b);
    HashInjective(b, a);
    Int32(Hash(a) * 0x1_0000 + Hash(b))
  }

  /** Different pairs of operands never share a cache key. */
  lemma LookupKeyInjective(a: Bits, b: Bits, c: Bits, d: Bits)
    ensures LookupKey(a, b) == LookupKey(c, d) ==> a == c && b == d
  {
    HashInjective(a, c);
    HashInjective(b, d);
    HashInjective(c, a);
    HashInjective(d, b);
  }

  // ---------------------------------------------------------------- sequences

  /** The NBytes of a byte sequence, each fully known. */
  function Lift(s: seq<bv8>): (r: seq<Bits>)
    ensures |r| == |s| && forall i :: 0 <= i < |s| ==> r[i] == FromByte(s[i])
  { seq(|s|, i requires 0 <= i < |s| => FromByte(s[i])) }

  /** A byte sequence agrees with its own NBytes. */
  lemma AgreesLift(s: seq<bv8>)
    ensures AgreesAll(s, Lift(s))
  {
    forall i | 0 <= i < |s|
      ensures Agrees(s[i], Lift(s)[i])
    {
      AgreesFromByte(s[i], s[i]);
    }
  }

  /** A slice of agreeing sequences agrees. */
  lemma AgreesSlice(xs: seq<bv8>, ts: seq<Bits>, lo: nat, hi: nat)
    requires AgreesAll(xs, ts) && lo <= hi <= |xs|
    ensures AgreesAll(xs[lo..hi], ts[lo..hi])
  {
    forall j | 0 <= j < hi - lo
      ensures Agrees(xs[lo..hi][j], ts[lo..hi][j])
    {
      assert xs[lo..hi][j] == xs[lo + j] && ts[lo..hi][j] == ts[lo + j];
    }
  }

  lemma LiftConcat(s: seq<bv8>, t: seq<bv8>)
    ensures Lift(s + t) == Lift(s) + Lift(t)
  {
    assert forall i :: 0 <= i < |s + t| ==> Lift(s + t)[i] == (Lift(s) + Lift(t))[i];
  }

  lemma LiftSlice(s: seq<bv8>, i: nat, j: nat)
    requires i <= j <= |s|
    ensures Lift(s[i..j]) == Lift(s)[i..j]
  {
    assert forall k :: 0 <= k < j - i ==> Lift(s[i..j])[k] == Lift(s)[i..j][k];
  }

  /** A lifted word, entry by entry. */
  lemma LiftFour(v: seq<bv8>)
    requires |v| == 4
    ensures Lift(v) == [FromByte(v[0]), FromByte(v[1]), FromByte(v[2]), FromByte(v[3])]
  {}
}
