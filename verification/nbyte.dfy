/** The NByte class: eight NBits in an array, updated in place by Set, Join
  * and PossibleValues' working copy. Each method is proved against the value
  * functions of the Ternary module. NBit objects are never shared between
  * NBytes, so an NBit is stored in the array as a value and an in-place
  * change of its Known flag is an update of its array slot.
  */
module NBytes {
  import opened Outcomes
  import opened Ternary

  class NByte {
    const bits: array<NBit>

    predicate Valid()
    { bits.Length == 8 }

    /** The bits of this NByte as a value. */
    function Contents(): Bits
      requires Valid()
      reads bits
    { bits[..] }

    /** Set(val): bit i becomes known, with Value (val & (0x80 >> i)) != 0. */
    method Set(val: bv8)
      requires Valid()
      modifies bits
      ensures Contents() == FromByte(val)
    {
      for i := 0 to 8
        invariant forall j :: 0 <= j < i ==> bits[j] == NBit(Test(val, j), true)
      {
        var mask := (0x80 as bv8) >> i;
        MaskIsShift(i);
        bits[i] := NBit(val & mask != 0, true);
      }
    }

    /** NByte(byte val). */
    constructor OfByte(val: bv8)
      ensures Valid() && fresh(bits)
      ensures Contents() == FromByte(val)
    {
      bits := new NBit[8](_ => NBit(false, true));
      new;
      Set(val);
    }

    /** NByte(): Set(0). */
    constructor ()
      ensures Valid() && fresh(bits)
      ensures Contents() == FromByte(0)
    {
      bits := new NBit[8](_ => NBit(false, true));
      new;
      Set(0);
    }

    /** NByte(NByte other): a bit-by-bit copy. */
    constructor Copy(other: NByte)
      requires other.Valid()
      ensures Valid() && fresh(bits)
      ensures Contents() == other.Contents()
    {
      bits := new NBit[8](_ => NBit(false, true));
      new;
      for i := 0 to 8
        invariant forall j :: 0 <= j < i ==> bits[j] == other.bits[j]
      {
        bits[i] := other.bits[i];
      }
    }

    /** NByte(string): ArgumentException for a length other than 8 or for the
      * first character that is not 0, 1, X or x. */
    static method Parse(str: string) returns (r: Result<NByte>)
      ensures Ternary.Parse(str).Failure? ==> r == Failure(Ternary.Parse(str).error)
      ensures Ternary.Parse(str).Success? ==>
        r.Success? && fresh(r.value) && fresh(r.value.bits) && r.value.Valid() && r.value.Contents() == Ternary.Parse(str).value
    {
      ParseFromSpec(str, 0);
      if |str| != 8 {
        return Failure(IncorrectLength(|str|));
      }
      var n := new NByte();
      for i := 0 to 8
        invariant fresh(n.bits) && n.Valid()
        invariant forall j :: 0 <= j < i ==> TernaryChar(str[j]) && n.bits[j] == ParseBit(str[j]).value
      {
        var b := ParseBit(str[i]);
        if b.Failure? {
          ParseFirstBad(str, i);
          return Failure(b.error);
        }
        n.bits[i] := b.value;
      }
      return Success(n);
    }

    /** Deterministic(): whether every bit is known. */
    method IsDeterministic() returns (d: bool)
      requires Valid()
      ensures d == Deterministic(Contents())
    {
      for i := 0 to 8
        invariant forall j :: 0 <= j < i ==> bits[j].known
      {
        if !bits[i].known {
          return false;
        }
      }
      return true;
    }

    /** The byte cast: NotFiniteNumberException on an unknown bit, otherwise
      * mask 0x80 >> i is or-ed in for every bit i whose Value is set. */
    method ToByte() returns (r: Result<bv8>)
      requires Valid()
      ensures r == Ternary.ToByte(Contents())
    {
      var d := IsDeterministic();
      if !d {
        return Failure(NotFiniteNumber);
      }
      var val: bv8 := 0;
      for i := 0 to 8
        invariant val == PackUpTo(Contents(), i)
      {
        var mask := (0x80 as bv8) >> i;
        MaskIsShift(i);
        if bits[i].value {
          val := val | mask;
        }
      }
      return Success(val);
    }

    /** The int cast goes through the byte cast. */
    method ToInt() returns (r: Result<int>)
      requires Valid()
      ensures r.Success? <==> Deterministic(Contents())
      ensures r.Success? ==> r.value == Pack(Contents()) as int && 0 <= r.value < 256
      ensures r.Failure? ==> r.error == NotFiniteNumber
    {
      ToByteFails(Contents());
      var b :- ToByte();
      return Success(b as int);
    }

    /** The cast from int keeps the low eight bits. */
    static method FromInt(n: int) returns (r: NByte)
      ensures fresh(r) && fresh(r.bits) && r.Valid()
      ensures r.Contents() == FromByte((n % 256) as bv8)
    {
      r := new NByte.OfByte((n % 256) as bv8);
    }

    /** The xor operator: a fresh NByte() whose bits are the NBit xors. */
    static method Xor(a: NByte, b: NByte) returns (res: NByte)
      requires a.Valid() && b.Valid()
      ensures fresh(res) && fresh(res.bits) && res.Valid()
      ensures res.Contents() == XorValue(a.Contents(), b.Contents())
    {
      res := new NByte();
      for i := 0 to 8
        invariant forall j :: 0 <= j < i ==> res.bits[j] == XorBit(a.bits[j], b.bits[j])
      {
        res.bits[i] := XorBit(a.bits[i], b.bits[i]);
      }
    }

    /** PossibleValues(): the byte of a deterministic NByte; otherwise a copy
      * whose first unknown bit is set to a known 0 and then to a known 1, each
      * enumerated in turn. The receiver is not modified. */
    method PossibleValues() returns (r: seq<bv8>)
      requires Valid()
      ensures r == Enum(Contents())
      decreases UnknownCount(Contents())
    {
      var d := IsDeterministic();
      if d {
        var b := ToByte();
        return [b.value];
      }
      var val := new NByte.Copy(this);
      var i := 0;
      while val.bits[i].known
        invariant 0 <= i < 8
        invariant forall j :: 0 <= j < i ==> bits[j].known
        invariant exists j :: i <= j < 8 && !bits[j].known
        decreases 8 - i
      {
        i := i + 1;
      }
      var t := Contents();
      assert i == FirstUnknownFrom(t, 0) by {
        FirstUnknownUnique(t, i);
      }
      CountUpdate(t, i, NBit(false, true), 0);
      CountUpdate(t, i, NBit(true, true), 0);
      val.bits[i] := NBit(false, true);
      assert val.Contents() == Assign(t, i, false);
      var low := val.PossibleValues();
      val.bits[i] := NBit(true, true);
      assert val.Contents() == Assign(t, i, true);
      var high := val.PossibleValues();
      return low + high;
    }

    /** Join(other): a known bit of this becomes unknown unless other knows it
      * with the same value. Only Known flags of this change. */
    method Join(other: NByte)
      requires Valid() && other.Valid()
      modifies bits
      ensures Contents() == JoinValue(old(Contents()), old(other.Contents()))
    {
      for i := 0 to 8
        invariant forall j :: 0 <= j < i ==> bits[j] == JoinBit(old(bits[j]), old(other.bits[j]))
        invariant forall j :: i <= j < 8 ==> bits[j] == old(bits[j]) && other.bits[j] == old(other.bits[j])
      {
        if !bits[i].known {
          continue;
        }
        if !other.bits[i].known || other.bits[i].value != bits[i].value {
          bits[i] := NBit(bits[i].value, false);
        }
      }
    }

    /** Join(byte other) joins with a fresh NByte(other). */
    method JoinByte(other: bv8)
      requires Valid()
      modifies bits
      ensures Contents() == JoinValue(old(Contents()), FromByte(other))
    {
      var o := new NByte.OfByte(other);
      Join(o);
    }

    /** Lookup(table): the table entries of every possible value, folded with
      * Join into a copy of the first one. */
    method Lookup(table: seq<NByte>) returns (res: NByte)
      requires Valid() && |table| == 256 && forall k :: 0 <= k < 256 ==> table[k].Valid()
      ensures fresh(res) && fresh(res.bits) && res.Valid()
      ensures res.Contents() == LookupValue(old(Contents()), old(Entries(table)))
    {
      var indexes := PossibleValues();
      EnumNonEmpty(Contents());
      var results: seq<NByte> := [];
      for i := 0 to |indexes|
        invariant results == seq(i, j requires 0 <= j < i => table[indexes[j]])
      {
        results := results + [table[indexes[i]]];
      }
      assert Entries(results) == Selected(Contents(), Entries(table));
      res := JoinEntries(results);
    }

    /** The fold of Lookup: a copy of the first entry joined with every entry. */
    static method JoinEntries(results: seq<NByte>) returns (res: NByte)
      requires |results| > 0 && forall j :: 0 <= j < |results| ==> results[j].Valid()
      ensures fresh(res) && fresh(res.bits) && res.Valid()
      ensures res.Contents() == JoinAll(old(results[0].Contents()), old(Entries(results)))
    {
      ghost var rs := Entries(results);
      res := new NByte.Copy(results[0]);
      for i := 0 to |results|
        invariant fresh(res.bits) && res.Valid()
        invariant res.Contents() == JoinAll(rs[0], rs[..i])
      {
        assert rs[..i + 1][..i] == rs[..i];
        res.Join(results[i]);
      }
      assert rs[..|results|] == rs;
    }

    /** The == operator: the NBit == operator on every pair of bits. */
    method Equals(other: NByte) returns (e: bool)
      requires Valid() && other.Valid()
      ensures e == Ternary.Equal(Contents(), other.Contents())
    {
      for i := 0 to 8
        invariant forall j :: 0 <= j < i ==> EqBit(bits[j], other.bits[j])
      {
        if !EqBit(bits[i], other.bits[i]) {
          return false;
        }
      }
      return true;
    }

    /** ToString(): the NBit strings, most significant first. */
    method ToString() returns (s: string)
      requires Valid()
      ensures s == Show(Contents())
    {
      s := "";
      for i := 0 to 8
        invariant s == Show(Contents())[..i]
      {
        s := s + [ShowBit(bits[i])];
      }
    }

    /** GetHashCode(): for each bit, shift left by two and or in the NBit
      * hash; the shifted value has its two low bits clear, so the or adds. */
    method GetHashCode() returns (h: int)
      requires Valid()
      ensures h == Hash(Contents())
    {
      h := 0;
      for i := 0 to 8
        invariant h == HashUpTo(Contents(), i)
      {
        h := h * 4 + HashBit(bits[i]);
      }
    }
  }

  /** The bits of every NByte of a table. */
  function Entries(table: seq<NByte>): (es: seq<Bits>)
    requires forall k :: 0 <= k < |table| ==> table[k].Valid()
    reads set k | 0 <= k < |table| :: table[k].bits
    ensures |es| == |table|
  { seq(|table|, k requires 0 <= k < |table| reads set j | 0 <= j < |table| :: table[j].bits => table[k].Contents()) }
}
