/** GMul over NBytes: every pair of possible values of the operands is
  * multiplied through the byte table, and the products are joined into one
  * NByte. Results are memoised under the operands' combined hash, and the
  * byte table is filled on first use.
  */
module AesGMul {
  import opened Outcomes
  import opened Ternary
  import opened GaloisField

  /** The products x * y for y in ys, in order. */
  function Row(x: bv8, ys: seq<bv8>): (r: seq<bv8>)
    ensures |r| == |ys| && forall j :: 0 <= j < |ys| ==> r[j] == Mul(x, ys[j])
  { seq(|ys|, j requires 0 <= j < |ys| => Mul(x, ys[j])) }

  /** The products of the nested enumeration: x over xs outside, y over ys
    * inside. */
  function PairProducts(xs: seq<bv8>, ys: seq<bv8>): (ps: seq<bv8>)
    ensures |ps| == |xs| * |ys|
    decreases |xs|
  {
    if |xs| == 0 then [] else PairProducts(xs[..|xs| - 1], ys) + Row(xs[|xs| - 1], ys)
  }

  /** The running result of the enumeration: null before the first product,
    * then the first product joined with every product so far. */
  function Folded(ps: seq<bv8>): Option<Bits>
  {
    if |ps| == 0 then None else Some(JoinAll(FromByte(ps[0]), Lift(ps)))
  }

  /** The result of GMul(a, b). */
  function GMulValue(a: Bits, b: Bits): Bits
  {
    var ps := PairProducts(Enum(a), Enum(b));
    EnumNonEmpty(a);
    EnumNonEmpty(b);
    JoinAll(FromByte(ps[0]), Lift(ps))
  }

  /** One step of the enumeration: the first product is taken as it is, every
    * later one is joined in. */
  lemma FoldedSnoc(ps: seq<bv8>, p: bv8)
    ensures Folded(ps + [p]) == if |ps| == 0 then Some(FromByte(p)) else Some(JoinValue(Folded(ps).value, FromByte(p)))
  {
    var ks := Lift(ps + [p]);
    assert ks[..|ps|] == Lift(ps);
    if |ps| == 0 {
      assert JoinAll(FromByte(p), ks) == JoinValue(FromByte(p), FromByte(p));
      JoinSelf(FromByte(p));
    }
  }

  lemma PairProductsSnoc(xs: seq<bv8>, ys: seq<bv8>, i: nat)
    requires i < |xs|
    ensures PairProducts(xs[..i + 1], ys) == PairProducts(xs[..i], ys) + Row(xs[i], ys)
  {
    assert xs[..i + 1][..i] == xs[..i];
  }

  /** Every product of a pair in xs and ys occurs in PairProducts(xs, ys). */
  lemma {:induction false} PairProductsComplete(xs: seq<bv8>, ys: seq<bv8>, i: nat, j: nat)
    requires i < |xs| && j < |ys|
    ensures exists k :: 0 <= k < |PairProducts(xs, ys)| && PairProducts(xs, ys)[k] == Mul(xs[i], ys[j])
    decreases |xs|
  {
    var front := xs[..|xs| - 1];
    var ps := PairProducts(xs, ys);
    if i == |xs| - 1 {
      var k := |PairProducts(front, ys)| + j;
      assert ps[k] == Row(xs[i], ys)[j];
    } else {
      PairProductsComplete(front, ys, i, j);
      var k :| 0 <= k < |PairProducts(front, ys)| && PairProducts(front, ys)[k] == Mul(front[i], ys[j]);
      assert ps[k] == PairProducts(front, ys)[k];
    }
  }

  /** GMul over-approximates: for every byte x of a and y of b, the product
    * x * y is a byte of the result. */
  lemma GMulSound(a: Bits, b: Bits, x: bv8, y: bv8)
    requires Agrees(x, a) && Agrees(y, b)
    ensures Agrees(Mul(x, y), GMulValue(a, b))
  {
    var xs, ys := Enum(a), Enum(b);
    EnumNonEmpty(a);
    EnumNonEmpty(b);
    EnumComplete(a, x);
    EnumComplete(b, y);
    var i :| 0 <= i < |xs| && xs[i] == x;
    var j :| 0 <= j < |ys| && ys[j] == y;
    PairProductsComplete(xs, ys, i, j);
    var ps := PairProducts(xs, ys);
    var k :| 0 <= k < |ps| && ps[k] == Mul(x, y);
    AgreesFromByte(Mul(x, y), Mul(x, y));
    assert Agrees(Mul(x, y), Lift(ps)[k]);
    JoinAllSound(FromByte(ps[0]), Lift(ps), Mul(x, y));
  }

  /** On known operands GMul is the field product. */
  lemma GMulKnown(c: bv8, v: bv8)
    ensures GMulValue(FromByte(c), FromByte(v)) == FromByte(Mul(c, v))
  {
    FromByteRoundTrip(c);
    FromByteRoundTrip(v);
    var xs, ys := Enum(FromByte(c)), Enum(FromByte(v));
    assert xs == [c] && ys == [v];
    assert xs[..0] == [];
    var ps := PairProducts(xs, ys);
    assert ps == [Mul(c, v)];
    assert Lift(ps)[..0] == [];
    assert JoinAll(FromByte(ps[0]), Lift(ps)) == JoinValue(FromByte(ps[0]), FromByte(ps[0]));
    JoinSelf(FromByte(Mul(c, v)));
  }

  /** Every entry the cache had before is still there, unchanged. */
  predicate CacheKept(before: map<int, Bits>, after: map<int, Bits>)
  {
    forall k :: k in before ==> k in after && after[k] == before[k]
  }

  lemma CacheKeptTrans(c0: map<int, Bits>, c1: map<int, Bits>, c2: map<int, Bits>)
    requires CacheKept(c0, c1) && CacheKept(c1, c2)
    ensures CacheKept(c0, c2)
  {}

  /** Holds the multiplication table, filled on first use, and the cache of
    * GMul results keyed by the operands' combined hash. */
  class GMulMemo {
    var table: array2?<bv8>
    var cache: map<int, Bits>

    /** A filled table holds every field product, and every cached entry is
      * the GMul of the operands its key belongs to. */
    ghost predicate Valid()
      reads this, table
    {
      (table != null ==>
        table.Length0 == 256 && table.Length1 == 256 &&
        forall x, y :: 0 <= x < 256 && 0 <= y < 256 ==> table[x, y] == MulAt(x, y)) &&
      forall a: Bits, b: Bits :: LookupKey(a, b) in cache ==> cache[LookupKey(a, b)] == GMulValue(a, b)
    }

    /** The table starts unfilled and the cache empty. */
    constructor ()
      ensures Valid() && table == null && cache == map[]
    {
      table := null;
      cache := map[];
    }

    /** GMul(a, b): the cached result if there is one; otherwise, with the
      * table filled if it was not, the enumerated products, which are then
      * cached. */
    method GMul(a: Bits, b: Bits) returns (r: Bits)
      requires Valid()
      modifies this
      ensures Valid()
      ensures r == GMulValue(a, b)
      ensures cache == old(cache)[LookupKey(a, b) := r]
      ensures CacheKept(old(cache), cache)
      ensures old(table) != null || LookupKey(a, b) in old(cache) ==> table == old(table)
    {
      var key := LookupKey(a, b);
      if key in cache {
        return cache[key];
      }
      if table == null {
        table := FillGMulTable();
      }
      r := Enumerate(table, a, b);
      cache := cache[key := r];
      forall c: Bits, d: Bits | LookupKey(c, d) in cache
        ensures cache[LookupKey(c, d)] == GMulValue(c, d)
      {
        LookupKeyInjective(a, b, c, d);
      }
    }
  }

  /** P + R[..j + 1] extends P + R[..j] by R[j]. */
  lemma ExtendSlice<T>(p: seq<T>, r: seq<T>, j: nat)
    requires j < |r|
    ensures p + r[..j + 1] == (p + r[..j]) + [r[j]]
  {
    assert r[..j + 1] == r[..j] + [r[j]];
  }

  /** Taking or joining in the next product of a row extends the fold. */
  lemma FoldStep(ps: seq<bv8>, row: seq<bv8>, j: nat)
    requires j < |row|
    ensures Folded(ps + row[..j + 1]) ==
      if Folded(ps + row[..j]).None? then Some(FromByte(row[j]))
      else Some(JoinValue(Folded(ps + row[..j]).value, FromByte(row[j])))
  {
    ExtendSlice(ps, row, j);
    FoldedSnoc(ps + row[..j], row[j]);
  }

  /** The inner enumeration of GMul: the products of x with every possible
    * value in ys, each taken or joined into the running result. */
  method JoinRow(products: array2<bv8>, x: bv8, ys: seq<bv8>, ghost ps: seq<bv8>, res0: Option<Bits>)
    returns (res: Option<Bits>)
    requires products.Length0 == 256 && products.Length1 == 256
    requires forall x, y :: 0 <= x < 256 && 0 <= y < 256 ==> products[x, y] == MulAt(x, y)
    requires res0 == Folded(ps)
    ensures res == Folded(ps + Row(x, ys))
  {
    res := res0;
    assert ps + Row(x, ys)[..0] == ps;
    for j := 0 to |ys|
      invariant res == Folded(ps + Row(x, ys)[..j])
    {
      var p := products[x as int, ys[j] as int];
      FoldStep(ps, Row(x, ys), j);
      if res.None? {
        res := Some(FromByte(p));
      } else {
        res := Some(JoinValue(res.value, FromByte(p)));
      }
    }
    assert Row(x, ys)[..|ys|] == Row(x, ys);
  }

  /** The miss path of GMul: for every possible value of a, for every possible
    * value of b, the table product is taken as the result if there is none
    * yet and joined into it otherwise. */
  method Enumerate(products: array2<bv8>, a: Bits, b: Bits) returns (r: Bits)
    requires products.Length0 == 256 && products.Length1 == 256
    requires forall x, y :: 0 <= x < 256 && 0 <= y < 256 ==> products[x, y] == MulAt(x, y)
    ensures r == GMulValue(a, b)
  {
    var xs := Enum(a);
    var ys := Enum(b);
    var res: Option<Bits> := None;
    for i := 0 to |xs|
      invariant res == Folded(PairProducts(xs[..i], ys))
    {
      PairProductsSnoc(xs, ys, i);
      res := JoinRow(products, xs[i], ys, PairProducts(xs[..i], ys), res);
    }
    assert xs[..|xs|] == xs;
    EnumNonEmpty(a);
    EnumNonEmpty(b);
    r := res.value;
  }
}
