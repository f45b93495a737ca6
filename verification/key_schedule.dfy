/** The key expansion of section 5.2 of FIPS-197 as GenRoundKeys computes it,
  * written once for any byte type. GenRoundKeys touches its bytes only
  * through the S-box, the xor operator and the table of round constants, so
  * those three are given here as a ByteOps value: the byte-level cipher
  * supplies the FIPS-197 operations on bytes, the ternary engine those on
  * NBytes. The shape of the schedule (which word is read from where, and
  * which round constant is used) is proved here once. KeyExpansionRelated
  * carries the whole schedule from one byte type to another along any
  * relation that the three operations respect, and KeyExpansionMap does the
  * same along a map.
  */
module KeySchedule {

  /** The byte operations the key expansion is built from. */
  datatype ByteOps<!T> = ByteOps(sbox: T -> T, xor: (T, T) -> T, rcon: seq<T>)

  /** The round constants of GenRoundKeys, indexed by i / N; entry 0 is a
    * placeholder that is never read. */
  const Rcon: seq<bv8> := [0xFF, 0x01, 0x02, 0x04, 0x08, 0x10, 0x20, 0x40, 0x80, 0x1B, 0x36]

  /** Key lengths of 4, 6 and 8 words. */
  predicate KeyWords(nk: nat)
  { nk == 4 || nk == 6 || nk == 8 }

  /** 11, 13 and 15 round keys for keys of 4, 6 and 8 words. */
  function RoundCount(nk: nat): (r: nat)
    requires KeyWords(nk)
    ensures r == nk + 7 && (r == 11 || r == 13 || r == 15)
  { if nk == 4 then 11 else if nk == 6 then 13 else 15 }

  /** i % nk and i / nk by repeated subtraction, which keeps the schedule free
    * of division by a variable; WordDivMod shows they are the remainder and
    * the quotient. */
  function WordMod(i: nat, nk: nat): (r: nat)
    requires nk > 0
    ensures r < nk
  { if i < nk then i else WordMod(i - nk, nk) }

  function WordDiv(i: nat, nk: nat): nat
    requires nk > 0
  { if i < nk then 0 else WordDiv(i - nk, nk) + 1 }

  lemma {:induction false} WordDivMod4(i: nat)
    ensures WordMod(i, 4) == i % 4 && WordDiv(i, 4) == i / 4
  {
    if i >= 4 {
      WordDivMod4(i - 4);
    }
  }

  lemma {:induction false} WordDivMod6(i: nat)
    ensures WordMod(i, 6) == i % 6 && WordDiv(i, 6) == i / 6
  {
    if i >= 6 {
      WordDivMod6(i - 6);
    }
  }

  lemma {:induction false} WordDivMod8(i: nat)
    ensures WordMod(i, 8) == i % 8 && WordDiv(i, 8) == i / 8
  {
    if i >= 8 {
      WordDivMod8(i - 8);
    }
  }

  lemma WordDivMod(i: nat, nk: nat)
    requires KeyWords(nk)
    ensures WordMod(i, nk) == i % nk && WordDiv(i, nk) == i / nk
  {
    if nk == 4 {
      WordDivMod4(i);
    } else if nk == 6 {
      WordDivMod6(i);
    } else {
      WordDivMod8(i);
    }
  }

  /** The index i / N of the round constant of word i lies in 1 .. 10. */
  lemma RconIndex(i: nat, nk: nat)
    requires KeyWords(nk) && nk <= i < 4 * RoundCount(nk)
    ensures 1 <= WordDiv(i, nk) <= 10 && 1 <= i / nk <= 10
  {
    WordDivMod(i, nk);
    if nk == 4 {
      assert 4 <= i < 44;
    } else if nk == 6 {
      assert 6 <= i < 52;
    } else {
      assert 8 <= i < 60;
    }
  }

  // ---------------------------------------------------------------- words

  /** Word i of a word array: entries 4 * i .. 4 * i + 3. */
  function Word<T>(w: seq<T>, i: nat): (r: seq<T>)
    requires 4 * i + 4 <= |w|
    ensures |r| == 4
  { w[4 * i..4 * i + 4] }

  /** RotWord: the word rotated left by one byte. */
  function RotWord<T>(w: seq<T>): (r: seq<T>)
    requires |w| == 4
    ensures |r| == 4
  { [w[1], w[2], w[3], w[0]] }

  /** SubWord: the S-box of each byte. */
  function SubWord<T>(ops: ByteOps<T>, w: seq<T>): (r: seq<T>)
    requires |w| == 4
    ensures |r| == 4
  { [ops.sbox(w[0]), ops.sbox(w[1]), ops.sbox(w[2]), ops.sbox(w[3])] }

  /** XorWord: the xor of two words, position by position. */
  function XorWord<T>(ops: ByteOps<T>, a: seq<T>, b: seq<T>): (r: seq<T>)
    requires |a| == 4 && |b| == 4
    ensures |r| == 4
  { [ops.xor(a[0], b[0]), ops.xor(a[1], b[1]), ops.xor(a[2], b[2]), ops.xor(a[3], b[3])] }

  /** XorRCon: the first byte xor-ed with round constant j, the rest kept. */
  function XorRcon<T>(ops: ByteOps<T>, w: seq<T>, j: nat): (r: seq<T>)
    requires |w| == 4 && j < |ops.rcon|
    ensures |r| == 4
  { [ops.xor(w[0], ops.rcon[j]), w[1], w[2], w[3]] }

  /** Word i >= N from words i - N and i - 1: with SubWord, RotWord and the
    * round constant when i % N == 0, with SubWord alone when N > 6 and
    * i % N == 4, and a plain xor otherwise. */
  function StepWord<T>(ops: ByteOps<T>, a: seq<T>, b: seq<T>, nk: nat, i: nat): (r: seq<T>)
    requires |ops.rcon| == 11 && KeyWords(nk) && nk <= i < 4 * RoundCount(nk) && |a| == 4 && |b| == 4
    ensures |r| == 4
  {
    if WordMod(i, nk) == 0 then
      RconIndex(i, nk);
      XorRcon(ops, XorWord(ops, a, SubWord(ops, RotWord(b))), WordDiv(i, nk))
    else if nk > 6 && WordMod(i, nk) == 4 then XorWord(ops, a, SubWord(ops, b))
    else XorWord(ops, a, b)
  }

  /** Word i of W, given words 0 .. i - 1 in w: one iteration of the filling
    * loop of GenRoundKeys. */
  function NextWord<T>(ops: ByteOps<T>, key: seq<T>, nk: nat, w: seq<T>, i: nat): (r: seq<T>)
    requires |ops.rcon| == 11 && KeyWords(nk) && |key| >= 4 * nk && i < 4 * RoundCount(nk) && |w| == 4 * i
    ensures |r| == 4
  {
    if i < nk then Word(key, i) else StepWord(ops, Word(w, i - nk), Word(w, i - 1), nk, i)
  }

  /** One iteration of the filling loop as a step function: word j from the
    * words 0 .. j - 1 built so far. Grow only calls it with j < 4 * R and
    * 4 * j words; elsewhere it gives word 0 of the key, which is never used. */
  function Step<T>(ops: ByteOps<T>, key: seq<T>, nk: nat): (next: (seq<T>, nat) -> seq<T>)
    requires |ops.rcon| == 11 && KeyWords(nk) && |key| >= 4 * nk
  {
    (w: seq<T>, j: nat) => if j < 4 * RoundCount(nk) && |w| == 4 * j then NextWord(ops, key, nk, w, j) else Word(key, 0)
  }

  /** Every step appends one word. */
  lemma StepLength<T>(ops: ByteOps<T>, key: seq<T>, nk: nat)
    requires |ops.rcon| == 11 && KeyWords(nk) && |key| >= 4 * nk
    ensures forall w: seq<T>, j: nat :: |Step(ops, key, nk)(w, j)| == 4
  {
    forall w: seq<T>, j: nat ensures |Step(ops, key, nk)(w, j)| == 4 {
      if j < 4 * RoundCount(nk) && |w| == 4 * j {
        assert Step(ops, key, nk)(w, j) == NextWord(ops, key, nk, w, j);
      } else {
        assert Step(ops, key, nk)(w, j) == Word(key, 0);
      }
    }
  }

  /** Words 0 .. i - 1 of W. */
  function ExpandUpTo<T>(ops: ByteOps<T>, key: seq<T>, nk: nat, i: nat): (w: seq<T>)
    requires |ops.rcon| == 11 && KeyWords(nk) && |key| >= 4 * nk && i <= 4 * RoundCount(nk)
    ensures |w| == 4 * i
  {
    StepLength(ops, key, nk);
    GrowLength(Step(ops, key, nk), 4, i);
    Grow(Step(ops, key, nk), i)
  }

  /** A word array cut into round keys of 16 entries. */
  function Split<T>(w: seq<T>, rounds: nat): (rks: seq<seq<T>>)
    requires |w| == 16 * rounds
    ensures |rks| == rounds && forall r :: 0 <= r < rounds ==> rks[r] == w[16 * r..16 * r + 16]
  { seq(rounds, r requires 0 <= r < rounds => w[16 * r..16 * r + 16]) }

  /** The R round keys of 16 bytes for a key of N words. */
  function KeyExpansion<T>(ops: ByteOps<T>, key: seq<T>, nk: nat): (rks: seq<seq<T>>)
    requires |ops.rcon| == 11 && KeyWords(nk) && |key| >= 4 * nk
    ensures |rks| == RoundCount(nk) && forall r :: 0 <= r < |rks| ==> |rks[r]| == 16
  {
    Split(ExpandUpTo(ops, key, nk, 4 * RoundCount(nk)), RoundCount(nk))
  }

  // ---------------------------------------------------------------- growing a sequence

  /** A sequence grown in steps: step j appends next(s, j) to the sequence s
    * built by the steps before it. */
  function Grow<T>(next: (seq<T>, nat) -> seq<T>, i: nat): seq<T>
  {
    if i == 0 then [] else Grow(next, i - 1) + next(Grow(next, i - 1), i - 1)
  }

  lemma {:induction false} GrowLength<T>(next: (seq<T>, nat) -> seq<T>, k: nat, i: nat)
    requires forall w, j :: |next(w, j)| == k
    ensures |Grow(next, i)| == k * i
  {
    if i > 0 {
      GrowLength(next, k, i - 1);
    }
  }

  lemma TakeAppend<T>(w: seq<T>, x: seq<T>, k: nat)
    requires k <= |w|
    ensures (w + x)[..k] == w[..k]
  {}

  /** A later step leaves what the earlier steps built in place. */
  lemma GrowPrefix<T>(next: (seq<T>, nat) -> seq<T>, i: nat, n: nat)
    requires i <= n
    ensures |Grow(next, i)| <= |Grow(next, n)| && Grow(next, n)[..|Grow(next, i)|] == Grow(next, i)
  {
    var u := Grow(next, i);
    var j := i;
    assert u[..|u|] == u;
    while j < n
      invariant i <= j <= n
      invariant |u| <= |Grow(next, j)| && Grow(next, j)[..|u|] == u
    {
      TakeAppend(Grow(next, j), next(Grow(next, j), j), |u|);
      j := j + 1;
    }
  }

  lemma SliceOfPrefix<T>(w: seq<T>, p: seq<T>, lo: nat, hi: nat)
    requires |p| <= |w| && w[..|p|] == p && lo <= hi <= |p|
    ensures w[lo..hi] == p[lo..hi]
  {
    assert forall k :: lo <= k < hi ==> w[k] == w[..|p|][k];
  }

  lemma TakeSplit<T>(s: seq<T>, a: nat, b: nat)
    requires a <= b <= |s|
    ensures s[..b] == s[..a] + s[a..b]
  {}

  lemma AppendTail<T>(u: seq<T>, x: seq<T>)
    ensures (u + x)[|u|..|u| + |x|] == x
  {}

  /** What step i appended sits right after what the steps before it built. */
  lemma GrowPiece<T>(next: (seq<T>, nat) -> seq<T>, i: nat, n: nat)
    requires i < n
    ensures var u := Grow(next, i);
      |u| + |next(u, i)| <= |Grow(next, n)| && Grow(next, n)[|u|..|u| + |next(u, i)|] == next(u, i)
  {
    var u := Grow(next, i);
    GrowPrefix(next, i + 1, n);
    SliceOfPrefix(Grow(next, n), u + next(u, i), |u|, |u| + |next(u, i)|);
    AppendTail(u, next(u, i));
  }

  // ---------------------------------------------------------------- the shape of W

  /** One more word of W is the next word computed from the words before it. */
  lemma ExpandNext<T>(ops: ByteOps<T>, key: seq<T>, nk: nat, i: nat)
    requires |ops.rcon| == 11 && KeyWords(nk) && |key| >= 4 * nk && i < 4 * RoundCount(nk)
    ensures ExpandUpTo(ops, key, nk, i + 1) == ExpandUpTo(ops, key, nk, i) + NextWord(ops, key, nk, ExpandUpTo(ops, key, nk, i), i)
  {
    var next := Step(ops, key, nk);
    assert Grow(next, i + 1) == Grow(next, i) + next(Grow(next, i), i);
  }

  /** Words filled earlier are never overwritten: W up to word i is a prefix of
    * W up to any later word. */
  lemma ExpandPrefix<T>(ops: ByteOps<T>, key: seq<T>, nk: nat, i: nat, n: nat)
    requires |ops.rcon| == 11 && KeyWords(nk) && |key| >= 4 * nk && i <= n <= 4 * RoundCount(nk)
    ensures ExpandUpTo(ops, key, nk, n)[..4 * i] == ExpandUpTo(ops, key, nk, i)
  {
    GrowPrefix(Step(ops, key, nk), i, n);
  }

  /** Word i of W is the recurrence applied to the words before it. */
  lemma ExpandWord<T>(ops: ByteOps<T>, key: seq<T>, nk: nat, i: nat, n: nat)
    requires |ops.rcon| == 11 && KeyWords(nk) && |key| >= 4 * nk && i < n <= 4 * RoundCount(nk)
    ensures Word(ExpandUpTo(ops, key, nk, n), i) == NextWord(ops, key, nk, ExpandUpTo(ops, key, nk, i), i)
  {
    var next := Step(ops, key, nk);
    GrowPiece(next, i, n);
    assert next(Grow(next, i), i) == NextWord(ops, key, nk, ExpandUpTo(ops, key, nk, i), i);
  }

  /** A word of a prefix is the same word of the whole sequence. */
  lemma WordOfPrefix<T>(w: seq<T>, u: seq<T>, j: nat)
    requires |u| <= |w| && w[..|u|] == u && 4 * j + 4 <= |u|
    ensures Word(w, j) == Word(u, j)
  {
    SliceOfPrefix(w, u, 4 * j, 4 * j + 4);
  }

  /** A word keeps its value as W grows. */
  lemma WordPrefix<T>(ops: ByteOps<T>, key: seq<T>, nk: nat, j: nat, i: nat, n: nat)
    requires |ops.rcon| == 11 && KeyWords(nk) && |key| >= 4 * nk && j < i <= n <= 4 * RoundCount(nk)
    ensures Word(ExpandUpTo(ops, key, nk, n), j) == Word(ExpandUpTo(ops, key, nk, i), j)
  {
    ExpandPrefix(ops, key, nk, i, n);
    WordOfPrefix(ExpandUpTo(ops, key, nk, n), ExpandUpTo(ops, key, nk, i), j);
  }

  /** The first N words of W are the key words. */
  lemma {:induction false} KeyPrefix<T>(ops: ByteOps<T>, key: seq<T>, nk: nat, i: nat)
    requires |ops.rcon| == 11 && KeyWords(nk) && |key| >= 4 * nk && i <= nk
    ensures ExpandUpTo(ops, key, nk, i) == key[..4 * i]
  {
    if i > 0 {
      KeyPrefix(ops, key, nk, i - 1);
      ExpandNext(ops, key, nk, i - 1);
      assert NextWord(ops, key, nk, ExpandUpTo(ops, key, nk, i - 1), i - 1) == key[4 * (i - 1)..4 * i];
      TakeSplit(key, 4 * (i - 1), 4 * i);
    }
  }

  /** The first round key is the first 16 bytes of the key. */
  lemma FirstRoundKey<T>(ops: ByteOps<T>, key: seq<T>, nk: nat)
    requires |ops.rcon| == 11 && KeyWords(nk) && |key| >= 4 * nk
    ensures KeyExpansion(ops, key, nk)[0] == key[..16]
  {
    var n := 4 * RoundCount(nk);
    var w := ExpandUpTo(ops, key, nk, n);
    calc {
      KeyExpansion(ops, key, nk)[0];
      w[0..16];
      w[..16];
      { ExpandPrefix(ops, key, nk, 4, n); }
      ExpandUpTo(ops, key, nk, 4);
      { KeyPrefix(ops, key, nk, 4); }
      key[..16];
    }
  }

  /** Words 0 .. N - 1 of the filled W are the key words. */
  lemma KeyWord<T>(ops: ByteOps<T>, key: seq<T>, nk: nat, j: nat)
    requires |ops.rcon| == 11 && KeyWords(nk) && |key| >= 4 * nk && j < nk
    ensures Word(ExpandUpTo(ops, key, nk, 4 * RoundCount(nk)), j) == Word(key, j)
  {
    WordPrefix(ops, key, nk, j, nk, 4 * RoundCount(nk));
    KeyPrefix(ops, key, nk, nk);
    WordOfPrefix(key, key[..4 * nk], j);
  }

  /** Round key r is made of words 4 * r .. 4 * r + 3 of W. */
  lemma RoundKeyWords<T>(ops: ByteOps<T>, key: seq<T>, nk: nat, r: nat)
    requires |ops.rcon| == 11 && KeyWords(nk) && |key| >= 4 * nk && r < RoundCount(nk)
    ensures var w := ExpandUpTo(ops, key, nk, 4 * RoundCount(nk));
      KeyExpansion(ops, key, nk)[r] == Word(w, 4 * r) + Word(w, 4 * r + 1) + Word(w, 4 * r + 2) + Word(w, 4 * r + 3)
  {
    SplitWords(ExpandUpTo(ops, key, nk, 4 * RoundCount(nk)), RoundCount(nk), r);
  }

  /** Piece r of a sequence cut into pieces of 16 is words 4 * r .. 4 * r + 3. */
  lemma SplitWords<T>(w: seq<T>, rounds: nat, r: nat)
    requires |w| == 16 * rounds && r < rounds
    ensures Split(w, rounds)[r] == Word(w, 4 * r) + Word(w, 4 * r + 1) + Word(w, 4 * r + 2) + Word(w, 4 * r + 3)
  {
    var a := 16 * r;
    assert w[a..a + 16] == w[a..a + 4] + w[a + 4..a + 8] + w[a + 8..a + 12] + w[a + 12..a + 16];
  }

  /** Word i >= N of a W filled up to word n is the step of the recurrence on
    * words i - N and i - 1 of the same W. */
  lemma RecurrenceStep<T>(ops: ByteOps<T>, key: seq<T>, nk: nat, i: nat, n: nat)
    requires |ops.rcon| == 11 && KeyWords(nk) && |key| >= 4 * nk && nk <= i < n <= 4 * RoundCount(nk)
    ensures Word(ExpandUpTo(ops, key, nk, n), i) ==
      StepWord(ops, Word(ExpandUpTo(ops, key, nk, n), i - nk), Word(ExpandUpTo(ops, key, nk, n), i - 1), nk, i)
  {
    var w := ExpandUpTo(ops, key, nk, n);
    var u := ExpandUpTo(ops, key, nk, i);
    ExpandWord(ops, key, nk, i, n);
    assert NextWord(ops, key, nk, u, i) == StepWord(ops, Word(u, i - nk), Word(u, i - 1), nk, i);
    ExpandPrefix(ops, key, nk, i, n);
    WordOfPrefix(w, u, i - nk);
    WordOfPrefix(w, u, i - 1);
  }

  /** Words N .. 4 * R - 1 of the filled W obey the recurrence of
    * section 5.2 of FIPS-197, with the round constant index i / N in 1 .. 10. */
  lemma Recurrence<T>(ops: ByteOps<T>, key: seq<T>, nk: nat, i: nat)
    requires |ops.rcon| == 11 && KeyWords(nk) && |key| >= 4 * nk && nk <= i < 4 * RoundCount(nk)
    ensures 1 <= i / nk <= 10
    ensures
      var w := ExpandUpTo(ops, key, nk, 4 * RoundCount(nk));
      Word(w, i) ==
        if i % nk == 0 then XorRcon(ops, XorWord(ops, Word(w, i - nk), SubWord(ops, RotWord(Word(w, i - 1)))), i / nk)
        else if nk > 6 && i % nk == 4 then XorWord(ops, Word(w, i - nk), SubWord(ops, Word(w, i - 1)))
        else XorWord(ops, Word(w, i - nk), Word(w, i - 1))
  {
    RconIndex(i, nk);
    WordDivMod(i, nk);
    RecurrenceStep(ops, key, nk, i, 4 * RoundCount(nk));
  }

  // ---------------------------------------------------------------- related byte types

  /** rel holds between the two sequences entry by entry. */
  predicate Related<T, U>(rel: (T, U) -> bool, s: seq<T>, t: seq<U>)
  { |s| == |t| && forall i :: 0 <= i < |s| ==> rel(s[i], t[i]) }

  /** The operations of a and b keep rel: related operands give related
    * results, and the round constants are related. */
  ghost predicate Respects<T(!new), U(!new)>(rel: (T, U) -> bool, a: ByteOps<T>, b: ByteOps<U>)
  {
    |a.rcon| == 11 && |b.rcon| == 11 &&
    (forall x, y :: rel(x, y) ==> rel(a.sbox(x), b.sbox(y))) &&
    (forall x1, y1, x2, y2 :: rel(x1, y1) && rel(x2, y2) ==> rel(a.xor(x1, x2), b.xor(y1, y2))) &&
    (forall j :: 0 <= j < 11 ==> rel(a.rcon[j], b.rcon[j]))
  }

  lemma RelatedSlice<T, U>(rel: (T, U) -> bool, s: seq<T>, t: seq<U>, i: nat, j: nat)
    requires Related(rel, s, t) && i <= j <= |s|
    ensures Related(rel, s[i..j], t[i..j])
  {}

  lemma RelatedConcat<T, U>(rel: (T, U) -> bool, s: seq<T>, t: seq<U>, s2: seq<T>, t2: seq<U>)
    requires Related(rel, s, t) && Related(rel, s2, t2)
    ensures Related(rel, s + s2, t + t2)
  {}

  lemma SubWordRelated<T(!new), U(!new)>(rel: (T, U) -> bool, a: ByteOps<T>, b: ByteOps<U>, x: seq<T>, y: seq<U>)
    requires Respects(rel, a, b) && |x| == 4 && Related(rel, x, y)
    ensures Related(rel, SubWord(a, x), SubWord(b, y))
  {}

  lemma XorWordRelated<T(!new), U(!new)>(rel: (T, U) -> bool, a: ByteOps<T>, b: ByteOps<U>,
                                         x: seq<T>, y: seq<U>, x2: seq<T>, y2: seq<U>)
    requires Respects(rel, a, b) && |x| == 4 && |x2| == 4 && Related(rel, x, y) && Related(rel, x2, y2)
    ensures Related(rel, XorWord(a, x, x2), XorWord(b, y, y2))
  {}

  lemma XorRconRelated<T(!new), U(!new)>(rel: (T, U) -> bool, a: ByteOps<T>, b: ByteOps<U>, x: seq<T>, y: seq<U>, j: nat)
    requires Respects(rel, a, b) && |x| == 4 && Related(rel, x, y) && j < 11
    ensures Related(rel, XorRcon(a, x, j), XorRcon(b, y, j))
  {}

  lemma RotWordRelated<T, U>(rel: (T, U) -> bool, x: seq<T>, y: seq<U>)
    requires |x| == 4 && Related(rel, x, y)
    ensures Related(rel, RotWord(x), RotWord(y))
  {}

  /** The step of the recurrence keeps rel. */
  lemma StepWordRelated<T(!new), U(!new)>(rel: (T, U) -> bool, a: ByteOps<T>, b: ByteOps<U>,
                                          x: seq<T>, y: seq<U>, x2: seq<T>, y2: seq<U>, nk: nat, i: nat)
    requires Respects(rel, a, b) && KeyWords(nk) && nk <= i < 4 * RoundCount(nk)
    requires |x| == 4 && |x2| == 4 && Related(rel, x, y) && Related(rel, x2, y2)
    ensures Related(rel, StepWord(a, x, x2, nk, i), StepWord(b, y, y2, nk, i))
  {
    RconIndex(i, nk);
    if WordMod(i, nk) == 0 {
      RotWordRelated(rel, x2, y2);
      SubWordRelated(rel, a, b, RotWord(x2), RotWord(y2));
      XorWordRelated(rel, a, b, x, y, SubWord(a, RotWord(x2)), SubWord(b, RotWord(y2)));
      XorRconRelated(rel, a, b, XorWord(a, x, SubWord(a, RotWord(x2))), XorWord(b, y, SubWord(b, RotWord(y2))), WordDiv(i, nk));
    } else if nk > 6 && WordMod(i, nk) == 4 {
      SubWordRelated(rel, a, b, x2, y2);
      XorWordRelated(rel, a, b, x, y, SubWord(a, x2), SubWord(b, y2));
    } else {
      XorWordRelated(rel, a, b, x, y, x2, y2);
    }
  }

  /** One word of W keeps rel, given related keys and related earlier words. */
  lemma NextWordRelated<T(!new), U(!new)>(rel: (T, U) -> bool, a: ByteOps<T>, b: ByteOps<U>,
                                          key: seq<T>, kb: seq<U>, nk: nat, w: seq<T>, v: seq<U>, i: nat)
    requires Respects(rel, a, b) && KeyWords(nk) && |key| >= 4 * nk && Related(rel, key, kb)
    requires i < 4 * RoundCount(nk) && |w| == 4 * i && Related(rel, w, v)
    ensures Related(rel, NextWord(a, key, nk, w, i), NextWord(b, kb, nk, v, i))
  {
    if i < nk {
      RelatedSlice(rel, key, kb, 4 * i, 4 * i + 4);
    } else {
      RelatedSlice(rel, w, v, 4 * (i - nk), 4 * (i - nk) + 4);
      RelatedSlice(rel, w, v, 4 * (i - 1), 4 * i);
      StepWordRelated(rel, a, b, Word(w, i - nk), Word(v, i - nk), Word(w, i - 1), Word(v, i - 1), nk, i);
    }
  }

  /** Every pair of steps of na and nb keeps rel. */
  ghost predicate Keeps<T(!new), U(!new)>(rel: (T, U) -> bool, na: (seq<T>, nat) -> seq<T>, nb: (seq<U>, nat) -> seq<U>)
  {
    forall w: seq<T>, v: seq<U>, j: nat :: Related(rel, w, v) ==> Related(rel, na(w, j), nb(v, j))
  }

  /** Growing with steps that keep rel gives related sequences. */
  lemma {:induction false} GrowRelated<T(!new), U(!new)>(rel: (T, U) -> bool, na: (seq<T>, nat) -> seq<T>,
                                                         nb: (seq<U>, nat) -> seq<U>, i: nat)
    requires Keeps(rel, na, nb)
    ensures Related(rel, Grow(na, i), Grow(nb, i))
  {
    if i > 0 {
      GrowRelated(rel, na, nb, i - 1);
      RelatedConcat(rel, Grow(na, i - 1), Grow(nb, i - 1), na(Grow(na, i - 1), i - 1), nb(Grow(nb, i - 1), i - 1));
    }
  }

  /** Each step of the schedule keeps rel, including the unused out-of-range
    * steps. */
  lemma StepRelated<T(!new), U(!new)>(rel: (T, U) -> bool, a: ByteOps<T>, b: ByteOps<U>, key: seq<T>, kb: seq<U>, nk: nat)
    requires Respects(rel, a, b) && KeyWords(nk) && |key| >= 4 * nk && Related(rel, key, kb)
    ensures Keeps(rel, Step(a, key, nk), Step(b, kb, nk))
  {
    forall w: seq<T>, v: seq<U>, j: nat | Related(rel, w, v)
      ensures Related(rel, Step(a, key, nk)(w, j), Step(b, kb, nk)(v, j))
    {
      if j < 4 * RoundCount(nk) && |w| == 4 * j {
        NextWordRelated(rel, a, b, key, kb, nk, w, v, j);
        assert Step(a, key, nk)(w, j) == NextWord(a, key, nk, w, j);
        assert Step(b, kb, nk)(v, j) == NextWord(b, kb, nk, v, j);
      } else {
        RelatedSlice(rel, key, kb, 0, 4);
        assert Step(a, key, nk)(w, j) == Word(key, 0);
        assert Step(b, kb, nk)(v, j) == Word(kb, 0);
      }
    }
  }

  /** Related keys give related round keys: the schedule keeps any relation
    * its byte operations keep. */
  lemma KeyExpansionRelated<T(!new), U(!new)>(rel: (T, U) -> bool, a: ByteOps<T>, b: ByteOps<U>,
                                              key: seq<T>, kb: seq<U>, nk: nat)
    requires Respects(rel, a, b) && KeyWords(nk) && |key| >= 4 * nk && Related(rel, key, kb)
    ensures var ra, rb := KeyExpansion(a, key, nk), KeyExpansion(b, kb, nk);
      |ra| == |rb| && forall r :: 0 <= r < |ra| ==> Related(rel, ra[r], rb[r])
  {
    var n := 4 * RoundCount(nk);
    StepRelated(rel, a, b, key, kb, nk);
    GrowRelated(rel, Step(a, key, nk), Step(b, kb, nk), n);
    var wa, wb := ExpandUpTo(a, key, nk, n), ExpandUpTo(b, kb, nk, n);
    forall r | 0 <= r < RoundCount(nk)
      ensures Related(rel, KeyExpansion(a, key, nk)[r], KeyExpansion(b, kb, nk)[r])
    {
      RelatedSlice(rel, wa, wb, 16 * r, 16 * r + 16);
    }
  }

  // ---------------------------------------------------------------- changing the byte type

  /** f applied to every entry. */
  function Map<T, U>(f: T -> U, s: seq<T>): (r: seq<U>)
    ensures |r| == |s| && forall i :: 0 <= i < |s| ==> r[i] == f(s[i])
  { seq(|s|, i requires 0 <= i < |s| => f(s[i])) }

  /** f applied to every entry of every round key. */
  function MapKeys<T, U>(f: T -> U, rks: seq<seq<T>>): (r: seq<seq<U>>)
    ensures |r| == |rks| && forall j :: 0 <= j < |rks| ==> r[j] == Map(f, rks[j])
  { seq(|rks|, j requires 0 <= j < |rks| => Map(f, rks[j])) }

  /** f carries the operations of a to those of b: it commutes with the S-box
    * and with xor, and maps each round constant to the other's. */
  ghost predicate Carries<T(!new), U>(f: T -> U, a: ByteOps<T>, b: ByteOps<U>)
  {
    |a.rcon| == 11 && |b.rcon| == 11 &&
    (forall x :: b.sbox(f(x)) == f(a.sbox(x))) &&
    (forall x, y :: b.xor(f(x), f(y)) == f(a.xor(x, y))) &&
    (forall j :: 0 <= j < 11 ==> b.rcon[j] == f(a.rcon[j]))
  }

  /** The graph of f as a relation. */
  function Graph<T, U(==)>(f: T -> U): (T, U) -> bool
  { (x: T, y: U) => f(x) == y }

  /** A sequence is related to another by the graph of f exactly when it is
    * the other with f applied. */
  lemma RelatedGraph<T, U>(f: T -> U, s: seq<T>, t: seq<U>)
    ensures Related(Graph(f), s, t) <==> t == Map(f, s)
  {
    if Related(Graph(f), s, t) {
      assert forall i :: 0 <= i < |s| ==> t[i] == Map(f, s)[i];
    }
  }

  lemma CarriesRespects<T(!new), U(!new)>(f: T -> U, a: ByteOps<T>, b: ByteOps<U>)
    requires Carries(f, a, b)
    ensures Respects(Graph(f), a, b)
  {}

  /** The round keys of the mapped key are the mapped round keys. */
  lemma KeyExpansionMap<T(!new), U(!new)>(f: T -> U, a: ByteOps<T>, b: ByteOps<U>, key: seq<T>, nk: nat)
    requires Carries(f, a, b) && KeyWords(nk) && |key| >= 4 * nk
    ensures KeyExpansion(b, Map(f, key), nk) == MapKeys(f, KeyExpansion(a, key, nk))
  {
    var ra, rb := KeyExpansion(a, key, nk), KeyExpansion(b, Map(f, key), nk);
    CarriesRespects(f, a, b);
    RelatedGraph(f, key, Map(f, key));
    KeyExpansionRelated(Graph(f), a, b, key, Map(f, key), nk);
    forall r | 0 <= r < |ra|
      ensures rb[r] == MapKeys(f, ra)[r]
    {
      RelatedGraph(f, ra[r], rb[r]);
    }
  }
}
