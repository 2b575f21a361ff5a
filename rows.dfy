/**
 * One row of a bitboard is a Java int; column x is bit x (colMasks[x] == 2^x).
 * Rows are `bv32` so that `+=`, `^=`, `|=` and `&= ~` keep their Java meaning,
 * carries and wrap-around included.
 *
 * The single-bit facts are proved in three layers: on plain bit-vector
 * expressions, on the named row operations over 5-bit columns, and on board
 * columns given as integers.
 */
module Rows {

  /** The single bit of a 5-bit column. */
  function Mask(c: bv5): bv32 {
    (1 as bv32) << c
  }

  /** A column number as a shift distance. */
  function Col(x: int): bv5
    requires 0 <= x < 32
  {
    x as bv5
  }

  /** The bits below column c. */
  function Low(c: bv5): bv32 {
    Mask(c) - 1
  }

  /** `(row & colMasks[c]) > 0`: for c < 19 the mask is positive, so this is a non-zero test. */
  predicate Has(r: bv32, c: bv5) {
    r & Mask(c) != 0
  }

  /** `row |= colMasks[c]`. */
  function Set(r: bv32, c: bv5): bv32 {
    r | Mask(c)
  }

  /** `row &= ~colMasks[c]`. */
  function Clear(r: bv32, c: bv5): bv32 {
    r & !Mask(c)
  }

  /** `row ^= colMasks[c]`. */
  function Flip(r: bv32, c: bv5): bv32 {
    r ^ Mask(c)
  }

  /** `row += colMasks[c]`, in Java int arithmetic. */
  function Plus(r: bv32, c: bv5): bv32 {
    r + Mask(c)
  }

  /** `a & b` of two rows. */
  function Meet(a: bv32, b: bv32): bv32 {
    a & b
  }

  /** `a ^ b` of two rows. */
  function Diff(a: bv32, b: bv32): bv32 {
    a ^ b
  }

  /** `blackAt(x, y)` on one row: the bit of board column x. */
  predicate Bit(r: bv32, x: int)
    requires 0 <= x < 19
  {
    Has(r, Col(x))
  }

  /** No bit above column 18 is set. */
  predicate TidyRow(r: bv32) {
    r < 0x80000
  }

  lemma ColInj(x: int, z: int)
    requires 0 <= x < 32 && 0 <= z < 32
    ensures Col(x) == Col(z) <==> x == z
  {}

  lemma ColSmall(x: int)
    requires 0 <= x < 19
    ensures Col(x) < 19
  {}

  lemma ColSucc(x: int)
    requires 0 <= x < 31
    ensures Col(x + 1) == Col(x) + 1
  {}

  // Layer 1: plain bit-vector expressions.

  lemma OrRaw(r: bv32, x: bv5, z: bv5)
    requires x < 19 && z < 19
    ensures (r | Mask(x)) & Mask(z) != 0 <==> (z == x || r & Mask(z) != 0)
  {}

  lemma OrTidyRaw(r: bv32, x: bv5)
    requires x < 19 && r < 0x80000
    ensures r | Mask(x) < 0x80000
  {}

  lemma ClearRaw(r: bv32, x: bv5, z: bv5)
    requires x < 19 && z < 19
    ensures (r & !Mask(x)) & Mask(z) != 0 <==> (z != x && r & Mask(z) != 0)
  {}

  lemma ClearTidyRaw(r: bv32, x: bv5)
    requires r < 0x80000
    ensures r & !Mask(x) < 0x80000
  {}

  lemma XorRaw(r: bv32, x: bv5)
    requires r & Mask(x) != 0
    ensures r ^ Mask(x) == r & !Mask(x)
  {}

  lemma AddRaw(r: bv32, x: bv5)
    requires r & Mask(x) == 0
    ensures r + Mask(x) == r | Mask(x)
  {}

  lemma DoubleRaw(x: bv5)
    requires x < 18
    ensures Mask(x) + Mask(x) == Mask(x + 1)
  {}

  lemma AndRaw(a: bv32, b: bv32, x: bv5)
    ensures Meet(a, b) & Mask(x) != 0 <==> (a & Mask(x) != 0 && b & Mask(x) != 0)
  {
    AndRawM(a & b, a, b, x);
  }

  lemma AndRawM(m: bv32, a: bv32, b: bv32, x: bv5)
    requires m == a & b
    ensures m & Mask(x) != 0 <==> (a & Mask(x) != 0 && b & Mask(x) != 0)
  {}

  lemma XorRawM(m: bv32, a: bv32, b: bv32, x: bv5)
    requires m == a ^ b
    ensures Has(m, x) <==> Has(a, x) != Has(b, x)
  {}

  lemma XorZeroRaw(a: bv32, b: bv32)
    ensures a ^ b == 0 <==> a == b
  {}

  lemma XorTidyRaw(a: bv32, b: bv32)
    requires a < 0x80000 && b < 0x80000
    ensures a ^ b < 0x80000
  {}

  lemma AndTidyRaw(a: bv32, b: bv32)
    requires a < 0x80000
    ensures a & b < 0x80000
  {}

  lemma LowStepRaw(t: bv32, c: bv5)
    requires c < 19 && t & (Mask(c) - 1) == 0 && t & Mask(c) == 0
    ensures t & (Mask(c + 1) - 1) == 0
  {}

  lemma LowAllRaw(t: bv32)
    requires t < 0x80000 && t & (Mask(19) - 1) == 0
    ensures t == 0
  {}

  lemma MaskMaskRaw(x: bv5, z: bv5)
    requires x < 19 && z < 19
    ensures Mask(x) & Mask(z) != 0 <==> x == z
  {}

  lemma ZeroRaw(x: bv5)
    ensures (0 as bv32) & Mask(x) == 0
  {}

  // Layer 2: the named row operations on 5-bit columns.

  lemma SetHas(r: bv32, x: bv5, z: bv5)
    requires x < 19 && z < 19
    ensures Has(Set(r, x), z) <==> (z == x || Has(r, z))
  {
    OrRaw(r, x, z);
  }

  lemma SetTidy(r: bv32, x: bv5)
    requires x < 19 && TidyRow(r)
    ensures TidyRow(Set(r, x))
  {
    OrTidyRaw(r, x);
  }

  lemma ClearHas(r: bv32, x: bv5, z: bv5)
    requires x < 19 && z < 19
    ensures Has(Clear(r, x), z) <==> (z != x && Has(r, z))
  {
    ClearRaw(r, x, z);
  }

  lemma ClearTidyC(r: bv32, x: bv5)
    requires TidyRow(r)
    ensures TidyRow(Clear(r, x))
  {
    ClearTidyRaw(r, x);
  }

  lemma FlipSet(r: bv32, x: bv5)
    requires Has(r, x)
    ensures Flip(r, x) == Clear(r, x)
  {
    XorRaw(r, x);
  }

  lemma PlusClear(r: bv32, x: bv5)
    requires !Has(r, x)
    ensures Plus(r, x) == Set(r, x)
  {
    AddRaw(r, x);
  }

  lemma PlusOnlyBit(x: bv5)
    requires x < 18
    ensures Plus(Mask(x), x) == Mask(x + 1)
  {
    DoubleRaw(x);
  }

  lemma AndHas(a: bv32, b: bv32, x: bv5)
    ensures Has(Meet(a, b), x) <==> Has(a, x) && Has(b, x)
  {
    AndRaw(a, b, x);
  }

  lemma DiffHas(a: bv32, b: bv32, x: bv5)
    ensures Has(Diff(a, b), x) <==> Has(a, x) != Has(b, x)
  {
    XorRawM(Diff(a, b), a, b, x);
  }

  /** The xor of two rows is zero iff the rows are equal. */
  lemma DiffZero(a: bv32, b: bv32)
    ensures Diff(a, b) == 0 <==> a == b
  {
    XorZeroRaw(a, b);
  }

  lemma DiffTidy(a: bv32, b: bv32)
    requires TidyRow(a) && TidyRow(b)
    ensures TidyRow(Diff(a, b))
  {
    XorTidyRaw(a, b);
  }

  lemma MeetTidy(a: bv32, b: bv32)
    requires TidyRow(a)
    ensures TidyRow(Meet(a, b))
  {
    AndTidyRaw(a, b);
  }

  lemma LowStep(t: bv32, c: bv5)
    requires c < 19 && t & Low(c) == 0 && !Has(t, c)
    ensures t & Low(c + 1) == 0
  {
    LowStepRaw(t, c);
  }

  lemma LowAll(t: bv32)
    requires TidyRow(t) && t & Low(19) == 0
    ensures t == 0
  {
    LowAllRaw(t);
  }

  lemma MaskHas(x: bv5, z: bv5)
    requires x < 19 && z < 19
    ensures Has(Mask(x), z) <==> x == z
  {
    MaskMaskRaw(x, z);
  }

  lemma ZeroHas(x: bv5)
    ensures !Has(0, x)
  {
    ZeroRaw(x);
  }

  // Layer 3: board columns.

  /** Setting column x adds x and keeps every other column. */
  lemma OrBit(r: bv32, x: int, z: int)
    requires 0 <= x < 19 && 0 <= z < 19
    ensures Bit(Set(r, Col(x)), z) <==> (z == x || Bit(r, z))
  {
    ColInj(x, z);
    ColSmall(x);
    ColSmall(z);
    SetHas(r, Col(x), Col(z));
  }

  lemma OrTidy(r: bv32, x: int)
    requires 0 <= x < 19 && TidyRow(r)
    ensures TidyRow(Set(r, Col(x)))
  {
    ColSmall(x);
    SetTidy(r, Col(x));
  }

  /** Clearing column x removes x and keeps every other column. */
  lemma ClearBit(r: bv32, x: int, z: int)
    requires 0 <= x < 19 && 0 <= z < 19
    ensures Bit(Clear(r, Col(x)), z) <==> (z != x && Bit(r, z))
  {
    ColInj(x, z);
    ColSmall(x);
    ColSmall(z);
    ClearHas(r, Col(x), Col(z));
  }

  lemma ClearTidy(r: bv32, x: int)
    requires 0 <= x < 19 && TidyRow(r)
    ensures TidyRow(Clear(r, Col(x)))
  {
    ClearTidyC(r, Col(x));
  }

  /** `^=` on a set bit clears it. */
  lemma XorSetBit(r: bv32, x: int)
    requires 0 <= x < 19 && Bit(r, x)
    ensures Flip(r, Col(x)) == Clear(r, Col(x))
  {
    FlipSet(r, Col(x));
  }

  /** `+=` on a clear bit is the same as setting it. */
  lemma AddClearBit(r: bv32, x: int)
    requires 0 <= x < 19 && !Bit(r, x)
    ensures Plus(r, Col(x)) == Set(r, Col(x))
  {
    PlusClear(r, Col(x));
  }

  /** `+=` on a row holding only column x clears x and carries into column x + 1. */
  lemma AddSetBitCarries(x: int)
    requires 0 <= x < 18
    ensures Plus(Mask(Col(x)), Col(x)) == Mask(Col(x + 1))
  {
    ColSucc(x);
    ColSmall(x);
    PlusOnlyBit(Col(x));
  }

  /** A column of `a & b` is set iff it is set in both. */
  lemma AndBit(a: bv32, b: bv32, x: int)
    requires 0 <= x < 19
    ensures Bit(Meet(a, b), x) <==> Bit(a, x) && Bit(b, x)
  {
    AndHas(a, b, Col(x));
  }

  /** A row holding only column x has exactly that column. */
  lemma MaskBit(x: int, z: int)
    requires 0 <= x < 19 && 0 <= z < 19
    ensures Bit(Mask(Col(x)), z) <==> x == z
  {
    ColInj(x, z);
    ColSmall(x);
    ColSmall(z);
    MaskHas(Col(x), Col(z));
  }

  /** A column of `a ^ b` is set iff exactly one of the rows has it. */
  lemma DiffBit(a: bv32, b: bv32, x: int)
    requires 0 <= x < 19
    ensures Bit(Diff(a, b), x) <==> Bit(a, x) != Bit(b, x)
  {
    DiffHas(a, b, Col(x));
  }

  /** Two tidy rows with the same 19 columns are the same row. */
  lemma RowsAgree(a: bv32, b: bv32)
    requires TidyRow(a) && TidyRow(b)
    requires forall x | 0 <= x < 19 :: Bit(a, x) == Bit(b, x)
    ensures a == b
  {
    DiffTidy(a, b);
    forall x | 0 <= x < 19
      ensures !Bit(Diff(a, b), x)
    {
      DiffBit(a, b, x);
    }
    ZeroIffNoBit(Diff(a, b));
    DiffZero(a, b);
  }

  /** An all-zero row has no column set. */
  lemma ZeroBit(x: int)
    requires 0 <= x < 19
    ensures !Bit(0, x)
  {
    ZeroHas(Col(x));
  }

  /** A tidy row is zero iff none of its 19 columns is set. */
  lemma {:induction false} ZeroIffNoBit(t: bv32)
    requires TidyRow(t)
    ensures t == 0 <==> forall x | 0 <= x < 19 :: !Bit(t, x)
  {
    if forall x | 0 <= x < 19 :: !Bit(t, x) {
      NoBitZero(t);
    } else {
      var x :| 0 <= x < 19 && Bit(t, x);
      ZeroBit(x);
    }
  }

  lemma NoBitZero(t: bv32)
    requires TidyRow(t)
    requires forall x | 0 <= x < 19 :: !Bit(t, x)
    ensures t == 0
  {
    NoBitBelow(t, 19);
    assert Col(19) == 19;
    LowAll(t);
  }

  lemma {:induction false} NoBitBelow(t: bv32, k: int)
    requires 0 <= k <= 19
    requires forall x | 0 <= x < k :: !Bit(t, x)
    ensures t & Low(Col(k)) == 0
    decreases k
  {
    if k == 0 {
      assert Col(0) == 0;
    } else {
      NoBitBelow(t, k - 1);
      assert !Bit(t, k - 1);
      ColSucc(k - 1);
      ColSmall(k - 1);
      LowStep(t, Col(k - 1));
    }
  }
}

/** Java int sums and hashes over rows. */
module RowSums {
  import opened Rows

  /** Java int `+`, wrapping modulo 2^32. */
  function Add(a: bv32, b: bv32): bv32 {
    a + b
  }

  /** Java int addition of a sequence of ints, in order. */
  function Sum(ts: seq<bv32>): bv32 {
    if |ts| == 0 then 0 else Add(Sum(ts[..|ts| - 1]), ts[|ts| - 1])
  }

  /** A count of terms as a Java int, counted up one term at a time. */
  function Count(n: int): bv32
    requires 0 <= n <= 19
  {
    if n == 0 then 0 else Count(n - 1) + 1
  }

  lemma {:induction false} CountValue(n: int)
    requires 0 <= n <= 19
    ensures Count(n) as int == n
  {
    if n > 0 {
      CountValue(n - 1);
    }
  }

  lemma CountStep(n: int)
    requires 0 <= n < 19
    ensures Count(n + 1) == Count(n) + 1
  {}

  lemma CountSmall(n: int)
    requires 0 <= n < 19
    ensures Count(n) < 19
  {
    CountValue(n);
  }

  lemma CountAll()
    ensures Count(19) == 19
  {
    CountValue(19);
  }

  /** Adding one more term to a prefix sum. */
  lemma SumPrefix(ts: seq<bv32>, i: int)
    requires 0 <= i < |ts|
    ensures Sum(ts[..i + 1]) == Add(Sum(ts[..i]), ts[i])
  {
    var u := ts[..i + 1];
    assert u[..|u| - 1] == ts[..i];
  }

  lemma SumStepBoundRaw(s: bv32, t: bv32, k: bv32)
    requires k < 19 && s <= k * 0x80000 && t < 0x80000
    ensures s + t <= (k + 1) * 0x80000
  {}

  lemma SumStepBound(s: bv32, t: bv32, k: bv32)
    requires k < 19 && s <= k * 0x80000 && t < 0x80000
    ensures Add(s, t) <= (k + 1) * 0x80000
  {
    SumStepBoundRaw(s, t, k);
  }

  lemma SumStepZeroRaw(s: bv32, t: bv32, k: bv32)
    requires k < 19 && s <= k * 0x80000 && t < 0x80000
    ensures s + t == 0 <==> s == 0 && t == 0
  {}

  lemma SumStepZero(s: bv32, t: bv32, k: bv32)
    requires k < 19 && s <= k * 0x80000 && t < 0x80000
    ensures Add(s, t) == 0 <==> s == 0 && t == 0
  {
    SumStepZeroRaw(s, t, k);
  }

  predicate AllTidy(ts: seq<bv32>) {
    forall i | 0 <= i < |ts| :: TidyRow(ts[i])
  }

  /** Adding at most 19 tidy values cannot wrap around: each adds less than 2^19. */
  lemma {:induction false} SumBound(ts: seq<bv32>)
    requires |ts| <= 19 && AllTidy(ts)
    ensures Sum(ts) <= Count(|ts|) * 0x80000
  {
    if |ts| > 0 {
      var init := ts[..|ts| - 1];
      SumBound(init);
      CountStep(|init|);
      CountSmall(|init|);
      SumStepBound(Sum(init), ts[|ts| - 1], Count(|init|));
    }
  }

  /** So a sum of at most 19 tidy values is zero iff every term is. */
  lemma {:induction false} SumZero(ts: seq<bv32>)
    requires |ts| <= 19 && AllTidy(ts)
    ensures Sum(ts) == 0 <==> forall i | 0 <= i < |ts| :: ts[i] == 0
  {
    if |ts| > 0 {
      var init := ts[..|ts| - 1];
      SumBound(init);
      SumZero(init);
      CountSmall(|init|);
      SumStepZero(Sum(init), ts[|ts| - 1], Count(|init|));
      if Sum(ts) == 0 {
        forall i | 0 <= i < |ts| ensures ts[i] == 0 {
          if i < |init| {
            assert init[i] == ts[i];
          }
        }
      }
      if forall i | 0 <= i < |ts| :: ts[i] == 0 {
        forall i | 0 <= i < |init| ensures init[i] == 0 {
          assert init[i] == ts[i];
        }
      }
    }
  }

  lemma BelowSignRaw(a: bv32)
    requires a <= 19 * 0x80000
    ensures a < 0x8000_0000
  {}

  lemma TwoSumsRaw(a: bv32, b: bv32)
    requires a <= 19 * 0x80000 && b <= 19 * 0x80000
    ensures a + b == 0 <==> a == 0 && b == 0
  {}

  lemma SumBound19(ts: seq<bv32>)
    requires |ts| == 19 && AllTidy(ts)
    ensures Sum(ts) <= 19 * 0x80000
  {
    SumBound(ts);
    CountAll();
  }

  /** A sum of 19 tidy values is below the sign bit, so Java's `> 0` is `!= 0` on it. */
  lemma SumBelowSign(ts: seq<bv32>)
    requires |ts| == 19 && AllTidy(ts)
    ensures Sum(ts) < 0x8000_0000
  {
    SumBound19(ts);
    BelowSignRaw(Sum(ts));
  }

  /** Two sums of 19 tidy values add up to zero iff both are zero. */
  lemma TwoSums(as_: seq<bv32>, bs: seq<bv32>)
    requires |as_| == 19 && AllTidy(as_) && |bs| == 19 && AllTidy(bs)
    ensures Sum(as_) + Sum(bs) == 0 <==> Sum(as_) == 0 && Sum(bs) == 0
  {
    SumBound19(as_);
    SumBound19(bs);
    TwoSumsRaw(Sum(as_), Sum(bs));
  }

  /** `Arrays.hashCode(int[])`: `31 * h + e` from 1, in Java int arithmetic. */
  function ArrayHash(ts: seq<bv32>): bv32 {
    if |ts| == 0 then 1 else 31 * ArrayHash(ts[..|ts| - 1]) + ts[|ts| - 1]
  }
}
