/**
  The bit utilities, over unbounded naturals so that one proof covers every width: bitwise `and`
  is defined bit by bit, and the machine's widths and wrap-around are written out.
 */
module Bits {
  import opened Division

  function Pow2(k: nat): nat {
    if k == 0 then 1 else 2 * Pow2(k - 1)
  }

  /** Bitwise `and`. */
  function And(x: nat, y: nat): nat {
    if x == 0 || y == 0 then 0 else 2 * And(x / 2, y / 2) + (if x % 2 == 1 && y % 2 == 1 then 1 else 0)
  }

  /** The number of bits up to the highest one set; `_BitScanReverse` reports one less. */
  function BitLength(x: nat): nat {
    if x == 0 then 0 else 1 + BitLength(x / 2)
  }

  predicate IsPowerOfTwo(value: int) {
    value > 0 && And(value, value - 1) == 0
  }

  lemma {:induction false} AndSelf(x: nat)
    ensures And(x, x) == x
  {
    if x != 0 {
      AndSelf(x / 2);
    }
  }

  lemma {:induction false} AndPredecessorIsPower(x: nat) returns (k: nat)
    requires x > 0 && And(x, x - 1) == 0
    ensures x == Pow2(k)
  {
    if x == 1 {
      k := 0;
    } else if x % 2 == 1 {
      AndSelf(x / 2);
      assert false;
    } else {
      assert (x - 1) / 2 == x / 2 - 1;
      k := AndPredecessorIsPower(x / 2);
      k := k + 1;
    }
  }

  lemma {:induction false} PowerAndPredecessor(k: nat)
    ensures Pow2(k) > 0 && And(Pow2(k), Pow2(k) - 1) == 0
  {
    if k > 0 {
      PowerAndPredecessor(k - 1);
    }
  }

  /** The bit test holds exactly for the powers of two. */
  lemma IsPowerOfTwoExactly(value: int)
    ensures IsPowerOfTwo(value) <==> exists k: nat :: value == Pow2(k)
  {
    if IsPowerOfTwo(value) {
      var k := AndPredecessorIsPower(value);
    }
    if k: nat :| value == Pow2(k) {
      PowerAndPredecessor(k);
    }
  }

  // ----- Alignment

  /** The complement of `x` in a word of `width` bits. */
  function Not(x: nat, width: nat): nat
    requires x < Pow2(width)
  {
    Pow2(width) - 1 - x
  }

  /** `size & ~(alignment - 1)`, in `width` bits. */
  function AlignDown(size: nat, alignment: nat, width: nat): nat
    requires 0 < alignment < Pow2(width)
  {
    And(size, Not(alignment - 1, width))
  }

  /** `(size + alignment - 1) & ~(alignment - 1)`, where the sum wraps. */
  function Align(size: nat, alignment: nat, width: nat): nat
    requires 0 < alignment < Pow2(width)
  {
    And((size + alignment - 1) % Pow2(width), Not(alignment - 1, width))
  }

  lemma {:induction false} AndAllOnes(x: nat, width: nat)
    requires x < Pow2(width)
    ensures Pow2(width) > 0 && And(x, Pow2(width) - 1) == x
  {
    if width > 0 {
      AndAllOnes(x / 2, width - 1);
      assert (Pow2(width) - 1) / 2 == Pow2(width - 1) - 1;
    }
  }

  /** Masking off `k` low bits leaves the whole multiples of 2^k. */
  lemma {:induction false} MaskLeavesMultiple(x: nat, k: nat, width: nat) returns (q: nat, r: nat)
    requires k <= width && x < Pow2(width)
    ensures 0 < Pow2(k) <= Pow2(width) && r < Pow2(k)
    ensures And(x, Pow2(width) - Pow2(k)) == q * Pow2(k) && x == q * Pow2(k) + r
  {
    if k == 0 {
      AndAllOnes(x, width);
      q, r := x, 0;
    } else {
      q, r := MaskLeavesMultiple(x / 2, k - 1, width - 1);
      AndEven(x, Pow2(width - 1) - Pow2(k - 1));
      Doubled(q, Pow2(k - 1));
      r := 2 * r + x % 2;
    }
  }

  /** So it rounds down to a multiple of 2^k. */
  lemma MaskRoundsDown(x: nat, k: nat, width: nat)
    requires k <= width && x < Pow2(width)
    ensures 0 < Pow2(k) <= Pow2(width)
    ensures And(x, Pow2(width) - Pow2(k)) == x / Pow2(k) * Pow2(k)
  {
    var q, r := MaskLeavesMultiple(x, k, width);
    QuotientIs(x, Pow2(k), q, r);
  }

  lemma Doubled(q: int, h: int)
    ensures 2 * (q * h) == q * (2 * h)
  {}

  lemma AndEven(x: nat, y: nat)
    ensures And(x, 2 * y) == 2 * And(x / 2, y)
  {
    assert 2 * y / 2 == y && 2 * y % 2 == 0;
  }

  /** `r` is the greatest multiple of `m` that is not above `x`. */
  ghost predicate IsFloorMultiple(r: int, x: int, m: int)
    requires m > 0
  {
    r % m == 0 && r <= x && forall q :: q * m <= x ==> q * m <= r
  }

  /** `r` is the least multiple of `m` that is not below `x`. */
  ghost predicate IsCeilingMultiple(r: int, x: int, m: int)
    requires m > 0
  {
    r % m == 0 && x <= r && forall q :: x <= q * m ==> r <= q * m
  }

  lemma MultipleOrder(p: int, q: int, m: int)
    requires m > 0 && p * m < (q + 1) * m
    ensures p <= q
  {}

  lemma MultipleMod(q: int, m: int)
    requires m > 0
    ensures q * m % m == 0
  {
    QuotientIs(q * m, m, q, 0);
    assert q * m == q * m / m * m + q * m % m;
  }

  lemma Monotone(p: int, q: int, m: int)
    requires p <= q && m > 0
    ensures p * m <= q * m
  {}

  lemma RoundedDown(x: int, m: int)
    requires m > 0
    ensures IsFloorMultiple(x / m * m, x, m)
  {
    var q := x / m;
    assert x == q * m + x % m;
    MultipleMod(q, m);
    forall p | p * m <= x ensures p * m <= q * m {
      assert (q + 1) * m == q * m + m;
      MultipleOrder(p, q, m);
      Monotone(p, q, m);
    }
  }

  lemma RoundedUp(x: int, m: int)
    requires m > 0
    ensures IsCeilingMultiple((x + m - 1) / m * m, x, m)
  {
    var y := x + m - 1;
    var q := y / m;
    assert y == q * m + y % m;
    MultipleMod(q, m);
    forall p | x <= p * m ensures q * m <= p * m {
      assert (p + 1) * m == p * m + m;
      MultipleOrder(q, p, m);
      Monotone(q, p, m);
    }
  }

  /** `AlignDown` rounds down to a multiple of the alignment, in every width. */
  lemma AlignDownIsFloor(size: nat, alignment: nat, width: nat)
    requires IsPowerOfTwo(alignment) && alignment < Pow2(width) && size < Pow2(width)
    ensures IsFloorMultiple(AlignDown(size, alignment, width), size, alignment)
  {
    var k := AndPredecessorIsPower(alignment);
    PowerOrder(k, width);
    MaskRoundsDown(size, k, width);
    RoundedDown(size, alignment);
  }

  lemma {:induction false} PowerOrder(j: nat, k: nat)
    ensures 0 < Pow2(j) && (Pow2(j) < Pow2(k) <==> j < k)
    ensures 0 < Pow2(k)
  {
    if j > 0 && k > 0 {
      PowerOrder(j - 1, k - 1);
    } else if j > 0 {
      PowerOrder(j - 1, 0);
    } else if k > 0 {
      PowerOrder(0, k - 1);
    }
  }

  /**
    `Align` rounds up to a multiple of the alignment exactly when the sum does not wrap; a sum that
    wraps gives zero, which is below the size.
   */
  lemma AlignIsCeilingUnlessItWraps(size: nat, alignment: nat, width: nat)
    requires IsPowerOfTwo(alignment) && alignment < Pow2(width) && size < Pow2(width)
    ensures IsCeilingMultiple(Align(size, alignment, width), size, alignment)
       <==> size + alignment - 1 < Pow2(width)
    ensures size + alignment - 1 >= Pow2(width) ==> Align(size, alignment, width) == 0 < size
  {
    if size + alignment - 1 < Pow2(width) {
      AlignRounds(size, alignment, width);
    } else {
      AlignWraps(size, alignment, width);
    }
  }

  lemma AlignRounds(size: nat, alignment: nat, width: nat)
    requires IsPowerOfTwo(alignment) && alignment < Pow2(width) && size + alignment - 1 < Pow2(width)
    ensures IsCeilingMultiple(Align(size, alignment, width), size, alignment)
  {
    var k := AndPredecessorIsPower(alignment);
    PowerOrder(k, width);
    SmallMod(size + alignment - 1, Pow2(width));
    MaskRoundsDown(size + alignment - 1, k, width);
    RoundedUp(size, alignment);
  }

  lemma AlignWraps(size: nat, alignment: nat, width: nat)
    requires IsPowerOfTwo(alignment) && alignment < Pow2(width) && size < Pow2(width)
    requires size + alignment - 1 >= Pow2(width)
    ensures Align(size, alignment, width) == 0 < size
  {
    var k := AndPredecessorIsPower(alignment);
    PowerOrder(k, width);
    var over := size + alignment - 1 - Pow2(width);
    WrappedMod(size + alignment - 1, Pow2(width));
    MaskRoundsDown(over, k, width);
    QuotientIs(over, alignment, 0, over);
  }

  lemma WrappedMod(x: int, m: int)
    requires 0 < m <= x < 2 * m
    ensures x % m == x - m
  {
    QuotientIs(x, m, 1, x - m);
  }

  // ----- Leading zeros and logarithms

  /** The number of zero bits above the highest bit set in a word of `width` bits, bit by bit. */
  function LeadingZeros(x: nat, width: nat): nat
    requires x < Pow2(width)
  {
    if width == 0 || x >= Pow2(width - 1) then 0 else 1 + LeadingZeros(x, width - 1)
  }

  /** `_BitScanReverse`: no result for zero, else the index of the highest bit set. */
  datatype Scan = Nothing | Found(index: nat)

  function BitScanReverse(x: nat): Scan {
    if x == 0 then Nothing else Found(BitLength(x) - 1)
  }

  /** The count for words of up to 32 bits. */
  function CountLeadingZeroBits(x: nat, bits: nat): int {
    match BitScanReverse(x)
    case Found(index) => 31 - index - (32 - bits)
    case Nothing => bits
  }

  /** The count for 64 bits where only 32 can be scanned at once. */
  function CountLeadingZeroBitsSplit(x: nat): int {
    match BitScanReverse(x / 0x1_0000_0000)
    case Found(index) => 31 - index
    case Nothing =>
      match BitScanReverse(x % 0x1_0000_0000)
      case Found(index) => 63 - index
      case Nothing => 64
  }

  lemma {:induction false} BitLengthBounds(x: nat)
    ensures x < Pow2(BitLength(x))
    ensures x > 0 ==> BitLength(x) > 0 && Pow2(BitLength(x) - 1) <= x
  {
    if x > 0 {
      BitLengthBounds(x / 2);
    }
  }

  lemma BitLengthIs(x: nat, k: nat)
    requires Pow2(k) <= x < Pow2(k + 1)
    ensures BitLength(x) == k + 1
  {
    BitLengthBounds(x);
    PowerOrder(k, BitLength(x));
    PowerOrder(BitLength(x) - 1, k + 1);
  }

  lemma {:induction false} LeadingZerosAreTheRest(x: nat, width: nat)
    requires x < Pow2(width)
    ensures LeadingZeros(x, width) + BitLength(x) == width
  {
    if width > 0 {
      if x >= Pow2(width - 1) {
        BitLengthIs(x, width - 1);
      } else {
        LeadingZerosAreTheRest(x, width - 1);
      }
    }
  }

  /** The scan-based count is the bit-by-bit one at every width. */
  lemma CountIsLeadingZeros(x: nat, bits: nat)
    requires x < Pow2(bits)
    ensures CountLeadingZeroBits(x, bits) == LeadingZeros(x, bits)
  {
    LeadingZerosAreTheRest(x, bits);
  }

  lemma {:induction false} BitLengthOfHigh(x: nat, k: nat, high: nat, low: nat)
    requires high > 0 && low < Pow2(k) && x == high * Pow2(k) + low
    ensures BitLength(x) == k + BitLength(high)
  {
    if k > 0 {
      Doubled(high, Pow2(k - 1));
      BitLengthOfHigh(x / 2, k - 1, high, low / 2);
    }
  }

  lemma {:induction false} PowersAdd(j: nat, k: nat)
    ensures Pow2(j + k) == Pow2(j) * Pow2(k)
  {
    if j > 0 {
      PowersAdd(j - 1, k);
    }
  }

  lemma WordSizes()
    ensures Pow2(31) == 0x8000_0000 && Pow2(32) == 0x1_0000_0000
  {
    assert Pow2(8) == 256;
    PowersAdd(8, 8);
    PowersAdd(16, 16);
    assert Pow2(32) == 2 * Pow2(31);
  }

  /** Counting in the two halves of a 64-bit word gives its leading zeros. */
  lemma SplitCountIsLeadingZeros(x: nat)
    requires x < Pow2(64)
    ensures CountLeadingZeroBitsSplit(x) == LeadingZeros(x, 64)
  {
    WordSizes();
    LeadingZerosAreTheRest(x, 64);
    var high, low := x / 0x1_0000_0000, x % 0x1_0000_0000;
    if high > 0 {
      BitLengthOfHigh(x, 32, high, low);
    }
  }

  function Log2Floor(n: nat): int {
    31 - CountLeadingZeroBits(n, 32)
  }

  function Log2Ceiling(n: nat): int {
    (if n != 0 then 32 else -1) - CountLeadingZeroBits((n - 1) % 0x1_0000_0000, 32)
  }

  /** `Log2Floor` is the only `i` with 2^i <= n < 2^(i+1); for zero it is -1. */
  lemma Log2FloorExactly(n: nat, i: nat)
    ensures n > 0 ==> (i == Log2Floor(n) <==> Pow2(i) <= n < Pow2(i + 1))
    ensures Log2Floor(0) == -1
  {
    BitLengthBounds(n);
    if n > 0 && Pow2(i) <= n < Pow2(i + 1) {
      BitLengthIs(n, i);
    }
  }

  /** `Log2Ceiling` is the only `i` with 2^(i-1) < n <= 2^i (doubled, so that `i` may be 0); for zero it is -1. */
  lemma Log2CeilingExactly(n: nat, i: nat)
    requires n < 0x1_0000_0000
    ensures n > 0 ==> (i == Log2Ceiling(n) <==> Pow2(i) < 2 * n && n <= Pow2(i))
    ensures Log2Ceiling(0) == -1
  {
    if n > 0 {
      CeilingIsBitLength(n);
      BitLengthExactly(n - 1, i);
    }
    CeilingOfZero();
  }

  lemma CeilingOfZero()
    ensures Log2Ceiling(0) == -1
  {
    WordSizes();
    BitLengthIs(0xFFFF_FFFF, 31);
  }

  lemma CeilingIsBitLength(n: nat)
    requires 0 < n < 0x1_0000_0000
    ensures Log2Ceiling(n) == BitLength(n - 1)
  {
    SmallMod(n - 1, 0x1_0000_0000);
    if n == 1 {
      assert BitLength(0) == 0;
    }
  }

  lemma BitLengthExactly(x: nat, i: nat)
    ensures i == BitLength(x) <==> Pow2(i) < 2 * (x + 1) && x < Pow2(i)
  {
    BitLengthBounds(x);
    if i > 0 && Pow2(i) < 2 * (x + 1) && x < Pow2(i) {
      BitLengthIs(x, i - 1);
    }
  }
}
