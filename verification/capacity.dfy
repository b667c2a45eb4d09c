/**
  calculateCapacity and the table lengths of the hash map. Java int values
  are modelled as their 32 two's-complement bits (bv32), so that `-`, `|`,
  `>>` and `+` wrap exactly as the JVM's do; the table lengths themselves are
  Dafny ints, linked to the bits by PowerBitsAsInt and IntPowerAsBits.
 */
module Capacity {

  /** Java's `1 << 30`, the largest capacity calculateCapacity returns for a
      non-negative argument. */
  const MaximumCapacity: int := 0x4000_0000

  // ---- Java int bits ----

  /** The sign bit of a Java int. */
  predicate IsNegative(x: bv32) {
    x >= 0x8000_0000
  }

  /** Java's `x >> k` on an int: an arithmetic shift, the sign bit is copied in. */
  function Sar(x: bv32, k: nat): bv32
    requires k < 32
  {
    if IsNegative(x) then !((!x) >> k) else x >> k
  }

  /** The five `x |= x >> k` steps of calculateCapacity. */
  function Smear(y: bv32): bv32 {
    var y1 := y | Sar(y, 1);
    var y2 := y1 | Sar(y1, 2);
    var y4 := y2 | Sar(y2, 4);
    var y8 := y4 | Sar(y4, 8);
    y8 | Sar(y8, 16)
  }

  predicate IsPowerOfTwoBits(r: bv32) {
    r != 0 && r & (r - 1) == 0
  }

  /** calculateCapacity: the signed test against 2^30, the default for 0, and
      otherwise the smallest power of two not below x, computed by smearing
      the bits of x - 1. */
  function CalculateCapacity(x: bv32): bv32 {
    if !IsNegative(x) && x >= 0x4000_0000 then 0x4000_0000
    else if x == 0 then 16
    else Smear(x - 1) + 1
  }

  /** For 0 < x <= 2^30 the result is the least power of two that is at least x. */
  lemma CapacityRoundsUp(x: bv32)
    requires 0 < x <= 0x4000_0000
    ensures var r := CalculateCapacity(x);
      IsPowerOfTwoBits(r) && x <= r && r >> 1 < x
  {
    CapacityIsPowerOfTwo(x);
    CapacityIsAtLeast(x);
    CapacityIsLeast(x);
  }

  lemma CapacityIsPowerOfTwo(x: bv32)
    requires 0 < x <= 0x4000_0000
    ensures IsPowerOfTwoBits(CalculateCapacity(x))
  {
  }

  lemma CapacityIsAtLeast(x: bv32)
    requires 0 < x <= 0x4000_0000
    ensures x <= CalculateCapacity(x)
  {
  }

  lemma CapacityIsLeast(x: bv32)
    requires 0 < x <= 0x4000_0000
    ensures CalculateCapacity(x) >> 1 < x
  {
  }

  /** A negative argument wraps: MIN_VALUE maps to itself, every other
      negative value to 0. */
  lemma CapacityOfNegative(x: bv32)
    requires IsNegative(x)
    ensures CalculateCapacity(x) == if x == 0x8000_0000 then 0x8000_0000 else 0
  {
  }

  // ---- powers of two as ints ----

  predicate IsPowerOfTwo(n: int)
    decreases n
  {
    n == 1 || (n > 1 && n % 2 == 0 && IsPowerOfTwo(n / 2))
  }

  // bit facts, each closed by the bit-vector decision procedure

  lemma HalfOfPowerBits(r: bv32)
    requires IsPowerOfTwoBits(r) && 1 < r <= 0x4000_0000
    ensures IsPowerOfTwoBits(r >> 1) && r >> 1 <= 0x2000_0000 && (r >> 1) << 1 == r
  {
  }

  lemma DoubleBitsAsInt(h: bv32)
    requires h < 0x8000_0000
    ensures (h << 1) as int == 2 * (h as int)
  {
  }

  lemma BitsBoundAsInt(r: bv32)
    requires r <= 0x4000_0000
    ensures r as int <= MaximumCapacity
  {
    var gap := 0x4000_0000 - r;
    assert gap + r == 0x4000_0000;
  }

  lemma IntBoundAsBits(r: bv32)
    requires r as int <= 0x2000_0000
    ensures r <= 0x2000_0000
  {
  }

  lemma BitsThroughInt(b: bv32)
    ensures (b as int) as bv32 == b
  {
  }

  lemma DoublePowerBits(h: bv32)
    requires IsPowerOfTwoBits(h) && h <= 0x2000_0000
    ensures IsPowerOfTwoBits(h << 1) && h << 1 <= 0x4000_0000
  {
  }

  /** A power of two the bits can hold is a power of two as an int. */
  lemma {:induction false} PowerBitsAsInt(r: bv32)
    requires IsPowerOfTwoBits(r) && r <= 0x4000_0000
    ensures IsPowerOfTwo(r as int) && 1 <= r as int <= MaximumCapacity
    decreases r as int
  {
    BitsBoundAsInt(r);
    if r == 1 {
    } else {
      var h := r >> 1;
      HalfOfPowerBits(r);
      DoubleBitsAsInt(h);
      BitsThroughInt(h);
      assert h as int != 0;
      PowerBitsAsInt(h);
      assert (r as int) / 2 == h as int;
    }
  }

  /** ... and back: its bits are its value, and a power of two. */
  lemma {:induction false} IntPowerAsBits(n: int)
    requires IsPowerOfTwo(n) && n <= 0x2000_0000
    ensures (n as bv32) as int == n && IsPowerOfTwoBits(n as bv32) && n as bv32 <= 0x2000_0000
    decreases n
  {
    if n == 1 {
    } else {
      var m := n / 2;
      IntPowerAsBits(m);
      var h := m as bv32;
      DoublePowerBits(h);
      DoubleBitsAsInt(h);
      BitsThroughInt(h << 1);
      assert n as bv32 == h << 1;
      IntBoundAsBits(n as bv32);
    }
  }

  /** A power of two that lies between x and 2x - 1 is x itself. */
  lemma PowerSandwich(x: bv32, r: bv32)
    requires IsPowerOfTwoBits(x) && IsPowerOfTwoBits(r) && x <= r && r >> 1 < x
    ensures r == x
  {
  }

  lemma CapacityIsPowerBits(capacity: bv32)
    requires !IsNegative(capacity)
    ensures IsPowerOfTwoBits(CalculateCapacity(capacity)) && CalculateCapacity(capacity) <= 0x4000_0000
  {
    if 0 < capacity < 0x4000_0000 {
      CapacityRoundsUp(capacity);
      CapacityBelowMaximum(capacity);
    }
  }

  lemma CapacityBelowMaximum(x: bv32)
    requires 0 < x < 0x4000_0000 && IsPowerOfTwoBits(CalculateCapacity(x)) && CalculateCapacity(x) >> 1 < x
    ensures CalculateCapacity(x) <= 0x4000_0000
  {
  }

  // ---- table lengths ----

  /** The table length init allocates for a non-negative capacity. */
  function TableLength(capacity: bv32): (n: int)
    requires !IsNegative(capacity)
    ensures IsPowerOfTwo(n) && 1 <= n <= MaximumCapacity
    ensures capacity == 0 ==> n == 16
    ensures capacity >= 0x4000_0000 ==> n == MaximumCapacity
  {
    var r := CalculateCapacity(capacity);
    CapacityIsPowerBits(capacity);
    PowerBitsAsInt(r);
    r as int
  }

  /** The length is calculateCapacity's result, read as an int. */
  lemma TableLengthIsCapacity(capacity: bv32)
    requires !IsNegative(capacity)
    ensures TableLength(capacity) as bv32 == CalculateCapacity(capacity)
  {
    BitsThroughInt(CalculateCapacity(capacity));
  }

  /** The argument rehash passes to calculateCapacity, as a Java int. */
  function RehashArgument(len: int): bv32
    requires 0 <= len <= MaximumCapacity
  {
    if len == 0 then 1 else (len as bv32) << 1
  }

  /** The new table length exactly as rehash computes it. */
  function RehashLengthAsWritten(len: int): bv32
    requires 0 <= len <= MaximumCapacity
  {
    CalculateCapacity(RehashArgument(len))
  }

  /** The new table length rehash evidently intends: twice the old one, but
      never beyond 2^30. */
  function RehashLength(len: int): (n: int)
    requires IsPowerOfTwo(len) && len <= MaximumCapacity
    ensures IsPowerOfTwo(n) && len <= n <= MaximumCapacity
    ensures len < MaximumCapacity ==> len < n
  {
    if len < MaximumCapacity then
      MaximumIsPowerOfTwo();
      PowerOfTwoGap(len, MaximumCapacity);
      2 * len
    else len
  }

  /** Doubling a power of two below 2^30 in the bits. */
  lemma DoubledBits(len: int)
    requires IsPowerOfTwo(len) && len <= MaximumCapacity / 2
    ensures var x := RehashArgument(len);
      IsPowerOfTwoBits(x) && 0 < x <= 0x4000_0000 && x as int == 2 * len
  {
    IntPowerAsBits(len);
    var h := len as bv32;
    DoublePowerBits(h);
    DoubleBitsAsInt(h);
  }

  /** Below 2^30 the source computes the corrected length. */
  lemma RehashLengthMatchesSource(len: int)
    requires IsPowerOfTwo(len) && len < MaximumCapacity
    ensures RehashLengthAsWritten(len) as int == RehashLength(len)
  {
    MaximumIsPowerOfTwo();
    PowerOfTwoGap(len, MaximumCapacity);
    DoubledBits(len);
    var x := RehashArgument(len);
    CapacityRoundsUp(x);
    PowerSandwich(x, CalculateCapacity(x));
  }

  lemma {:induction false} DoublePowerOfTwo(n: int)
    requires IsPowerOfTwo(n)
    ensures IsPowerOfTwo(2 * n)
  {
    assert (2 * n) / 2 == n;
  }

  lemma {:induction false} ProductOfPowersOfTwo(a: int, b: int)
    requires IsPowerOfTwo(a) && IsPowerOfTwo(b)
    ensures IsPowerOfTwo(a * b)
    decreases b
  {
    if b > 1 {
      ProductOfPowersOfTwo(a, b / 2);
      assert a * b == 2 * (a * (b / 2));
      DoublePowerOfTwo(a * (b / 2));
    }
  }

  lemma MaximumIsPowerOfTwo()
    ensures IsPowerOfTwo(MaximumCapacity)
  {
    assert IsPowerOfTwo(2);
    ProductOfPowersOfTwo(2, 2);
    ProductOfPowersOfTwo(4, 4);
    ProductOfPowersOfTwo(16, 16);
    ProductOfPowersOfTwo(256, 256);
    ProductOfPowersOfTwo(256, 16);
    ProductOfPowersOfTwo(4096, 4);
    ProductOfPowersOfTwo(65536, 16384);
  }

  /** Two powers of two are a factor of two or more apart. */
  lemma {:induction false} PowerOfTwoGap(n: int, b: int)
    requires IsPowerOfTwo(n) && IsPowerOfTwo(b) && n < b
    ensures 2 * n <= b
    decreases b
  {
    if n > 1 {
      PowerOfTwoGap(n / 2, b / 2);
    }
  }

  /** Finding: at 2^30 the shift `capacity << 1` reaches the sign bit, and
      calculateCapacity hands back MIN_VALUE, a negative array length. */
  lemma RehashOverflowsAtMaximum()
    ensures RehashArgument(MaximumCapacity) == 0x8000_0000
    ensures RehashLengthAsWritten(MaximumCapacity) == 0x8000_0000
    ensures IsNegative(RehashLengthAsWritten(MaximumCapacity))
    ensures IsPowerOfTwo(MaximumCapacity) && RehashLength(MaximumCapacity) == MaximumCapacity
  {
    MaximumIsPowerOfTwo();
  }
}
