/**
 The sizes of the shared-memory allocator: which block a request gets, where the blocks lie, and how the
 region is laid out.
 */
module ShmemSizes {
  import opened Common
  import opened ShmemBitmap

  const PAGE_SIZE: nat := 0x10_0000
  const MIN_BLOCK_SIZE: nat := 0x4000
  const HDR_SIZE: nat := 24
  const PADDED_ATOMIC_SIZE: nat := 128
  const FREE_LIST_COUNT: nat := 7
  const TWO_32: nat := 0x1_0000_0000
  const TWO_64: nat := 0x1_0000_0000_0000_0000

  // ------------------------------------------------------------------ sizes and levels

  /** 64 - __builtin_clzll(n): the number of significant bits. */
  function BitLength(n: nat): nat {
    if n == 0 then 0 else 1 + BitLength(n / 2)
  }

  /** __builtin_ctzll on a non-zero number. */
  function TrailingZeros(n: nat): nat
    requires n > 0
  {
    if n % 2 == 1 then 0 else 1 + TrailingZeros(n / 2)
  }

  function NextPowerOfTwo(num: nat): nat {
    if num == 0 || num >= TWO_64 / 2 then 0
    else if num == 1 then 1
    else Pow2(BitLength(num - 1))
  }

  lemma {:induction false} BitLengthBounds(n: nat)
    requires n > 0
    ensures BitLength(n) > 0 && Pow2(BitLength(n) - 1) <= n < Pow2(BitLength(n))
  {
    if n > 1 { BitLengthBounds(n / 2); }
  }

  /** The least power of two that is not below num. */
  lemma NextPowerOfTwoIsLeast(num: nat)
    requires 1 < num < TWO_64 / 2
    ensures num <= NextPowerOfTwo(num) < 2 * num
    ensures NextPowerOfTwo(num) == Pow2(BitLength(num - 1))
  {
    BitLengthBounds(num - 1);
  }

  lemma {:induction false} TrailingZerosOfPow2(k: nat)
    ensures TrailingZeros(Pow2(k)) == k
  {
    if k > 0 { TrailingZerosOfPow2(k - 1); }
  }

  lemma {:induction false} Pow2Strict(j: nat, k: nat)
    requires j < k
    ensures 2 * Pow2(j) <= Pow2(k)
    decreases k
  {
    if j < k - 1 { Pow2Strict(j, k - 1); }
  }

  /** The size of a block of the level in bytes. */
  function Capacity(level: nat): nat
    requires level < 7
  {
    MIN_BLOCK_SIZE * BlockBits(level)
  }

  const MAX_ALLOC: nat := PAGE_SIZE - HDR_SIZE

  function RequiredSize(size: nat): nat {
    if size + HDR_SIZE < MIN_BLOCK_SIZE then MIN_BLOCK_SIZE else NextPowerOfTwo(size + HDR_SIZE)
  }

  function LevelFor(capacity: nat): int
    requires capacity > 0
  {
    TrailingZeros(PAGE_SIZE) - TrailingZeros(capacity)
  }

  lemma CapacityIsPow2(level: nat)
    requires level < 7
    ensures Capacity(level) == Pow2(20 - level)
  {
    assert Pow2(14) == 0x4000 && Pow2(15) == 0x8000 && Pow2(16) == 0x1_0000 && Pow2(17) == 0x2_0000;
    assert Pow2(18) == 0x4_0000 && Pow2(19) == 0x8_0000 && Pow2(20) == 0x10_0000;
  }

  lemma LevelOfCapacity(level: nat)
    requires level < 7
    ensures Capacity(level) > 0 && LevelFor(Capacity(level)) == level
  {
    CapacityIsPow2(0);
    CapacityIsPow2(level);
    TrailingZerosOfPow2(20);
    TrailingZerosOfPow2(20 - level);
  }

  /** The exponent of the next power of two, for requests between the smallest block and a page. */
  lemma ExponentInRange(n: nat)
    requires MIN_BLOCK_SIZE <= n <= PAGE_SIZE
    ensures NextPowerOfTwo(n) == Pow2(BitLength(n - 1)) && n <= NextPowerOfTwo(n) < 2 * n
    ensures 14 <= BitLength(n - 1) <= 20
  {
    NextPowerOfTwoIsLeast(n);
    var k := BitLength(n - 1);
    CapacityIsPow2(0);
    CapacityIsPow2(6);
    if k < 14 { Pow2Strict(k, 14); }
    if k > 20 { Pow2Strict(20, k); }
  }

  /** A supported request gets the smallest level whose blocks hold the header and the requested bytes. */
  lemma RequestFitsItsLevel(size: nat)
    requires size <= MAX_ALLOC
    ensures RequiredSize(size) > 0
    ensures 0 <= LevelFor(RequiredSize(size)) < 7
    ensures Capacity(LevelFor(RequiredSize(size))) == RequiredSize(size)
    ensures HDR_SIZE + size <= RequiredSize(size)
    ensures forall level :: LevelFor(RequiredSize(size)) < level < 7 ==> Capacity(level) < HDR_SIZE + size
  {
    var n := size + HDR_SIZE;
    if n < MIN_BLOCK_SIZE {
      LevelOfCapacity(6);
    } else {
      ExponentInRange(n);
      var k := BitLength(n - 1);
      LevelOfCapacity(20 - k);
      CapacityIsPow2(20 - k);
      forall level | 20 - k < level < 7 ensures Capacity(level) < n {
        CapacityIsPow2(level);
        Pow2Strict(20 - level, k);
      }
    }
  }

  /** The level Free derives from a stored capacity, or None where it returns without doing anything. */
  function FreeLevel(capacity: nat): Option<nat> {
    if capacity < MIN_BLOCK_SIZE || capacity > PAGE_SIZE then None
    else
      var level := LevelFor(capacity);
      if level < 0 || capacity != PAGE_SIZE / Pow2(level) then None else Some(level)
  }

  /** Free recognises the capacities Malloc stores. */
  lemma FreeLevelOf(level: nat)
    requires level < 7
    ensures FreeLevel(Capacity(level)) == Some(level) && Capacity(level) == PAGE_SIZE / Pow2(level)
  {
    LevelOfCapacity(level);
    CapacityIsPow2(level);
    assert Pow2(0) == 1 && Pow2(1) == 2 && Pow2(2) == 4 && Pow2(3) == 8 && Pow2(4) == 16 && Pow2(5) == 32;
    assert Pow2(6) == 64;
  }

  /** And no others. */
  lemma FreeLevelInverts(capacity: nat, level: nat)
    ensures FreeLevel(capacity) == Some(level) <==> level < 7 && capacity == Capacity(level)
  {
    if level < 7 {
      FreeLevelOf(level);
    } else {
      assert Pow2(6) == 64;
      Pow2Strict(6, level);
      TooSmall(Pow2(level));
    }
  }

  lemma TooSmall(p: nat)
    requires p >= 128
    ensures PAGE_SIZE / p < MIN_BLOCK_SIZE
  {
    var q := PAGE_SIZE / p;
    assert q * p <= PAGE_SIZE;
    assert q * 128 <= q * p;
  }

  // ------------------------------------------------------------------ blocks and their places

  datatype RawBlock = Block(page: nat, level: nat, b: nat)
  type Block = x: RawBlock | x.level < 7 && Aligned(x.level, x.b) witness Block(0, 0, 0)

  function MaskOf(x: Block): Word {
    BlockMask(x.level, x.b)
  }

  /** The offset of a block: a product of 32-bit unsigned numbers, so it is reduced modulo 2^32. */
  function Shift(x: Block): nat {
    (PAGE_SIZE * x.page + MIN_BLOCK_SIZE * x.b) % TWO_32
  }

  function PageOfShift(shift: nat): nat {
    shift / PAGE_SIZE
  }

  function BitOfShift(shift: nat): int {
    shift / MIN_BLOCK_SIZE - PageOfShift(shift) * 64
  }

  /** Up to 4096 pages no offset wraps, the page and the bit are read back from the offset, and the block
      lies inside the pages. */
  lemma ShiftInverts(x: Block, pageCount: nat)
    requires x.page < pageCount <= 4096
    ensures Shift(x) == PAGE_SIZE * x.page + MIN_BLOCK_SIZE * x.b
    ensures PageOfShift(Shift(x)) == x.page && BitOfShift(Shift(x)) == x.b
    ensures Shift(x) + Capacity(x.level) <= PAGE_SIZE * pageCount
  {
    AlignedBlockFits(x.level, x.b);
    assert x.page <= pageCount - 1;
  }

  /** A block is aligned to its size. */
  lemma ShiftAligned(x: Block, pageCount: nat) returns (k: nat)
    requires x.page < pageCount <= 4096
    ensures Shift(x) == k * Capacity(x.level)
  {
    ShiftInverts(x, pageCount);
    var bits := BlockBits(x.level);
    var perPage, j := 64 / bits, x.b / bits;
    assert 64 == bits * perPage && x.b == bits * j;
    k := perPage * x.page + j;
    calc {
      k * (MIN_BLOCK_SIZE * bits);
      MIN_BLOCK_SIZE * ((bits * perPage) * x.page + bits * j);
    }
  }

  /** The 32-bit product is the reason for the bound: the offsets of all pages are distinct if and only if
      there are at most 4096 pages. */
  lemma ShiftsDistinctIff(pageCount: nat)
    ensures pageCount <= 4096 <==>
            forall x: Block, y: Block :: x.page < pageCount && y.page < pageCount && Shift(x) == Shift(y) ==>
              x.page == y.page && x.b == y.b
  {
    if pageCount <= 4096 {
      forall x: Block, y: Block | x.page < pageCount && y.page < pageCount && Shift(x) == Shift(y)
        ensures x.page == y.page && x.b == y.b
      {
        ShiftInverts(x, pageCount);
        ShiftInverts(y, pageCount);
      }
    } else {
      var x: Block, y: Block := Block(0, 0, 0), Block(4096, 0, 0);
      assert Shift(x) == Shift(y) == 0;
    }
  }

  /** Blocks without a common bit occupy disjoint stretches of bytes. */
  lemma DisjointBlocksDisjointBytes(x: Block, y: Block, pageCount: nat)
    requires x.page < pageCount <= 4096 && y.page < pageCount
    requires x.page != y.page || MaskOf(x) !! MaskOf(y)
    ensures Shift(x) + Capacity(x.level) <= Shift(y) || Shift(y) + Capacity(y.level) <= Shift(x)
  {
    ShiftInverts(x, pageCount);
    ShiftInverts(y, pageCount);
    AlignedBlockFits(x.level, x.b);
    AlignedBlockFits(y.level, y.b);
    if x.page == y.page { DisjointBlocksAreDisjointIntervals(x.level, x.b, y.level, y.b); }
  }

  // ------------------------------------------------------------------ the layout of the region

  const CONTROL_SIZE: nat := PADDED_ATOMIC_SIZE * (1 + FREE_LIST_COUNT)

  /** The number of pages Init finds room for: unsigned 64-bit subtraction and division, cut to 32 bits. */
  function PageCount(size: nat): nat
    requires size < TWO_64
  {
    (size + TWO_64 - CONTROL_SIZE) % TWO_64 / (PADDED_ATOMIC_SIZE + PAGE_SIZE) % TWO_32
  }

  /** Where the pages start and end in the region. */
  function SpaceBase(pageCount: nat): nat {
    CONTROL_SIZE + PADDED_ATOMIC_SIZE * pageCount
  }

  /** The counter, the hints, the page words and the pages fit into the region if and only if the region holds at
      least the control block: below that the subtraction wraps and Init believes to have pages. */
  lemma RegionFitsIff(size: nat)
    requires size < TWO_64
    ensures SpaceBase(PageCount(size)) + PAGE_SIZE * PageCount(size) <= size <==> size >= CONTROL_SIZE
    ensures size < CONTROL_SIZE ==> PageCount(size) > 0
  {
    var unit := PADDED_ATOMIC_SIZE + PAGE_SIZE;
    var n := PageCount(size);
    assert SpaceBase(n) + PAGE_SIZE * n == CONTROL_SIZE + unit * n;
    if size >= CONTROL_SIZE {
      assert (size + TWO_64 - CONTROL_SIZE) % TWO_64 == size - CONTROL_SIZE;
      assert unit * ((size - CONTROL_SIZE) / unit) <= size - CONTROL_SIZE;
      assert n <= (size - CONTROL_SIZE) / unit;
    }
  }
}
