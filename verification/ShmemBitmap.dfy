/**
 The bit arithmetic of the shared-memory allocator: one 64-bit word per page, one bit per smallest block,
 seven levels of power-of-two blocks.  A word is modelled as the set of its one bits, so that bitwise and,
 or and complement are set operations and a right shift renumbers the bits.
 */
module ShmemBitmap {

  predicate Within(lo: int, i: int, hi: int) {
    lo <= i < hi
  }

  /** The bits lo to hi - 1. */
  function BitRange(lo: nat, hi: nat): set<nat> {
    set i | lo <= i < hi && Within(lo, i, hi)
  }

  type Word = w: set<nat> | w <= BitRange(0, 64) witness {}

  /** The length of a block of the level, in bits of the page word: 64 at level 0 down to 1 at level 6. */
  function BlockBits(level: nat): (r: nat)
    requires level < 7
    ensures r > 0 && 64 % r == 0
  {
    match level
    case 0 => 64
    case 1 => 32
    case 2 => 16
    case 3 => 8
    case 4 => 4
    case 5 => 2
    case 6 => 1
  }

  /**
   The bits at which a block of the level may start: 0x0000000000000001, 0x0000000100000001,
   0x0001000100010001, 0x0101010101010101, 0x1111111111111111, 0x5555555555555555, 0xFFFFFFFFFFFFFFFF.
   */
  function LevelBlockMask(level: nat): Word
    requires level < 7
  {
    set i | 0 <= i < 64 && Aligned(level, i)
  }

  predicate Aligned(level: nat, b: nat)
    requires level < 7
  {
    b < 64 && b % BlockBits(level) == 0
  }

  /** The bits of the block of the level that starts at bit b: LevelBlockOccupyBitMap[level] << b. */
  function BlockMask(level: nat, b: nat): (m: Word)
    requires level < 7 && Aligned(level, b)
    ensures b in m
  {
    AlignedBlockFits(level, b);
    BitRange(b, b + BlockBits(level))
  }

  lemma AlignedBlockFits(level: nat, b: nat)
    requires level < 7 && Aligned(level, b)
    ensures b + BlockBits(level) <= 64
  {
  }

  predicate FreeAt(w: Word, level: nat, b: nat)
    requires level < 7 && Aligned(level, b)
  {
    w !! BlockMask(level, b)
  }

  function ShiftRight(w: Word, k: nat): Word {
    set i | 0 <= i < 64 && Within(0, i, 64) && i + k in w
  }

  /** The word folded down to a level: one bit per block of that level. */
  function Fold(w: Word, level: nat): Word
    requires 1 <= level < 7
    decreases 6 - level
  {
    if level == 6 then w
    else
      var finer := Fold(w, level + 1);
      (ShiftRight(finer, BlockBits(level + 1)) + finer) * LevelBlockMask(level)
  }

  /** The shift-and-or loop of the allocator computes the fold. */
  method FoldToLevel(w: Word, level: nat) returns (bitmap: Word)
    requires 1 <= level < 7
    ensures bitmap == Fold(w, level)
  {
    bitmap := w;
    var shift := 1;
    var j := 6;
    while j > level
      invariant level <= j <= 6
      invariant bitmap == Fold(w, j)
      invariant shift == BlockBits(j)
    {
      bitmap := (ShiftRight(bitmap, shift) + bitmap) * LevelBlockMask(j - 1);
      shift := shift * 2;
      j := j - 1;
    }
  }

  /** A block is its two halves, which are blocks of the next level. */
  lemma BlockHalves(level: nat, b: nat)
    requires level < 6 && Aligned(level, b)
    ensures BlockBits(level) == 2 * BlockBits(level + 1)
    ensures Aligned(level + 1, b) && Aligned(level + 1, b + BlockBits(level + 1))
    ensures BlockMask(level, b) == BlockMask(level + 1, b) + BlockMask(level + 1, b + BlockBits(level + 1))
  {
    HalvesAlign(level, b);
  }

  lemma HalvesAlign(level: nat, b: nat)
    requires level < 6 && Aligned(level, b)
    ensures BlockBits(level) == 2 * BlockBits(level + 1)
    ensures Aligned(level + 1, b) && Aligned(level + 1, b + BlockBits(level + 1))
  {
    match level {
      case 0 =>
      case 1 =>
      case 2 =>
      case 3 =>
      case 4 =>
      case 5 =>
    }
  }

  /** A bit of the folded word is clear exactly when the whole block it stands for is free. */
  lemma {:induction false} FoldMeaning(w: Word, level: nat, b: nat)
    requires 1 <= level < 7 && Aligned(level, b)
    ensures b !in Fold(w, level) <==> FreeAt(w, level, b)
    decreases 6 - level
  {
    if level < 6 {
      var half := BlockBits(level + 1);
      BlockHalves(level, b);
      FoldMeaning(w, level + 1, b);
      FoldMeaning(w, level + 1, b + half);
      assert b in Fold(w, level) <==> b in Fold(w, level + 1) || b + half in Fold(w, level + 1);
    }
  }

  lemma FoldWithinMask(w: Word, level: nat)
    requires 1 <= level < 7
    ensures Fold(w, level) <= LevelBlockMask(level)
  {
  }

  /** When the folded word is full, no aligned block of the level is free. */
  lemma FullLevelHasNoBlock(w: Word, level: nat, b: nat)
    requires 1 <= level < 7 && Fold(w, level) == LevelBlockMask(level) && Aligned(level, b)
    ensures !FreeAt(w, level, b)
  {
    FoldMeaning(w, level, b);
  }

  /** When it is not, any clear block bit starts a free aligned block. */
  lemma ClearBlockBitIsFree(w: Word, level: nat)
    requires 1 <= level < 7 && Fold(w, level) != LevelBlockMask(level)
    ensures LevelBlockMask(level) - Fold(w, level) != {}
    ensures forall b :: b in LevelBlockMask(level) - Fold(w, level) ==> Aligned(level, b) && FreeAt(w, level, b)
  {
    FoldWithinMask(w, level);
    assert !(LevelBlockMask(level) <= Fold(w, level));
    forall b | b in LevelBlockMask(level) - Fold(w, level) ensures Aligned(level, b) && FreeAt(w, level, b) {
      FoldMeaning(w, level, b);
    }
  }

  /** __builtin_ctzll: the lowest one bit. */
  method Ctz(w: Word) returns (r: nat)
    requires w != {}
    ensures r in w && forall i :: i in w ==> r <= i
  {
    r := 0;
    while r !in w
      invariant r <= 64
      invariant forall i :: i in w ==> r <= i
      decreases 64 - r
    {
      r := r + 1;
    }
  }

  /** Two blocks without a common bit do not overlap as intervals. */
  lemma DisjointBlocksAreDisjointIntervals(l1: nat, b1: nat, l2: nat, b2: nat)
    requires l1 < 7 && l2 < 7 && Aligned(l1, b1) && Aligned(l2, b2)
    requires BlockMask(l1, b1) !! BlockMask(l2, b2)
    ensures b1 + BlockBits(l1) <= b2 || b2 + BlockBits(l2) <= b1
  {
    assert b1 in BlockMask(l1, b1) && b2 in BlockMask(l2, b2);
  }
}
