/**
 The shared-memory allocator run by one process: Malloc and Free with their two scans, the page words and the
 free-list hints in arrays.
 */
module ShmemHeap {
  import opened Common
  import opened ShmemBitmap
  import opened ShmemSizes
  import opened ShmemAllocator

  /** No page has a free aligned block of the level. */
  ghost predicate Exhausted(words: seq<Word>, level: nat)
    requires level < 7
  {
    forall page, b :: 0 <= page < |words| && Aligned(level, b) ==> !FreeAt(words[page], level, b)
  }

  ghost predicate PageExhausted(word: Word, level: nat)
    requires level < 7
  {
    forall b :: Aligned(level, b) ==> !FreeAt(word, level, b)
  }

  /** Looks for a block of the level in one page word. */
  method PickBlock(word: Word, level: nat) returns (b: Option<nat>)
    requires level < 7
    ensures b.Some? ==> Picks(word, level, b.value) && Aligned(level, b.value) && FreeAt(word, level, b.value)
    ensures b.None? <==> PageExhausted(word, level)
  {
    if level == 0 {
      if word != {} {
        WholePageInUse(word);
        return None;
      }
      assert Aligned(0, 0) && FreeAt(word, 0, 0);
      return Some(0);
    }
    var bitmap := FoldToLevel(word, level);
    if bitmap == LevelBlockMask(level) {
      forall c | Aligned(level, c) ensures !FreeAt(word, level, c) { FullLevelHasNoBlock(word, level, c); }
      return None;
    }
    ClearBlockBitIsFree(word, level);
    var first := Ctz(LevelBlockMask(level) - bitmap);
    return Some(first);
  }

  lemma WholePageInUse(word: Word)
    requires word != {}
    ensures PageExhausted(word, 0)
  {
    var i :| i in word;
    assert i in BitRange(0, 64);
    assert i in BlockMask(0, 0);
  }

  class Allocator {
    const words: array<Word>
    const hints: array<nat>
    var hdr: map<nat, Header>

    ghost predicate Valid()
      reads hints
    {
      words.Length < TWO_32 && hints.Length == 7 && forall i :: 0 <= i < 7 ==> hints[i] < TWO_64
    }

    constructor (pageCount: nat)
      requires pageCount < TWO_32
      ensures Valid() && fresh(words) && fresh(hints) && words.Length == pageCount
      ensures forall i :: 0 <= i < pageCount ==> words[i] == {}
    {
      words := new Word[pageCount](_ => {});
      hints := new nat[7](_ => 0);
      hdr := map[];
    }

    /** The hint a successful Malloc leaves behind; hints only choose where the next scan starts. */
    method RenewHint(level: nat, first: bool, start: nat, page: nat, full: bool)
      requires Valid() && level < 7 && page < words.Length
      modifies hints
      ensures Valid() && forall i :: 0 <= i < 7 && i != level ==> hints[i] == old(hints[i])
      ensures hints[level] in {old(hints[level]), page, if full then page + 1 else page}
      ensures !first && !full ==> hints[level] <= page && hints[level] <= old(hints[level])
    {
      if first {
        if (full || page != start) && hints[level] == start {
          hints[level] := if full then page + 1 else page;
        }
      } else if !full && hints[level] > page {
        hints[level] := page;
      }
    }

    /** One scan over the pages from start to the end. */
    method Scan(size: nat, first: bool, start: nat) returns (r: nat, ghost x: Block)
      requires Valid() && size <= MAX_ALLOC && start < TWO_64
      modifies this, words, hints
      ensures Valid()
      ensures r == 0 ==>
        && words[..] == old(words[..]) && hdr == old(hdr)
        && forall i :: start % TWO_32 <= i < words.Length ==> PageExhausted(words[i], LevelOf(size))
      ensures r != 0 ==> Allocated(old(words[..]), old(hdr), words[..], hdr, size, r, x)
    {
      var requiredSize, level := RequiredSize(size), LevelOf(size);
      var page := start % TWO_32;
      r, x := 0, Block(0, 0, 0);
      while page < words.Length
        invariant Valid() && words[..] == old(words[..]) && hdr == old(hdr)
        invariant forall i :: start % TWO_32 <= i < page && i < words.Length ==> PageExhausted(words[i], level)
      {
        var b := PickBlock(words[page], level);
        if b.Some? {
          x := Block(page, level, b.value);
          var shift := (PAGE_SIZE * page + MIN_BLOCK_SIZE * b.value) % TWO_32;
          var full := level != 0 && shift + requiredSize == PAGE_SIZE;
          words[page] := words[page] + BlockMask(level, b.value);
          assert words[..] == old(words[..])[page := old(words[..])[page] + MaskOf(x)];
          RenewHint(level, first, start, page, full);
          hdr := hdr[shift := Header(size, requiredSize)];
          r := shift + HDR_SIZE;
          return;
        }
        page := page + 1;
      }
    }

    /** Malloc fails exactly when the request is too large or no page has a free aligned block of its level,
        whatever the hints say; otherwise it sets the bits of one free block and fills in its header. */
    method Malloc(size: nat) returns (r: nat, ghost x: Block)
      requires Valid()
      modifies this, words, hints
      ensures Valid()
      ensures r == 0 <==> size > MAX_ALLOC || Exhausted(old(words[..]), LevelOf(size))
      ensures r == 0 ==> words[..] == old(words[..]) && hdr == old(hdr)
      ensures r != 0 ==> Allocated(old(words[..]), old(hdr), words[..], hdr, size, r, x)
    {
      if size > MAX_ALLOC {
        return 0, Block(0, 0, 0);
      }
      r, x := Scan(size, true, hints[LevelOf(size)]);
      if r == 0 {
        r, x := Scan(size, false, 0);
      }
      if r != 0 {
        assert FreeAt(old(words[..])[x.page], x.level, x.b);
      }
    }

    /** Free clears the bits of the block it is called on and lets the next scan of the level start no later
        than its page; it does nothing when the header is not one that Malloc writes. */
    method Free(shift: nat, ghost x: Block)
      requires Valid() && x.page < words.Length <= 4096 && shift == Shift(x) + HDR_SIZE && Shift(x) in hdr
      requires FreeLevel(hdr[Shift(x)].capacity).Some? ==> hdr[Shift(x)].capacity == Capacity(x.level)
      modifies words, hints
      ensures Valid()
      ensures FreeLevel(hdr[Shift(x)].capacity).None? ==> words[..] == old(words[..])
      ensures FreeLevel(hdr[Shift(x)].capacity).Some? ==>
                words[..] == old(words[..])[x.page := old(words[..])[x.page] - MaskOf(x)] && hints[x.level] <= x.page
    {
      var start := shift - HDR_SIZE;
      var capacity := hdr[start].capacity;
      var freed := FreeLevel(capacity);
      if freed.None? {
        return;
      }
      FreeLevelOf(x.level);
      ShiftInverts(x, words.Length);
      var page := start / PAGE_SIZE;
      var block := start / MIN_BLOCK_SIZE - page * 64;
      words[page] := words[page] - BlockMask(freed.value, block);
      assert words[..] == old(words[..])[x.page := old(words[..])[x.page] - MaskOf(x)];
      if hints[freed.value] > page {
        hints[freed.value] := page;
      }
    }
  }

  /** What a successful Malloc did: one block of the right level, free before and taken now, nothing else. */
  ghost predicate Allocated(before: seq<Word>, hdr: map<nat, Header>, after: seq<Word>, hdr': map<nat, Header>,
                            size: nat, r: nat, x: Block)
    requires size <= MAX_ALLOC
  {
    && x.page < |before| && x.level == LevelOf(size) && r == Shift(x) + HDR_SIZE
    && before[x.page] !! MaskOf(x) && after == before[x.page := before[x.page] + MaskOf(x)]
    && hdr' == hdr[Shift(x) := Header(size, Capacity(x.level))]
  }

  /** Freeing what Malloc returned puts every page word back. */
  lemma FreeUndoesMalloc(before: seq<Word>, hdr: map<nat, Header>, after: seq<Word>, hdr': map<nat, Header>,
                         size: nat, r: nat, x: Block)
    requires |before| <= 4096 && size <= MAX_ALLOC && Allocated(before, hdr, after, hdr', size, r, x)
    ensures Shift(x) in hdr' && FreedBits(r - HDR_SIZE, hdr'[Shift(x)].capacity) == Some((x.page, MaskOf(x)))
    ensures after[x.page := after[x.page] - MaskOf(x)] == before
  {
    FreeFindsItsBlock(x, |before|);
    assert before[x.page] + MaskOf(x) - MaskOf(x) == before[x.page];
  }
}
