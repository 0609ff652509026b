/**
 The shared-memory allocator under concurrency: any number of processes run Malloc and Free at the same time,
 one atomic access to a page word or one access to a block header per step.  Which page a scan visits next is
 left open, so that every value of the free-list hints is covered.
 */
module ShmemAllocator {
  import opened Common
  import opened ShmemBitmap
  import opened ShmemSizes

  datatype Header = Header(size: nat, capacity: nat)

  /** What a process is doing.  Freeing remembers which block the caller handed in beside what the code reads. */
  datatype Pc =
    | Idle
    | Scanning(size: nat, page: nat, bitmap: Word)
    | Claimed(size: nat, block: Block)
    | Freeing(block: Block, shift: nat, capacity: nat)

  /** live: blocks whose bits were set and not yet cleared; ready: those handed to a caller, with their size. */
  datatype State = State(
    words: seq<Word>,
    hdr: map<nat, Header>,
    procs: map<nat, Pc>,
    live: set<Block>,
    ready: map<Block, nat>)

  datatype Step =
    | Load(p: nat, size: nat, page: nat)
    | GiveUp(p: nat)
    | CompareExchange(p: nat, b: nat)
    | WriteHeader(p: nat)
    | ReadHeader(p: nat, block: Block)
    | ClearBits(p: nat)

  function LevelOf(size: nat): (level: nat)
    requires size <= MAX_ALLOC
    ensures level < 7 && Capacity(level) == RequiredSize(size) && HDR_SIZE + size <= Capacity(level)
  {
    RequestFitsItsLevel(size);
    LevelFor(RequiredSize(size))
  }

  /** The block bit the code derives from the word it read: the whole page at level 0, otherwise the lowest
      clear bit of the folded word; no bit at all when the page is in use, or full at the level. */
  predicate Picks(bitmap: Word, level: nat, b: nat)
    requires level < 7
  {
    if level == 0 then bitmap == {} && b == 0
    else
      && Fold(bitmap, level) != LevelBlockMask(level)
      && b in LevelBlockMask(level) - Fold(bitmap, level)
      && forall c :: c in LevelBlockMask(level) - Fold(bitmap, level) ==> b <= c
  }

  /** The block picked is aligned, and free in the word it was picked from. */
  lemma PickIsFree(bitmap: Word, level: nat, b: nat)
    requires level < 7 && Picks(bitmap, level, b)
    ensures Aligned(level, b) && FreeAt(bitmap, level, b)
  {
    if level > 0 { ClearBlockBitIsFree(bitmap, level); }
  }

  predicate Init(s: State) {
    && |s.words| <= 4096 && (forall i :: 0 <= i < |s.words| ==> s.words[i] == {})
    && (forall p :: p in s.procs ==> s.procs[p] == Idle) && s.live == {} && s.ready == map[]
  }

  /** Malloc reads the word of a page, the first or the next one of its scan. */
  predicate LoadStep(s: State, t: State, p: nat, size: nat, page: nat) {
    && p in s.procs && size <= MAX_ALLOC && page < |s.words|
    && (s.procs[p].Idle? || (s.procs[p].Scanning? && s.procs[p].size == size))
    && t == s.(procs := s.procs[p := Scanning(size, page, s.words[page])])
  }

  predicate GiveUpStep(s: State, t: State, p: nat) {
    p in s.procs && s.procs[p].Scanning? && t == s.(procs := s.procs[p := Idle])
  }

  /** Malloc's compare-and-exchange: it sets the bits of the block, or hands back the word it found. */
  predicate CompareExchangeStep(s: State, t: State, p: nat, b: nat) {
    && p in s.procs && s.procs[p].Scanning? && s.procs[p].size <= MAX_ALLOC && s.procs[p].page < |s.words|
    && var size, page, bitmap := s.procs[p].size, s.procs[p].page, s.procs[p].bitmap;
    && Picks(bitmap, LevelOf(size), b)
    && if s.words[page] != bitmap then t == s.(procs := s.procs[p := Scanning(size, page, s.words[page])])
       else
         PickIsFree(bitmap, LevelOf(size), b);
         var x := Block(page, LevelOf(size), b);
         t == s.(words := s.words[page := s.words[page] + MaskOf(x)], live := s.live + {x},
                 procs := s.procs[p := Claimed(size, x)])
  }

  /** Malloc fills in the header and returns. */
  predicate WriteHeaderStep(s: State, t: State, p: nat) {
    && p in s.procs && s.procs[p].Claimed?
    && var size, x := s.procs[p].size, s.procs[p].block;
    t == s.(hdr := s.hdr[Shift(x) := Header(size, RequiredSize(size))], ready := s.ready[x := size],
            procs := s.procs[p := Idle])
  }

  /** Free, called on a block that Malloc returned and nobody freed since, reads the stored capacity. */
  predicate ReadHeaderStep(s: State, t: State, p: nat, x: Block) {
    && p in s.procs && s.procs[p].Idle? && x in s.ready && Shift(x) in s.hdr
    && t == s.(ready := s.ready - {x}, procs := s.procs[p := Freeing(x, Shift(x), s.hdr[Shift(x)].capacity)])
  }

  /** What Free clears, worked out from the offset and the capacity; None where it returns early. */
  function FreedBits(shift: nat, capacity: nat): Option<(nat, Word)> {
    var level := FreeLevel(capacity);
    if level.None? || level.value >= 7 then None
    else if BitOfShift(shift) < 0 || !Aligned(level.value, BitOfShift(shift)) then None
    else Some((PageOfShift(shift), BlockMask(level.value, BitOfShift(shift))))
  }

  predicate ClearBitsStep(s: State, t: State, p: nat) {
    && p in s.procs && s.procs[p].Freeing?
    && var bits := FreedBits(s.procs[p].shift, s.procs[p].capacity);
    if bits.None? || bits.value.0 >= |s.words| then t == s.(procs := s.procs[p := Idle])
    else
      var page := bits.value.0;
      t == s.(words := s.words[page := s.words[page] - bits.value.1], live := s.live - {s.procs[p].block},
              procs := s.procs[p := Idle])
  }

  predicate NextStep(s: State, t: State, step: Step) {
    match step
    case Load(p, size, page) => LoadStep(s, t, p, size, page)
    case GiveUp(p) => GiveUpStep(s, t, p)
    case CompareExchange(p, b) => CompareExchangeStep(s, t, p, b)
    case WriteHeader(p) => WriteHeaderStep(s, t, p)
    case ReadHeader(p, x) => ReadHeaderStep(s, t, p, x)
    case ClearBits(p) => ClearBitsStep(s, t, p)
  }

  ghost predicate Next(s: State, t: State) {
    exists step :: NextStep(s, t, step)
  }

  ghost predicate Run(states: seq<State>) {
    && |states| > 0 && Init(states[0])
    && forall i :: 0 <= i < |states| - 1 ==> Next(states[i], states[i + 1])
  }

  // ------------------------------------------------------------------ the invariant

  ghost predicate Covered(live: set<Block>, page: nat, i: nat) {
    exists x :: x in live && x.page == page && i in MaskOf(x)
  }

  /** A bit of a page word is one exactly when a live block of that page covers it. */
  ghost predicate BitsOk(words: seq<Word>, live: set<Block>) {
    && |words| <= 4096
    && (forall x :: x in live ==> x.page < |words|)
    && forall page, i :: 0 <= page < |words| ==> (i in words[page] <==> Covered(live, page, i))
  }

  ghost predicate Apart(live: set<Block>) {
    forall x, y :: x in live && y in live && x != y && x.page == y.page ==> MaskOf(x) !! MaskOf(y)
  }

  predicate Holds(pc: Pc, x: Block) {
    (pc.Claimed? || pc.Freeing?) && pc.block == x
  }

  ghost predicate Held(procs: map<nat, Pc>, x: Block) {
    exists p :: p in procs && Holds(procs[p], x)
  }

  /** Every live block is with exactly one owner: its caller, or the one process claiming or freeing it. */
  ghost predicate OwnersOk(live: set<Block>, ready: set<Block>, procs: map<nat, Pc>) {
    && (forall x :: x in live <==> x in ready || Held(procs, x))
    && (forall p, x :: p in procs && x in ready ==> !Holds(procs[p], x))
    && (forall p, q, x :: p in procs && q in procs && Holds(procs[p], x) && Holds(procs[q], x) ==> p == q)
  }

  /** Headers of handed-out blocks say what Free will need, and the block holds header and data. */
  ghost predicate HeadersOk(hdr: map<nat, Header>, ready: map<Block, nat>) {
    forall x :: x in ready ==>
      && Shift(x) in hdr && hdr[Shift(x)] == Header(ready[x], Capacity(x.level))
      && HDR_SIZE + ready[x] <= Capacity(x.level)
  }

  predicate PcOk(pageCount: nat, pc: Pc) {
    match pc
    case Idle => true
    case Scanning(size, page, _) => size <= MAX_ALLOC && page < pageCount
    case Claimed(size, x) => size <= MAX_ALLOC && x.level == LevelOf(size)
    case Freeing(x, shift, capacity) => shift == Shift(x) && capacity == Capacity(x.level)
  }

  ghost predicate PcsOk(pageCount: nat, procs: map<nat, Pc>) {
    forall p :: p in procs ==> PcOk(pageCount, procs[p])
  }

  ghost predicate Inv(s: State) {
    && BitsOk(s.words, s.live) && Apart(s.live) && OwnersOk(s.live, s.ready.Keys, s.procs)
    && HeadersOk(s.hdr, s.ready) && PcsOk(|s.words|, s.procs)
  }

  lemma InitOk(s: State)
    requires Init(s)
    ensures Inv(s)
  {
  }

  // ------------------------------------------------------------------ every step keeps it

  /** A process that holds no block before and after changes nothing about ownership. */
  lemma IdleMoveKeeps(s: State, t: State, p: nat, pc: Pc)
    requires Inv(s) && p in s.procs && (s.procs[p].Idle? || s.procs[p].Scanning?)
    requires (pc.Idle? || pc.Scanning?) && PcOk(|s.words|, pc)
    requires t == s.(procs := s.procs[p := pc])
    ensures Inv(t)
  {
    assert forall q, x :: q in t.procs && Holds(t.procs[q], x) ==> q in s.procs && Holds(s.procs[q], x);
    assert forall q, x :: q in s.procs && Holds(s.procs[q], x) ==> q in t.procs && Holds(t.procs[q], x);
    assert forall x :: Held(t.procs, x) <==> Held(s.procs, x);
  }

  /** A block whose bits are all clear is disjoint from every live block of its page. */
  lemma FreeBlockIsApart(words: seq<Word>, live: set<Block>, x: Block)
    requires BitsOk(words, live) && x.page < |words| && words[x.page] !! MaskOf(x)
    ensures forall y :: y in live && y.page == x.page ==> MaskOf(x) !! MaskOf(y)
    ensures x !in live
  {
    forall y, i | y in live && y.page == x.page && i in MaskOf(y) ensures i !in MaskOf(x) {
      assert Covered(live, x.page, i);
    }
    assert x.b in MaskOf(x);
  }

  lemma SetBitsKeeps(words: seq<Word>, live: set<Block>, x: Block)
    requires BitsOk(words, live) && Apart(live) && x.page < |words| && words[x.page] !! MaskOf(x)
    ensures BitsOk(words[x.page := words[x.page] + MaskOf(x)], live + {x}) && Apart(live + {x})
  {
    FreeBlockIsApart(words, live, x);
    var words', live' := words[x.page := words[x.page] + MaskOf(x)], live + {x};
    forall page, i | 0 <= page < |words| ensures i in words'[page] <==> Covered(live', page, i) {
      assert Covered(live', page, i) <==> Covered(live, page, i) || (x.page == page && i in MaskOf(x));
    }
  }

  lemma ClearBitsKeeps(words: seq<Word>, live: set<Block>, x: Block)
    requires BitsOk(words, live) && Apart(live) && x in live
    ensures BitsOk(words[x.page := words[x.page] - MaskOf(x)], live - {x}) && Apart(live - {x})
  {
    var words', live' := words[x.page := words[x.page] - MaskOf(x)], live - {x};
    forall page, i | 0 <= page < |words| ensures i in words'[page] <==> Covered(live', page, i) {
      if i in words'[page] {
        var y :| y in live && y.page == page && i in MaskOf(y);
        assert y in live';
      }
    }
  }

  lemma CompareExchangeKeeps(s: State, t: State, p: nat, b: nat)
    requires Inv(s) && CompareExchangeStep(s, t, p, b)
    ensures Inv(t)
  {
    var size, page, bitmap := s.procs[p].size, s.procs[p].page, s.procs[p].bitmap;
    if s.words[page] != bitmap {
      IdleMoveKeeps(s, t, p, Scanning(size, page, s.words[page]));
    } else {
      PickIsFree(bitmap, LevelOf(size), b);
      var x := Block(page, LevelOf(size), b);
      SetBitsKeeps(s.words, s.live, x);
      FreeBlockIsApart(s.words, s.live, x);
      ClaimOwns(s.live, s.ready.Keys, s.procs, p, Claimed(size, x));
    }
  }

  lemma ClaimOwns(live: set<Block>, ready: set<Block>, procs: map<nat, Pc>, p: nat, pc: Pc)
    requires OwnersOk(live, ready, procs) && p in procs && procs[p].Scanning? && pc.Claimed? && pc.block !in live
    ensures OwnersOk(live + {pc.block}, ready, procs[p := pc])
  {
    var procs' := procs[p := pc];
    assert Holds(procs'[p], pc.block);
    assert forall q, y :: q in procs && Holds(procs[q], y) ==> Held(procs, y) && Holds(procs'[q], y);
    assert forall q, y :: q in procs' && Holds(procs'[q], y) && q != p ==> Holds(procs[q], y);
  }

  /** Ownership passes from the process to the caller, or from the caller to the process. */
  lemma HandOver(live: set<Block>, ready: set<Block>, procs: map<nat, Pc>, p: nat, x: Block)
    requires OwnersOk(live, ready, procs) && p in procs && Holds(procs[p], x)
    ensures OwnersOk(live, ready + {x}, procs[p := Idle])
    ensures OwnersOk(live - {x}, ready, procs[p := Idle])
    ensures x in live && x !in ready
  {
    var procs' := procs[p := Idle];
    assert forall q, y :: q in procs' && Holds(procs'[q], y) ==> q != p && Holds(procs[q], y) && y != x;
    assert forall q, y :: q in procs && Holds(procs[q], y) && q != p ==> Holds(procs'[q], y);
  }

  lemma TakeBack(live: set<Block>, ready: set<Block>, procs: map<nat, Pc>, p: nat, pc: Pc)
    requires OwnersOk(live, ready, procs) && p in procs && procs[p].Idle? && pc.Freeing? && pc.block in ready
    ensures OwnersOk(live, ready - {pc.block}, procs[p := pc])
  {
    var procs' := procs[p := pc];
    assert Holds(procs'[p], pc.block);
    assert forall q, y :: q in procs && Holds(procs[q], y) ==> q != p && Holds(procs'[q], y) && y != pc.block;
    assert forall q, y :: q in procs' && Holds(procs'[q], y) && q != p ==> Holds(procs[q], y);
  }

  lemma WriteHeaderKeeps(s: State, t: State, p: nat)
    requires Inv(s) && WriteHeaderStep(s, t, p)
    ensures Inv(t)
  {
    var size, x := s.procs[p].size, s.procs[p].block;
    HandOver(s.live, s.ready.Keys, s.procs, p, x);
    assert t.ready.Keys == s.ready.Keys + {x};
    forall y | y in s.ready ensures Shift(y) != Shift(x) {
      OffsetsDiffer(s, x, y);
    }
  }

  lemma OffsetsDiffer(s: State, x: Block, y: Block)
    requires BitsOk(s.words, s.live) && Apart(s.live) && x in s.live && y in s.live && x != y
    ensures Shift(x) != Shift(y)
  {
    ShiftInverts(x, |s.words|);
    ShiftInverts(y, |s.words|);
    assert x.b in MaskOf(x) && y.b in MaskOf(y);
  }

  lemma ReadHeaderKeeps(s: State, t: State, p: nat, x: Block)
    requires Inv(s) && ReadHeaderStep(s, t, p, x)
    ensures Inv(t)
  {
    TakeBack(s.live, s.ready.Keys, s.procs, p, t.procs[p]);
    assert t.ready.Keys == s.ready.Keys - {x};
  }

  /** Free clears exactly the bits of the block it was called on. */
  lemma FreeFindsItsBlock(x: Block, pageCount: nat)
    requires x.page < pageCount <= 4096
    ensures FreedBits(Shift(x), Capacity(x.level)) == Some((x.page, MaskOf(x)))
  {
    FreeLevelOf(x.level);
    ShiftInverts(x, pageCount);
  }

  lemma ClearKeeps(s: State, t: State, p: nat)
    requires Inv(s) && ClearBitsStep(s, t, p)
    ensures Inv(t)
  {
    var x := s.procs[p].block;
    HandOver(s.live, s.ready.Keys, s.procs, p, x);
    FreeFindsItsBlock(x, |s.words|);
    ClearBitsKeeps(s.words, s.live, x);
  }

  lemma NextKeeps(s: State, t: State)
    requires Inv(s) && Next(s, t)
    ensures Inv(t) && |t.words| == |s.words|
  {
    var step :| NextStep(s, t, step);
    match step {
      case Load(p, size, page) => IdleMoveKeeps(s, t, p, Scanning(size, page, s.words[page]));
      case GiveUp(p) => IdleMoveKeeps(s, t, p, Idle);
      case CompareExchange(p, b) => CompareExchangeKeeps(s, t, p, b);
      case WriteHeader(p) => WriteHeaderKeeps(s, t, p);
      case ReadHeader(p, x) => ReadHeaderKeeps(s, t, p, x);
      case ClearBits(p) => ClearKeeps(s, t, p);
    }
  }

  lemma {:induction false} RunKeepsInv(states: seq<State>, i: nat)
    requires Run(states) && i < |states|
    ensures Inv(states[i]) && |states[i].words| == |states[0].words|
  {
    if i == 0 {
      InitOk(states[0]);
    } else {
      RunKeepsInv(states, i - 1);
      assert Next(states[i - 1], states[i - 1 + 1]);
      NextKeeps(states[i - 1], states[i]);
    }
  }

  /** In every reachable state the blocks handed out occupy disjoint bytes inside the pages. */
  lemma LiveBlocksNeverOverlap(states: seq<State>, i: nat, x: Block, y: Block)
    requires Run(states) && i < |states| && x in states[i].live && y in states[i].live && x != y
    ensures Shift(x) + Capacity(x.level) <= Shift(y) || Shift(y) + Capacity(y.level) <= Shift(x)
    ensures Shift(x) + Capacity(x.level) <= PAGE_SIZE * |states[0].words|
  {
    RunKeepsInv(states, i);
    DisjointBlocksDisjointBytes(x, y, |states[i].words|);
    ShiftInverts(x, |states[i].words|);
  }

  /** In every reachable state the page words are exactly the union of the live blocks, and every live block is
      with its caller or with a process in the middle of Malloc or Free: nothing is lost or freed twice. */
  lemma WordsAreTheLiveBlocks(states: seq<State>, i: nat, page: nat, bit: nat)
    requires Run(states) && i < |states| && page < |states[i].words|
    ensures bit in states[i].words[page] <==>
            exists x :: x in states[i].live && x.page == page && bit in MaskOf(x)
    ensures forall x :: x in states[i].live <==> x in states[i].ready || Held(states[i].procs, x)
  {
    RunKeepsInv(states, i);
    assert bit in states[i].words[page] <==> Covered(states[i].live, page, bit);
  }

  /** When no call is in progress, every set bit belongs to a block some caller still owns. */
  lemma QuietWordsAreTheCallers(states: seq<State>, i: nat)
    requires Run(states) && i < |states|
    requires forall p :: p in states[i].procs ==> states[i].procs[p].Idle?
    ensures states[i].live == states[i].ready.Keys
    ensures states[i].ready == map[] ==> forall page :: 0 <= page < |states[i].words| ==> states[i].words[page] == {}
  {
    RunKeepsInv(states, i);
  }
}
