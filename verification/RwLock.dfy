/**
 The reader-writer lock of the directory cache.  One 64-bit word per lock packs the number of shared holders, the
 exclusive bit, the number of references (handles, waiters and releases in progress) and a flag that an
 exclusive waiter sets.  Any number of processes work on the words, one atomic access per step.
 */
module RwLock {
  const EXCL: nat := 0x100_0000
  const REF: nat := 0x200_0000
  const FLAG: nat := 0x4000_0000_0000_0000
  const MAX_HELD: nat := 8196

  datatype Mode = Exclusive | Shared | Declared

  // ------------------------------------------------------------------ the packed word

  datatype Counts = Counts(shared: nat, excl: nat, refs: nat, flag: nat)

  function Pack(c: Counts): nat {
    c.shared + c.excl * EXCL + c.refs * REF + c.flag * FLAG
  }

  predicate Fits(c: Counts) {
    c.shared <= c.refs < EXCL && c.excl <= 1 && c.flag <= 1
  }

  /** The state masked with RW_LOCK_MASK, the exclusive bit, the flag bit and the reference count. */
  function LockBits(w: nat): nat { w % REF }
  function ExclBit(w: nat): nat { w / EXCL % 2 }
  function FlagBit(w: nat): nat { w / FLAG % 2 }
  function RefBits(w: nat): nat { w / REF % REF }

  /** Each field is read back. */
  lemma Unpack(c: Counts)
    requires Fits(c)
    ensures LockBits(Pack(c)) == c.shared + c.excl * EXCL
    ensures ExclBit(Pack(c)) == c.excl
    ensures FlagBit(Pack(c)) == c.flag
    ensures RefBits(Pack(c)) == c.refs
  {
    var low, high := c.shared + c.excl * EXCL, c.refs + c.flag * (FLAG / REF);
    assert Pack(c) == low + high * REF && 0 <= low < REF && c.refs < REF;
    assert LockBits(Pack(c)) == low && Pack(c) / REF == high;
    UnpackExcl(c, low, high);
    assert Pack(c) / FLAG == c.flag;
  }

  lemma UnpackExcl(c: Counts, low: nat, high: nat)
    requires c.shared < EXCL && c.excl <= 1 && low == c.shared + c.excl * EXCL
    ensures (low + high * REF) / EXCL % 2 == c.excl
  {
    assert low + high * REF == c.shared + (c.excl + high * (REF / EXCL)) * EXCL;
    assert (low + high * REF) / EXCL == c.excl + high * (REF / EXCL);
  }

  predicate Free(w: nat, mode: Mode) {
    if mode == Exclusive then LockBits(w) == 0 else ExclBit(w) == 0 && FlagBit(w) == 0
  }

  /** The word an attempt writes: the lock, or for an exclusive attempt the flag. */
  function Desired(w: nat, mode: Mode): int {
    if mode == Exclusive then
      if Free(w, mode) then w + EXCL - FlagBit(w) * FLAG else w + (1 - FlagBit(w)) * FLAG
    else if Free(w, mode) then w + 1 else w
  }

  // ------------------------------------------------------------------ handles

  datatype Handle = Handle(lock: nat, mode: Mode)

  function Count(held: seq<Handle>, lock: nat, mode: Mode): nat {
    if held == [] then 0
    else Count(held[..|held| - 1], lock, mode) + if held[|held| - 1] == Handle(lock, mode) then 1 else 0
  }

  function Handles(held: seq<Handle>, lock: nat): nat {
    Count(held, lock, Exclusive) + Count(held, lock, Shared) + Count(held, lock, Declared)
  }

  function Without(held: seq<Handle>, i: nat): seq<Handle>
    requires i < |held|
  {
    held[..i] + held[i + 1..]
  }

  lemma {:induction false} CountWithout(held: seq<Handle>, i: nat, lock: nat, mode: Mode)
    requires i < |held|
    ensures Count(Without(held, i), lock, mode) == Count(held, lock, mode) - if held[i] == Handle(lock, mode) then 1 else 0
  {
    var front := held[..|held| - 1];
    if i == |held| - 1 {
      assert Without(held, i) == front;
    } else {
      CountWithout(front, i, lock, mode);
      var w := Without(held, i);
      assert w[..|w| - 1] == Without(front, i) && w[|w| - 1] == held[|held| - 1];
    }
  }

  /** The newest handle on a lock, among those that match; -1 when there is none. */
  method FindNewest(held: seq<Handle>, lock: nat, declaredOnly: bool) returns (i: int)
    ensures -1 <= i < |held|
    ensures i >= 0 ==> held[i].lock == lock && (declaredOnly ==> held[i].mode == Declared)
    ensures forall j :: i < j < |held| ==> held[j].lock != lock || (declaredOnly && held[j].mode != Declared)
  {
    i := |held| - 1;
    while i >= 0 && !(held[i].lock == lock && (!declaredOnly || held[i].mode == Declared))
      invariant -1 <= i < |held|
      invariant forall j :: i < j < |held| ==> held[j].lock != lock || (declaredOnly && held[j].mode != Declared)
      decreases i
    {
      i := i - 1;
    }
  }

  // ------------------------------------------------------------------ processes

  datatype Pc =
    | Idle
    | Attempt(lock: nat, mode: Mode)
    | Loaded(lock: nat, mode: Mode, old_: nat)
    | Unref(lock: nat)

  datatype Proc = Proc(held: seq<Handle>, pc: Pc)

  function SharedBy(p: Proc, lock: nat): nat { Count(p.held, lock, Shared) }
  function ExclBy(p: Proc, lock: nat): nat { Count(p.held, lock, Exclusive) }
  function RefsBy(p: Proc, lock: nat): nat {
    Handles(p.held, lock) + if !p.pc.Idle? && p.pc.lock == lock then 1 else 0
  }
  function WaitsBy(p: Proc, lock: nat): nat {
    if (p.pc.Attempt? || p.pc.Loaded?) && p.pc.lock == lock && p.pc.mode == Exclusive then 1 else 0
  }

  datatype What = SharedHandles | ExclHandles | References | ExclWaiters

  function By(p: Proc, lock: nat, what: What): nat {
    match what
    case SharedHandles => SharedBy(p, lock)
    case ExclHandles => ExclBy(p, lock)
    case References => RefsBy(p, lock)
    case ExclWaiters => WaitsBy(p, lock)
  }

  /** Summed over all processes. */
  function Total(procs: seq<Proc>, lock: nat, what: What): nat {
    if procs == [] then 0 else Total(procs[..|procs| - 1], lock, what) + By(procs[|procs| - 1], lock, what)
  }

  lemma {:induction false} TotalUpdate(procs: seq<Proc>, i: nat, p: Proc, lock: nat, what: What)
    requires i < |procs|
    ensures Total(procs[i := p], lock, what) == Total(procs, lock, what) - By(procs[i], lock, what) + By(p, lock, what)
    ensures By(procs[i], lock, what) <= Total(procs, lock, what)
  {
    var n := |procs| - 1;
    var front, after := procs[..n], procs[i := p];
    if i == n {
      assert after[..n] == front;
    } else {
      TotalUpdate(front, i, p, lock, what);
      assert after[..n] == front[i := p];
    }
  }

  lemma {:induction false} SharedAtMostRefs(procs: seq<Proc>, lock: nat)
    ensures Total(procs, lock, SharedHandles) + Total(procs, lock, ExclHandles) <= Total(procs, lock, References)
    ensures Total(procs, lock, ExclWaiters) <= Total(procs, lock, References)
  {
    if procs != [] { SharedAtMostRefs(procs[..|procs| - 1], lock); }
  }

  lemma CountAppend(held: seq<Handle>, h: Handle, lock: nat, mode: Mode)
    ensures Count(held + [h], lock, mode) == Count(held, lock, mode) + if h == Handle(lock, mode) then 1 else 0
  {
    var more := held + [h];
    assert more[..|more| - 1] == held;
  }

  // ------------------------------------------------------------------ steps

  datatype State = State(words: map<nat, int>, procs: seq<Proc>)

  datatype Step =
    | DeclareLock(i: nat, lock: nat)
    | UndeclareLock(i: nat, lock: nat, k: nat)
    | BeginAcquire(i: nat, lock: nat, mode: Mode)
    | Load(i: nat)
    | CompareExchange(i: nat)
    | ReleaseLock(i: nat, lock: nat, k: nat)
    | DropReference(i: nat)

  predicate Newest(held: seq<Handle>, k: nat, lock: nat, declaredOnly: bool) {
    && k < |held| && held[k].lock == lock && (declaredOnly ==> held[k].mode == Declared)
    && forall j :: k < j < |held| ==> held[j].lock != lock || (declaredOnly && held[j].mode != Declared)
  }

  predicate DeclareStep(s: State, t: State, i: nat, lock: nat) {
    && i < |s.procs| && lock in s.words && s.procs[i].pc.Idle? && |s.procs[i].held| < MAX_HELD
    && t == State(s.words[lock := s.words[lock] + REF],
                  s.procs[i := Proc(s.procs[i].held + [Handle(lock, Declared)], Idle)])
  }

  predicate UndeclareStep(s: State, t: State, i: nat, lock: nat, k: nat) {
    && i < |s.procs| && lock in s.words && s.procs[i].pc.Idle? && Newest(s.procs[i].held, k, lock, true)
    && t == State(s.words[lock := s.words[lock] - REF], s.procs[i := Proc(Without(s.procs[i].held, k), Idle)])
  }

  /** Acquire takes its reference first; the mode is never Declared. */
  predicate BeginStep(s: State, t: State, i: nat, lock: nat, mode: Mode) {
    && i < |s.procs| && lock in s.words && s.procs[i].pc.Idle? && |s.procs[i].held| < MAX_HELD && mode != Declared
    && t == State(s.words[lock := s.words[lock] + REF], s.procs[i := Proc(s.procs[i].held, Attempt(lock, mode))])
  }

  predicate LoadStep(s: State, t: State, i: nat) {
    && i < |s.procs| && s.procs[i].pc.Attempt? && s.procs[i].pc.lock in s.words && s.words[s.procs[i].pc.lock] >= 0
    && var pc := s.procs[i].pc;
    t == s.(procs := s.procs[i := Proc(s.procs[i].held, Loaded(pc.lock, pc.mode, s.words[pc.lock]))])
  }

  predicate CasStep(s: State, t: State, i: nat) {
    && i < |s.procs| && s.procs[i].pc.Loaded? && s.procs[i].pc.lock in s.words && s.words[s.procs[i].pc.lock] >= 0
    && var held, pc := s.procs[i].held, s.procs[i].pc;
    if s.words[pc.lock] != pc.old_ then
      t == s.(procs := s.procs[i := Proc(held, Loaded(pc.lock, pc.mode, s.words[pc.lock]))])
    else
      var p := if Free(pc.old_, pc.mode) then Proc(held + [Handle(pc.lock, pc.mode)], Idle)
               else Proc(held, Attempt(pc.lock, pc.mode));
      t == State(s.words[pc.lock := Desired(pc.old_, pc.mode)], s.procs[i := p])
  }

  /** Release drops the newest handle on the lock, whatever its mode, and gives back what that mode would hold. */
  predicate ReleaseStep(s: State, t: State, i: nat, lock: nat, k: nat) {
    && i < |s.procs| && lock in s.words && s.procs[i].pc.Idle? && Newest(s.procs[i].held, k, lock, false)
    && var held := s.procs[i].held;
    t == State(s.words[lock := s.words[lock] - if held[k].mode == Exclusive then EXCL else 1],
               s.procs[i := Proc(Without(held, k), Unref(lock))])
  }

  predicate UnrefStep(s: State, t: State, i: nat) {
    && i < |s.procs| && s.procs[i].pc.Unref? && s.procs[i].pc.lock in s.words
    && t == State(s.words[s.procs[i].pc.lock := s.words[s.procs[i].pc.lock] - REF],
                  s.procs[i := Proc(s.procs[i].held, Idle)])
  }

  predicate NextStep(s: State, t: State, step: Step) {
    match step
    case DeclareLock(i, lock) => DeclareStep(s, t, i, lock)
    case UndeclareLock(i, lock, k) => UndeclareStep(s, t, i, lock, k)
    case BeginAcquire(i, lock, mode) => BeginStep(s, t, i, lock, mode)
    case Load(i) => LoadStep(s, t, i)
    case CompareExchange(i) => CasStep(s, t, i)
    case ReleaseLock(i, lock, k) => ReleaseStep(s, t, i, lock, k)
    case DropReference(i) => UnrefStep(s, t, i)
  }

  /** Release is called on a lock whose newest handle is an acquired one. */
  predicate Disciplined(s: State, step: Step) {
    step.ReleaseLock? ==> step.i < |s.procs| && step.k < |s.procs[step.i].held| && s.procs[step.i].held[step.k].mode != Declared
  }

  // ------------------------------------------------------------------ the invariant

  function CountsOf(procs: seq<Proc>, lock: nat, flag: nat): Counts {
    Counts(Total(procs, lock, SharedHandles), Total(procs, lock, ExclHandles), Total(procs, lock, References), flag)
  }

  function FlagOf(w: int): nat {
    if w >= FLAG then 1 else 0
  }

  /** The word is the counts of all processes; a holder of the lock excludes the others; the flag has a waiter. */
  predicate WordOk(procs: seq<Proc>, lock: nat, w: int) {
    var c := CountsOf(procs, lock, FlagOf(w));
    && w == Pack(c) && c.excl <= 1 && (c.excl == 1 ==> c.shared == 0)
    && (c.flag == 1 ==> Total(procs, lock, ExclWaiters) > 0)
  }

  ghost predicate Inv(s: State) {
    && (forall lock :: lock in s.words ==> WordOk(s.procs, lock, s.words[lock]))
    && forall i :: 0 <= i < |s.procs| && !s.procs[i].pc.Idle? ==>
         s.procs[i].pc.lock in s.words && (s.procs[i].pc.Attempt? || s.procs[i].pc.Loaded? ==> s.procs[i].pc.mode != Declared)
  }

  /** Fewer than 2^24 handles, waiters and releases in progress on each lock. */
  ghost predicate Bounded(s: State) {
    forall lock :: lock in s.words ==> Total(s.procs, lock, References) < EXCL
  }

  predicate Same(p: Proc, q: Proc, lock: nat) {
    forall what :: By(p, lock, what) == By(q, lock, what)
  }

  lemma OtherLocks(procs: seq<Proc>, i: nat, q: Proc, lock: nat, w: int)
    requires i < |procs| && Same(procs[i], q, lock) && WordOk(procs, lock, w)
    ensures WordOk(procs[i := q], lock, w)
  {
    forall what: What ensures Total(procs[i := q], lock, what) == Total(procs, lock, what) {
      TotalUpdate(procs, i, q, lock, what);
    }
  }

  /** What changes for one lock when one process changes. */
  lemma Totals(procs: seq<Proc>, i: nat, q: Proc, lock: nat)
    requires i < |procs|
    ensures forall what :: Total(procs[i := q], lock, what) ==
                           Total(procs, lock, what) - By(procs[i], lock, what) + By(q, lock, what)
    ensures forall what :: By(procs[i], lock, what) <= Total(procs, lock, what)
  {
    forall what: What
      ensures Total(procs[i := q], lock, what) == Total(procs, lock, what) - By(procs[i], lock, what) + By(q, lock, what)
      ensures By(procs[i], lock, what) <= Total(procs, lock, what)
    {
      TotalUpdate(procs, i, q, lock, what);
    }
  }

  /** A step of one process on one lock keeps the invariant when it keeps that lock's word. */
  lemma OneLock(s: State, t: State, i: nat, q: Proc, lock: nat)
    requires Inv(s) && i < |s.procs| && lock in s.words && t.words.Keys == s.words.Keys && t.procs == s.procs[i := q]
    requires forall l :: l in s.words && l != lock ==> t.words[l] == s.words[l] && Same(s.procs[i], q, l)
    requires WordOk(t.procs, lock, t.words[lock])
    requires !q.pc.Idle? ==> q.pc.lock in s.words && (q.pc.Attempt? || q.pc.Loaded? ==> q.pc.mode != Declared)
    ensures Inv(t)
  {
    forall l | l in s.words && l != lock ensures WordOk(t.procs, l, t.words[l]) {
      OtherLocks(s.procs, i, q, l, s.words[l]);
    }
  }

  lemma MakeWord(procs: seq<Proc>, lock: nat, flag: nat)
    requires flag <= 1 && Total(procs, lock, References) < EXCL && Total(procs, lock, ExclHandles) <= 1
    requires Total(procs, lock, ExclHandles) == 1 ==> Total(procs, lock, SharedHandles) == 0
    requires flag == 1 ==> Total(procs, lock, ExclWaiters) > 0
    ensures WordOk(procs, lock, Pack(CountsOf(procs, lock, flag)))
  {
    SharedAtMostRefs(procs, lock);
    FlagOfPack(CountsOf(procs, lock, flag));
  }

  lemma FlagOfPack(c: Counts)
    requires Fits(c)
    ensures FlagOf(Pack(c)) == c.flag
  {
  }

  // ------------------------------------------------------------------ every step keeps it

  /** Only references change. */
  lemma RefsKeep(s: State, t: State, i: nat, q: Proc, lock: nat)
    requires Inv(s) && Bounded(t) && i < |s.procs| && lock in s.words && t.procs == s.procs[i := q]
    requires t.words == s.words[lock := s.words[lock] + (RefsBy(q, lock) - RefsBy(s.procs[i], lock)) * REF]
    requires forall l :: l in s.words && l != lock ==> Same(s.procs[i], q, l)
    requires SharedBy(q, lock) == SharedBy(s.procs[i], lock) && ExclBy(q, lock) == ExclBy(s.procs[i], lock)
    requires WaitsBy(q, lock) >= WaitsBy(s.procs[i], lock)
    requires !q.pc.Idle? ==> q.pc.lock in s.words && (q.pc.Attempt? || q.pc.Loaded? ==> q.pc.mode != Declared)
    ensures Inv(t)
  {
    var flag := FlagOf(s.words[lock]);
    Totals(s.procs, i, q, lock);
    assert t.words[lock] == Pack(CountsOf(t.procs, lock, flag)) by {
      assert WordOk(s.procs, lock, s.words[lock]);
    }
    MakeWord(t.procs, lock, flag);
    OneLock(s, t, i, q, lock);
  }

  lemma DeclareKeeps(s: State, t: State, i: nat, lock: nat)
    requires Inv(s) && Bounded(t) && DeclareStep(s, t, i, lock)
    ensures Inv(t)
  {
    var p, q := s.procs[i], t.procs[i];
    forall l, mode ensures Count(q.held, l, mode) == Count(p.held, l, mode) + if l == lock && mode == Declared then 1 else 0 {
      CountAppend(p.held, Handle(lock, Declared), l, mode);
    }
    RefsKeep(s, t, i, q, lock);
  }

  lemma UndeclareKeeps(s: State, t: State, i: nat, lock: nat, k: nat)
    requires Inv(s) && Bounded(t) && UndeclareStep(s, t, i, lock, k)
    ensures Inv(t)
  {
    var p, q := s.procs[i], t.procs[i];
    forall l, mode ensures Count(q.held, l, mode) == Count(p.held, l, mode) - if l == lock && mode == Declared then 1 else 0 {
      CountWithout(p.held, k, l, mode);
    }
    RefsKeep(s, t, i, q, lock);
  }

  lemma UnrefKeeps(s: State, t: State, i: nat)
    requires Inv(s) && Bounded(t) && UnrefStep(s, t, i)
    ensures Inv(t)
  {
    RefsKeep(s, t, i, t.procs[i], s.procs[i].pc.lock);
  }

  lemma BeginKeeps(s: State, t: State, i: nat, lock: nat, mode: Mode)
    requires Inv(s) && Bounded(t) && BeginStep(s, t, i, lock, mode)
    ensures Inv(t)
  {
    RefsKeep(s, t, i, t.procs[i], lock);
  }

  lemma LoadKeeps(s: State, t: State, i: nat)
    requires Inv(s) && Bounded(t) && LoadStep(s, t, i)
    ensures Inv(t)
  {
    RefsKeep(s, t, i, t.procs[i], s.procs[i].pc.lock);
  }

  lemma FieldsOf(procs: seq<Proc>, lock: nat, w: int)
    requires WordOk(procs, lock, w) && Total(procs, lock, References) < EXCL
    ensures w >= 0 && FlagBit(w) == FlagOf(w) && RefBits(w) == Total(procs, lock, References)
    ensures LockBits(w) == Total(procs, lock, SharedHandles) + Total(procs, lock, ExclHandles) * EXCL
    ensures ExclBit(w) == Total(procs, lock, ExclHandles)
  {
    SharedAtMostRefs(procs, lock);
    Unpack(CountsOf(procs, lock, FlagOf(w)));
  }

  /** The word a won attempt writes. */
  lemma DesiredTaken(c: Counts, mode: Mode)
    requires Fits(c) && mode != Declared && Free(Pack(c), mode)
    ensures c.excl == 0 && (if mode == Exclusive then c.shared == 0 else c.flag == 0)
    ensures Desired(Pack(c), mode) == Pack(if mode == Exclusive then Counts(0, 1, c.refs, 0) else Counts(c.shared + 1, 0, c.refs, 0))
  {
    Unpack(c);
  }

  lemma TakenTotals(p: Proc, q: Proc, lock: nat, mode: Mode, l: nat)
    requires (p.pc.Attempt? || p.pc.Loaded?) && p.pc.lock == lock && p.pc.mode == mode && mode != Declared
    requires q == Proc(p.held + [Handle(lock, mode)], Idle)
    ensures l != lock ==> Same(p, q, l)
    ensures RefsBy(q, lock) == RefsBy(p, lock)
    ensures SharedBy(q, lock) == SharedBy(p, lock) + if mode == Shared then 1 else 0
    ensures ExclBy(q, lock) == ExclBy(p, lock) + if mode == Exclusive then 1 else 0
  {
    forall x, m ensures Count(q.held, x, m) == Count(p.held, x, m) + if x == lock && m == mode then 1 else 0 {
      CountAppend(p.held, Handle(lock, mode), x, m);
    }
  }

  /** The word after a won attempt, for the process that now holds the lock. */
  lemma TakenWord(procs: seq<Proc>, i: nat, q: Proc, lock: nat, w: nat, mode: Mode)
    requires i < |procs| && WordOk(procs, lock, w) && Total(procs, lock, References) < EXCL && mode != Declared
    requires Free(w, mode) && RefsBy(q, lock) == RefsBy(procs[i], lock)
    requires SharedBy(q, lock) == SharedBy(procs[i], lock) + if mode == Shared then 1 else 0
    requires ExclBy(q, lock) == ExclBy(procs[i], lock) + if mode == Exclusive then 1 else 0
    ensures WordOk(procs[i := q], lock, Desired(w, mode))
  {
    SharedAtMostRefs(procs, lock);
    DesiredTaken(CountsOf(procs, lock, FlagOf(w)), mode);
    Totals(procs, i, q, lock);
    MakeWord(procs[i := q], lock, 0);
  }

  /** A won attempt: the process holds the lock it waited for. */
  lemma TakenKeeps(s: State, t: State, i: nat)
    requires Inv(s) && Bounded(s) && CasStep(s, t, i)
    requires s.words[s.procs[i].pc.lock] == s.procs[i].pc.old_ && Free(s.procs[i].pc.old_, s.procs[i].pc.mode)
    ensures Inv(t)
  {
    var p, q, lock, mode := s.procs[i], t.procs[i], s.procs[i].pc.lock, s.procs[i].pc.mode;
    assert WordOk(s.procs, lock, s.words[lock]);
    forall l ensures l != lock ==> Same(p, q, l) { TakenTotals(p, q, lock, mode, l); }
    TakenTotals(p, q, lock, mode, lock);
    TakenWord(s.procs, i, q, lock, s.words[lock], mode);
    OneLock(s, t, i, q, lock);
  }

  lemma DesiredRefused(c: Counts, mode: Mode)
    requires Fits(c) && mode != Declared && !Free(Pack(c), mode)
    ensures Desired(Pack(c), mode) == Pack(c.(flag := if mode == Exclusive then 1 else c.flag))
  {
    Unpack(c);
  }

  /** The word after a lost attempt, for the process that goes on waiting. */
  lemma RefusedWord(procs: seq<Proc>, i: nat, q: Proc, lock: nat, w: nat, mode: Mode)
    requires i < |procs| && WordOk(procs, lock, w) && Total(procs, lock, References) < EXCL && mode != Declared
    requires !Free(w, mode) && Same(procs[i], q, lock) && (mode == Exclusive ==> WaitsBy(procs[i], lock) > 0)
    ensures WordOk(procs[i := q], lock, Desired(w, mode))
  {
    var c := CountsOf(procs, lock, FlagOf(w));
    var flag := if mode == Exclusive then 1 else c.flag;
    SharedAtMostRefs(procs, lock);
    DesiredRefused(c, mode);
    Totals(procs, i, q, lock);
    assert By(q, lock, ExclWaiters) == By(procs[i], lock, ExclWaiters);
    assert CountsOf(procs[i := q], lock, flag) == c.(flag := flag);
    MakeWord(procs[i := q], lock, flag);
  }

  /** A lost attempt: an exclusive one leaves the flag, and goes on waiting. */
  lemma RefusedKeeps(s: State, t: State, i: nat)
    requires Inv(s) && Bounded(s) && CasStep(s, t, i)
    requires s.words[s.procs[i].pc.lock] == s.procs[i].pc.old_ && !Free(s.procs[i].pc.old_, s.procs[i].pc.mode)
    ensures Inv(t)
  {
    var lock, mode := s.procs[i].pc.lock, s.procs[i].pc.mode;
    assert WordOk(s.procs, lock, s.words[lock]);
    RefusedWord(s.procs, i, t.procs[i], lock, s.words[lock], mode);
    OneLock(s, t, i, t.procs[i], lock);
  }

  lemma CasKeeps(s: State, t: State, i: nat)
    requires Inv(s) && Bounded(s) && Bounded(t) && CasStep(s, t, i)
    ensures Inv(t)
  {
    var pc := s.procs[i].pc;
    if s.words[pc.lock] != pc.old_ {
      RefsKeep(s, t, i, t.procs[i], pc.lock);
    } else if Free(pc.old_, pc.mode) {
      TakenKeeps(s, t, i);
    } else {
      RefusedKeeps(s, t, i);
    }
  }

  lemma ReleasedTotals(p: Proc, q: Proc, lock: nat, k: nat, l: nat)
    requires p.pc.Idle? && k < |p.held| && p.held[k].lock == lock && q == Proc(Without(p.held, k), Unref(lock))
    ensures l != lock ==> Same(p, q, l)
    ensures RefsBy(q, lock) == RefsBy(p, lock) && WaitsBy(q, lock) == WaitsBy(p, lock)
    ensures SharedBy(q, lock) == SharedBy(p, lock) - if p.held[k].mode == Shared then 1 else 0
    ensures ExclBy(q, lock) == ExclBy(p, lock) - if p.held[k].mode == Exclusive then 1 else 0
  {
    forall x, m ensures Count(q.held, x, m) == Count(p.held, x, m) - if x == lock && m == p.held[k].mode then 1 else 0 {
      CountWithout(p.held, k, x, m);
    }
  }

  lemma MinusMode(c: Counts, mode: Mode)
    ensures mode == Shared && c.shared > 0 ==> Pack(c) - 1 == Pack(c.(shared := c.shared - 1))
    ensures mode == Exclusive && c.excl > 0 ==> Pack(c) - EXCL == Pack(c.(excl := c.excl - 1))
  {
  }

  lemma ReleaseAcquired(s: State, t: State, i: nat, lock: nat, k: nat)
    requires Inv(s) && Bounded(s) && ReleaseStep(s, t, i, lock, k) && s.procs[i].held[k].mode != Declared
    ensures Inv(t)
  {
    var p, q, w := s.procs[i], t.procs[i], s.words[lock];
    forall l ensures l != lock ==> Same(p, q, l) { ReleasedTotals(p, q, lock, k, l); }
    ReleasedTotals(p, q, lock, k, lock);
    Totals(s.procs, i, q, lock);
    assert t.procs == s.procs[i := q];
    assert t.words[lock] == Pack(CountsOf(t.procs, lock, FlagOf(w))) by {
      assert WordOk(s.procs, lock, w);
      MinusMode(CountsOf(s.procs, lock, FlagOf(w)), p.held[k].mode);
    }
    MakeWord(t.procs, lock, FlagOf(w));
    OneLock(s, t, i, q, lock);
  }

  lemma ReleaseDeclared(s: State, t: State, i: nat, lock: nat, k: nat)
    requires Inv(s) && Bounded(s) && ReleaseStep(s, t, i, lock, k) && s.procs[i].held[k].mode == Declared
    ensures !WordOk(t.procs, lock, t.words[lock])
  {
    var p, q, w := s.procs[i], t.procs[i], s.words[lock];
    var c := CountsOf(s.procs, lock, FlagOf(w));
    ReleasedTotals(p, q, lock, k, lock);
    Totals(s.procs, i, q, lock);
    assert t.procs == s.procs[i := q];
    assert WordOk(s.procs, lock, w);
    DeclaredCounts(p.held, k);
    assert By(p, lock, References) > 0;
    SharedAtMostRefs(s.procs, lock);
    OneLess(c);
    assert CountsOf(t.procs, lock, c.flag) == c;
  }

  /** Release keeps the invariant if and only if the newest handle on the lock is an acquired one; dropping a
      declaration this way takes a shared hold from the word that nobody has. */
  lemma ReleaseKeepsIff(s: State, t: State, i: nat, lock: nat, k: nat)
    requires Inv(s) && Bounded(s) && ReleaseStep(s, t, i, lock, k)
    ensures Inv(t) <==> s.procs[i].held[k].mode != Declared
  {
    if s.procs[i].held[k].mode == Declared {
      ReleaseDeclared(s, t, i, lock, k);
      assert lock in t.words;
    } else {
      ReleaseAcquired(s, t, i, lock, k);
    }
  }

  /** A process that only declared lock 7 releases it: the word loses a hold that it never had. */
  lemma ReleaseOfDeclaration(s: State, t: State)
    requires s == State(map[7 := REF], [Proc([Handle(7, Declared)], Idle)])
    requires t == State(map[7 := REF - 1], [Proc([], Unref(7))])
    ensures Inv(s) && ReleaseStep(s, t, 0, 7, 0) && !Inv(t)
  {
    var held := [Handle(7, Declared)];
    assert held[..0] == [] && s.procs[..0] == [] && Without(held, 0) == [];
    assert Count(held, 7, Declared) == 1 && Count(held, 7, Shared) == 0 && Count(held, 7, Exclusive) == 0;
    assert CountsOf(s.procs, 7, 0) == Counts(0, 0, 1, 0);
    assert t.procs == s.procs[0 := Proc([], Unref(7))];
    ReleaseKeepsIff(s, t, 0, 7, 0);
  }

  lemma {:induction false} DeclaredCounts(held: seq<Handle>, k: nat)
    requires k < |held|
    ensures Count(held, held[k].lock, held[k].mode) > 0
  {
    if k < |held| - 1 { DeclaredCounts(held[..|held| - 1], k); }
  }

  lemma OneLess(c: Counts)
    requires Fits(c) && c.refs > 0
    ensures FlagOf(Pack(c) - 1) == c.flag
  {
  }

  lemma NextKeeps(s: State, t: State, step: Step)
    requires Inv(s) && Bounded(s) && Bounded(t) && NextStep(s, t, step) && Disciplined(s, step)
    ensures Inv(t)
  {
    match step {
      case DeclareLock(i, lock) => DeclareKeeps(s, t, i, lock);
      case UndeclareLock(i, lock, k) => UndeclareKeeps(s, t, i, lock, k);
      case BeginAcquire(i, lock, mode) => BeginKeeps(s, t, i, lock, mode);
      case Load(i) => LoadKeeps(s, t, i);
      case CompareExchange(i) => CasKeeps(s, t, i);
      case ReleaseLock(i, lock, k) => ReleaseKeepsIff(s, t, i, lock, k);
      case DropReference(i) => UnrefKeeps(s, t, i);
    }
  }

  // ------------------------------------------------------------------ runs

  predicate Init(s: State) {
    (forall lock :: lock in s.words ==> s.words[lock] == 0) && forall i :: 0 <= i < |s.procs| ==> s.procs[i] == Proc([], Idle)
  }

  lemma {:induction false} NoTotals(procs: seq<Proc>, lock: nat, what: What)
    requires forall i :: 0 <= i < |procs| ==> procs[i] == Proc([], Idle)
    ensures Total(procs, lock, what) == 0
  {
    if procs != [] { NoTotals(procs[..|procs| - 1], lock, what); }
  }

  lemma InitOk(s: State)
    requires Init(s)
    ensures Inv(s)
  {
    forall lock, what ensures Total(s.procs, lock, what) == 0 { NoTotals(s.procs, lock, what); }
  }

  ghost predicate Run(states: seq<State>, steps: seq<Step>) {
    && |states| == |steps| + 1 && Init(states[0]) && (forall i :: 0 <= i < |states| ==> Bounded(states[i]))
    && forall i :: 0 <= i < |steps| ==> NextStep(states[i], states[i + 1], steps[i]) && Disciplined(states[i], steps[i])
  }

  lemma {:induction false} RunKeepsInv(states: seq<State>, steps: seq<Step>, i: nat)
    requires Run(states, steps) && i < |states|
    ensures Inv(states[i])
  {
    if i == 0 {
      InitOk(states[0]);
    } else {
      RunKeepsInv(states, steps, i - 1);
      assert NextStep(states[i - 1], states[i - 1 + 1], steps[i - 1]);
      NextKeeps(states[i - 1], states[i], steps[i - 1]);
    }
  }

  /** In every reachable state the word is exactly the counts of all processes, and an exclusive holder is the only
      holder. */
  lemma WordIsTheCounts(states: seq<State>, steps: seq<Step>, i: nat, lock: nat)
    requires Run(states, steps) && i < |states| && lock in states[i].words
    ensures var s := states[i];
      && s.words[lock] == Pack(CountsOf(s.procs, lock, FlagOf(s.words[lock])))
      && Total(s.procs, lock, ExclHandles) <= 1
      && (Total(s.procs, lock, ExclHandles) == 1 ==> Total(s.procs, lock, SharedHandles) == 0)
  {
    RunKeepsInv(states, steps, i);
    assert WordOk(states[i].procs, lock, states[i].words[lock]);
  }

  /** The lock may be destroyed exactly when no process has declared, holds, waits for or is releasing it, and then
      the whole word is zero, ready to be used again without initialisation. */
  predicate Destroyable(w: int) {
    w >= 0 && RefBits(w) == 0
  }

  lemma DestroyableMeaning(s: State, lock: nat)
    requires Inv(s) && Bounded(s) && lock in s.words
    ensures Destroyable(s.words[lock]) <==> Total(s.procs, lock, References) == 0
    ensures Destroyable(s.words[lock]) ==> s.words[lock] == 0
  {
    assert WordOk(s.procs, lock, s.words[lock]);
    FieldsOf(s.procs, lock, s.words[lock]);
    SharedAtMostRefs(s.procs, lock);
  }

  // ------------------------------------------------------------------ the waiter's flag

  predicate Acquires(s: State, step: Step, lock: nat, mode: Mode) {
    && step.CompareExchange? && step.i < |s.procs| && s.procs[step.i].pc.Loaded?
    && var pc := s.procs[step.i].pc;
    pc.lock == lock && pc.mode == mode && lock in s.words && s.words[lock] == pc.old_ && Free(pc.old_, mode)
  }

  /** While the flag is up no shared attempt succeeds, and it stays up until an exclusive attempt does. */
  lemma FlagHolds(s: State, t: State, step: Step, lock: nat)
    requires Inv(s) && Inv(t) && Bounded(s) && Bounded(t) && NextStep(s, t, step) && lock in s.words
    requires FlagOf(s.words[lock]) == 1 && !Acquires(s, step, lock, Exclusive)
    ensures !Acquires(s, step, lock, Shared) && lock in t.words && FlagOf(t.words[lock]) == 1
  {
    FieldsOf(s.procs, lock, s.words[lock]);
    FieldsOf(t.procs, lock, t.words[lock]);
    assert WordOk(s.procs, lock, s.words[lock]) && WordOk(t.procs, lock, t.words[lock]);
  }

  /** One step of a run past a flag. */
  lemma PastFlag(states: seq<State>, steps: seq<Step>, lock: nat, j: nat)
    requires Run(states, steps) && j < |steps| && lock in states[j].words && FlagOf(states[j].words[lock]) == 1
    ensures !Acquires(states[j], steps[j], lock, Shared)
    ensures !Acquires(states[j], steps[j], lock, Exclusive) ==>
      lock in states[j + 1].words && FlagOf(states[j + 1].words[lock]) == 1
  {
    RunKeepsInv(states, steps, j);
    RunKeepsInv(states, steps, j + 1);
    FlagShutsOut(states[j], steps[j], lock);
    assert NextStep(states[j], states[j + 1], steps[j]);
    if !Acquires(states[j], steps[j], lock, Exclusive) { FlagHolds(states[j], states[j + 1], steps[j], lock); }
  }

  ghost predicate FlagUp(states: seq<State>, lock: nat, k: nat) {
    k < |states| && lock in states[k].words && FlagOf(states[k].words[lock]) == 1
  }

  ghost predicate AcquiresAt(states: seq<State>, steps: seq<Step>, lock: nat, k: nat, mode: Mode) {
    k < |states| && k < |steps| && Acquires(states[k], steps[k], lock, mode)
  }

  lemma {:induction false} FlagStays(states: seq<State>, lock: nat, i: nat, j: nat)
    requires i <= j && FlagUp(states, lock, i)
    requires forall k :: i <= k < j && FlagUp(states, lock, k) ==> FlagUp(states, lock, k + 1)
    ensures FlagUp(states, lock, j)
    decreases j
  {
    if i < j { FlagStays(states, lock, i, j - 1); }
  }

  /** Between a waiter's flag and the next exclusive acquire no shared acquire succeeds. */
  lemma NoSharedPastFlag(states: seq<State>, steps: seq<Step>, lock: nat, i: nat, j: nat)
    requires Run(states, steps) && i <= j < |steps| && FlagUp(states, lock, i)
    requires forall k :: i <= k < j ==> !AcquiresAt(states, steps, lock, k, Exclusive)
    ensures FlagUp(states, lock, j) && !AcquiresAt(states, steps, lock, j, Shared)
  {
    forall k | i <= k < j && FlagUp(states, lock, k) ensures FlagUp(states, lock, k + 1) {
      PastFlag(states, steps, lock, k);
      assert !AcquiresAt(states, steps, lock, k, Exclusive);
    }
    FlagStays(states, lock, i, j);
    PastFlag(states, steps, lock, j);
  }

  lemma FlagShutsOut(s: State, step: Step, lock: nat)
    requires Inv(s) && Bounded(s) && lock in s.words && FlagOf(s.words[lock]) == 1
    ensures !Acquires(s, step, lock, Shared)
  {
    FieldsOf(s.procs, lock, s.words[lock]);
  }

  // ------------------------------------------------------------------ releasing everything

  function ModeValue(mode: Mode): nat {
    match mode
    case Exclusive => EXCL + REF
    case Shared => 1 + REF
    case Declared => REF
  }

  /** What Release takes off the word; this is what the handle holds, except for a declaration. */
  function Released(mode: Mode): (v: nat)
    ensures v == ModeValue(mode) <==> mode != Declared
  {
    (if mode == Exclusive then EXCL else 1) + REF
  }

  /** What a list of handles holds of a lock's word. */
  function Share(held: seq<Handle>, lock: nat): nat {
    if held == [] then 0
    else Share(held[..|held| - 1], lock) + if held[|held| - 1].lock == lock then ModeValue(held[|held| - 1].mode) else 0
  }

  lemma {:induction false} ShareWithout(held: seq<Handle>, i: nat, lock: nat)
    requires i < |held|
    ensures Share(Without(held, i), lock) == Share(held, lock) - if held[i].lock == lock then ModeValue(held[i].mode) else 0
  {
    var front := held[..|held| - 1];
    if i == |held| - 1 {
      assert Without(held, i) == front;
    } else {
      ShareWithout(front, i, lock);
      var w := Without(held, i);
      assert w[..|w| - 1] == Without(front, i) && w[|w| - 1] == held[|held| - 1];
    }
  }

  /** The share in terms of the counts of the word. */
  lemma {:induction false} ShareIsCounts(held: seq<Handle>, lock: nat)
    ensures Share(held, lock) ==
            Pack(Counts(Count(held, lock, Shared), Count(held, lock, Exclusive), Handles(held, lock), 0))
  {
    if held != [] { ShareIsCounts(held[..|held| - 1], lock); }
  }

  /** One process's list of handles, working on words that others may share. */
  class Backend {
    var words: map<nat, int>
    var held: seq<Handle>

    ghost predicate Valid()
      reads this
    {
      forall i :: 0 <= i < |held| ==> held[i].lock in words
    }

    constructor (words: map<nat, int>)
      ensures this.words == words && held == [] && Valid()
    {
      this.words, held := words, [];
    }

    /** Takes a reference, unless the list is full. */
    method Declare(lock: nat) returns (ok: bool)
      requires Valid() && lock in words
      modifies this
      ensures Valid() && ok == (|old(held)| < MAX_HELD)
      ensures held == if ok then old(held) + [Handle(lock, Declared)] else old(held)
      ensures words == if ok then old(words)[lock := old(words)[lock] + REF] else old(words)
    {
      ok := |held| < MAX_HELD;
      if ok {
        words := words[lock := words[lock] + REF];
        held := held + [Handle(lock, Declared)];
      }
    }

    /** Drops the newest declaration of the lock, and exactly what it held. */
    method Undeclare(lock: nat) returns (ok: bool)
      requires Valid()
      modifies this
      ensures Valid() && (ok <==> Handle(lock, Declared) in old(held))
      ensures !ok ==> held == old(held) && words == old(words)
      ensures ok ==> exists i :: 0 <= i < |old(held)| && Newest(old(held), i, lock, true) && held == Without(old(held), i)
                                && words == old(words)[lock := old(words)[lock] - ModeValue(Declared)]
    {
      var i := FindNewest(held, lock, true);
      ok := i >= 0;
      if ok {
        words := words[lock := words[lock] - REF];
        held := Without(held, i);
      }
    }

    /** Drops the newest handle on the lock and gives back what an acquired handle holds. */
    method Release(lock: nat) returns (ok: bool)
      requires Valid()
      modifies this
      ensures Valid() && (ok <==> exists h :: h in old(held) && h.lock == lock)
      ensures !ok ==> held == old(held) && words == old(words)
      ensures ok ==> exists i :: 0 <= i < |old(held)| && Newest(old(held), i, lock, false) && held == Without(old(held), i)
                                && words == old(words)[lock := old(words)[lock] - Released(old(held)[i].mode)]
    {
      var i := FindNewest(held, lock, false);
      ok := i >= 0;
      if ok {
        var mode := held[i].mode;
        held := Without(held, i);
        words := words[lock := words[lock] - if mode == Exclusive then EXCL else 1];
        words := words[lock := words[lock] - REF];
      }
    }

    /** Drops the newest handle of all, and exactly what it held. */
    method ReleaseNewest()
      requires Valid() && |held| > 0
      modifies this
      ensures Valid() && held == old(held)[..|old(held)| - 1]
      ensures var last := old(held)[|old(held)| - 1];
        last.lock in old(words) && words == old(words)[last.lock := old(words)[last.lock] - ModeValue(last.mode)]
    {
      var last := held[|held| - 1];
      ghost var before := held;
      var ok;
      assert last in held;
      if last.mode == Declared {
        ok := Undeclare(last.lock);
      } else {
        ok := Release(last.lock);
      }
      assert held == Without(before, |before| - 1) == before[..|before| - 1];
    }

    /** Ends with no handle, and with every word less exactly what this process held of it. */
    method ReleaseAll()
      requires Valid()
      modifies this
      ensures held == [] && words.Keys == old(words).Keys
      ensures forall lock :: lock in words ==> words[lock] == old(words)[lock] - Share(old(held), lock)
    {
      while |held| > 0
        invariant Valid() && words.Keys == old(words).Keys
        invariant forall lock :: lock in words ==> words[lock] - Share(held, lock) == old(words)[lock] - Share(old(held), lock)
        decreases |held|
      {
        ReleaseNewest();
      }
    }
  }
}
