/**
 Eviction from one partition of the directory hash.  Backends find or enter an entry under the partition lock.  A
 caller that asked for a lock has the entry's reader-writer lock declared before the partition is let go, and keeps a
 handle on it until the item has been read; a caller that asked for none reads the item without protection.  An
 evictor picks a victim under the shared partition lock and removes it under the exclusive one after looking at the
 reference count again.  An entry is named by its key, its lock by the memory it occupies, which a later entry may
 occupy again.
 */
module DirHashEviction {
  import R = RwLock

  /** What a backend is doing in the partition.  Reading: it has let the partition go and is still to read the item
      it found for a key; declared says whether it declared the item's lock before that. */
  datatype Pc =
    | Outside
    | Inside(exclusive: bool)
    | AtItem(exclusive: bool, key: nat, lock: nat, declared: bool)
    | Reading(key: nat, lock: nat, declared: bool)
    | Picked(victim: nat)
    | Checking(victim: nat)

  datatype State = State(rw: R.State, hash: map<nat, nat>, pcs: seq<Pc>)

  datatype Step =
    | Enter(i: nat, exclusive: bool)
    | Find(i: nat, key: nat)
    | Allocate(i: nat, key: nat, lock: nat, initialise: bool)
    | DeclareItem(i: nat)
    | Leave(i: nat)
    | Read(i: nat)
    | Pick(i: nat, victim: nat)
    | EnterToEvict(i: nat)
    | Evict(i: nat)
    | LockStep(step: R.Step)

  predicate HoldsPartition(pc: Pc, exclusive: bool) {
    (pc.Inside? || pc.AtItem?) && pc.exclusive == exclusive
  }

  /** The partition's lightweight lock: many sharers or one owner. */
  predicate CanEnter(pcs: seq<Pc>, exclusive: bool) {
    forall j :: 0 <= j < |pcs| ==>
      !HoldsPartition(pcs[j], true) && !pcs[j].Checking? && (exclusive ==> !HoldsPartition(pcs[j], false))
  }

  predicate Sized(s: State) {
    |s.pcs| == |s.rw.procs|
  }

  predicate EnterStep(s: State, t: State, i: nat, exclusive: bool) {
    && i < |s.pcs| && s.pcs[i].Outside? && CanEnter(s.pcs, exclusive)
    && t == s.(pcs := s.pcs[i := Inside(exclusive)])
  }

  predicate FindStep(s: State, t: State, i: nat, key: nat) {
    && i < |s.pcs| && s.pcs[i].Inside? && key in s.hash
    && t == s.(pcs := s.pcs[i := AtItem(s.pcs[i].exclusive, key, s.hash[key], false)])
  }

  /** A new entry in free memory.  The lookups initialise its lock; the update at commit does not. */
  predicate AllocateStep(s: State, t: State, i: nat, key: nat, lock: nat, initialise: bool) {
    && i < |s.pcs| && s.pcs[i] == Inside(true) && key !in s.hash && lock in s.rw.words && !Occupied(s.hash, lock)
    && t == State(if initialise then s.rw.(words := s.rw.words[lock := 0]) else s.rw, s.hash[key := lock],
                  s.pcs[i := AtItem(true, key, lock, false)])
  }

  predicate DeclareItemStep(s: State, t: State, i: nat) {
    && i < |s.pcs| && s.pcs[i].AtItem? && !s.pcs[i].declared && R.DeclareStep(s.rw, t.rw, i, s.pcs[i].lock)
    && t == State(t.rw, s.hash, s.pcs[i := AtItem(s.pcs[i].exclusive, s.pcs[i].key, s.pcs[i].lock, true)])
  }

  predicate LeaveStep(s: State, t: State, i: nat) {
    && i < |s.pcs|
    && match s.pcs[i]
       case Inside(_) => t == s.(pcs := s.pcs[i := Outside])
       case AtItem(_, key, lock, declared) => t == s.(pcs := s.pcs[i := Reading(key, lock, declared)])
       case _ => false
  }

  /** The item is read outside the partition, whatever occupies its memory by then. */
  predicate ReadStep(s: State, t: State, i: nat) {
    i < |s.pcs| && s.pcs[i].Reading? && t == s.(pcs := s.pcs[i := Outside])
  }

  /** What the backend is about to read is the entry it looked up. */
  predicate ReadsOwn(s: State, i: nat) {
    i < |s.pcs| && s.pcs[i].Reading? && s.pcs[i].key in s.hash && s.hash[s.pcs[i].key] == s.pcs[i].lock
  }

  /** What it is about to read belongs to another key. */
  predicate ReadsForeign(s: State, i: nat) {
    && i < |s.pcs| && s.pcs[i].Reading?
    && exists k :: k in s.hash && s.hash[k] == s.pcs[i].lock && k != s.pcs[i].key
  }

  /** The evictor has seen a victim whose lock was free at that moment, and lets the partition go. */
  predicate PickStep(s: State, t: State, i: nat, victim: nat) {
    && i < |s.pcs| && s.pcs[i] == Inside(false) && victim in s.hash && s.hash[victim] in s.rw.words
    && R.Destroyable(s.rw.words[s.hash[victim]]) && t == s.(pcs := s.pcs[i := Picked(victim)])
  }

  predicate EnterToEvictStep(s: State, t: State, i: nat) {
    && i < |s.pcs| && s.pcs[i].Picked? && CanEnter(s.pcs, true)
    && t == s.(pcs := s.pcs[i := Checking(s.pcs[i].victim)])
  }

  /** The victim is looked up again and removed only if its lock is still free. */
  predicate EvictStep(s: State, t: State, i: nat) {
    && i < |s.pcs| && s.pcs[i].Checking?
    && var victim := s.pcs[i].victim;
    if Evicts(s, i) then t == State(s.rw, s.hash - {victim}, s.pcs[i := Outside])
    else t == s.(pcs := s.pcs[i := Outside])
  }

  predicate Evicts(s: State, i: nat) {
    && i < |s.pcs| && s.pcs[i].Checking? && s.pcs[i].victim in s.hash && s.hash[s.pcs[i].victim] in s.rw.words
    && R.Destroyable(s.rw.words[s.hash[s.pcs[i].victim]])
  }

  function Acquired(held: seq<R.Handle>, lock: nat): nat {
    R.Count(held, lock, R.Exclusive) + R.Count(held, lock, R.Shared)
  }

  /** A backend that has declared the lock of the item it is still to read acquires it, undeclares it only once it is
      acquired, and does not release it yet. */
  predicate KeepsHandle(pc: Pc, p: R.Proc, step: R.Step) {
    pc.Reading? && pc.declared ==>
      && (step.ReleaseLock? ==> step.lock != pc.lock)
      && (step.UndeclareLock? && step.lock == pc.lock ==> Acquired(p.held, pc.lock) > 0)
  }

  /** Outside the partition a backend works on locks it has declared. */
  predicate LockStepStep(s: State, t: State, step: R.Step) {
    && !step.DeclareLock? && R.NextStep(s.rw, t.rw, step) && R.Disciplined(s.rw, step)
    && step.i < |s.pcs| && (s.pcs[step.i].Outside? || s.pcs[step.i].Reading?) && step.i < |s.rw.procs|
    && KeepsHandle(s.pcs[step.i], s.rw.procs[step.i], step)
    && (step.BeginAcquire? ==> R.Count(s.rw.procs[step.i].held, step.lock, R.Declared) > 0)
    && t == s.(rw := t.rw)
  }

  predicate NextStep(s: State, t: State, step: Step) {
    match step
    case Enter(i, exclusive) => EnterStep(s, t, i, exclusive)
    case Find(i, key) => FindStep(s, t, i, key)
    case Allocate(i, key, lock, initialise) => AllocateStep(s, t, i, key, lock, initialise)
    case DeclareItem(i) => DeclareItemStep(s, t, i)
    case Leave(i) => LeaveStep(s, t, i)
    case Read(i) => ReadStep(s, t, i)
    case Pick(i, victim) => PickStep(s, t, i, victim)
    case EnterToEvict(i) => EnterToEvictStep(s, t, i)
    case Evict(i) => EvictStep(s, t, i)
    case LockStep(step) => LockStepStep(s, t, step)
  }

  // ------------------------------------------------------------------ the invariant

  predicate Occupied(hash: map<nat, nat>, lock: nat) {
    exists k :: k in hash && hash[k] == lock
  }

  ghost predicate HashOk(hash: map<nat, nat>, words: map<nat, int>) {
    && (forall k :: k in hash ==> hash[k] in words)
    && forall k, l :: k in hash && l in hash && hash[k] == hash[l] ==> k == l
  }

  /** Every lock a process refers to belongs to an entry. */
  ghost predicate ReferencesLive(procs: seq<R.Proc>, hash: map<nat, nat>) {
    forall i, lock :: 0 <= i < |procs| && R.RefsBy(procs[i], lock) > 0 ==> Occupied(hash, lock)
  }

  predicate Has(hash: map<nat, nat>, key: nat, lock: nat) {
    key in hash && hash[key] == lock
  }

  /** Every item a backend looks at inside the partition is an entry, which keeps evictors out. */
  ghost predicate PcsOk(pcs: seq<Pc>, hash: map<nat, nat>) {
    && (forall i :: 0 <= i < |pcs| && pcs[i].AtItem? ==> Has(hash, pcs[i].key, pcs[i].lock))
    && (forall i, j :: 0 <= i < |pcs| && 0 <= j < |pcs| && i != j && (HoldsPartition(pcs[i], true) || pcs[i].Checking?) ==>
          !pcs[j].Inside? && !pcs[j].AtItem? && !pcs[j].Checking?)
  }

  predicate Declared(pc: Pc) {
    (pc.AtItem? || pc.Reading?) && pc.declared
  }

  /** So is the item of a backend that declared its lock, inside the partition and outside: it has a handle on it. */
  ghost predicate HandlesOk(pcs: seq<Pc>, procs: seq<R.Proc>, hash: map<nat, nat>)
    requires |pcs| == |procs|
  {
    forall i :: 0 <= i < |pcs| && Declared(pcs[i]) ==>
      R.Handles(procs[i].held, pcs[i].lock) > 0 && Has(hash, pcs[i].key, pcs[i].lock)
  }

  ghost predicate Inv(s: State) {
    && Sized(s) && R.Inv(s.rw) && HashOk(s.hash, s.rw.words) && ReferencesLive(s.rw.procs, s.hash) && PcsOk(s.pcs, s.hash)
    && HandlesOk(s.pcs, s.rw.procs, s.hash)
  }

  // ------------------------------------------------------------------ references come only from declarations

  lemma {:induction false} CountSum(procs: seq<R.Proc>, lock: nat)
    requires forall i :: 0 <= i < |procs| ==> R.RefsBy(procs[i], lock) == 0
    ensures R.Total(procs, lock, R.References) == 0
  {
    if procs != [] { CountSum(procs[..|procs| - 1], lock); }
  }

  lemma TotalCovers(procs: seq<R.Proc>, i: nat, lock: nat)
    requires i < |procs|
    ensures R.RefsBy(procs[i], lock) <= R.Total(procs, lock, R.References)
  {
    R.TotalUpdate(procs, i, procs[i], lock, R.References);
    assert R.By(procs[i], lock, R.References) == R.RefsBy(procs[i], lock);
  }

  /** A lock without an entry has no references, and its word is zero. */
  lemma FreeMemoryIsZero(s: State, lock: nat)
    requires Inv(s) && R.Bounded(s.rw) && lock in s.rw.words && !Occupied(s.hash, lock)
    ensures s.rw.words[lock] == 0
  {
    forall i | 0 <= i < |s.rw.procs| ensures R.RefsBy(s.rw.procs[i], lock) == 0 {
      assert R.RefsBy(s.rw.procs[i], lock) > 0 ==> Occupied(s.hash, lock);
    }
    CountSum(s.rw.procs, lock);
    R.DestroyableMeaning(s.rw, lock);
  }

  /** A step gives a process at most one handle more, and only a lock it declares or acquires. */
  lemma HeldAfter(s: R.State, t: R.State, step: R.Step, i: nat, lock: nat)
    requires R.NextStep(s, t, step) && i < |s.procs| && i < |t.procs|
    requires R.Handles(t.procs[i].held, lock) > R.Handles(s.procs[i].held, lock)
    ensures step.i == i
    ensures (step.DeclareLock? && step.lock == lock) || (step.CompareExchange? && s.procs[i].pc.Loaded? && s.procs[i].pc.lock == lock)
  {
    var p := s.procs[i];
    match step {
      case DeclareLock(_, l) => Appended(p.held, R.Handle(l, R.Declared), lock);
      case UndeclareLock(_, _, k) => Removed(p.held, k, lock);
      case ReleaseLock(_, _, k) => Removed(p.held, k, lock);
      case CompareExchange(_) => Appended(p.held, R.Handle(p.pc.lock, p.pc.mode), lock);
      case BeginAcquire(_, _, _) =>
      case Load(_) =>
      case DropReference(_) =>
    }
  }

  /** Who waits for a lock or lets it go, did so before or held it. */
  lemma WaitsAfter(s: R.State, t: R.State, step: R.Step, i: nat, lock: nat)
    requires R.NextStep(s, t, step) && i < |s.procs| && i < |t.procs| && !t.procs[i].pc.Idle? && t.procs[i].pc.lock == lock
    ensures R.RefsBy(s.procs[i], lock) > 0 || (step.BeginAcquire? && step.i == i && step.lock == lock)
  {
    if step.i == i && step.ReleaseLock? { Removed(s.procs[i].held, step.k, lock); }
  }

  lemma RefsAfter(s: R.State, t: R.State, step: R.Step, i: nat, lock: nat)
    requires R.NextStep(s, t, step) && i < |t.procs| && R.RefsBy(t.procs[i], lock) > 0
    ensures |t.procs| == |s.procs| && t.words.Keys == s.words.Keys
    ensures R.RefsBy(s.procs[i], lock) > 0 || (step.DeclareLock? && step.i == i && step.lock == lock)
            || (step.BeginAcquire? && step.i == i && step.lock == lock)
  {
    SameSize(s, t, step);
    if !t.procs[i].pc.Idle? && t.procs[i].pc.lock == lock {
      WaitsAfter(s, t, step, i, lock);
    } else if R.Handles(t.procs[i].held, lock) > R.Handles(s.procs[i].held, lock) {
      HeldAfter(s, t, step, i, lock);
    }
  }

  lemma Appended(held: seq<R.Handle>, h: R.Handle, lock: nat)
    ensures R.Handles(held + [h], lock) == R.Handles(held, lock) + if h.lock == lock then 1 else 0
  {
    R.CountAppend(held, h, lock, R.Exclusive);
    R.CountAppend(held, h, lock, R.Shared);
    R.CountAppend(held, h, lock, R.Declared);
    assert h == R.Handle(h.lock, h.mode) && (h.mode.Exclusive? || h.mode.Shared? || h.mode.Declared?);
  }

  lemma Removed(held: seq<R.Handle>, k: nat, lock: nat)
    requires k < |held|
    ensures R.Handles(R.Without(held, k), lock) == R.Handles(held, lock) - if held[k].lock == lock then 1 else 0
  {
    R.CountWithout(held, k, lock, R.Exclusive);
    R.CountWithout(held, k, lock, R.Shared);
    R.CountWithout(held, k, lock, R.Declared);
    var h := held[k];
    assert h == R.Handle(h.lock, h.mode) && (h.mode.Exclusive? || h.mode.Shared? || h.mode.Declared?);
  }

  // ------------------------------------------------------------------ every step keeps it

  /** The handles on a lock after a step of a backend that keeps one. */
  lemma HandleStays(s: R.State, t: R.State, step: R.Step, i: nat, pc: Pc)
    requires R.NextStep(s, t, step) && i < |s.procs| && i < |t.procs| && Declared(pc)
    requires R.Handles(s.procs[i].held, pc.lock) > 0
    requires step.i == i ==> pc.Reading? && KeepsHandle(pc, s.procs[i], step)
    ensures R.Handles(t.procs[i].held, pc.lock) > 0
  {
    var p, q, lock := s.procs[i], t.procs[i], pc.lock;
    if p.held != q.held {
      match step {
        case DeclareLock(_, l) => Appended(p.held, R.Handle(l, R.Declared), lock);
        case UndeclareLock(_, _, k) =>
          R.CountWithout(p.held, k, lock, R.Exclusive);
          R.CountWithout(p.held, k, lock, R.Shared);
          Removed(p.held, k, lock);
        case ReleaseLock(_, _, k) => Removed(p.held, k, lock);
        case CompareExchange(_) => Appended(p.held, R.Handle(p.pc.lock, p.pc.mode), lock);
        case BeginAcquire(_, _, _) =>
        case Load(_) =>
        case DropReference(_) =>
      }
    }
  }

  lemma LockStepKeeps(s: State, t: State, step: R.Step)
    requires Inv(s) && R.Bounded(s.rw) && R.Bounded(t.rw) && LockStepStep(s, t, step)
    ensures Inv(t)
  {
    R.NextKeeps(s.rw, t.rw, step);
    SameSize(s.rw, t.rw, step);
    forall i, lock | 0 <= i < |t.rw.procs| && R.RefsBy(t.rw.procs[i], lock) > 0 ensures Occupied(s.hash, lock) {
      RefsAfter(s.rw, t.rw, step, i, lock);
    }
    forall i | 0 <= i < |s.pcs| && Declared(s.pcs[i]) ensures R.Handles(t.rw.procs[i].held, s.pcs[i].lock) > 0 {
      HandleStays(s.rw, t.rw, step, i, s.pcs[i]);
    }
  }

  lemma SameSize(s: R.State, t: R.State, step: R.Step)
    requires R.NextStep(s, t, step)
    ensures |t.procs| == |s.procs| && t.words.Keys == s.words.Keys
  {
  }

  lemma DeclareItemKeeps(s: State, t: State, i: nat)
    requires Inv(s) && R.Bounded(s.rw) && R.Bounded(t.rw) && DeclareItemStep(s, t, i)
    ensures Inv(t)
  {
    var lock := s.pcs[i].lock;
    R.DeclareKeeps(s.rw, t.rw, i, lock);
    assert Occupied(s.hash, lock);
    forall j, l | 0 <= j < |t.rw.procs| && R.RefsBy(t.rw.procs[j], l) > 0 ensures Occupied(s.hash, l) {
      RefsAfter(s.rw, t.rw, R.DeclareLock(i, lock), j, l);
    }
    Appended(s.rw.procs[i].held, R.Handle(lock, R.Declared), lock);
  }

  lemma AllocateKeeps(s: State, t: State, i: nat, key: nat, lock: nat, initialise: bool)
    requires Inv(s) && R.Bounded(s.rw) && AllocateStep(s, t, i, key, lock, initialise)
    ensures Inv(t)
  {
    FreeMemoryIsZero(s, lock);
    assert t.rw.words == s.rw.words;
    assert t.hash[key] == lock;
    forall l | Occupied(s.hash, l) ensures Occupied(t.hash, l) {
      var k :| k in s.hash && s.hash[k] == l;
      assert t.hash[k] == l;
    }
  }

  /** Nobody refers to an entry that is evicted: no process has declared its lock, waits for it, holds it or is
      letting it go, no backend looks at it inside the partition, and none that declared its lock is still to read it. */
  lemma VictimIsUnused(s: State, i: nat)
    requires Inv(s) && R.Bounded(s.rw) && Evicts(s, i)
    ensures var lock := s.hash[s.pcs[i].victim];
      && (forall j :: 0 <= j < |s.rw.procs| ==> R.RefsBy(s.rw.procs[j], lock) == 0)
      && (forall j :: 0 <= j < |s.pcs| ==> !s.pcs[j].AtItem?)
      && (forall j :: 0 <= j < |s.pcs| && Declared(s.pcs[j]) ==> s.pcs[j].lock != lock && s.pcs[j].key != s.pcs[i].victim)
  {
    var lock := s.hash[s.pcs[i].victim];
    R.DestroyableMeaning(s.rw, lock);
    forall j | 0 <= j < |s.rw.procs| ensures R.RefsBy(s.rw.procs[j], lock) == 0 { TotalCovers(s.rw.procs, j, lock); }
    forall j | 0 <= j < |s.pcs| && Declared(s.pcs[j]) ensures s.pcs[j].lock != lock {
      assert R.RefsBy(s.rw.procs[j], s.pcs[j].lock) > 0;
    }
  }

  lemma EvictKeeps(s: State, t: State, i: nat)
    requires Inv(s) && R.Bounded(s.rw) && EvictStep(s, t, i)
    ensures Inv(t)
  {
    if Evicts(s, i) {
      VictimIsUnused(s, i);
      var victim := s.pcs[i].victim;
      forall l | Occupied(s.hash, l) && l != s.hash[victim] ensures Occupied(t.hash, l) {
        var k :| k in s.hash && s.hash[k] == l;
        assert t.hash[k] == l;
      }
    }
  }

  /** The steps that change only where a backend is. */
  predicate Moves(step: Step) {
    step.Enter? || step.Find? || step.Leave? || step.Read? || step.Pick? || step.EnterToEvict?
  }

  lemma MovesKeepPcs(s: State, t: State, step: Step)
    requires Moves(step) && NextStep(s, t, step) && PcsOk(s.pcs, s.hash)
    ensures t.rw == s.rw && t.hash == s.hash && |t.pcs| == |s.pcs| && PcsOk(t.pcs, t.hash)
  {
  }

  lemma MovesKeepHandles(s: State, t: State, step: Step)
    requires Moves(step) && NextStep(s, t, step) && Sized(s) && HandlesOk(s.pcs, s.rw.procs, s.hash)
    ensures Sized(t) && HandlesOk(t.pcs, t.rw.procs, t.hash)
  {
    forall j | 0 <= j < |t.pcs| && Declared(t.pcs[j])
      ensures Declared(s.pcs[j]) && s.pcs[j].key == t.pcs[j].key && s.pcs[j].lock == t.pcs[j].lock
    {
    }
  }

  lemma NextKeeps(s: State, t: State, step: Step)
    requires Inv(s) && R.Bounded(s.rw) && R.Bounded(t.rw) && NextStep(s, t, step)
    ensures Inv(t)
  {
    if Moves(step) {
      MovesKeepPcs(s, t, step);
      MovesKeepHandles(s, t, step);
    } else {
      match step {
        case Allocate(i, key, lock, initialise) => AllocateKeeps(s, t, i, key, lock, initialise);
        case DeclareItem(i) => DeclareItemKeeps(s, t, i);
        case Evict(i) => EvictKeeps(s, t, i);
        case LockStep(step) => LockStepKeeps(s, t, step);
      }
    }
  }

  // ------------------------------------------------------------------ runs

  ghost predicate Init(s: State) {
    && Sized(s) && R.Init(s.rw) && s.hash == map[] && forall i :: 0 <= i < |s.pcs| ==> s.pcs[i] == Outside
  }

  ghost predicate Run(states: seq<State>, steps: seq<Step>) {
    && |states| == |steps| + 1 && Init(states[0]) && (forall i :: 0 <= i < |states| ==> R.Bounded(states[i].rw))
    && forall i :: 0 <= i < |steps| ==> NextStep(states[i], states[i + 1], steps[i])
  }

  lemma InitOk(s: State)
    requires Init(s)
    ensures Inv(s)
  {
    R.InitOk(s.rw);
  }

  lemma {:induction false} RunKeepsInv(states: seq<State>, steps: seq<Step>, i: nat)
    requires Run(states, steps) && i < |states|
    ensures Inv(states[i])
  {
    if i == 0 {
      InitOk(states[0]);
    } else {
      RunKeepsInv(states, steps, i - 1);
      assert NextStep(states[i - 1], states[i - 1 + 1], steps[i - 1]);
      NextKeeps(states[i - 1], states[i], steps[i - 1]);
    }
  }

  /** Over every run no entry is evicted while a backend has declared, waits for, holds or releases its lock. */
  lemma NoEvictionInUse(states: seq<State>, steps: seq<Step>, i: nat)
    requires Run(states, steps) && i < |steps| && steps[i].Evict? && Evicts(states[i], steps[i].i)
    ensures var lock := states[i].hash[states[i].pcs[steps[i].i].victim];
      forall j :: 0 <= j < |states[i].rw.procs| ==> R.RefsBy(states[i].rw.procs[j], lock) == 0
  {
    RunKeepsInv(states, steps, i);
    VictimIsUnused(states[i], steps[i].i);
  }

  /** Over every run a lock that is declared, waited for or held belongs to exactly one entry of the hash. */
  lemma LocksHaveEntries(states: seq<State>, steps: seq<Step>, i: nat, j: nat, lock: nat)
    requires Run(states, steps) && i < |states| && j < |states[i].rw.procs| && R.RefsBy(states[i].rw.procs[j], lock) > 0
    ensures exists k :: k in states[i].hash && states[i].hash[k] == lock
                        && forall l :: l in states[i].hash && states[i].hash[l] == lock ==> l == k
  {
    RunKeepsInv(states, steps, i);
    assert Occupied(states[i].hash, lock);
    var k :| k in states[i].hash && states[i].hash[k] == lock;
  }

  // ------------------------------------------------------------------ what is read

  /** Over every run a backend that declared the lock before it let the partition go reads the entry it looked up. */
  lemma LockedReadsOwn(states: seq<State>, steps: seq<Step>, n: nat, i: nat)
    requires Run(states, steps) && n < |states| && i < |states[n].pcs|
    requires states[n].pcs[i].Reading? && states[n].pcs[i].declared
    ensures ReadsOwn(states[n], i)
  {
    RunKeepsInv(states, steps, n);
    assert Declared(states[n].pcs[i]);
  }

  /** An entry stays in its memory until it is evicted, so without a lock the read is right until then. */
  lemma EntryStays(s: State, t: State, step: Step, key: nat)
    requires NextStep(s, t, step) && key in s.hash
    ensures Has(t.hash, key, s.hash[key])
            || (step.Evict? && Evicts(s, step.i) && s.pcs[step.i].victim == key && key !in t.hash)
  {
  }

  const IDLE := R.Proc([], R.Idle)
  const NO_LOCKS := R.State(map[5 := 0], [IDLE, IDLE])

  function With(hash: map<nat, nat>, first: Pc, second: Pc): State {
    State(NO_LOCKS, hash, [first, second])
  }

  /** Backend 0 looks key 1 up without a lock and lets the partition go; backend 1 evicts the entry and enters key 2 in
      the same memory; backend 0 is about to read that. */
  function ForeignRun(): seq<State> {
    [ With(map[], Outside, Outside),
      With(map[], Inside(true), Outside),
      With(map[1 := 5], AtItem(true, 1, 5, false), Outside),
      With(map[1 := 5], Reading(1, 5, false), Outside),
      With(map[1 := 5], Reading(1, 5, false), Inside(false)),
      With(map[1 := 5], Reading(1, 5, false), Picked(1)),
      With(map[1 := 5], Reading(1, 5, false), Checking(1)),
      With(map[], Reading(1, 5, false), Outside),
      With(map[], Reading(1, 5, false), Inside(true)),
      With(map[2 := 5], Reading(1, 5, false), AtItem(true, 2, 5, false)) ]
  }

  function ForeignSteps(): seq<Step> {
    [ Enter(0, true), Allocate(0, 1, 5, true), Leave(0), Enter(1, false), Pick(1, 1), EnterToEvict(1), Evict(1),
      Enter(1, true), Allocate(1, 2, 5, true) ]
  }

  lemma ForeignStepAt(n: nat)
    requires n < 9
    ensures NextStep(ForeignRun()[n], ForeignRun()[n + 1], ForeignSteps()[n])
  {
    if n < 4 { ForeignStart(n); } else { ForeignEnd(n); }
  }

  lemma ForeignStart(n: nat)
    requires n < 4
    ensures NextStep(ForeignRun()[n], ForeignRun()[n + 1], ForeignSteps()[n])
  {
  }

  lemma ForeignEnd(n: nat)
    requires 4 <= n < 9
    ensures NextStep(ForeignRun()[n], ForeignRun()[n + 1], ForeignSteps()[n])
  {
  }

  lemma NoLocksBounded()
    ensures R.Bounded(NO_LOCKS) && R.Init(NO_LOCKS)
  {
    assert R.RefsBy(IDLE, 5) == 0;
    CountSum([IDLE, IDLE], 5);
  }

  lemma UnlockedReadGoesWrong()
    ensures var states, steps := ForeignRun(), ForeignSteps();
      Run(states, steps) && states[9].pcs[0] == Reading(1, 5, false) && ReadsForeign(states[9], 0)
  {
    var states, steps := ForeignRun(), ForeignSteps();
    NoLocksBounded();
    forall n | 0 <= n < |steps| ensures NextStep(states[n], states[n + 1], steps[n]) { ForeignStepAt(n); }
    forall n | 0 <= n < |states| ensures R.Bounded(states[n].rw) { assert states[n].rw == NO_LOCKS; }
    assert states[9].hash[2] == 5;
  }

  predicate AboutToRead(s: State, i: nat, declared: bool) {
    i < |s.pcs| && s.pcs[i].Reading? && s.pcs[i].declared == declared
  }

  /** Callers that ask for a lock, or callers that ask for none, read the entry they looked up in every run. */
  ghost predicate AlwaysReadsOwn(declared: bool) {
    forall states: seq<State>, steps: seq<Step>, n: nat, i: nat ::
      Run(states, steps) && n < |states| && AboutToRead(states[n], i, declared) ==> ReadsOwn(states[n], i)
  }

  /** The item read outside the partition is certain to be the entry looked up if and only if the caller asked for a
      lock. */
  lemma ReadsOwnIff(declared: bool)
    ensures AlwaysReadsOwn(declared) <==> declared
  {
    if declared {
      forall states: seq<State>, steps: seq<Step>, n: nat, i: nat |
        Run(states, steps) && n < |states| && AboutToRead(states[n], i, true)
        ensures ReadsOwn(states[n], i)
      {
        LockedReadsOwn(states, steps, n, i);
      }
    } else {
      UnlockedReadGoesWrong();
      assert AboutToRead(ForeignRun()[9], 0, false) && !ReadsOwn(ForeignRun()[9], 0);
    }
  }
}
