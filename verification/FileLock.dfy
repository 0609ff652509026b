/**
 The store's file locks: a map from inode to a signed count, positive for shared holders and negative for the
 exclusive one, and a number of waiting threads.  Every step runs under the map's mutex; a thread that must wait
 gives it up and is woken later.
 */
module FileLock {

  datatype Mode = X | S

  function Value(m: Mode): int {
    if m == X then -1 else 1
  }

  /** hasCv: the entry has a condition variable for its waiters. */
  datatype Entry = Entry(count: int, waiting: int, hasCv: bool)
  type Table = map<nat, Entry>

  /** One request for a lock, through its life. */
  datatype Locker = Idle | Waiting(inode: nat, mode: Mode) | Holding(inode: nat, mode: Mode) | Finished

  datatype State = State(table: Table, lockers: seq<Locker>)

  datatype Step = Get(i: nat, inode: nat, mode: Mode, wait: bool) | Wake(i: nat) | Release(i: nat)

  // ------------------------------------------------------------------ the operations on the map

  /** What a request does at once: takes the lock, starts to wait, or gives up. */
  datatype Outcome = Taken(table: Table) | MustWait(table: Table) | GaveUp(table: Table)

  function GetLock(table: Table, inode: nat, mode: Mode, wait: bool): Outcome {
    var count := if inode in table then table[inode].count else 0;
    var entry := if inode in table then table[inode] else Entry(0, 0, false);
    if count == 0 then Taken(table[inode := Entry(Value(mode), entry.waiting, entry.hasCv || entry.waiting == 0)])
    else if count > 0 && mode == S then Taken(table[inode := entry.(count := entry.count + 1)])
    else if wait && entry.hasCv then MustWait(table[inode := entry.(waiting := entry.waiting + 1)])
    else GaveUp(table)
  }

  predicate CanWake(table: Table, inode: nat, mode: Mode) {
    inode in table && if mode == X then table[inode].count == 0 else table[inode].count >= 0
  }

  function WakeUp(table: Table, inode: nat, mode: Mode): Table
    requires inode in table
  {
    table[inode := table[inode].(waiting := table[inode].waiting - 1, count := table[inode].count + Value(mode))]
  }

  function ReleaseLock(table: Table, inode: nat, mode: Mode): Table {
    if inode !in table then table
    else
      var count := table[inode].count - Value(mode);
      if count == 0 && table[inode].waiting == 0 then table - {inode} else table[inode := table[inode].(count := count)]
  }

  predicate TestLocked(table: Table, inode: nat, mode: Mode) {
    inode in table && (mode == X || table[inode].count < 0)
  }

  // ------------------------------------------------------------------ steps

  predicate GetStep(s: State, t: State, i: nat, inode: nat, mode: Mode, wait: bool) {
    && i < |s.lockers| && s.lockers[i].Idle?
    && match GetLock(s.table, inode, mode, wait)
       case Taken(table) => t == State(table, s.lockers[i := Holding(inode, mode)])
       case MustWait(table) => t == State(table, s.lockers[i := Waiting(inode, mode)])
       case GaveUp(table) => t == State(table, s.lockers[i := Finished])
  }

  predicate WakeStep(s: State, t: State, i: nat) {
    && i < |s.lockers| && s.lockers[i].Waiting? && CanWake(s.table, s.lockers[i].inode, s.lockers[i].mode)
    && t == State(WakeUp(s.table, s.lockers[i].inode, s.lockers[i].mode),
                  s.lockers[i := Holding(s.lockers[i].inode, s.lockers[i].mode)])
  }

  /** Only a holder releases, and only what it holds. */
  predicate ReleaseStep(s: State, t: State, i: nat) {
    && i < |s.lockers| && s.lockers[i].Holding?
    && t == State(ReleaseLock(s.table, s.lockers[i].inode, s.lockers[i].mode), s.lockers[i := Finished])
  }

  predicate NextStep(s: State, t: State, step: Step) {
    match step
    case Get(i, inode, mode, wait) => GetStep(s, t, i, inode, mode, wait)
    case Wake(i) => WakeStep(s, t, i)
    case Release(i) => ReleaseStep(s, t, i)
  }

  // ------------------------------------------------------------------ counting

  datatype What = Sharing | Excluding | Queued

  function By(l: Locker, inode: nat, what: What): nat {
    match what
    case Sharing => if l == Holding(inode, S) then 1 else 0
    case Excluding => if l == Holding(inode, X) then 1 else 0
    case Queued => if l.Waiting? && l.inode == inode then 1 else 0
  }

  function Total(lockers: seq<Locker>, inode: nat, what: What): nat {
    if lockers == [] then 0 else Total(lockers[..|lockers| - 1], inode, what) + By(lockers[|lockers| - 1], inode, what)
  }

  lemma {:induction false} TotalUpdate(lockers: seq<Locker>, i: nat, l: Locker, inode: nat, what: What)
    requires i < |lockers|
    ensures Total(lockers[i := l], inode, what) == Total(lockers, inode, what) - By(lockers[i], inode, what) + By(l, inode, what)
    ensures By(lockers[i], inode, what) <= Total(lockers, inode, what)
  {
    var n := |lockers| - 1;
    var after := lockers[i := l];
    if i == n {
      assert after[..n] == lockers[..n];
    } else {
      TotalUpdate(lockers[..n], i, l, inode, what);
      assert after[..n] == lockers[..n][i := l];
    }
  }

  lemma Totals(lockers: seq<Locker>, i: nat, l: Locker, inode: nat)
    requires i < |lockers|
    ensures forall what :: Total(lockers[i := l], inode, what) ==
                           Total(lockers, inode, what) - By(lockers[i], inode, what) + By(l, inode, what)
    ensures forall what :: By(lockers[i], inode, what) <= Total(lockers, inode, what)
  {
    forall what: What
      ensures Total(lockers[i := l], inode, what) == Total(lockers, inode, what) - By(lockers[i], inode, what) + By(l, inode, what)
      ensures By(lockers[i], inode, what) <= Total(lockers, inode, what)
    {
      TotalUpdate(lockers, i, l, inode, what);
    }
  }

  // ------------------------------------------------------------------ the invariant

  /** Some shared holders or one exclusive holder; the count says which; the entry exists exactly while someone holds
      or waits, and then waiters have a condition variable. */
  predicate InodeOk(table: Table, lockers: seq<Locker>, inode: nat) {
    var sharing, excluding, queued := Total(lockers, inode, Sharing), Total(lockers, inode, Excluding), Total(lockers, inode, Queued);
    && (excluding == 0 || (excluding == 1 && sharing == 0))
    && (inode in table <==> sharing + excluding + queued > 0)
    && (inode in table ==>
          table[inode].count == sharing - excluding && table[inode].waiting == queued && table[inode].hasCv)
  }

  ghost predicate Inv(s: State) {
    forall inode: nat :: InodeOk(s.table, s.lockers, inode)
  }

  lemma OtherInode(s: State, t: State, i: nat, l: Locker, inode: nat)
    requires InodeOk(s.table, s.lockers, inode) && i < |s.lockers| && t.lockers == s.lockers[i := l]
    requires forall what :: By(s.lockers[i], inode, what) == By(l, inode, what)
    requires (inode in t.table <==> inode in s.table) && (inode in s.table ==> t.table[inode] == s.table[inode])
    ensures InodeOk(t.table, t.lockers, inode)
  {
    Totals(s.lockers, i, l, inode);
  }

  lemma GetKeeps(s: State, t: State, i: nat, inode: nat, mode: Mode, wait: bool)
    requires Inv(s) && GetStep(s, t, i, inode, mode, wait)
    ensures Inv(t)
  {
    var l := t.lockers[i];
    Totals(s.lockers, i, l, inode);
    assert t.lockers == s.lockers[i := l] && InodeOk(s.table, s.lockers, inode);
    forall n: nat ensures InodeOk(t.table, t.lockers, n) {
      if n != inode { OtherInode(s, t, i, l, n); }
    }
  }

  lemma WakeKeeps(s: State, t: State, i: nat)
    requires Inv(s) && WakeStep(s, t, i)
    ensures Inv(t)
  {
    var l, inode := t.lockers[i], s.lockers[i].inode;
    Totals(s.lockers, i, l, inode);
    assert t.lockers == s.lockers[i := l] && InodeOk(s.table, s.lockers, inode);
    forall n: nat ensures InodeOk(t.table, t.lockers, n) {
      if n != inode { OtherInode(s, t, i, l, n); }
    }
  }

  lemma ReleaseKeeps(s: State, t: State, i: nat)
    requires Inv(s) && ReleaseStep(s, t, i)
    ensures Inv(t)
  {
    var l, inode := t.lockers[i], s.lockers[i].inode;
    Totals(s.lockers, i, l, inode);
    assert t.lockers == s.lockers[i := l] && InodeOk(s.table, s.lockers, inode);
    forall n: nat ensures InodeOk(t.table, t.lockers, n) {
      if n != inode { OtherInode(s, t, i, l, n); }
    }
  }

  // ------------------------------------------------------------------ runs

  predicate Init(s: State) {
    s.table == map[] && forall i :: 0 <= i < |s.lockers| ==> s.lockers[i] == Idle
  }

  lemma {:induction false} NoTotals(lockers: seq<Locker>, inode: nat, what: What)
    requires forall i :: 0 <= i < |lockers| ==> lockers[i] == Idle
    ensures Total(lockers, inode, what) == 0
  {
    if lockers != [] { NoTotals(lockers[..|lockers| - 1], inode, what); }
  }

  ghost predicate Run(states: seq<State>, steps: seq<Step>) {
    && |states| == |steps| + 1 && Init(states[0])
    && forall i :: 0 <= i < |steps| ==> NextStep(states[i], states[i + 1], steps[i])
  }

  lemma {:induction false} RunKeepsInv(states: seq<State>, steps: seq<Step>, i: nat)
    requires Run(states, steps) && i < |states|
    ensures Inv(states[i])
  {
    if i == 0 {
      forall n: nat, what ensures Total(states[0].lockers, n, what) == 0 { NoTotals(states[0].lockers, n, what); }
    } else {
      RunKeepsInv(states, steps, i - 1);
      var s, t := states[i - 1], states[i];
      assert NextStep(states[i - 1], states[i - 1 + 1], steps[i - 1]);
      match steps[i - 1] {
        case Get(k, inode, mode, wait) => GetKeeps(s, t, k, inode, mode, wait);
        case Wake(k) => WakeKeeps(s, t, k);
        case Release(k) => ReleaseKeeps(s, t, k);
      }
    }
  }

  /** In every reachable state an inode has shared holders or one exclusive holder, its signed count says which, and
      its entry is there exactly while someone holds or waits. */
  lemma LockStateMeaning(states: seq<State>, steps: seq<Step>, i: nat, inode: nat)
    requires Run(states, steps) && i < |states|
    ensures InodeOk(states[i].table, states[i].lockers, inode)
  {
    RunKeepsInv(states, steps, i);
  }

  /** TestLocked for an exclusive lock says whether anybody holds or waits, for a shared one whether somebody holds the
      lock exclusively. */
  lemma TestLockedMeaning(s: State, inode: nat, mode: Mode)
    requires Inv(s)
    ensures TestLocked(s.table, inode, mode) <==>
            if mode == X then Total(s.lockers, inode, Sharing) + Total(s.lockers, inode, Excluding) + Total(s.lockers, inode, Queued) > 0
            else Total(s.lockers, inode, Excluding) == 1
  {
    assert InodeOk(s.table, s.lockers, inode);
  }

  /** A request is granted at once exactly when the holders admit it, and otherwise one that wants to wait always
      finds the condition variable to wait on. */
  lemma GetMeaning(s: State, inode: nat, mode: Mode, wait: bool)
    requires Inv(s)
    ensures var free := Total(s.lockers, inode, Excluding) == 0 && (mode == S || Total(s.lockers, inode, Sharing) == 0);
      && (GetLock(s.table, inode, mode, wait).Taken? <==> free)
      && (GetLock(s.table, inode, mode, wait).MustWait? <==> !free && wait)
  {
    assert InodeOk(s.table, s.lockers, inode);
  }
}
