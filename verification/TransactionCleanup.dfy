/**
 The cleanup daemon as it runs when nothing else moves: its two loops, over the record table and
 over the remaining prepared gids, and what one and two undisturbed rounds achieve.
 */
module TransactionCleanup {
  import opened TwoPhaseCommit

  /** A run of cluster steps that starts in s and ends in s'. */
  ghost predicate Path(path: seq<State>, s: State, s': State) {
    && |path| > 0 && path[0] == s && path[|path| - 1] == s'
    && forall i :: 0 <= i < |path| - 1 ==> Next(path[i], path[i + 1])
  }

  lemma Extend(path: seq<State>, s: State, mid: State, s': State, step: Step)
    requires Path(path, s, mid) && NextStep(mid, s', step)
    ensures Path(path + [s'], s, s')
  {
    var p := path + [s'];
    forall i | 0 <= i < |p| - 1 ensures Next(p[i], p[i + 1]) {
      if i == |path| - 1 { assert p[i] == mid && p[i + 1] == s'; }
    }
  }

  lemma {:induction false} PathKeepsInv(path: seq<State>, s: State, s': State)
    requires Path(path, s, s') && Inv(s)
    ensures Inv(s')
    decreases |path|
  {
    if |path| > 1 {
      var mid := path[|path| - 2];
      var front := path[..|path| - 1];
      assert Path(front, s, mid);
      PathKeepsInv(front, s, mid);
      assert Next(path[|path| - 2], path[|path| - 1]);
      NextKeeps(mid, s');
    }
  }

  /** The worker map after every gid of gs prepared at w has been finished as st. */
  function Finish(worker: map<(Server, Gid), WorkerStatus>, w: Server, gs: set<Gid>, st: WorkerStatus)
    : map<(Server, Gid), WorkerStatus>
  {
    map key | key in worker :: if key.0 == w && key.1 in gs then st else worker[key]
  }

  lemma FinishOne(worker: map<(Server, Gid), WorkerStatus>, w: Server, gs: set<Gid>, g: Gid, st: WorkerStatus)
    requires (w, g) in worker
    ensures Finish(worker, w, gs, st)[(w, g) := st] == Finish(worker, w, gs + {g}, st)
  {
  }

  /** The records, out of a set, whose gid is neither prepared nor in progress. */
  function Unneeded(w: Server, c: set<Gid>, setA: set<Gid>, setB: set<Gid>): set<(Server, Gid)> {
    set g | g in c && g !in setA && g !in setB :: (w, g)
  }

  /** The cleaner when it has scanned some of the records setC. */
  function ScannedCleaner(p: Cleaner, w: Server, setA: set<Gid>, setB: set<Gid>, setC: set<Gid>, done: set<Gid>): Cleaner {
    Cleaner(p.coord, p.deleted + Unneeded(w, done, setA, setB), Scan(w, setA - (done - setB), setB, setC - done, setA))
  }

  lemma NothingScanned(p: Cleaner, worker: map<(Server, Gid), WorkerStatus>, w: Server, setA: set<Gid>, setB: set<Gid>,
                       setC: set<Gid>)
    requires p.round == Scan(w, setA, setB, setC, setA)
    ensures ScannedCleaner(p, w, setA, setB, setC, {}) == p
    ensures Finish(worker, w, {} * setA - setB, Committed) == worker
  {
    assert Unneeded(w, {}, setA, setB) == {} && {} * setA - setB == {};
    assert p.deleted + {} == p.deleted && setA - ({} - setB) == setA && setC - {} == setC;
  }

  lemma UnneededMore(w: Server, done: set<Gid>, x: Gid, setA: set<Gid>, setB: set<Gid>)
    ensures Unneeded(w, done + {x}, setA, setB) ==
            Unneeded(w, done, setA, setB) + if x in setB || x in setA then {} else {(w, x)}
  {
    var more := Unneeded(w, done, setA, setB) + if x in setB || x in setA then {} else {(w, x)};
    forall v, g ensures (v, g) in Unneeded(w, done + {x}, setA, setB) <==> (v, g) in more { }
  }

  lemma OneMoreScanned(p: Cleaner, worker: map<(Server, Gid), WorkerStatus>, w: Server, setA: set<Gid>, setB: set<Gid>,
                       setC: set<Gid>, done: set<Gid>, x: Gid)
    requires x in setC && x !in done && forall g :: g in setA ==> (w, g) in worker
    ensures var c, c' := ScannedCleaner(p, w, setA, setB, setC, done), ScannedCleaner(p, w, setA, setB, setC, done + {x});
      && c'.deleted == c.deleted + (if x in setB || x in c.round.a then {} else {(w, x)})
      && c'.round == Scan(w, if x in setB then c.round.a else c.round.a - {x}, setB, c.round.todo - {x}, setA)
      && (x in c.round.a <==> x in setA)
    ensures var f := Finish(worker, w, done * setA - setB, Committed);
      Finish(worker, w, (done + {x}) * setA - setB, Committed) ==
        if x in setA && x !in setB then f[(w, x) := Committed] else f
  {
    UnneededMore(w, done, x, setA, setB);
    var c, c' := ScannedCleaner(p, w, setA, setB, setC, done), ScannedCleaner(p, w, setA, setB, setC, done + {x});
    assert c'.round.todo == c.round.todo - {x};
    assert c'.round.a == if x in setB then c.round.a else c.round.a - {x};
    assert (done + {x}) * setA - setB == done * setA - setB + if x in setA && x !in setB then {x} else {};
    if x in setA && x !in setB {
      FinishOne(worker, w, done * setA - setB, x, Committed);
    } else {
      assert done * setA - setB + {} == done * setA - setB;
    }
  }

  /** One cleanup process, the only one moving. */
  class Daemon {
    const coord: Server
    const id: nat
    var s: State
    ghost var path: seq<State>
    ghost const start: State

    ghost predicate Valid()
      reads this
    {
      && id in s.cleaners && s.cleaners[id].coord == coord
      && Path(path, start, s)
    }

    constructor (c: Server, k: nat, s0: State)
      requires k !in s0.cleaners
      ensures Valid() && coord == c && id == k && start == s0
      ensures s == s0.(cleaners := s0.cleaners[k := Cleaner(c, {}, NoRound)])
    {
      var s1 := s0.(cleaners := s0.cleaners[k := Cleaner(c, {}, NoRound)]);
      coord, id, s, start := c, k, s1, s0;
      path := [s0, s1];
      new;
      assert NextStep(s0, s1, StartCleaner(k, c));
    }

    /** Moves the cluster by one step. */
    method Move(s': State, ghost step: Step)
      requires Valid() && NextStep(s, s', step)
      requires id in s'.cleaners && s'.cleaners[id].coord == coord
      modifies this`s, this`path
      ensures Valid() && s == s'
    {
      Extend(path, start, s, s', step);
      path := path + [s'];
      s := s';
    }

    /** Sends COMMIT PREPARED or ROLLBACK PREPARED to a server and waits until it has been executed. */
    method CommitOrRollbackPreparedTransaction(m: Message, sentState: State, ghost step: Step)
      requires Valid() && !m.PrepareMsg? && IsPrepared(s, m.w, m.g)
      requires NextStep(s, sentState, step)
      requires sentState == s.(net := s.net + {m}, cleaners := sentState.cleaners)
      requires id in sentState.cleaners && sentState.cleaners[id].coord == coord
      modifies this`s, this`path
      ensures Valid()
      ensures s == sentState.(net := old(s).net,
                              worker := old(s).worker[(m.w, m.g) := if m.CommitMsg? then Committed else RolledBack])
    {
      var again := m in s.net;
      ghost var before := s;
      Move(sentState, step);
      assert before.net == if again then s.net else s.net - {m};
      Move(AfterFinish(s.(net := if again then s.net else s.net - {m}), m), DeliverFinish(m, again));
    }

    /** Takes the four sets, in the order A, B, C, D; undisturbed, A and D are the same. */
    method TakeSets(w: Server) returns (setA: set<Gid>, setB: set<Gid>, setC: set<Gid>)
      requires Valid() && s.cleaners[id].round == NoRound
      modifies this`s, this`path
      ensures Valid()
      ensures setA == PreparedAt(old(s), coord, w) && setC == RecordsFor(old(s), coord, w)
      ensures setB == InProgressOf(old(s), coord)
      ensures s == WithRound(old(s), id, Scan(w, setA, setB, setC, setA))
    {
      setA := PreparedAt(s, coord, w);
      Move(WithRound(s, id, HaveA(w, setA)), TakeA(id, w));
      setB := InProgressOf(s, coord);
      Move(WithRound(s, id, HaveB(w, setA, setB)), TakeB(id));
      setC := RecordsFor(s, coord, w);
      assert setB == InProgressOf(old(s), coord) && setC == RecordsFor(old(s), coord, w);
      Move(WithRound(s, id, HaveC(w, setA, setB, setC)), TakeC(id));
      var setD := PreparedAt(s, coord, w);
      assert setA == setD;
      Move(WithRound(s, id, Scan(w, setA, setB, setC, setD)), TakeD(id));
    }

    /** One record x: skip, commit, or mark for deletion. */
    method ScanRecord(w: Server, x: Gid)
      requires Valid() && s.cleaners[id].round.Scan?
      requires var r := s.cleaners[id].round; r.w == w && x in r.todo
      requires var r := s.cleaners[id].round; x in r.a ==> x in r.d && IsPrepared(s, w, x)
      requires var r := s.cleaners[id].round; x !in r.a && x in r.d ==> x in r.b
      modifies this`s, this`path
      ensures Valid()
      ensures var r := old(s).cleaners[id].round;
        s.cleaners == old(s).cleaners[id := Cleaner(
          coord,
          old(s).cleaners[id].deleted + (if x in r.b || x in r.a then {} else {(w, x)}),
          Scan(w, if x in r.b then r.a else r.a - {x}, r.b, r.todo - {x}, r.d))]
      ensures var r := old(s).cleaners[id].round;
        s.worker == if x in r.a && x !in r.b then old(s).worker[(w, x) := Committed] else old(s).worker
      ensures s == old(s).(worker := s.worker, cleaners := s.cleaners)
    {
      var p := s.cleaners[id];
      var r := p.round;
      assert p.deleted + {} == p.deleted;
      var next := Scan(w, r.a - {x}, r.b, r.todo - {x}, r.d);
      if x in r.b {
        Move(WithRound(s, id, Scan(w, r.a, r.b, r.todo - {x}, r.d)), ScanOne(id, x));
      } else if x in r.a && x in r.d {
        CommitOrRollbackPreparedTransaction(
          CommitMsg(w, x), WithRound(s.(net := s.net + {CommitMsg(w, x)}), id, next), ScanOne(id, x));
      } else {
        Move(s.(cleaners := s.cleaners[id := p.(deleted := p.deleted + {(w, x)}, round := next)]), ScanOne(id, x));
      }
    }

    /** The first loop: over the records of server w. */
    method ScanRecords(w: Server, setA: set<Gid>, setB: set<Gid>, setC: set<Gid>)
      requires Valid() && s.cleaners[id].round == Scan(w, setA, setB, setC, setA)
      requires forall g :: g in setA ==> IsPrepared(s, w, g)
      modifies this`s, this`path
      ensures Valid()
      ensures id in s.cleaners && s.cleaners == old(s).cleaners[id := s.cleaners[id]]
      ensures s.cleaners[id] == ScannedCleaner(old(s).cleaners[id], w, setA, setB, setC, setC)
      ensures s == old(s).(worker := Finish(old(s).worker, w, setC * setA - setB, Committed), cleaners := s.cleaners)
    {
      ghost var s0, p0 := s, s.cleaners[id];
      ghost var done: set<Gid> := {};
      var todo := setC;
      NothingScanned(p0, s0.worker, w, setA, setB, setC);
      while todo != {}
        invariant Valid() && done == setC - todo && todo <= setC
        invariant s.cleaners == s0.cleaners[id := s.cleaners[id]]
        invariant s.cleaners[id] == ScannedCleaner(p0, w, setA, setB, setC, done)
        invariant s == s0.(worker := Finish(s0.worker, w, done * setA - setB, Committed), cleaners := s.cleaners)
        decreases todo
      {
        var x :| x in todo;
        OneMoreScanned(p0, s0.worker, w, setA, setB, setC, done, x);
        ScanRecord(w, x);
        done := done + {x};
        todo := todo - {x};
      }
    }

    /** The second loop: over the prepared gids that have no record. */
    method SweepPrepared(w: Server, setB: set<Gid>, a: set<Gid>)
      requires Valid() && s.cleaners[id].round == Sweep(w, setB, a)
      requires forall g :: g in a ==> IsPrepared(s, w, g)
      modifies this`s, this`path
      ensures Valid()
      ensures id in s.cleaners && s.cleaners == old(s).cleaners[id := s.cleaners[id]]
      ensures s.cleaners[id] == old(s).cleaners[id].(round := Sweep(w, setB, {}))
      ensures s == old(s).(worker := Finish(old(s).worker, w, a - setB, RolledBack), cleaners := s.cleaners)
    {
      ghost var s1 := s;
      var left := a;
      assert Finish(s1.worker, w, {}, RolledBack) == s1.worker;
      assert (a - left) - setB == {};
      while left != {}
        invariant left <= a
        invariant Valid()
        invariant s.cleaners == s1.cleaners[id := s.cleaners[id]]
        invariant s.cleaners[id] == s1.cleaners[id].(round := Sweep(w, setB, left))
        invariant s == s1.(worker := Finish(s1.worker, w, (a - left) - setB, RolledBack), cleaners := s.cleaners)
        decreases left
      {
        var y :| y in left;
        ghost var done := (a - left) - setB;
        ghost var rest := left - {y};
        assert y !in a - left;
        if y in setB {
          assert (a - rest) - setB == done;
          Move(WithRound(s, id, Sweep(w, setB, left - {y})), SweepOne(id, y));
        } else {
          assert (a - rest) - setB == done + {y};
          FinishOne(s1.worker, w, done, y, RolledBack);
          CommitOrRollbackPreparedTransaction(
            RollbackMsg(w, y),
            WithRound(s.(net := s.net + {RollbackMsg(w, y)}), id, Sweep(w, setB, left - {y})),
            SweepOne(id, y));
        }
        left := left - {y};
      }
      assert a - {} == a;
    }

    method FinishScan()
      requires Valid() && s.cleaners[id].round.Scan? && s.cleaners[id].round.todo == {}
      modifies this`s, this`path
      ensures Valid()
      ensures var r := old(s).cleaners[id].round; s == WithRound(old(s), id, Sweep(r.w, r.b, r.a))
    {
      var r := s.cleaners[id].round;
      Move(WithRound(s, id, Sweep(r.w, r.b, r.a)), EndScan(id));
    }

    method FinishRound()
      requires Valid() && s.cleaners[id].round.Sweep? && s.cleaners[id].round.todo == {}
      modifies this`s, this`path
      ensures Valid() && s == WithRound(old(s), id, NoRound)
    {
      Move(WithRound(s, id, NoRound), EndRound(id));
    }

    /** Up to the end of the first loop. */
    method ScanHalf(w: Server) returns (setB: set<Gid>, a: set<Gid>)
      requires Valid() && s.cleaners[id].round == NoRound
      modifies this`s, this`path
      ensures Valid()
      ensures setB == InProgressOf(old(s), coord)
      ensures a == PreparedAt(old(s), coord, w) - (RecordsFor(old(s), coord, w) - setB)
      ensures forall g :: g in a ==> IsPrepared(s, w, g)
      ensures s == old(s).(worker := ScanOutcome(old(s), coord, w), cleaners := old(s).cleaners[id :=
        Cleaner(coord, old(s).cleaners[id].deleted + RoundDeletes(old(s), coord, w), Sweep(w, setB, a))])
    {
      var setA, setC;
      setA, setB, setC := TakeSets(w);
      ScanRecords(w, setA, setB, setC);
      a := setA - (setC - setB);
      FinishScan();
      assert s.cleaners == old(s).cleaners[id := s.cleaners[id]];
    }

    /** The second loop and the end of the round. */
    method SweepHalf(w: Server, setB: set<Gid>, a: set<Gid>)
      requires Valid() && s.cleaners[id].round == Sweep(w, setB, a)
      requires forall g :: g in a ==> IsPrepared(s, w, g)
      modifies this`s, this`path
      ensures Valid()
      ensures s == old(s).(worker := Finish(old(s).worker, w, a - setB, RolledBack),
                           cleaners := old(s).cleaners[id := old(s).cleaners[id].(round := NoRound)])
    {
      SweepPrepared(w, setB, a);
      FinishRound();
    }

    /** The whole round over one server, as the two loops leave it. */
    method Round(w: Server)
      requires Valid() && s.cleaners[id].round == NoRound
      modifies this`s, this`path
      ensures Valid()
      ensures s == old(s).(worker := RoundOutcome(old(s), coord, w), cleaners := old(s).cleaners[id :=
        Cleaner(coord, old(s).cleaners[id].deleted + RoundDeletes(old(s), coord, w), NoRound)])
    {
      var setB, a := ScanHalf(w);
      SweepHalf(w, setB, a);
    }

    /**
     One undisturbed round over server w.  Every gid of this coordinator that is prepared there and not
     in progress is finished as the coordinator decided; the records whose gid is no longer prepared are
     marked for deletion; nothing else changes.
     */
    method CleanupPreparedTransactions(w: Server)
      requires Valid() && Inv(s) && s.cleaners[id].round == NoRound
      modifies this`s, this`path
      ensures Valid()
      ensures s.cleaners == old(s).cleaners[id := s.cleaners[id]] && s.cleaners[id].round == NoRound
      ensures s == old(s).(worker := s.worker, cleaners := s.cleaners)
      ensures s.worker.Keys == old(s).worker.Keys
      ensures forall v, g :: (v, g) in s.worker ==>
        s.worker[(v, g)] ==
          if v == w && g.coord == coord && g !in s.inprog && IsPrepared(old(s), w, g)
          then (if g in s.committed then Committed else RolledBack)
          else old(s).worker[(v, g)]
      ensures s.cleaners[id].deleted == old(s).cleaners[id].deleted + RoundDeletes(old(s), coord, w)
      ensures forall v, g :: (v, g) in RoundDeletes(old(s), coord, w) <==>
        v == w && g.coord == coord && (w, g) in s.records && g !in s.inprog && !IsPrepared(old(s), w, g)
    {
      RoundVerdicts(s, coord, w);
      Round(w);
    }
  }

  function InProgressOf(s: State, c: Server): set<Gid> {
    set g | g in s.inprog && g.coord == c
  }

  function ScanOutcome(s: State, c: Server, w: Server): map<(Server, Gid), WorkerStatus> {
    Finish(s.worker, w, RecordsFor(s, c, w) * PreparedAt(s, c, w) - InProgressOf(s, c), Committed)
  }

  function RoundOutcome(s: State, c: Server, w: Server): map<(Server, Gid), WorkerStatus> {
    var setA, setB, setC := PreparedAt(s, c, w), InProgressOf(s, c), RecordsFor(s, c, w);
    Finish(ScanOutcome(s, c, w), w, setA - (setC - setB) - setB, RolledBack)
  }

  function RoundDeletes(s: State, c: Server, w: Server): set<(Server, Gid)> {
    Unneeded(w, RecordsFor(s, c, w), PreparedAt(s, c, w), InProgressOf(s, c))
  }

  lemma RoundVerdicts(s: State, c: Server, w: Server)
    requires Inv(s)
    ensures RoundOutcome(s, c, w).Keys == s.worker.Keys
    ensures forall v, g :: (v, g) in s.worker ==>
      RoundOutcome(s, c, w)[(v, g)] ==
        if v == w && g.coord == c && g !in s.inprog && IsPrepared(s, w, g)
        then (if g in s.committed then Committed else RolledBack)
        else s.worker[(v, g)]
    ensures forall v, g :: (v, g) in RoundDeletes(s, c, w) <==>
      v == w && g.coord == c && (w, g) in s.records && g !in s.inprog && !IsPrepared(s, w, g)
  {
    forall v, g | (v, g) in s.worker
      ensures RoundOutcome(s, c, w)[(v, g)] ==
        if v == w && g.coord == c && g !in s.inprog && IsPrepared(s, w, g)
        then (if g in s.committed then Committed else RolledBack)
        else s.worker[(v, g)]
    {
      assert (v, g) in s.processed;
    }
  }

  // ------------------------------------------------------------------ all servers in one transaction

  /** The worker map after undisturbed rounds over the servers ws. */
  function Outcome(s: State, c: Server, ws: set<Server>): map<(Server, Gid), WorkerStatus> {
    map key | key in s.worker :: if key.0 in ws then At(RoundOutcome(s, c, key.0), key, s.worker[key]) else s.worker[key]
  }

  function At(worker: map<(Server, Gid), WorkerStatus>, key: (Server, Gid), otherwise: WorkerStatus): WorkerStatus {
    if key in worker then worker[key] else otherwise
  }

  function Deletes(s: State, c: Server, ws: set<Server>): set<(Server, Gid)> {
    set key | key in s.records && key.0 in ws && key in RoundDeletes(s, c, key.0)
  }

  /** The cluster after one undisturbed cleanup transaction of coordinator c that reached the servers ws. */
  function AfterCleanup(s: State, c: Server, ws: set<Server>): State {
    s.(worker := Outcome(s, c, ws), records := s.records - Deletes(s, c, ws))
  }

  /** The state between two rounds. */
  ghost predicate Between(t: State, s: State, c: Server, k: nat, done: set<Server>) {
    t == s.(worker := Outcome(s, c, done), cleaners := s.cleaners[k := Cleaner(c, Deletes(s, c, done), NoRound)])
  }

  /** A round over a server sees what it would see if it were the first. */
  lemma SameSets(s: State, t: State, c: Server, w: Server)
    requires t.used == s.used && t.records == s.records && t.inprog == s.inprog && t.worker.Keys == s.worker.Keys
    requires forall g :: (w, g) in s.worker ==> t.worker[(w, g)] == s.worker[(w, g)]
    ensures PreparedAt(t, c, w) == PreparedAt(s, c, w) && RecordsFor(t, c, w) == RecordsFor(s, c, w)
    ensures InProgressOf(t, c) == InProgressOf(s, c)
  {
    assert InProgressOf(t, c) == InProgressOf(s, c);
    forall g ensures IsPrepared(t, w, g) <==> IsPrepared(s, w, g) { assert (w, g) in t.worker <==> (w, g) in s.worker; }
    assert RecordsFor(t, c, w) == RecordsFor(s, c, w);
  }

  lemma OneMoreServer(s: State, t: State, c: Server, k: nat, done: set<Server>, w: Server)
    requires Between(t, s, c, k, done) && w !in done
    ensures RoundOutcome(t, c, w) == Outcome(s, c, done + {w})
    ensures Deletes(s, c, done) + RoundDeletes(t, c, w) == Deletes(s, c, done + {w})
  {
    SameSets(s, t, c, w);
    assert RoundDeletes(t, c, w) == RoundDeletes(s, c, w);
    forall key | key in s.worker ensures RoundOutcome(t, c, w)[key] == Outcome(s, c, done + {w})[key] { }
    assert RoundOutcome(t, c, w).Keys == Outcome(s, c, done + {w}).Keys;
  }

  /** The cleanup's transaction commits: the marked records go. */
  function WithoutCleaner(s: State, k: nat): State
    requires k in s.cleaners
  {
    s.(cleaners := s.cleaners - {k}, records := s.records - s.cleaners[k].deleted)
  }

  lemma EndIsStep(s: State, k: nat)
    requires k in s.cleaners && s.cleaners[k].round == NoRound
    ensures NextStep(s, WithoutCleaner(s, k), EndCleaner(k, true))
  {
  }

  lemma NoServerYet(s: State, c: Server, k: nat)
    ensures Between(s.(cleaners := s.cleaners[k := Cleaner(c, {}, NoRound)]), s, c, k, {})
  {
    assert Outcome(s, c, {}) == s.worker && Deletes(s, c, {}) == {};
  }

  /**
   Cleanup2PC: the servers one after the other, then the commit.  A server that does not answer is skipped.
   */
  method Cleanup2PC(c: Server, k: nat, servers: seq<Server>, down: set<Server>, s: State)
    returns (s': State, ghost path: seq<State>)
    requires k !in s.cleaners && forall i, j :: 0 <= i < j < |servers| ==> servers[i] != servers[j]
    ensures s' == AfterCleanup(s, c, Reached(servers, down))
    ensures Path(path, s, s')
  {
    var daemon := new Daemon(c, k, s);
    NoServerYet(s, c, k);
    assert Reached(servers[..0], down) == {};
    for i := 0 to |servers|
      invariant daemon.Valid() && daemon.coord == c && daemon.id == k && daemon.start == s && fresh(daemon)
      invariant Between(daemon.s, s, c, k, Reached(servers[..i], down))
    {
      var w := servers[i];
      ReachedNext(servers, down, i);
      if w !in down {
        OneMoreServer(s, daemon.s, c, k, Reached(servers[..i], down), w);
        daemon.Round(w);
      } else {
        assert Reached(servers[..i + 1], down) == Reached(servers[..i], down);
      }
    }
    assert servers[..|servers|] == servers;
    var d := daemon.s;
    s' := WithoutCleaner(d, k);
    EndIsStep(d, k);
    assert d.cleaners - {k} == s.cleaners;
    Extend(daemon.path, s, d, s', EndCleaner(k, true));
    path := daemon.path + [s'];
  }

  function Reached(servers: seq<Server>, down: set<Server>): set<Server> {
    set w | w in servers && w !in down
  }

  lemma ReachedNext(servers: seq<Server>, down: set<Server>, i: nat)
    requires i < |servers| && forall i, j :: 0 <= i < j < |servers| ==> servers[i] != servers[j]
    ensures servers[i] !in Reached(servers[..i], down)
    ensures Reached(servers[..i + 1], down) == Reached(servers[..i], down) + if servers[i] in down then {} else {servers[i]}
  {
    assert servers[..i + 1] == servers[..i] + [servers[i]];
  }

  // ------------------------------------------------------------------ what one and two cleanups achieve

  /** A prepared gid of c that is not in progress ends as c decided; anything else stays. */
  function Verdict(s: State, c: Server, w: Server, g: Gid): WorkerStatus
    requires (w, g) in s.worker
  {
    if g.coord == c && g !in s.inprog && IsPrepared(s, w, g) then (if g in s.committed then Committed else RolledBack)
    else s.worker[(w, g)]
  }

  lemma AtReached(s: State, c: Server, ws: set<Server>, w: Server, g: Gid)
    requires Inv(s) && w in ws
    ensures var s1 := AfterCleanup(s, c, ws);
      && ((w, g) in s1.worker <==> (w, g) in s.worker)
      && ((w, g) in s.worker ==> s1.worker[(w, g)] == Verdict(s, c, w, g))
      && ((w, g) in s1.records <==> (w, g) in s.records && (g.coord != c || g in s.inprog || IsPrepared(s, w, g)))
  {
    RoundVerdicts(s, c, w);
  }

  /** With no transaction of c in progress, one cleanup finishes every gid of c on the servers reached as c decided. */
  lemma FirstRoundFinishes(s: State, c: Server, ws: set<Server>, w: Server)
    requires Inv(s) && w in ws && forall g :: g in s.inprog ==> g.coord != c
    ensures var s1 := AfterCleanup(s, c, ws);
      && PreparedAt(s1, c, w) == {}
      && (forall g :: g in PreparedAt(s, c, w) ==>
            && (w, g) in s1.worker
            && s1.worker[(w, g)] == (if g in s.committed then Committed else RolledBack)
            && (g in s.committed ==> (w, g) in s1.records))
  {
    var s1 := AfterCleanup(s, c, ws);
    forall g ensures g !in PreparedAt(s1, c, w) { AtReached(s, c, ws, w, g); }
    forall g | g in PreparedAt(s, c, w)
      ensures && (w, g) in s1.worker
              && s1.worker[(w, g)] == (if g in s.committed then Committed else RolledBack)
              && (g in s.committed ==> (w, g) in s1.records)
    {
      AtReached(s, c, ws, w, g);
    }
  }

  /** A second cleanup, with nothing left prepared on w, removes every record of c for w and changes nothing on w. */
  lemma SecondRoundForgets(s1: State, c: Server, ws: set<Server>, w: Server)
    requires Inv(s1) && w in ws && (forall g :: g in s1.inprog ==> g.coord != c) && PreparedAt(s1, c, w) == {}
    ensures var s2 := AfterCleanup(s1, c, ws);
      && RecordsFor(s2, c, w) == {} && PreparedAt(s2, c, w) == {}
      && forall g :: (w, g) in s1.worker ==> (w, g) in s2.worker && s2.worker[(w, g)] == s1.worker[(w, g)]
  {
    var s2 := AfterCleanup(s1, c, ws);
    forall g ensures g !in RecordsFor(s2, c, w) && g !in PreparedAt(s2, c, w) {
      assert g !in PreparedAt(s1, c, w);
      AtReached(s1, c, ws, w, g);
    }
    forall g | (w, g) in s1.worker ensures (w, g) in s2.worker && s2.worker[(w, g)] == s1.worker[(w, g)] {
      assert g !in PreparedAt(s1, c, w);
      AtReached(s1, c, ws, w, g);
    }
  }

  /** Nothing of coordinator c is left on w, and what was prepared there ended as c decided. */
  ghost predicate CleanAt(s: State, s2: State, c: Server, w: Server) {
    && PreparedAt(s2, c, w) == {} && RecordsFor(s2, c, w) == {}
    && forall g :: g in PreparedAt(s, c, w) ==>
         (w, g) in s2.worker && s2.worker[(w, g)] == if g in s.committed then Committed else RolledBack
  }

  /**
   With no transaction of coordinator c in progress and nothing else moving, the first cleanup leaves none of its
   gids prepared and the second one no record, on every server that answers.
   */
  method CleanupTwice(c: Server, k: nat, servers: seq<Server>, down: set<Server>, s: State)
    returns (s2: State, ghost path: seq<State>)
    requires Inv(s) && k !in s.cleaners && forall i, j :: 0 <= i < j < |servers| ==> servers[i] != servers[j]
    requires forall g :: g in s.inprog ==> g.coord != c
    ensures Path(path, s, s2) && Inv(s2) && s2.committed == s.committed
    ensures forall w :: w in servers && w !in down ==> CleanAt(s, s2, c, w)
    ensures forall w, g :: w !in servers || w in down ==>
      && ((w, g) in s2.records <==> (w, g) in s.records)
      && ((w, g) in s.worker ==> (w, g) in s2.worker && s2.worker[(w, g)] == s.worker[(w, g)])
  {
    var s1, path1 := Cleanup2PC(c, k, servers, down, s);
    PathKeepsInv(path1, s, s1);
    ghost var path2;
    s2, path2 := Cleanup2PC(c, k, servers, down, s1);
    forall w | w in servers && w !in down ensures CleanAt(s, s2, c, w) {
      FirstRoundFinishes(s, c, Reached(servers, down), w);
      SecondRoundForgets(s1, c, Reached(servers, down), w);
    }
    Join(path1, path2, s, s1, s2);
    path := path1 + path2[1..];
    PathKeepsInv(path, s, s2);
  }

  lemma Join(p: seq<State>, q: seq<State>, s: State, mid: State, s': State)
    requires Path(p, s, mid) && Path(q, mid, s')
    ensures Path(p + q[1..], s, s')
  {
    var r := p + q[1..];
    forall i | 0 <= i < |r| - 1 ensures Next(r[i], r[i + 1]) {
      if i >= |p| - 1 {
        var j := i - (|p| - 1);
        assert r[i] == q[j] && r[i + 1] == q[j + 1];
        assert Next(q[j], q[j + 1]);
      } else {
        assert Next(p[i], p[i + 1]);
      }
    }
  }
}
