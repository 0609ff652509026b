/**
 The distributed commit of a metadata transaction.

 A coordinator backend registers its transaction name (the gid) as in progress, sends PREPARE
 to every server it wrote to, writes one record per prepared server inside its own local
 transaction, commits locally, and then sends COMMIT PREPARED.  A background cleanup compares
 four sets taken at four different times and finishes whatever a crash or a lost reply left
 behind.  Messages may be delayed or lost, coordinators may crash at any point, and any number
 of cleanup rounds may overlap.
 */
module TwoPhaseCommit {
  import opened Common

  type Server = nat

  /** The name of a distributed transaction: the coordinator that runs it and its transaction id. */
  datatype Gid = Gid(coord: Server, xid: nat)

  // ------------------------------------------------------------------ one coordinator backend

  datatype Phase = Idle | Preparing | LocallyCommitted | Aborting | Finished

  /** What a backend has done for one gid: the servers it must prepare, has asked, and has heard from. */
  datatype Txn = Txn(phase: Phase, writers: set<Server>, sent: set<Server>, acked: set<Server>)

  datatype Event =
    | Register
    | SendPrepare(w: Server)
    | AckPrepare(w: Server)
    | CommitLocally
    | SendCommit(w: Server)
    | AbortLocally
    | SendRollback(w: Server)
    | Unregister

  /** The order of events a backend may produce for one gid; None when the event is out of order. */
  function TxnStep(t: Txn, e: Event): Option<Txn> {
    match e
    case Register =>
      if t.phase.Idle? then Some(t.(phase := Preparing)) else None
    case SendPrepare(w) =>
      if t.phase.Preparing? && w in t.writers && w !in t.sent
      then Some(t.(sent := t.sent + {w})) else None
    case AckPrepare(w) =>
      if t.phase.Preparing? && w in t.sent && w !in t.acked
      then Some(t.(acked := t.acked + {w})) else None
    case CommitLocally =>
      if t.phase.Preparing? && t.sent == t.writers && t.acked == t.sent
      then Some(t.(phase := LocallyCommitted)) else None
    case SendCommit(w) =>
      if t.phase.LocallyCommitted? then Some(t) else None
    case AbortLocally =>
      if t.phase.Idle? || t.phase.Preparing? then Some(t.(phase := Aborting)) else None
    case SendRollback(w) =>
      if t.phase.Aborting? then Some(t) else None
    case Unregister =>
      if t.phase.LocallyCommitted? || t.phase.Aborting? then Some(t.(phase := Finished)) else None
  }

  // ------------------------------------------------------------------ the whole cluster

  datatype WorkerStatus = Prepared | Committed | RolledBack

  datatype Message =
    | PrepareMsg(w: Server, g: Gid)
    | CommitMsg(w: Server, g: Gid)
    | RollbackMsg(w: Server, g: Gid)

  /** Where one cleanup round over server `w` stands; a, b, c, d are the four sets, in the order taken. */
  datatype Round =
    | NoRound
    | HaveA(w: Server, a: set<Gid>)
    | HaveB(w: Server, a: set<Gid>, b: set<Gid>)
    | HaveC(w: Server, a: set<Gid>, b: set<Gid>, c: set<Gid>)
    | Scan(w: Server, a: set<Gid>, b: set<Gid>, todo: set<Gid>, d: set<Gid>)
    | Sweep(w: Server, b: set<Gid>, todo: set<Gid>)

  /** A cleanup process; its record deletions become visible only when its own transaction commits. */
  datatype Cleaner = Cleaner(coord: Server, deleted: set<(Server, Gid)>, round: Round)

  datatype State = State(
    used: set<Gid>,                            // every gid ever generated
    txns: map<Gid, Txn>,                       // live backends
    inprog: set<Gid>,                          // the InprogressTransactions tables, in shared memory
    committed: set<Gid>,                       // local transactions that have committed
    records: set<(Server, Gid)>,               // committed rows of the coordinators' record tables
    worker: map<(Server, Gid), WorkerStatus>,  // what each server did with each prepared gid
    processed: set<(Server, Gid)>,             // PREPAREs a server has executed or refused
    net: set<Message>,                         // commands on their way
    cleaners: map<nat, Cleaner>)

  ghost predicate Init(s: State) {
    s == State({}, map[], {}, {}, {}, map[], {}, {}, map[])
  }

  predicate IsPrepared(s: State, w: Server, g: Gid) {
    (w, g) in s.worker && s.worker[(w, g)] == Prepared
  }

  /** The gids of coordinator c that server w lists in pg_prepared_xacts. */
  function PreparedAt(s: State, c: Server, w: Server): (r: set<Gid>)
    ensures forall g :: g in r <==> g in s.used && g.coord == c && IsPrepared(s, w, g)
  {
    set g | g in s.used && g.coord == c && IsPrepared(s, w, g)
  }

  function RecordsFor(s: State, c: Server, w: Server): (r: set<Gid>)
    ensures forall g :: g in r <==> g in s.used && g.coord == c && (w, g) in s.records
  {
    set g | g in s.used && g.coord == c && (w, g) in s.records
  }

  datatype Step =
    | Begin(g: Gid, writers: set<Server>)
    | Coord(g: Gid, e: Event)
    | Crash(c: Server)
    | DeliverPrepare(w: Server, g: Gid, accepted: bool)
    | DeliverFinish(m: Message, duplicated: bool)
    | Lose(m: Message)
    | StartCleaner(k: nat, c: Server)
    | TakeA(k: nat, w: Server)
    | TakeB(k: nat)
    | TakeC(k: nat)
    | TakeD(k: nat)
    | ScanOne(k: nat, x: Gid)
    | EndScan(k: nat)
    | SweepOne(k: nat, y: Gid)
    | EndRound(k: nat)
    | EndCleaner(k: nat, commits: bool)

  /** The effect of one backend event on the rest of the cluster. */
  ghost predicate CoordStep(s: State, s': State, g: Gid, e: Event) {
    && g in s.txns
    && TxnStep(s.txns[g], e).Some?
    && var t := TxnStep(s.txns[g], e).value;
       var moved := s.(txns := s.txns[g := t]);
       match e
       case Register => s' == moved.(inprog := s.inprog + {g})
       case SendPrepare(w) => s' == moved.(net := s.net + {PrepareMsg(w, g)})
       case AckPrepare(w) => (w, g) in s.processed && s' == moved
       case CommitLocally =>
         s' == moved.(committed := s.committed + {g},
                      records := s.records + set w | w in t.acked :: (w, g))
       case SendCommit(w) => s' == moved.(net := s.net + {CommitMsg(w, g)})
       case AbortLocally => s' == moved
       case SendRollback(w) => s' == moved.(net := s.net + {RollbackMsg(w, g)})
       case Unregister => s' == s.(txns := s.txns - {g}, inprog := s.inprog - {g})
  }

  /** A coordinator restart: shared memory, backends and cleanup processes of c vanish, tables and messages stay. */
  function AfterCrash(s: State, c: Server): State {
    s.(txns := (map g | g in s.txns && g.coord != c :: s.txns[g]),
       inprog := (set g | g in s.inprog && g.coord != c),
       cleaners := (map k | k in s.cleaners && s.cleaners[k].coord != c :: s.cleaners[k]))
  }

  /** COMMIT PREPARED or ROLLBACK PREPARED at a server: an error without effect unless the gid is prepared there. */
  function AfterFinish(s: State, m: Message): State
    requires !m.PrepareMsg?
  {
    if !IsPrepared(s, m.w, m.g) then s
    else s.(worker := s.worker[(m.w, m.g) := if m.CommitMsg? then Committed else RolledBack])
  }

  function WithRound(s: State, k: nat, r: Round): State
    requires k in s.cleaners
  {
    s.(cleaners := s.cleaners[k := s.cleaners[k].(round := r)])
  }

  /** What the scan over the records does with x, given the four sets. */
  datatype Decision = Skip | CommitIt | CheckNextTime | DeleteRecord

  function Decide(x: Gid, a: set<Gid>, b: set<Gid>, d: set<Gid>): Decision {
    if x in b then Skip
    else if x in a && x in d then CommitIt
    else if x !in a && x in d then CheckNextTime
    else DeleteRecord
  }

  ghost predicate ScanStep(s: State, s': State, k: nat, x: Gid)
    requires k in s.cleaners
  {
    var p := s.cleaners[k];
    && p.round.Scan? && x in p.round.todo
    && var r := p.round;
       var next := Scan(r.w, r.a - {x}, r.b, r.todo - {x}, r.d);
       match Decide(x, r.a, r.b, r.d)
       case Skip => s' == WithRound(s, k, Scan(r.w, r.a, r.b, r.todo - {x}, r.d))
       case CommitIt => s' == WithRound(s.(net := s.net + {CommitMsg(r.w, x)}), k, next)
       case CheckNextTime => s' == WithRound(s, k, Scan(r.w, r.a, r.b, r.todo - {x}, r.d))
       case DeleteRecord =>
         s' == s.(cleaners := s.cleaners[k := p.(deleted := p.deleted + {(r.w, x)}, round := next)])
  }

  ghost predicate SweepStep(s: State, s': State, k: nat, y: Gid)
    requires k in s.cleaners
  {
    var r := s.cleaners[k].round;
    && r.Sweep? && y in r.todo
    && var next := Sweep(r.w, r.b, r.todo - {y});
       s' == WithRound(if y in r.b then s else s.(net := s.net + {RollbackMsg(r.w, y)}), k, next)
  }

  ghost predicate NextStep(s: State, s': State, step: Step) {
    match step
    case Begin(g, writers) =>
      && g !in s.used
      && s' == s.(used := s.used + {g}, txns := s.txns[g := Txn(Idle, writers, {}, {})])
    case Coord(g, e) => CoordStep(s, s', g, e)
    case Crash(c) => s' == AfterCrash(s, c)
    case DeliverPrepare(w, g, accepted) =>
      && PrepareMsg(w, g) in s.net
      && s' == s.(net := s.net - {PrepareMsg(w, g)},
                  processed := s.processed + {(w, g)},
                  worker := if accepted then s.worker[(w, g) := Prepared] else s.worker)
    case DeliverFinish(m, duplicated) =>
      && m in s.net && !m.PrepareMsg?
      && s' == AfterFinish(s.(net := if duplicated then s.net else s.net - {m}), m)
    case Lose(m) => s' == s.(net := s.net - {m})
    case StartCleaner(k, c) =>
      k !in s.cleaners && s' == s.(cleaners := s.cleaners[k := Cleaner(c, {}, NoRound)])
    case TakeA(k, w) =>
      && k in s.cleaners && s.cleaners[k].round.NoRound?
      && s' == WithRound(s, k, HaveA(w, PreparedAt(s, s.cleaners[k].coord, w)))
    case TakeB(k) =>
      && k in s.cleaners && s.cleaners[k].round.HaveA?
      && var r := s.cleaners[k].round;
         s' == WithRound(s, k, HaveB(r.w, r.a, set g | g in s.inprog && g.coord == s.cleaners[k].coord))
    case TakeC(k) =>
      && k in s.cleaners && s.cleaners[k].round.HaveB?
      && var r := s.cleaners[k].round;
         s' == WithRound(s, k, HaveC(r.w, r.a, r.b, RecordsFor(s, s.cleaners[k].coord, r.w)))
    case TakeD(k) =>
      && k in s.cleaners && s.cleaners[k].round.HaveC?
      && var r := s.cleaners[k].round;
         s' == WithRound(s, k, Scan(r.w, r.a, r.b, r.c, PreparedAt(s, s.cleaners[k].coord, r.w)))
    case ScanOne(k, x) => k in s.cleaners && ScanStep(s, s', k, x)
    case EndScan(k) =>
      && k in s.cleaners && s.cleaners[k].round.Scan? && s.cleaners[k].round.todo == {}
      && var r := s.cleaners[k].round;
         s' == WithRound(s, k, Sweep(r.w, r.b, r.a))
    case SweepOne(k, y) => k in s.cleaners && SweepStep(s, s', k, y)
    case EndRound(k) =>  // finished, or abandoned after an error on this server
      k in s.cleaners && s' == WithRound(s, k, NoRound)
    case EndCleaner(k, commits) =>
      && k in s.cleaners
      && s' == s.(cleaners := s.cleaners - {k},
                  records := if commits then s.records - s.cleaners[k].deleted else s.records)
  }

  ghost predicate Next(s: State, s': State) {
    exists step :: NextStep(s, s', step)
  }

  ghost predicate Run(run: seq<State>) {
    && |run| > 0 && Init(run[0])
    && forall i :: 0 <= i < |run| - 1 ==> Next(run[i], run[i + 1])
  }

  // ------------------------------------------------------------------ the claim

  /** No server commits a gid its coordinator did not commit, and none rolls back one it did commit. */
  ghost predicate Agreement(s: State) {
    forall w, g :: (w, g) in s.worker ==>
      && (s.worker[(w, g)] == Committed ==> g in s.committed)
      && (s.worker[(w, g)] == RolledBack ==> g !in s.committed)
  }

  // ------------------------------------------------------------------ the invariant

  /** g is not committed and no backend is left that could still commit it. */
  ghost predicate NeverCommits(s: State, g: Gid) {
    && g in s.used && g !in s.committed
    && (g in s.txns ==> s.txns[g].phase == Aborting)
  }

  /** The PREPARE of g at w has been dealt with and g is not, and will never be, prepared there. */
  ghost predicate Settled(s: State, w: Server, g: Gid) {
    (w, g) in s.processed && !IsPrepared(s, w, g)
  }

  /** A ROLLBACK PREPARED of g at w cannot contradict the coordinator. */
  ghost predicate SafeToRollBack(s: State, w: Server, g: Gid) {
    NeverCommits(s, g) || (g in s.used && g in s.committed && Settled(s, w, g))
  }

  ghost predicate TxnsOk(s: State) {
    && (forall g :: g in s.inprog ==> g in s.txns)
    && forall g :: g in s.txns ==> TxnOk(s, g, s.txns[g])
  }

  ghost predicate TxnOk(s: State, g: Gid, t: Txn) {
    && g in s.used
    && !t.phase.Finished?
    && (g in s.inprog <== !t.phase.Idle? && !t.phase.Aborting?)
    && (t.phase.Aborting? && t.sent != {} ==> g in s.inprog)
    && (g in s.committed <==> t.phase.LocallyCommitted?)
    && (t.phase.Idle? ==> t.sent == {})
    && t.acked <= t.sent
    && (forall w :: w in t.acked ==> (w, g) in s.processed)
    && (forall w :: (w, g) in s.processed ==> w in t.sent)
    && (forall w :: PrepareMsg(w, g) in s.net ==> w in t.sent)
  }

  ghost predicate NetOk(s: State) {
    forall m :: m in s.net ==>
      && m.g in s.used
      && (m.PrepareMsg? ==> (m.w, m.g) !in s.processed && m.g !in s.committed)
      && (m.CommitMsg? ==> m.g in s.committed)
      && (m.RollbackMsg? ==> SafeToRollBack(s, m.w, m.g))
  }

  ghost predicate WorkersOk(s: State) {
    && (forall w, g :: (w, g) in s.processed ==> g in s.used)
    && (forall w, g :: (w, g) in s.worker ==>
          && (w, g) in s.processed
          && (s.worker[(w, g)] == Prepared && g in s.committed ==> (w, g) in s.records)
          && (s.worker[(w, g)] == Committed ==> g in s.committed)
          && (s.worker[(w, g)] == RolledBack ==> NeverCommits(s, g)))
  }

  ghost predicate RecordsOk(s: State) {
    && s.committed <= s.used
    && forall w, g :: (w, g) in s.records ==> g in s.committed && (w, g) in s.processed
  }

  /** A record that cleanup has decided to delete belongs to a gid that is no longer prepared. */
  ghost predicate CleanerOk(s: State, p: Cleaner) {
    && (forall w, g :: (w, g) in p.deleted ==> g in s.committed && Settled(s, w, g))
    && RoundOk(s, p.coord, p.round)
  }

  ghost predicate RoundOk(s: State, coord: Server, r: Round) {
    match r
    case NoRound => true
    case HaveA(w, a) => forall g :: g in a ==> g.coord == coord && (w, g) in s.processed
    case HaveB(w, a, b) =>
      forall g :: g in a && g !in b ==>
        g.coord == coord && (w, g) in s.processed && g in s.used && g !in s.txns
    case HaveC(w, a, b, c) =>
      && (forall g :: g in c ==> g.coord == coord && g in s.committed && (w, g) in s.processed)
      && (forall g :: g in a && g !in b && g !in c ==> SafeToRollBack(s, w, g))
    case Scan(w, a, b, todo, d) =>
      && (forall g :: g in todo ==> g in s.committed && (w, g) in s.processed)
      && (forall g :: g in todo && g !in d ==> Settled(s, w, g))
      && (forall g :: g in a && g !in b && g !in todo ==> SafeToRollBack(s, w, g))
    case Sweep(w, b, todo) =>
      forall g :: g in todo && g !in b ==> SafeToRollBack(s, w, g)
  }

  ghost predicate CleanersOk(s: State) {
    forall k :: k in s.cleaners ==> CleanerOk(s, s.cleaners[k])
  }

  ghost predicate Inv(s: State) {
    TxnsOk(s) && NetOk(s) && WorkersOk(s) && RecordsOk(s) && CleanersOk(s)
  }

  lemma InitInv(s: State)
    requires Init(s)
    ensures Inv(s)
  {
  }

  /** Facts a step never takes back: what the cleanup sets rely on between the times they are taken. */
  ghost predicate Stable(s: State, s': State) {
    && s.used <= s'.used
    && s.committed <= s'.committed
    && s.processed <= s'.processed
    && (forall g :: g in s.used && g !in s.txns ==> g !in s'.txns)
    && (forall g :: NeverCommits(s, g) ==> NeverCommits(s', g))
    && (forall w, g :: Settled(s, w, g) ==> Settled(s', w, g))
  }

  lemma StableRound(s: State, s': State, c: Server, r: Round)
    requires Stable(s, s') && RoundOk(s, c, r)
    ensures RoundOk(s', c, r)
  {
  }

  lemma StableCleaners(s: State, s': State)
    requires Stable(s, s') && CleanersOk(s)
    requires forall k :: k in s'.cleaners ==> k in s.cleaners && s'.cleaners[k] == s.cleaners[k]
    ensures CleanersOk(s')
  {
    forall k | k in s'.cleaners ensures CleanerOk(s', s'.cleaners[k]) {
      StableRound(s, s', s.cleaners[k].coord, s.cleaners[k].round);
    }
  }

  lemma OneCleanerChanged(s: State, s': State, k: nat)
    requires Stable(s, s') && CleanersOk(s)
    requires k in s'.cleaners && CleanerOk(s', s'.cleaners[k])
    requires forall j :: j in s'.cleaners && j != k ==> j in s.cleaners && s'.cleaners[j] == s.cleaners[j]
    ensures CleanersOk(s')
  {
    forall j | j in s'.cleaners ensures CleanerOk(s', s'.cleaners[j]) {
      if j != k { StableRound(s, s', s.cleaners[j].coord, s.cleaners[j].round); }
    }
  }

  lemma BeginKeeps(s: State, s': State, g: Gid, writers: set<Server>)
    requires Inv(s) && NextStep(s, s', Begin(g, writers))
    ensures Inv(s') && Stable(s, s')
  {
    assert Stable(s, s');
    StableCleaners(s, s');
  }

  lemma CoordKeeps(s: State, s': State, g: Gid, e: Event)
    requires Inv(s) && NextStep(s, s', Coord(g, e))
    ensures Inv(s') && Stable(s, s')
  {
    CoordStable(s, s', g, e);
    StableCleaners(s, s');
    CoordKeepsTxns(s, s', g, e);
    CoordKeepsNet(s, s', g, e);
    CoordKeepsWorkers(s, s', g, e);
  }

  lemma CoordStable(s: State, s': State, g: Gid, e: Event)
    requires Inv(s) && CoordStep(s, s', g, e)
    ensures Stable(s, s')
  {
  }

  lemma CoordKeepsTxns(s: State, s': State, g: Gid, e: Event)
    requires Inv(s) && CoordStep(s, s', g, e)
    ensures TxnsOk(s')
  {
    forall h | h in s'.txns ensures TxnOk(s', h, s'.txns[h]) {
      assert TxnOk(s, h, s.txns[h]);
    }
  }

  lemma CoordKeepsNet(s: State, s': State, g: Gid, e: Event)
    requires Inv(s) && CoordStep(s, s', g, e)
    ensures NetOk(s')
  {
    CoordStable(s, s', g, e);
    assert TxnOk(s, g, s.txns[g]);
  }

  lemma CoordKeepsWorkers(s: State, s': State, g: Gid, e: Event)
    requires Inv(s) && CoordStep(s, s', g, e)
    ensures WorkersOk(s') && RecordsOk(s')
  {
    CoordStable(s, s', g, e);
    assert TxnOk(s, g, s.txns[g]);
  }

  lemma CrashKeeps(s: State, s': State, c: Server)
    requires Inv(s) && NextStep(s, s', Crash(c))
    ensures Inv(s') && Stable(s, s')
  {
    assert Stable(s, s');
    StableCleaners(s, s');
  }

  lemma DeliverPrepareKeeps(s: State, s': State, w: Server, g: Gid, accepted: bool)
    requires Inv(s) && NextStep(s, s', DeliverPrepare(w, g, accepted))
    ensures Inv(s') && Stable(s, s')
  {
    assert Stable(s, s');
    StableCleaners(s, s');
  }

  lemma DeliverFinishKeeps(s: State, s': State, m: Message, duplicated: bool)
    requires Inv(s) && NextStep(s, s', DeliverFinish(m, duplicated))
    ensures Inv(s') && Stable(s, s')
  {
    assert Stable(s, s');
    StableCleaners(s, s');
  }

  lemma LoseKeeps(s: State, s': State, m: Message)
    requires Inv(s) && NextStep(s, s', Lose(m))
    ensures Inv(s') && Stable(s, s')
  {
    assert Stable(s, s');
    StableCleaners(s, s');
  }

  /** A step that moves only a cleanup process, and perhaps sends one safe command. */
  lemma OnlyCleaner(s: State, s': State, k: nat)
    requires Inv(s)
    requires k in s'.cleaners && s' == s.(net := s'.net, cleaners := s.cleaners[k := s'.cleaners[k]])
    requires s.net <= s'.net
    requires forall m :: m in s'.net && m !in s.net ==>
      || (m.CommitMsg? && m.g in s.used && m.g in s.committed)
      || (m.RollbackMsg? && SafeToRollBack(s, m.w, m.g))
    requires CleanerOk(s, s'.cleaners[k])
    ensures Inv(s') && Stable(s, s')
  {
    assert Stable(s, s');
    var p := s'.cleaners[k];
    StableRound(s, s', p.coord, p.round);
    OneCleanerChanged(s, s', k);
    forall g | g in s'.txns ensures TxnOk(s', g, s'.txns[g]) {
      assert TxnOk(s, g, s.txns[g]);
    }
  }

  lemma StartCleanerKeeps(s: State, s': State, k: nat, c: Server)
    requires Inv(s) && NextStep(s, s', StartCleaner(k, c))
    ensures Inv(s') && Stable(s, s')
  {
    OnlyCleaner(s, s', k);
  }

  lemma TakeAKeeps(s: State, s': State, k: nat, w: Server)
    requires Inv(s) && NextStep(s, s', TakeA(k, w))
    ensures Inv(s') && Stable(s, s')
  {
    OnlyCleaner(s, s', k);
  }

  /** Set B is taken after set A: a gid prepared by then and no longer in progress has no backend left. */
  lemma TakeBKeeps(s: State, s': State, k: nat)
    requires Inv(s) && NextStep(s, s', TakeB(k))
    ensures Inv(s') && Stable(s, s')
  {
    var r := s.cleaners[k].round;
    var b := s'.cleaners[k].round.b;
    forall g | g in r.a && g !in b ensures g in s.used && g !in s.txns {
      assert (r.w, g) in s.processed;
    }
    OnlyCleaner(s, s', k);
  }

  /** Set C is taken after set B: a committed gid that is still prepared still has its record. */
  lemma TakeCKeeps(s: State, s': State, k: nat)
    requires Inv(s) && NextStep(s, s', TakeC(k))
    ensures Inv(s') && Stable(s, s')
  {
    OnlyCleaner(s, s', k);
  }

  /** Set D is taken after set C: a recorded gid missing from it is finished for good. */
  lemma TakeDKeeps(s: State, s': State, k: nat)
    requires Inv(s) && NextStep(s, s', TakeD(k))
    ensures Inv(s') && Stable(s, s')
  {
    OnlyCleaner(s, s', k);
  }

  lemma EndScanKeeps(s: State, s': State, k: nat)
    requires Inv(s) && NextStep(s, s', EndScan(k))
    ensures Inv(s') && Stable(s, s')
  {
    OnlyCleaner(s, s', k);
  }

  lemma EndRoundKeeps(s: State, s': State, k: nat)
    requires Inv(s) && NextStep(s, s', EndRound(k))
    ensures Inv(s') && Stable(s, s')
  {
    OnlyCleaner(s, s', k);
  }

  lemma ScanKeeps(s: State, s': State, k: nat, x: Gid)
    requires Inv(s) && NextStep(s, s', ScanOne(k, x))
    ensures Inv(s') && Stable(s, s')
  {
    assert CleanerOk(s, s.cleaners[k]);
    OnlyCleaner(s, s', k);
  }

  lemma SweepKeeps(s: State, s': State, k: nat, y: Gid)
    requires Inv(s) && NextStep(s, s', SweepOne(k, y))
    ensures Inv(s') && Stable(s, s')
  {
    assert CleanerOk(s, s.cleaners[k]);
    OnlyCleaner(s, s', k);
  }

  lemma EndCleanerKeeps(s: State, s': State, k: nat, commits: bool)
    requires Inv(s) && NextStep(s, s', EndCleaner(k, commits))
    ensures Inv(s') && Stable(s, s')
  {
    assert Stable(s, s');
    StableCleaners(s, s');
  }

  lemma NextKeeps(s: State, s': State)
    requires Inv(s) && Next(s, s')
    ensures Inv(s') && Stable(s, s')
  {
    var step :| NextStep(s, s', step);
    match step
    case Begin(g, writers) => BeginKeeps(s, s', g, writers);
    case Coord(g, e) => CoordKeeps(s, s', g, e);
    case Crash(c) => CrashKeeps(s, s', c);
    case DeliverPrepare(w, g, accepted) => DeliverPrepareKeeps(s, s', w, g, accepted);
    case DeliverFinish(m, duplicated) => DeliverFinishKeeps(s, s', m, duplicated);
    case Lose(m) => LoseKeeps(s, s', m);
    case StartCleaner(k, c) => StartCleanerKeeps(s, s', k, c);
    case TakeA(k, w) => TakeAKeeps(s, s', k, w);
    case TakeB(k) => TakeBKeeps(s, s', k);
    case TakeC(k) => TakeCKeeps(s, s', k);
    case TakeD(k) => TakeDKeeps(s, s', k);
    case ScanOne(k, x) => ScanKeeps(s, s', k, x);
    case EndScan(k) => EndScanKeeps(s, s', k);
    case SweepOne(k, y) => SweepKeeps(s, s', k, y);
    case EndRound(k) => EndRoundKeeps(s, s', k);
    case EndCleaner(k, commits) => EndCleanerKeeps(s, s', k, commits);
  }

  lemma {:induction false} RunKeepsInv(run: seq<State>, i: nat)
    requires Run(run) && i < |run|
    ensures Inv(run[i])
  {
    if i == 0 {
      InitInv(run[0]);
    } else {
      RunKeepsInv(run, i - 1);
      NextKeeps(run[i - 1], run[i]);
    }
  }

  lemma {:induction false} RunStable(run: seq<State>, i: nat, j: nat)
    requires Run(run) && i <= j < |run|
    ensures Stable(run[i], run[j])
    decreases j - i
  {
    if i < j {
      RunStable(run, i, j - 1);
      RunKeepsInv(run, j - 1);
      NextKeeps(run[j - 1], run[j]);
    }
  }

  /** In every run, at every moment, servers and coordinators agree on every prepared gid. */
  lemma RunAgrees(run: seq<State>, i: nat)
    requires Run(run) && i < |run|
    ensures Agreement(run[i])
  {
    RunKeepsInv(run, i);
  }

  /** A server's verdict and a coordinator's verdict never contradict each other, whichever comes first. */
  lemma VerdictsAgreeForever(run: seq<State>, i: nat, j: nat, w: Server, g: Gid)
    requires Run(run) && i < |run| && j < |run| && (w, g) in run[i].worker
    ensures run[i].worker[(w, g)] == RolledBack ==> g !in run[j].committed
    ensures run[i].worker[(w, g)] == Committed && i <= j ==> g in run[j].committed
  {
    RunKeepsInv(run, i);
    RunKeepsInv(run, j);
    if i <= j { RunStable(run, i, j); } else { RunStable(run, j, i); }
  }

  /** Only the end of a cleaner's transaction removes a record, and the cleaner had marked it. */
  lemma OnlyCleanersForget(s: State, s': State, step: Step, w: Server, g: Gid)
    requires NextStep(s, s', step) && (w, g) in s.records && (w, g) !in s'.records
    ensures step.EndCleaner? && step.k in s.cleaners && (w, g) in s.cleaners[step.k].deleted
  {
  }

  lemma ForgottenIsSettled(s: State, s': State, w: Server, g: Gid)
    requires Inv(s) && Next(s, s') && (w, g) in s.records && (w, g) !in s'.records
    ensures Settled(s, w, g)
  {
    var step :| NextStep(s, s', step);
    OnlyCleanersForget(s, s', step, w, g);
    assert CleanerOk(s, s.cleaners[step.k]);
  }

  /** A record disappears only after its gid has stopped being prepared on that server, for good. */
  lemma RecordOutlivesPrepared(run: seq<State>, i: nat, j: nat, w: Server, g: Gid)
    requires Run(run) && i + 1 <= j < |run|
    requires (w, g) in run[i].records && (w, g) !in run[i + 1].records
    ensures !IsPrepared(run[i], w, g) && !IsPrepared(run[j], w, g)
  {
    RunKeepsInv(run, i);
    ForgottenIsSettled(run[i], run[i + 1], w, g);
    RunStable(run, i, j);
  }
}
