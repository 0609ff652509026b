/**
 What happens when a writer answers PREPARE with an empty result.  The coordinator skips the answer, so the writer has
 no record, and commits all the same: exactly when this endangers the agreement of servers and coordinator.
 */
module EmptyReply {
  import opened TwoPhaseCommit
  import opened TransactionCleanup

  /** All PREPAREs were sent and none was refused, but some may have been answered with nothing. */
  predicate AllSent(s: State, g: Gid) {
    g in s.txns && s.txns[g].phase.Preparing? && s.txns[g].sent == s.txns[g].writers
  }

  /** The local commit with the records there are. */
  function CommitAnyway(s: State, g: Gid): State
    requires g in s.txns
  {
    s.(txns := s.txns[g := s.txns[g].(phase := LocallyCommitted)], committed := s.committed + {g},
       records := s.records + set w | w in s.txns[g].acked :: (w, g))
  }

  /** With a record for every PREPARE it is the ordinary commit. */
  lemma OrdinaryCommit(s: State, g: Gid)
    requires AllSent(s, g) && s.txns[g].acked == s.txns[g].sent
    ensures Next(s, CommitAnyway(s, g))
  {
    assert NextStep(s, CommitAnyway(s, g), Coord(g, CommitLocally));
  }

  /** This server was sent a PREPARE and has no record, and it is prepared or its PREPARE is still on the way. */
  predicate UnrecordedAt(s: State, g: Gid, w: Server) {
    && g in s.txns && w in s.txns[g].sent && w !in s.txns[g].acked
    && (PrepareMsg(w, g) in s.net || IsPrepared(s, w, g))
  }

  ghost predicate Unrecorded(s: State, g: Gid) {
    exists w :: UnrecordedAt(s, g, w)
  }

  // ------------------------------------------------------------------ it is harmless

  lemma HarmlessKeepsInv(s: State, g: Gid)
    requires Inv(s) && AllSent(s, g) && !Unrecorded(s, g)
    ensures Inv(CommitAnyway(s, g))
  {
    var s' := CommitAnyway(s, g);
    assert TxnOk(s, g, s.txns[g]);
    assert NetOk(s') by {
      forall w: Server ensures PrepareMsg(w, g) !in s.net {
        assert !UnrecordedAt(s, g, w);
      }
    }
    assert WorkersOk(s') by {
      forall w: Server | IsPrepared(s, w, g) ensures (w, g) in s'.records { assert !UnrecordedAt(s, g, w); }
    }
    assert Stable(s, s');
    StableCleaners(s, s');
  }

  // ------------------------------------------------------------------ it is not

  /** One cleanup process has g in its set A and no record of it; the server has it prepared. */
  ghost predicate Doomed(s: State, g: Gid, w: Server, k: nat) {
    && IsPrepared(s, w, g) && g in s.committed && k in s.cleaners && s.cleaners[k].round.Scan?
    && var r := s.cleaners[k].round; r.w == w && g in r.a && g !in r.b && g !in r.todo
  }

  lemma One(s: State, s': State, step: Step) returns (path: seq<State>)
    requires NextStep(s, s', step)
    ensures Path(path, s, s')
  {
    path := [s, s'];
    assert Next(s, s');
  }

  /** Whatever other records there are, the scan comes to its end. */
  lemma {:induction false} ScanToEnd(s: State, g: Gid, w: Server, k: nat) returns (t: State, path: seq<State>)
    requires Doomed(s, g, w, k)
    ensures Path(path, s, t) && Doomed(t, g, w, k) && t.cleaners[k].round.todo == {}
    decreases |s.cleaners[k].round.todo|
  {
    var r := s.cleaners[k].round;
    if r.todo == {} {
      t, path := s, [s];
    } else {
      var x :| x in r.todo;
      var u := AfterScan(s, k, x);
      var first := One(s, u, ScanOne(k, x));
      var rest;
      t, rest := ScanToEnd(u, g, w, k);
      Join(first, rest, s, u, t);
      path := first + rest[1..];
    }
  }

  function AfterScan(s: State, k: nat, x: Gid): State
    requires k in s.cleaners && s.cleaners[k].round.Scan? && x in s.cleaners[k].round.todo
  {
    var p := s.cleaners[k];
    var r := p.round;
    var next := Scan(r.w, r.a - {x}, r.b, r.todo - {x}, r.d);
    match Decide(x, r.a, r.b, r.d)
    case Skip => WithRound(s, k, Scan(r.w, r.a, r.b, r.todo - {x}, r.d))
    case CommitIt => WithRound(s.(net := s.net + {CommitMsg(r.w, x)}), k, next)
    case CheckNextTime => WithRound(s, k, Scan(r.w, r.a, r.b, r.todo - {x}, r.d))
    case DeleteRecord => s.(cleaners := s.cleaners[k := p.(deleted := p.deleted + {(r.w, x)}, round := next)])
  }

  /** The sweep rolls back what has no record. */
  lemma SweepIt(s: State, g: Gid, w: Server, k: nat) returns (t: State, path: seq<State>)
    requires Doomed(s, g, w, k) && s.cleaners[k].round.todo == {}
    ensures Path(path, s, t) && (w, g) in t.worker && t.worker[(w, g)] == RolledBack && g in t.committed
  {
    var r := s.cleaners[k].round;
    var s1 := WithRound(s, k, Sweep(w, r.b, r.a));
    var s2 := WithRound(s1.(net := s1.net + {RollbackMsg(w, g)}), k, Sweep(w, r.b, r.a - {g}));
    t := AfterFinish(s2, RollbackMsg(w, g));
    path := One(s, s1, EndScan(k));
    Extend(path, s, s1, s2, SweepOne(k, g));
    Extend(path + [s2], s, s2, t, DeliverFinish(RollbackMsg(w, g), true));
    path := path + [s2] + [t];
  }

  /** A cleanup process takes its four sets. */
  lemma TakeFour(s: State, g: Gid, w: Server, k: nat) returns (t: State, path: seq<State>)
    requires IsPrepared(s, w, g) && g in s.committed && g in s.used && g !in s.inprog && (w, g) !in s.records
    requires k !in s.cleaners
    ensures Path(path, s, t) && Doomed(t, g, w, k)
  {
    var c := g.coord;
    var s0 := s.(cleaners := s.cleaners[k := Cleaner(c, {}, NoRound)]);
    var a, b, r := PreparedAt(s0, c, w), (set x | x in s0.inprog && x.coord == c), RecordsFor(s0, c, w);
    var s1 := WithRound(s0, k, HaveA(w, a));
    var s2 := WithRound(s1, k, HaveB(w, a, b));
    var s3 := WithRound(s2, k, HaveC(w, a, b, r));
    t := WithRound(s3, k, Scan(w, a, b, r, a));
    assert RecordsFor(s2, c, w) == r && PreparedAt(s3, c, w) == a;
    path := One(s, s0, StartCleaner(k, c));
    Extend(path, s, s0, s1, TakeA(k, w));
    Extend(path + [s1], s, s1, s2, TakeB(k));
    Extend(path + [s1] + [s2], s, s2, s3, TakeC(k));
    Extend(path + [s1] + [s2] + [s3], s, s3, t, TakeD(k));
    path := path + [s1] + [s2] + [s3] + [t];
  }

  /** The PREPARE arrives if it has not yet, and the coordinator is done. */
  lemma ArriveAndFinish(s: State, g: Gid, w: Server) returns (t: State, path: seq<State>)
    requires Inv(s) && AllSent(s, g) && UnrecordedAt(s, g, w)
    ensures Path(path, CommitAnyway(s, g), t) && t.cleaners == s.cleaners
    ensures IsPrepared(t, w, g) && g in t.committed && g in t.used && g !in t.inprog && (w, g) !in t.records
  {
    var s0 := CommitAnyway(s, g);
    var s1 := s0;
    path := [s0];
    if PrepareMsg(w, g) in s.net {
      s1 := s0.(net := s0.net - {PrepareMsg(w, g)}, processed := s0.processed + {(w, g)},
                worker := s0.worker[(w, g) := Prepared]);
      Extend(path, s0, s0, s1, DeliverPrepare(w, g, true));
      path := path + [s1];
    }
    t := s1.(txns := s1.txns - {g}, inprog := s1.inprog - {g});
    Extend(path, s0, s1, t, Coord(g, Unregister));
    path := path + [t];
  }

  lemma {:induction false} FreshCleaner(cleaners: map<nat, Cleaner>) returns (k: nat)
    ensures k !in cleaners
  {
    k := 0;
    var left := cleaners.Keys;
    while k in cleaners
      invariant left <= cleaners.Keys && forall j :: j in cleaners && j >= k ==> j in left
      decreases |left|
    {
      left, k := left - {k}, k + 1;
    }
  }

  /** A cleanup then rolls back what the coordinator committed. */
  lemma HarmfulBreaks(s: State, g: Gid, w: Server) returns (t: State, path: seq<State>)
    requires Inv(s) && AllSent(s, g) && UnrecordedAt(s, g, w)
    ensures Path(path, CommitAnyway(s, g), t)
    ensures (w, g) in t.worker && t.worker[(w, g)] == RolledBack && g in t.committed && !Agreement(t)
  {
    var s0 := CommitAnyway(s, g);
    var k := FreshCleaner(s.cleaners);
    var s1, p1 := ArriveAndFinish(s, g, w);
    var s2, p2 := TakeFour(s1, g, w, k);
    var s3, p3 := ScanToEnd(s2, g, w, k);
    var p4;
    t, p4 := SweepIt(s3, g, w, k);
    Join(p1, p2, s0, s1, s2);
    Join(p1 + p2[1..], p3, s0, s2, s3);
    Join(p1 + p2[1..] + p3[1..], p4, s0, s3, t);
    path := p1 + p2[1..] + p3[1..] + p4[1..];
  }

  /** After such a commit servers and coordinator agree in every continuation if and only if no server that was sent
      PREPARE and has no record is prepared or still has its PREPARE on the way; with a record for every PREPARE
      there is none. */
  lemma AgreesIff(s: State, g: Gid)
    requires Inv(s) && AllSent(s, g)
    ensures (forall path: seq<State>, t: State :: Path(path, CommitAnyway(s, g), t) ==> Agreement(t)) <==> !Unrecorded(s, g)
    ensures s.txns[g].acked == s.txns[g].sent ==> !Unrecorded(s, g)
  {
    if Unrecorded(s, g) {
      var w :| UnrecordedAt(s, g, w);
      var t, path := HarmfulBreaks(s, g, w);
    } else {
      HarmlessKeepsInv(s, g);
      forall path: seq<State>, t: State | Path(path, CommitAnyway(s, g), t) ensures Agreement(t) {
        PathKeepsInv(path, CommitAnyway(s, g), t);
      }
    }
  }

  // ------------------------------------------------------------------ an example

  const G := Gid(0, 1)

  function At(sent: set<Server>, acked: set<Server>, worker: map<(Server, Gid), WorkerStatus>,
              processed: set<(Server, Gid)>, net: set<Message>): State {
    State({G}, map[G := Txn(Preparing, {1, 2}, sent, acked)], {G}, {}, {}, worker, processed, net, map[])
  }

  /** A transaction that wrote on servers 1 and 2: both are prepared, server 2 has answered with nothing. */
  function EmptyRun(): seq<State> {
    [ State({}, map[], {}, {}, {}, map[], {}, {}, map[]),
      State({G}, map[G := Txn(Idle, {1, 2}, {}, {})], {}, {}, {}, map[], {}, {}, map[]),
      At({}, {}, map[], {}, {}),
      At({1}, {}, map[], {}, {PrepareMsg(1, G)}),
      At({1, 2}, {}, map[], {}, {PrepareMsg(1, G), PrepareMsg(2, G)}),
      At({1, 2}, {}, map[(1, G) := Prepared], {(1, G)}, {PrepareMsg(2, G)}),
      At({1, 2}, {}, map[(1, G) := Prepared, (2, G) := Prepared], {(1, G), (2, G)}, {}),
      At({1, 2}, {1}, map[(1, G) := Prepared, (2, G) := Prepared], {(1, G), (2, G)}, {}) ]
  }

  function EmptySteps(): seq<Step> {
    [ Begin(G, {1, 2}), Coord(G, Register), Coord(G, SendPrepare(1)), Coord(G, SendPrepare(2)),
      DeliverPrepare(1, G, true), DeliverPrepare(2, G, true), Coord(G, AckPrepare(1)) ]
  }

  lemma EmptyStepAt(n: nat)
    requires n < 7
    ensures NextStep(EmptyRun()[n], EmptyRun()[n + 1], EmptySteps()[n])
  {
    assert {} + {1} == {1} && {1} + {2} == {1, 2};
  }

  /** The coordinator commits with the record of server 1 only; cleanup rolls server 2 back. */
  lemma EmptyReplyBreaks() returns (t: State, path: seq<State>)
    ensures var run := EmptyRun();
      && Run(run) && AllSent(run[7], G) && CommitAnyway(run[7], G).records == {(1, G)}
      && Path(path, CommitAnyway(run[7], G), t)
    ensures G in t.committed && (2, G) in t.worker && t.worker[(2, G)] == RolledBack && !Agreement(t)
  {
    var run := EmptyRun();
    forall n | 0 <= n < |run| - 1 ensures Next(run[n], run[n + 1]) { EmptyStepAt(n); }
    RunKeepsInv(run, 7);
    assert UnrecordedAt(run[7], G, 2);
    t, path := HarmfulBreaks(run[7], G, 2);
  }
}
