/**
 The coordinator side of the commit: the loops of a backend over its remote connections, before its local
 commit, after it, and on abort.  Each loop is proved to produce a sequence of events in the order the
 protocol of module TwoPhaseCommit asks for.
 */
module RemoteComm {
  import opened Common
  import opened TwoPhaseCommit

  datatype ConnState = NoTransaction | BeginForWrite | BeginForSnapshot | PreparedState

  /** What PQgetResult yields for a command: nothing, success or an error. */
  datatype Reply = NullReply | OkReply | ErrorReply

  /** Running a list of events through the protocol; None as soon as one is out of order. */
  function Accepts(t: Txn, es: seq<Event>): Option<Txn> {
    if es == [] then Some(t)
    else match Accepts(t, es[..|es| - 1])
         case None => None
         case Some(u) => TxnStep(u, es[|es| - 1])
  }

  lemma AcceptsMore(t: Txn, es: seq<Event>, e: Event)
    ensures Accepts(t, es + [e]) == if Accepts(t, es).None? then None else TxnStep(Accepts(t, es).value, e)
  {
    assert (es + [e])[..|es|] == es;
  }

  lemma {:induction false} AcceptsConcat(t: Txn, es: seq<Event>, fs: seq<Event>)
    ensures Accepts(t, es + fs) == if Accepts(t, es).None? then None else Accepts(Accepts(t, es).value, fs)
  {
    if fs == [] {
      assert es + fs == es;
    } else {
      var gs, e := fs[..|fs| - 1], fs[|fs| - 1];
      AcceptsConcat(t, es, gs);
      assert es + fs == (es + gs) + [e] && fs == gs + [e];
      AcceptsMore(t, es + gs, e);
      if Accepts(t, es).Some? { AcceptsMore(Accepts(t, es).value, gs, e); }
    }
  }

  /** The connections a backend has used in its transaction, one per server. */
  class Backend {
    const servers: seq<Server>
    var states: seq<ConnState>
    var gid: Option<Gid>            // RemoteTransactionGid
    var localWrite: bool            // LocalServerWrite
    var records: set<Server>        // rows of Write2PCRecord, not yet committed

    ghost predicate Valid()
      reads this
    {
      && |states| == |servers|
      && forall i, j :: 0 <= i < j < |servers| ==> servers[i] != servers[j]
    }

    /** The servers whose connection is in the given state, among the first n. */
    ghost function In(st: ConnState, n: nat): (r: set<Server>)
      requires Valid() && n <= |servers|
      reads this
    {
      set i | 0 <= i < n && states[i] == st :: servers[i]
    }

    constructor (servers: seq<Server>, states: seq<ConnState>, localWrite: bool)
      requires |states| == |servers|
      requires forall i, j :: 0 <= i < j < |servers| ==> servers[i] != servers[j]
      ensures Valid() && this.servers == servers && this.states == states && this.localWrite == localWrite
      ensures gid == None && records == {}
    {
      this.servers, this.states, this.localWrite := servers, states, localWrite;
      gid, records := None, {};
    }

    /** A broken connection is replaced by a new one, which is in no transaction; all are tried, and one that cannot be
        opened is an error. */
    method GetForeignServerConnection(broken: seq<bool>, connects: seq<bool>) returns (ok: bool)
      requires Valid() && |broken| == |connects| == |servers|
      modifies this`states
      ensures Valid() && states == Kept(old(states), broken)
      ensures ok <==> Connected(broken, connects)
    {
      ok := true;
      for i := 0 to |servers|
        invariant Valid() && (ok <==> Connected(broken[..i], connects[..i]))
        invariant forall j :: 0 <= j < |servers| ==>
          states[j] == if j < i && broken[j] then NoTransaction else old(states)[j]
      {
        if broken[i] {
          states := states[i := NoTransaction];
          if !connects[i] { ok := false; }
        }
      }
      assert broken[..|servers|] == broken && connects[..|servers|] == connects;
    }

    /** The connections after the broken ones were replaced. */
    static function Kept(states: seq<ConnState>, broken: seq<bool>): seq<ConnState>
      requires |broken| == |states|
    {
      seq(|states|, i requires 0 <= i < |states| => if broken[i] then NoTransaction else states[i])
    }

    static predicate Connected(broken: seq<bool>, connects: seq<bool>)
      requires |broken| == |connects|
    {
      forall i :: 0 <= i < |broken| && broken[i] ==> connects[i]
    }

    /** Counts the servers that wrote, this one included. */
    method CountWriters() returns (n: nat)
      requires Valid()
      ensures n == |In(BeginForWrite, |servers|)| + if localWrite then 1 else 0
    {
      n := if localWrite then 1 else 0;
      assert In(BeginForWrite, 0) == {};
      for i := 0 to |servers|
        invariant n == |In(BeginForWrite, i)| + if localWrite then 1 else 0
      {
        if states[i] == BeginForWrite {
          n := n + 1;
          assert In(BeginForWrite, i + 1) == In(BeginForWrite, i) + {servers[i]};
        } else {
          assert In(BeginForWrite, i + 1) == In(BeginForWrite, i);
        }
      }
    }

    /** Sends PREPARE to every writer in turn; stops at the first one it cannot reach. */
    method SendPrepares(sendOk: seq<bool>) returns (ok: bool, trace: seq<Event>)
      requires Valid() && |sendOk| == |servers|
      ensures ok <==> forall i :: 0 <= i < |servers| && states[i] == BeginForWrite ==> sendOk[i]
      ensures var writers := In(BeginForWrite, |servers|);
        var r := Accepts(Txn(Preparing, writers, {}, {}), trace);
        r.Some? && r.value == Txn(Preparing, writers, r.value.sent, {}) && (ok ==> r.value.sent == writers)
    {
      trace := [];
      ghost var writers := In(BeginForWrite, |servers|);
      ghost var t0 := Txn(Preparing, writers, {}, {});
      assert In(BeginForWrite, 0) == {};
      for i := 0 to |servers|
        invariant forall j :: 0 <= j < i && states[j] == BeginForWrite ==> sendOk[j]
        invariant Accepts(t0, trace) == Some(Txn(Preparing, writers, In(BeginForWrite, i), {}))
      {
        if states[i] == BeginForWrite {
          if !sendOk[i] {
            return false, trace;
          }
          AcceptsMore(t0, trace, SendPrepare(servers[i]));
          trace := trace + [SendPrepare(servers[i])];
          assert In(BeginForWrite, i + 1) == In(BeginForWrite, i) + {servers[i]};
        } else {
          assert In(BeginForWrite, i + 1) == In(BeginForWrite, i);
        }
      }
      ok := true;
    }

    /** The servers among the first n that were asked to prepare and said yes. */
    static ghost function Acked(servers: seq<Server>, states: seq<ConnState>, replies: seq<Reply>, n: nat): set<Server>
      requires |states| == |servers| == |replies| && n <= |servers|
    {
      set i | 0 <= i < n && states[i] == BeginForWrite && replies[i] == OkReply :: servers[i]
    }

    /** Fetches one reply per connection; a success on a writer marks it prepared and writes its record. */
    method FetchPrepareReplies(replies: seq<Reply>) returns (ok: bool, trace: seq<Event>)
      requires Valid() && |replies| == |servers| && records == {}
      modifies this`states, this`records
      ensures Valid()
      ensures ok <==> forall i :: 0 <= i < |replies| ==> replies[i] != ErrorReply
      ensures records == Acked(servers, old(states), replies, |servers|)
      ensures forall i :: 0 <= i < |servers| ==>
        states[i] == if old(states)[i] == BeginForWrite && replies[i] == OkReply then PreparedState else old(states)[i]
      ensures var writers := old(In(BeginForWrite, |servers|));
        Accepts(Txn(Preparing, writers, writers, {}), trace) == Some(Txn(Preparing, writers, writers, records))
    {
      ok, trace := true, [];
      ghost var writers := In(BeginForWrite, |servers|);
      ghost var t0 := Txn(Preparing, writers, writers, {});
      assert Acked(servers, states, replies, 0) == {};
      for i := 0 to |servers|
        invariant Valid()
        invariant ok <==> forall j :: 0 <= j < i ==> replies[j] != ErrorReply
        invariant records == Acked(servers, old(states), replies, i)
        invariant forall j :: 0 <= j < |servers| ==>
          states[j] == if j < i && old(states)[j] == BeginForWrite && replies[j] == OkReply
                       then PreparedState else old(states)[j]
        invariant Accepts(t0, trace) == Some(Txn(Preparing, writers, writers, records))
      {
        match replies[i] {
          case NullReply =>
            assert Acked(servers, old(states), replies, i + 1) == Acked(servers, old(states), replies, i);
          case OkReply =>
            if states[i] == BeginForWrite {
              assert servers[i] in writers;
              AcceptsMore(t0, trace, AckPrepare(servers[i]));
              states := states[i := PreparedState];
              records := records + {servers[i]};
              trace := trace + [AckPrepare(servers[i])];
              assert Acked(servers, old(states), replies, i + 1) ==
                     Acked(servers, old(states), replies, i) + {servers[i]};
            } else {
              assert Acked(servers, old(states), replies, i + 1) == Acked(servers, old(states), replies, i);
            }
          case ErrorReply =>
            ok := false;
            assert Acked(servers, old(states), replies, i + 1) == Acked(servers, old(states), replies, i);
        }
      }
    }

    /** The records cover the writers exactly when no writer answered with an empty result. */
    lemma RecordsCoverWriters(states: seq<ConnState>, replies: seq<Reply>, writers: set<Server>)
      requires |states| == |servers| == |replies|
      requires forall i, j :: 0 <= i < j < |servers| ==> servers[i] != servers[j]
      requires writers == set i | 0 <= i < |servers| && states[i] == BeginForWrite :: servers[i]
      requires forall i :: 0 <= i < |replies| ==> replies[i] != ErrorReply
      ensures Acked(servers, states, replies, |servers|) == writers <==>
        forall i :: 0 <= i < |servers| && servers[i] in writers ==> replies[i] != NullReply
    {
      var acked := Acked(servers, states, replies, |servers|);
      if i :| 0 <= i < |servers| && servers[i] in writers && replies[i] == NullReply {
        assert servers[i] !in acked;
      } else {
        forall w | w in writers ensures w in acked {
          var i :| 0 <= i < |servers| && states[i] == BeginForWrite && servers[i] == w;
        }
        assert acked == writers;
      }
    }

    /** The two loops of the preparation, after the gid has been registered. */
    method PrepareWriters(sendOk: seq<bool>, replies: seq<Reply>) returns (ok: bool, trace: seq<Event>)
      requires Valid() && records == {} && |sendOk| == |replies| == |servers|
      modifies this`states, this`records
      ensures Valid()
      ensures var writers := old(In(BeginForWrite, |servers|));
        var r := Accepts(Txn(Preparing, writers, {}, {}), trace);
        && r.Some? && r.value.phase.Preparing?
        && (ok ==> r.value == Txn(Preparing, writers, writers, records))
        && (ok ==> (records == writers <==>
              forall i :: 0 <= i < |servers| && servers[i] in writers ==> replies[i] != NullReply))
    {
      ghost var writers := In(BeginForWrite, |servers|);
      ghost var t0 := Txn(Preparing, writers, {}, {});
      ghost var before := states;
      ok, trace := SendPrepares(sendOk);
      if ok {
        var more;
        ok, more := FetchPrepareReplies(replies);
        AcceptsConcat(t0, trace, more);
        trace := trace + more;
        if ok { RecordsCoverWriters(before, replies, writers); }
      }
    }

    /**
     Before the local commit.  A connection that cannot be opened again fails it; fewer than two writers need no
     protocol.  Otherwise the gid is registered and the writers are prepared; on success the local commit that follows
     is in order exactly when no writer answered with an empty result, because such a writer is left without a record.
     */
    method RemoteCommandPrepare(g: Gid, broken: seq<bool>, connects: seq<bool>, sendOk: seq<bool>, replies: seq<Reply>)
      returns (ok: bool, ghost writers: set<Server>, trace: seq<Event>)
      requires Valid() && gid == None && records == {}
      requires |broken| == |connects| == |sendOk| == |replies| == |servers|
      modifies this`states, this`gid, this`records
      ensures Valid()
      ensures writers == set i | 0 <= i < |servers| && old(states)[i] == BeginForWrite && !broken[i] :: servers[i]
      ensures !Connected(broken, connects) ==> !ok
      ensures gid == (if Connected(broken, connects) && |writers| + (if localWrite then 1 else 0) >= 2 then Some(g) else None)
      ensures gid == None ==> (ok <==> Connected(broken, connects)) && trace == [] && records == {}
      ensures gid.Some? ==>
        var r := Accepts(Txn(Idle, writers, {}, {}), trace);
        && r.Some? && r.value.phase.Preparing?
        && (ok ==> r.value == Txn(Preparing, writers, writers, records))
        && (ok ==> (TxnStep(r.value, CommitLocally).Some? <==>
              forall i :: 0 <= i < |servers| && servers[i] in writers ==> replies[i] != NullReply))
    {
      ok := GetForeignServerConnection(broken, connects);
      writers := In(BeginForWrite, |servers|);
      if !ok {
        return false, writers, [];
      }
      var n := CountWriters();
      if n < 2 {
        return true, writers, [];
      }
      gid := Some(g);
      ghost var t0 := Txn(Idle, writers, {}, {});
      assert Accepts(t0, [Register]) == Some(Txn(Preparing, writers, {}, {})) by {
        AcceptsMore(t0, [], Register);
        assert [] + [Register] == [Register];
      }
      ok, trace := PrepareWriters(sendOk, replies);
      AcceptsConcat(t0, [Register], trace);
      trace := [Register] + trace;
    }

    /** Every connection up to i that is in a transaction can be sent to. */
    static predicate ReachedUpTo(states: seq<ConnState>, sendOk: seq<bool>, i: int)
      requires |sendOk| == |states|
    {
      forall j :: 0 <= j <= i && j < |states| && states[j] != NoTransaction ==> sendOk[j]
    }

    /** COMMIT PREPARED to the prepared connections in turn; stops at the first connection it cannot reach. */
    method SendCommits(sendOk: seq<bool>) returns (reachable: bool, trace: seq<Event>)
      requires Valid() && |sendOk| == |servers|
      ensures reachable <==> ReachedUpTo(states, sendOk, |servers|)
      ensures forall k :: 0 <= k < |trace| ==> trace[k].SendCommit?
      ensures forall i :: 0 <= i < |servers| ==>
        (SendCommit(servers[i]) in trace <==> states[i] == PreparedState && ReachedUpTo(states, sendOk, i))
    {
      trace := [];
      for i := 0 to |servers|
        invariant ReachedUpTo(states, sendOk, i - 1)
        invariant forall k :: 0 <= k < |trace| ==> trace[k].SendCommit?
        invariant forall j :: 0 <= j < |servers| ==>
          (SendCommit(servers[j]) in trace <==> j < i && states[j] == PreparedState)
      {
        if states[i] != NoTransaction {
          if !sendOk[i] {
            return false, trace;
          }
          if states[i] == PreparedState {
            trace := trace + [SendCommit(servers[i])];
          }
        }
      }
      reachable := true;
    }

    /** A reply ends the transaction on its connection; the loop leaves at the first error. */
    method FetchCommitReplies(replies: seq<Reply>)
      requires Valid() && |replies| == |servers|
      modifies this`states
      ensures Valid()
      ensures forall i :: 0 <= i < |servers| ==>
        states[i] == if replies[i] == OkReply && ErrorReply !in replies[..i] then NoTransaction else old(states)[i]
    {
      var i := 0;
      while i < |servers| && replies[i] != ErrorReply
        invariant 0 <= i <= |servers| && Valid() && ErrorReply !in replies[..i]
        invariant forall j :: 0 <= j < |servers| ==>
          states[j] == if j < i && replies[j] == OkReply then NoTransaction else old(states)[j]
      {
        if replies[i] == OkReply { states := states[i := NoTransaction]; }
        assert replies[..i + 1] == replies[..i] + [replies[i]];
        i := i + 1;
      }
      forall j | 0 <= j < |servers| ensures ErrorReply !in replies[..j] || j > i {
        if j <= i { assert replies[..j] == replies[..i][..j]; }
      }
      forall j | i < j < |servers| ensures ErrorReply in replies[..j] { assert replies[..j][i] == ErrorReply; }
    }

    /**
     After the local commit: COMMIT PREPARED to every connection still in the prepared state, until one
     cannot be reached; then the gid, if there is one, is taken off the in-progress table.  A connection that
     is not prepared gets a plain COMMIT, which is no event of the protocol.  A connection that cannot be opened
     again is an error before any of this.
     */
    method RemoteCommandCommit(ghost t: Txn, broken: seq<bool>, connects: seq<bool>, sendOk: seq<bool>, replies: seq<Reply>)
      returns (ok: bool, trace: seq<Event>)
      requires Valid() && (gid.Some? ==> TxnStep(t, CommitLocally).Some?)
      requires |broken| == |connects| == |sendOk| == |replies| == |servers|
      modifies this`states, this`gid, this`records
      ensures Valid() && (ok <==> Connected(broken, connects))
      ensures !ok ==> gid == old(gid) && records == old(records) && states == Kept(old(states), broken)
      ensures !ok && gid.Some? ==> trace == [CommitLocally]
      ensures ok ==> gid == None && records == {}
      ensures ok && old(gid).Some? ==> Accepts(t, trace) == Some(t.(phase := Finished))
      ensures ok ==> var kept := Kept(old(states), broken);
        && (forall i :: 0 <= i < |servers| ==>
              (SendCommit(servers[i]) in trace <==> kept[i] == PreparedState && ReachedUpTo(kept, sendOk, i)))
        && forall i :: 0 <= i < |servers| ==>
             states[i] ==
               if ReachedUpTo(kept, sendOk, |servers|) && replies[i] == OkReply && ErrorReply !in replies[..i]
               then NoTransaction else kept[i]
    {
      ok := GetForeignServerConnection(broken, connects);
      if !ok {
        return false, if gid.Some? then [CommitLocally] else [];
      }
      var reachable;
      reachable, trace := SendCommits(sendOk);
      ghost var kept := states;
      assert kept == Kept(old(states), broken);
      if reachable {
        FetchCommitReplies(replies);
      }
      if gid.Some? {
        Finishing(t, CommitLocally, trace);
        trace := [CommitLocally] + trace + [Unregister];
      }
      gid, records := None, {};
    }

    /** ROLLBACK PREPARED to the prepared connections that can be reached. */
    method SendRollbacks(sendOk: seq<bool>) returns (succeed: bool, trace: seq<Event>)
      requires Valid() && |sendOk| == |servers|
      ensures succeed <==> ReachedUpTo(states, sendOk, |servers|)
      ensures forall k :: 0 <= k < |trace| ==> trace[k].SendRollback?
      ensures forall i :: 0 <= i < |servers| ==>
        (SendRollback(servers[i]) in trace <==> states[i] == PreparedState && sendOk[i])
    {
      succeed, trace := true, [];
      for i := 0 to |servers|
        invariant succeed <==> ReachedUpTo(states, sendOk, i - 1)
        invariant forall k :: 0 <= k < |trace| ==> trace[k].SendRollback?
        invariant forall j :: 0 <= j < |servers| ==>
          (SendRollback(servers[j]) in trace <==> j < i && states[j] == PreparedState && sendOk[j])
      {
        if states[i] != NoTransaction {
          if !sendOk[i] {
            succeed := false;
          } else if states[i] == PreparedState {
            trace := trace + [SendRollback(servers[i])];
          }
        }
      }
    }

    /** Every connection leaves its transaction, whatever the replies. */
    method FetchRollbackReplies(replies: seq<Reply>) returns (succeed: bool)
      requires Valid() && |replies| == |servers|
      modifies this`states
      ensures Valid() && forall i :: 0 <= i < |servers| ==> states[i] == NoTransaction
      ensures succeed <==> ErrorReply !in replies
    {
      succeed := true;
      for i := 0 to |servers|
        invariant Valid() && forall j :: 0 <= j < i ==> states[j] == NoTransaction
        invariant succeed <==> ErrorReply !in replies[..i]
      {
        assert replies[..i + 1] == replies[..i] + [replies[i]];
        if replies[i] == ErrorReply { succeed := false; }
        states := states[i := NoTransaction];
      }
      assert replies[..|servers|] == replies;
    }

    /** On abort: ROLLBACK PREPARED to the prepared connections that can be reached, then off the table.  A connection
        that cannot be opened again is an error before any of this. */
    method RemoteCommandAbort(ghost t: Txn, broken: seq<bool>, connects: seq<bool>, sendOk: seq<bool>, replies: seq<Reply>)
      returns (ok: bool, succeed: bool, trace: seq<Event>)
      requires Valid() && (gid.Some? ==> TxnStep(t, AbortLocally).Some?)
      requires |broken| == |connects| == |sendOk| == |replies| == |servers|
      modifies this`states, this`gid, this`records
      ensures Valid() && (ok <==> Connected(broken, connects))
      ensures !ok ==> gid == old(gid) && records == old(records) && states == Kept(old(states), broken)
      ensures !ok && gid.Some? ==> trace == [AbortLocally]
      ensures ok ==> gid == None && records == {}
      ensures ok ==> forall i :: 0 <= i < |servers| ==> states[i] == NoTransaction
      ensures ok && old(gid).Some? ==> Accepts(t, trace) == Some(t.(phase := Finished))
      ensures ok ==> var kept := Kept(old(states), broken);
        && (succeed <==> ReachedUpTo(kept, sendOk, |servers|) && ErrorReply !in replies)
        && forall i :: 0 <= i < |servers| ==>
             (SendRollback(servers[i]) in trace <==> kept[i] == PreparedState && sendOk[i])
    {
      ok := GetForeignServerConnection(broken, connects);
      if !ok {
        return false, false, if gid.Some? then [AbortLocally] else [];
      }
      ghost var kept := states;
      assert kept == Kept(old(states), broken);
      var sent, answered;
      sent, trace := SendRollbacks(sendOk);
      answered := FetchRollbackReplies(replies);
      succeed := sent && answered;
      if gid.Some? {
        Finishing(t, AbortLocally, trace);
        trace := [AbortLocally] + trace + [Unregister];
      }
      gid, records := None, {};
    }
  }

  /** Once the decision is made its messages may be sent in any number, and the gid comes off the table. */
  lemma {:induction false} SendsAccepted(t: Txn, es: seq<Event>)
    requires t.phase.LocallyCommitted? || t.phase.Aborting?
    requires forall k :: 0 <= k < |es| ==> if t.phase.LocallyCommitted? then es[k].SendCommit? else es[k].SendRollback?
    ensures Accepts(t, es) == Some(t)
  {
    if es != [] { SendsAccepted(t, es[..|es| - 1]); }
  }

  lemma Finishing(t: Txn, decision: Event, es: seq<Event>)
    requires decision in {CommitLocally, AbortLocally} && TxnStep(t, decision).Some?
    requires forall k :: 0 <= k < |es| ==> if decision == CommitLocally then es[k].SendCommit? else es[k].SendRollback?
    ensures Accepts(t, [decision] + es + [Unregister]) == Some(t.(phase := Finished))
  {
    var u := TxnStep(t, decision).value;
    AcceptsMore(t, [], decision);
    assert [] + [decision] == [decision];
    SendsAccepted(u, es);
    AcceptsConcat(t, [decision], es);
    AcceptsMore(t, [decision] + es, Unregister);
  }
}
