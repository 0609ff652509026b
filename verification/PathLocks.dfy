/**
 The order in which a batch of metadata requests takes directory locks on one server.  A handler sorts the
 batch by pathcmp and walks the paths one after the other in one transaction; a lock is named here by the
 components of the directory it protects.
 */
module PathLocks {
  import opened Common
  import opened Paths
  import opened PathParse

  /** Stat and unlink only look their parents up. */
  datatype Kind = Mkdir | Create | Lookup

  function FlagsOf(kind: Kind): Flags {
    match kind
    case Mkdir => Flags(false, true, true, false, false, true)
    case Create => Flags(true, false, true, false, false, false)
    case Lookup => Flags(false, false, false, false, false, false)
  }

  /** The transaction so far: its tree, the locks it took in order, the directory table with the directories
      it has made, and the missing ancestor of each request that had one. */
  datatype Batch = Batch(tree: Tree, log: Log, table: DirTable, missing: Log)

  datatype Request = Request(path: Path, newId: nat)

  function Handle(kind: Kind, s: Batch, r: Request): Batch
    requires r.path != []
  {
    var o := Parse(s.tree, s.log, s.table, r.path, FlagsOf(kind), r.newId, 0);
    var table := if kind.Mkdir? && o.code.Success? then s.table[Key(o.parent, o.name) := o.inode] else s.table;
    var missing := if o.code == PathIsInvalid && o.locks != [] then s.missing + [o.locks[|o.locks| - 1]] else s.missing;
    Batch(o.tree, o.locks, table, missing)
  }

  function HandleAll(kind: Kind, s: Batch, rs: seq<Request>): Batch
    requires forall r :: r in rs ==> r.path != []
  {
    if rs == [] then s else Handle(kind, HandleAll(kind, s, rs[..|rs| - 1]), rs[|rs| - 1])
  }

  ghost predicate SortedByPath(rs: seq<Request>) {
    && (forall r :: r in rs ==> r.path != [])
    && forall i, j :: 0 <= i < j < |rs| ==> rs[i].path == rs[j].path || Less(rs[i].path, rs[j].path)
  }

  /** Ids are new, and each is used once. */
  ghost predicate NewIds(rs: seq<Request>, table: DirTable) {
    && (forall i :: 0 <= i < |rs| ==> rs[i].newId != 0 && rs[i].newId !in table.Values)
    && forall i, j :: 0 <= i < j < |rs| ==> rs[i].newId != rs[j].newId
  }

  // ------------------------------------------------------------------ orders on the log

  ghost predicate Ordered(log: Log) {
    forall i, j :: 0 <= i < j < |log| ==> AtMost(log[i], log[j])
  }

  ghost predicate Distinct(log: Log) {
    forall i, j :: 0 <= i < j < |log| ==> log[i] != log[j]
  }

  ghost predicate StrictlyOrdered(log: Log) {
    forall i, j :: 0 <= i < j < |log| ==> ComponentsLess(log[i], log[j])
  }

  lemma StrictIffDistinct(log: Log)
    requires Ordered(log)
    ensures StrictlyOrdered(log) <==> Distinct(log)
  {
    forall i, j | 0 <= i < j < |log| ensures ComponentsLess(log[i], log[j]) <==> log[i] != log[j] {
      ComponentsLessIrreflexive(log[i]);
    }
  }

  // ------------------------------------------------------------------ the invariant

  /** A lock is taken below directories that are all in the tree; it ends up in the tree, or was missing. */
  ghost predicate Shape(tree: Tree, log: Log, missing: Log) {
    && (forall x, y :: x in log && y != [] && y < x ==> y in tree)
    && (forall x :: x in log <==> x in tree || x in missing)
  }

  /** No lock taken so far sorts above bound, and one is taken twice exactly when it was missing twice. */
  ghost predicate Order(log: Log, missing: Log, bound: seq<Name>) {
    && Ordered(log) && (Distinct(log) <==> Distinct(missing))
    && (forall x :: x in log ==> AtMost(x, bound))
    && (forall x :: x in missing ==> ComponentsLess(x, bound))
  }

  ghost predicate Absent(table: DirTable, missing: Log) {
    forall x :: x in missing ==> Walk(table, x).None?
  }

  ghost predicate LogOk(tree: Tree, log: Log, table: DirTable, missing: Log, bound: seq<Name>) {
    TreeOk(tree, table) && Absent(table, missing) && Shape(tree, log, missing) && Order(log, missing, bound)
  }

  /** A directory of the next path that is not in the tree sorts after every lock taken so far. */
  lemma NextLockIsLast(tree: Tree, log: Log, missing: Log, bound: seq<Name>, pre: seq<Name>)
    requires Shape(tree, log, missing) && Order(log, missing, bound) && pre != [] && pre <= bound && pre !in tree
    ensures forall x :: x in log ==> AtMost(x, pre)
  {
    forall x | x in log ensures AtMost(x, pre) {
      ComponentsLessTotal(x, pre);
      if ComponentsLess(pre, x) { SubtreeContiguous(pre, x, bound); }
    }
  }

  lemma DistinctAppend(log: Log, x: seq<Name>)
    ensures Distinct(log + [x]) <==> Distinct(log) && x !in log
  {
    var more := log + [x];
    if Distinct(more) {
      forall i, j | 0 <= i < j < |log| ensures log[i] != log[j] { assert more[i] != more[j]; }
      forall i | 0 <= i < |log| ensures log[i] != x { assert more[i] != more[|log|]; }
    }
  }

  lemma OrderedAppend(log: Log, x: seq<Name>)
    requires Ordered(log) && forall y :: y in log ==> AtMost(y, x)
    ensures Ordered(log + [x])
  {
    var more := log + [x];
    forall i, j | 0 <= i < j < |more| ensures AtMost(more[i], more[j]) {
      assert j < |log| || (i < |log| && log[i] in log);
    }
  }

  lemma AppendOrder(tree: Tree, log: Log, missing: Log, bound: seq<Name>, pre: seq<Name>)
    requires Shape(tree, log, missing) && Order(log, missing, bound) && pre != [] && pre <= bound && pre !in tree
    ensures pre !in missing ==> Order(log + [pre], missing, bound)
    ensures pre < bound ==> Order(log + [pre], missing + [pre], bound)
  {
    NextLockIsLast(tree, log, missing, bound, pre);
    OrderedAppend(log, pre);
    DistinctAppend(log, pre);
    DistinctAppend(missing, pre);
    if pre != bound { AncestorFirst(pre, bound); }
    assert forall x :: x in log + [pre] <==> x in log || x == pre;
    assert forall x :: x in missing + [pre] <==> x in missing || x == pre;
  }

  /** Taking a lock whose directory exists, or is being made, and goes into the tree. */
  lemma LogFound(tree: Tree, log: Log, table: DirTable, missing: Log, bound: seq<Name>, pre: seq<Name>, node: Node)
    requires LogOk(tree, log, table, missing, bound) && pre != [] && pre <= bound && pre !in tree
    requires forall y :: y != [] && y < pre ==> y in tree
    requires Walk(table, pre) == Some(node.id)
    ensures LogOk(tree[pre := node], log + [pre], table, missing, bound)
  {
    AppendOrder(tree, log, missing, bound, pre);
    assert forall x :: x in log + [pre] <==> x in log || x == pre;
  }

  /** Taking a lock whose directory does not exist. */
  lemma LogMissing(tree: Tree, log: Log, table: DirTable, missing: Log, bound: seq<Name>, pre: seq<Name>)
    requires LogOk(tree, log, table, missing, bound) && pre != [] && pre < bound && pre !in tree
    requires forall y :: y != [] && y < pre ==> y in tree
    requires Walk(table, pre).None?
    ensures LogOk(tree, log + [pre], table, missing + [pre], bound)
  {
    AppendOrder(tree, log, missing, bound, pre);
    assert forall x :: x in log + [pre] <==> x in log || x == pre;
    assert forall x :: x in missing + [pre] <==> x in missing || x == pre;
  }

  // ------------------------------------------------------------------ one walk keeps it

  ghost predicate DescentOk(table: DirTable, missing: Log, c: seq<Name>, n: nat, d: Descent)
    requires n <= |c|
  {
    if d.Failed? && d.code == PathIsInvalid then
      && d.locks != []
      && LogOk(d.tree, d.locks, table, missing + [d.locks[|d.locks| - 1]], c)
    else
      && LogOk(d.tree, d.locks, table, missing, c)
      && (d.Failed? ==> d.code == PathLockConflict)
      && (d.Reached? ==> Walk(table, c[..n]) == Some(d.id) && forall y :: y != [] && y <= c[..n] ==> y in d.tree)
  }

  lemma Descend1Ok(table: DirTable, missing: Log, c: seq<Name>, n: nat, d: Descent)
    requires n + 1 < |c| && d.Reached? && DescentOk(table, missing, c, n, d)
    ensures DescentOk(table, missing, c, n + 1, Descend1(table, d, c[..n + 1]))
  {
    var pre := c[..n + 1];
    assert pre[..|pre| - 1] == c[..n] && pre < c;
    forall y | y != [] && y < pre ensures y in d.tree { assert y <= c[..n]; }
    var d' := Descend1(table, d, pre);
    if pre !in d.tree {
      var key := Key(d.id, c[n]);
      if key in table {
        LogFound(d.tree, d.locks, table, missing, c, pre, Node(table[key], Shared));
      } else {
        LogMissing(d.tree, d.locks, table, missing, c, pre);
      }
    }
    forall y | d'.Reached? && y != [] && y <= pre ensures y in d'.tree { assert y == pre || y < pre; }
  }

  lemma {:induction false} DescendOk(tree: Tree, log: Log, table: DirTable, missing: Log, c: seq<Name>, n: nat)
    requires n < |c| && LogOk(tree, log, table, missing, c)
    ensures DescentOk(table, missing, c, n, Descend(tree, log, table, c, n))
  {
    if n > 0 {
      DescendOk(tree, log, table, missing, c, n - 1);
      var d := Descend(tree, log, table, c, n - 1);
      if d.Reached? {
        Descend1Ok(table, missing, c, n - 1, d);
      } else {
        assert Descend(tree, log, table, c, n) == d;
      }
    }
  }

  // ------------------------------------------------------------------ the target, and the whole batch

  /** A new directory keeps what was known, since everything missing sorts before it. */
  lemma MadeKeeps(tree: Tree, table: DirTable, missing: Log, c: seq<Name>, parent: nat, id: nat)
    requires Injective(table) && TreeOk(tree, table) && Absent(table, missing)
    requires c != [] && Walk(table, c[..|c| - 1]) == Some(parent) && Key(parent, c[|c| - 1]) !in table
    requires forall x :: x in missing ==> ComponentsLess(x, c)
    ensures var table' := table[Key(parent, c[|c| - 1]) := id];
      TreeOk(tree, table') && Absent(table', missing) && Walk(table', c) == Some(id)
  {
    var key := Key(parent, c[|c| - 1]);
    forall x | x in tree && !tree[x].lock.Exclusive? ensures Walk(table[key := id], x) == Some(tree[x].id) {
      WalkInsert(table, x, key, id);
    }
    forall x | x in missing ensures Walk(table[key := id], x).None? {
      if c <= x {
        if c != x { AncestorFirst(c, x); }
        ComponentsLessTransitive(x, c, x);
        ComponentsLessIrreflexive(x);
      }
      WalkStaysClosed(table, c, parent, id, x);
    }
    WalkInsert(table, c[..|c| - 1], key, id);
  }

  ghost predicate BatchOk(t: Batch, bound: seq<Name>, values: set<nat>) {
    LogOk(t.tree, t.log, t.table, t.missing, bound) && Injective(t.table) && t.table.Values <= values
  }

  lemma HandleOk(kind: Kind, s: Batch, r: Request)
    requires r.path != [] && LogOk(s.tree, s.log, s.table, s.missing, Components(r.path))
    requires Injective(s.table) && r.newId != 0 && r.newId !in s.table.Values
    ensures BatchOk(Handle(kind, s, r), Components(r.path), s.table.Values + {r.newId})
  {
    var c := Components(r.path);
    var t := Handle(kind, s, r);
    var d := Descend(s.tree, s.log, s.table, c, |c| - 1);
    DescendOk(s.tree, s.log, s.table, s.missing, c, |c| - 1);
    if r.path == ROOT && kind.Create? {
      assert t == s;
    } else if d.Failed? {
      assert t.tree == d.tree && t.log == d.locks && t.table == s.table;
    } else if kind.Mkdir? && c !in d.tree {
      TargetOk(d, s.table, s.missing, c, r.newId);
      assert BatchOk(t, c, s.table.Values + {r.newId});
    } else {
      assert t == Batch(d.tree, d.locks, s.table, s.missing);
    }
  }

  lemma TargetOk(d: Descent, table: DirTable, missing: Log, c: seq<Name>, newId: nat)
    requires c != [] && d.Reached? && DescentOk(table, missing, c, |c| - 1, d) && c !in d.tree
    requires Injective(table) && newId != 0 && newId !in table.Values
    ensures var key := Key(d.id, c[|c| - 1]);
      var id := if key in table then table[key] else newId;
      var table' := if key in table then table else table[key := newId];
      BatchOk(Batch(d.tree[c := Node(id, ExclusiveForCreate)], d.locks + [c], table', missing), c, table.Values + {newId})
  {
    var key := Key(d.id, c[|c| - 1]);
    forall y | y != [] && y < c ensures y in d.tree { assert y <= c[..|c| - 1]; }
    if key in table {
      LogFound(d.tree, d.locks, table, missing, c, c, Node(table[key], ExclusiveForCreate));
    } else {
      MadeKeeps(d.tree, table, missing, c, d.id, newId);
      var table' := table[key := newId];
      LogFound(d.tree, d.locks, table', missing, c, c, Node(newId, ExclusiveForCreate));
      assert forall k :: k in table ==> table[k] in table.Values;
    }
  }

  lemma LaterBound(tree: Tree, log: Log, table: DirTable, missing: Log, c: seq<Name>, d: seq<Name>)
    requires LogOk(tree, log, table, missing, c) && AtMost(c, d)
    ensures LogOk(tree, log, table, missing, d)
  {
    if c != d {
      forall x | x in log ensures ComponentsLess(x, d) { if x != c { ComponentsLessTransitive(x, c, d); } }
      assert forall x :: x in missing ==> x in log;
    }
  }

  ghost predicate Starts(s: Batch) {
    s.tree == map[] && s.log == [] && s.missing == [] && Injective(s.table)
  }

  function IdsOf(rs: seq<Request>): set<nat> {
    set r | r in rs :: r.newId
  }

  lemma LastIdIsNew(rs: seq<Request>, table: DirTable)
    requires rs != [] && NewIds(rs, table)
    ensures rs[|rs| - 1].newId !in IdsOf(rs[..|rs| - 1]) && NewIds(rs[..|rs| - 1], table)
    ensures IdsOf(rs[..|rs| - 1]) + {rs[|rs| - 1].newId} == IdsOf(rs)
  {
    var front, last := rs[..|rs| - 1], rs[|rs| - 1];
    assert rs == front + [last];
    forall r | r in front ensures r.newId != last.newId {
      var i :| 0 <= i < |front| && front[i] == r;
      assert rs[i].newId != rs[|rs| - 1].newId;
    }
    assert last in rs && forall r :: r in rs <==> r in front || r == last;
  }

  lemma {:induction false} HandleAllOk(kind: Kind, s: Batch, rs: seq<Request>)
    requires Starts(s) && rs != [] && SortedByPath(rs) && NewIds(rs, s.table)
    ensures BatchOk(HandleAll(kind, s, rs), Components(rs[|rs| - 1].path), s.table.Values + IdsOf(rs))
  {
    var front, last := rs[..|rs| - 1], rs[|rs| - 1];
    var c := Components(last.path);
    var f := HandleAll(kind, s, front);
    LastIdIsNew(rs, s.table);
    if front == [] {
      assert f == s;
    } else {
      HandleAllOk(kind, s, front);
      var before := front[|front| - 1].path;
      ComponentsOrder(before, last.path);
      LaterBound(f.tree, f.log, f.table, f.missing, Components(before), c);
    }
    HandleOk(kind, f, last);
  }

  /** The locks a sorted batch takes never go down in the order; they strictly increase if and only if no two
      requests miss the same ancestor, and in particular when every ancestor exists. */
  lemma BatchLocksIncrease(kind: Kind, s: Batch, rs: seq<Request>)
    requires Starts(s) && SortedByPath(rs) && NewIds(rs, s.table)
    ensures var t := HandleAll(kind, s, rs);
      Ordered(t.log) && (StrictlyOrdered(t.log) <==> Distinct(t.missing)) && (t.missing == [] ==> StrictlyOrdered(t.log))
  {
    if rs != [] { HandleAllOk(kind, s, rs); }
    StrictIffDistinct(HandleAll(kind, s, rs).log);
  }

  // ------------------------------------------------------------------ no cycle of waiting batches

  /** A transaction that waits for a lock while it holds the locks it took before. */
  datatype Waiter = Waiter(held: Log, wanted: seq<Name>)

  ghost predicate Waits(w: Waiter) {
    StrictlyOrdered(w.held + [w.wanted])
  }

  /** A batch whose locks strictly increase is such a waiter at every lock it takes. */
  lemma BatchWaits(log: Log, at: nat)
    requires StrictlyOrdered(log) && at < |log|
    ensures Waits(Waiter(log[..at], log[at]))
  {
    assert log[..at] + [log[at]] == log[..at + 1];
  }

  /** Each waits for a lock that the next one holds, around the circle. */
  ghost predicate Circle(ws: seq<Waiter>) {
    ws != [] && forall i :: 0 <= i < |ws| ==> ws[i].wanted in ws[if i + 1 == |ws| then 0 else i + 1].held
  }

  lemma WaitStep(ws: seq<Waiter>, i: nat, next: nat)
    requires Circle(ws) && (forall w :: w in ws ==> Waits(w)) && i < |ws| && next == if i + 1 == |ws| then 0 else i + 1
    ensures ComponentsLess(ws[i].wanted, ws[next].wanted)
  {
    var w := ws[next];
    var k :| 0 <= k < |w.held| && w.held[k] == ws[i].wanted;
    var all := w.held + [w.wanted];
    assert w in ws && all[k] == ws[i].wanted && all[|w.held|] == w.wanted;
  }

  /** Along the circle the locks waited for would have to increase forever. */
  lemma {:induction false} WaitsIncrease(ws: seq<Waiter>, i: nat)
    requires Circle(ws) && (forall w :: w in ws ==> Waits(w)) && 0 < i < |ws|
    ensures ComponentsLess(ws[0].wanted, ws[i].wanted)
  {
    WaitStep(ws, i - 1, i);
    if i > 1 {
      WaitsIncrease(ws, i - 1);
      ComponentsLessTransitive(ws[0].wanted, ws[i - 1].wanted, ws[i].wanted);
    }
  }

  /** Transactions that take their locks in increasing order never wait for each other in a circle. */
  lemma NoWaitCycle(ws: seq<Waiter>)
    requires forall w :: w in ws ==> Waits(w)
    ensures !Circle(ws)
  {
    if Circle(ws) {
      var n := |ws| - 1;
      WaitStep(ws, n, 0);
      if n > 0 {
        WaitsIncrease(ws, n);
        ComponentsLessTransitive(ws[0].wanted, ws[n].wanted, ws[0].wanted);
      }
      ComponentsLessIrreflexive(ws[0].wanted);
    }
  }
}
