/**
 When the locks of a sorted batch strictly increase, said of the requests and the directory table alone: without
 the transaction's tree, and without its locks.
 */
module BatchLocks {
  import opened Common
  import opened Paths
  import opened PathParse
  import opened PathLocks
  import opened PathMeaning

  /** The first of the directories c[..1], ..., c[..n] that is not there. */
  function FirstMissing(table: DirTable, c: seq<Name>, n: nat): (m: Option<seq<Name>>)
    requires n <= |c|
    ensures m.None? <==> Walk(table, c[..n]).Some?
  {
    if n == 0 then None
    else
      assert c[..n][..n - 1] == c[..n - 1];
      var m := FirstMissing(table, c, n - 1);
      if m.None? && Walk(table, c[..n]).None? then Some(c[..n]) else m
  }

  /** A walk fails exactly at the first missing directory, and its lock is the last one taken. */
  lemma {:induction false} DescendMissing(tree: Tree, log: Log, table: DirTable, c: seq<Name>, n: nat)
    requires TreeOk(tree, table) && NoneExclusive(tree) && n <= |c|
    ensures var d, m := Descend(tree, log, table, c, n), FirstMissing(table, c, n);
      if m.None? then d.Reached?
      else d.Failed? && d.code == PathIsInvalid && d.locks != [] && d.locks[|d.locks| - 1] == m.value
  {
    if n > 0 {
      DescendMissing(tree, log, table, c, n - 1);
      DescendTree(tree, log, table, c, n - 1);
      assert c[..n][..n - 1] == c[..n - 1];
    }
  }

  // ------------------------------------------------------------------ a batch without its tree

  /** The directory table after one request. */
  function After(kind: Kind, table: DirTable, r: Request): DirTable
    requires r.path != []
  {
    var k := KeyFor(table, r.path);
    if kind.Mkdir? && k.Some? && k.value !in table then table[k.value := r.newId] else table
  }

  function AfterAll(kind: Kind, table: DirTable, rs: seq<Request>): DirTable
    requires forall r :: r in rs ==> r.path != []
  {
    if rs == [] then table else After(kind, AfterAll(kind, table, rs[..|rs| - 1]), rs[|rs| - 1])
  }

  /** The missing ancestor of a request, if it has one. */
  function Gap(table: DirTable, path: Path): (g: Log)
    requires path != []
    ensures g == [] <==> KeyFor(table, path).Some?
  {
    var m := FirstMissing(table, Components(path), |Components(path)| - 1);
    if m.None? then [] else [m.value]
  }

  /** The missing ancestors of the requests, each looked for among the directories there at its turn. */
  function Gaps(kind: Kind, table: DirTable, rs: seq<Request>): Log
    requires forall r :: r in rs ==> r.path != []
  {
    if rs == [] then []
    else
      var front, last := rs[..|rs| - 1], rs[|rs| - 1];
      Gaps(kind, table, front) + Gap(AfterAll(kind, table, front), last.path)
  }

  /** What one request makes of the batch, said without its tree and locks. */
  ghost predicate HandledAs(kind: Kind, s: Batch, r: Request, t: Batch)
    requires r.path != []
  {
    && TreeOk(t.tree, t.table) && NoneExclusive(t.tree)
    && t.table == After(kind, s.table, r) && t.missing == s.missing + Gap(s.table, r.path)
  }

  lemma HandleMkdir(s: Batch, r: Request)
    requires r.path != [] && TreeOk(s.tree, s.table) && NoneExclusive(s.tree)
    ensures HandledAs(Mkdir, s, r, Handle(Mkdir, s, r))
  {
    DescendMissing(s.tree, s.log, s.table, Components(r.path), |Components(r.path)| - 1);
    ParseMkdir(s.tree, s.log, s.table, r.path, r.newId);
  }

  lemma HandleFile(kind: Kind, s: Batch, r: Request)
    requires !kind.Mkdir? && r.path != [] && TreeOk(s.tree, s.table) && NoneExclusive(s.tree)
    ensures HandledAs(kind, s, r, Handle(kind, s, r))
  {
    DescendMissing(s.tree, s.log, s.table, Components(r.path), |Components(r.path)| - 1);
    if r.path != ROOT { ParseParent(s.tree, s.log, s.table, r.path, kind, r.newId); }
  }

  lemma HandleMeaning(kind: Kind, s: Batch, r: Request)
    requires r.path != [] && TreeOk(s.tree, s.table) && NoneExclusive(s.tree)
    ensures HandledAs(kind, s, r, Handle(kind, s, r))
  {
    if kind.Mkdir? { HandleMkdir(s, r); } else { HandleFile(kind, s, r); }
  }

  lemma {:induction false} HandleAllMeaning(kind: Kind, s: Batch, rs: seq<Request>)
    requires Starts(s) && forall r :: r in rs ==> r.path != []
    ensures var t := HandleAll(kind, s, rs);
      && TreeOk(t.tree, t.table) && NoneExclusive(t.tree)
      && t.table == AfterAll(kind, s.table, rs) && t.missing == Gaps(kind, s.table, rs)
  {
    if rs != [] {
      HandleAllMeaning(kind, s, rs[..|rs| - 1]);
      HandleMeaning(kind, HandleAll(kind, s, rs[..|rs| - 1]), rs[|rs| - 1]);
    }
  }

  /** The locks a sorted batch takes never go down in the order; they strictly increase if and only if no two
      requests miss the same ancestor. */
  lemma LocksIncreaseIff(kind: Kind, s: Batch, rs: seq<Request>)
    requires Starts(s) && SortedByPath(rs) && NewIds(rs, s.table)
    ensures var log := HandleAll(kind, s, rs).log;
      Ordered(log) && (StrictlyOrdered(log) <==> Distinct(Gaps(kind, s.table, rs)))
  {
    BatchLocksIncrease(kind, s, rs);
    HandleAllMeaning(kind, s, rs);
  }

  /** Every request finds its parent at its turn. */
  ghost predicate Resolve(kind: Kind, table: DirTable, rs: seq<Request>)
    requires forall r :: r in rs ==> r.path != []
  {
    forall i :: 0 <= i < |rs| ==> KeyFor(AfterAll(kind, table, rs[..i]), rs[i].path).Some?
  }

  lemma {:induction false} ResolvedHasNoGaps(kind: Kind, table: DirTable, rs: seq<Request>)
    requires (forall r :: r in rs ==> r.path != []) && Resolve(kind, table, rs)
    ensures Gaps(kind, table, rs) == []
  {
    if rs != [] {
      var front := rs[..|rs| - 1];
      forall i | 0 <= i < |front| ensures KeyFor(AfterAll(kind, table, front[..i]), front[i].path).Some? {
        assert front[..i] == rs[..i];
      }
      ResolvedHasNoGaps(kind, table, front);
      assert KeyFor(AfterAll(kind, table, rs[..|front|]), rs[|front|].path).Some?;
    }
  }

  /** In particular they strictly increase when all ancestors resolve; then the batch, at every lock it takes,
      waits in the order. */
  lemma ResolvedBatchWaits(kind: Kind, s: Batch, rs: seq<Request>, at: nat)
    requires Starts(s) && SortedByPath(rs) && NewIds(rs, s.table) && Resolve(kind, s.table, rs)
    requires at < |HandleAll(kind, s, rs).log|
    ensures var log := HandleAll(kind, s, rs).log; StrictlyOrdered(log) && Waits(Waiter(log[..at], log[at]))
  {
    LocksIncreaseIff(kind, s, rs);
    ResolvedHasNoGaps(kind, s.table, rs);
    BatchWaits(HandleAll(kind, s, rs).log, at);
  }

  // ------------------------------------------------------------------ several batches at once

  /** A batch that waits for its lock number at and holds those before it. */
  datatype Running = Running(kind: Kind, start: Batch, rs: seq<Request>, at: nat)

  ghost predicate Ready(b: Running) {
    && Starts(b.start) && SortedByPath(b.rs) && NewIds(b.rs, b.start.table) && Resolve(b.kind, b.start.table, b.rs)
    && b.at < |HandleAll(b.kind, b.start, b.rs).log|
  }

  ghost function WaiterOf(b: Running): Waiter
    requires Ready(b)
  {
    var log := HandleAll(b.kind, b.start, b.rs).log;
    Waiter(log[..b.at], log[b.at])
  }

  /** Any number of batches of mkdir, create, stat and unlink, wherever each of them has got to, never wait for each
      other in a circle when their ancestors resolve. */
  lemma NoDeadlock(bs: seq<Running>)
    requires forall i :: 0 <= i < |bs| ==> Ready(bs[i])
    ensures !Circle(seq(|bs|, i requires 0 <= i < |bs| => WaiterOf(bs[i])))
  {
    var ws := seq(|bs|, i requires 0 <= i < |bs| => WaiterOf(bs[i]));
    forall w | w in ws ensures Waits(w) {
      var i :| 0 <= i < |ws| && ws[i] == w;
      ResolvedBatchWaits(bs[i].kind, bs[i].start, bs[i].rs, bs[i].at);
    }
    NoWaitCycle(ws);
  }

  // ------------------------------------------------------------------ an example

  const ONLY_ROOT: DirTable := map[Key(0, "/") := 1]
  const TWO_LOOKUPS := [Request("/a/x", 2), Request("/a/y", 3)]

  lemma ComponentsBelowA(path: Path, name: Name)
    requires path == "/a/" + name && |name| == 1 && name[0] != SLASH
    ensures Components(path) == ["/", "a", name]
  {
    assert path[1..] == "a" + [SLASH] + name && path[..1] == "/";
    SplitConcat("a", name);
    SplitName("a");
    SplitName(name);
  }

  lemma SplitName(name: Name)
    requires |name| == 1 && name[0] != SLASH
    ensures Split(name) == [name]
  {
    assert name[1..] == [] && Split(name[1..]) == [[]];
    assert [name[0]] + [] == name;
  }

  lemma MissingA(path: Path, name: Name)
    requires path == "/a/" + name && |name| == 1 && name[0] != SLASH
    ensures Gap(ONLY_ROOT, path) == [["/", "a"]]
  {
    ComponentsBelowA(path, name);
    var c := Components(path);
    assert c[..1] == ["/"] && c[..2] == ["/", "a"] && c[..2][..1] == ["/"] && c[..1][..0] == [];
    assert Walk(ONLY_ROOT, ["/"]) == Some(1);
    assert FirstMissing(ONLY_ROOT, c, 1) == None;
  }

  lemma SameGapTwice(table: DirTable, p: Request, q: Request, x: seq<Name>)
    requires p.path != [] && q.path != [] && Gap(table, p.path) == [x] && Gap(table, q.path) == [x]
    ensures !Distinct(Gaps(Lookup, table, [p, q]))
  {
    var rs := [p, q];
    assert rs[..1] == [p] && [p][..0] == [];
    assert Gaps(Lookup, table, [p]) == [x];
    var g := Gaps(Lookup, table, rs);
    assert g == [x, x] && g[0] == g[1];
  }

  lemma TwoLookupsSorted()
    ensures SortedByPath(TWO_LOOKUPS)
  {
    assert "/a/x"[1..] == "a/x" && "a/x"[1..] == "/x" && "/x"[1..] == "x";
    assert "/a/y"[1..] == "a/y" && "a/y"[1..] == "/y" && "/y"[1..] == "y";
    assert Less("x", "y");
    assert Less("/x", "/y");
    assert Less("a/x", "a/y");
  }

  /** Two requests that miss the same ancestor take its lock twice. */
  lemma Relocks(s: Batch, p: Request, q: Request, x: seq<Name>)
    requires Starts(s) && SortedByPath([p, q]) && NewIds([p, q], s.table)
    requires p.path != [] && q.path != [] && Gap(s.table, p.path) == [x] && Gap(s.table, q.path) == [x]
    ensures !StrictlyOrdered(HandleAll(Lookup, s, [p, q]).log)
  {
    SameGapTwice(s.table, p, q, x);
    LocksIncreaseIff(Lookup, s, [p, q]);
  }

  /** So do two lookups below a directory that does not exist. */
  lemma TwoLookupsRelock(s: Batch, p: Request, q: Request)
    requires Starts(s) && s.table == ONLY_ROOT && [p, q] == TWO_LOOKUPS
    ensures SortedByPath([p, q]) && !StrictlyOrdered(HandleAll(Lookup, s, [p, q]).log)
  {
    assert p == TWO_LOOKUPS[0] && q == TWO_LOOKUPS[1];
    MissingA("/a/x", "x");
    MissingA("/a/y", "y");
    TwoLookupsSorted();
    Relocks(s, p, q, ["/", "a"]);
  }
}
