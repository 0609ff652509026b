/**
 The handlers of the metadata servers, working on the tables in place.  A handler that raises an error aborts
 the distributed transaction, so it leaves the tables as they were.
 */
module MetaHandle {
  import opened Common
  import opened Paths
  import opened PathParse
  import opened PathLocks
  import opened PathMeaning
  import opened NamespaceTables
  import opened Placement
  import opened Namespace
  import opened Rename
  import opened NamespaceRuns
  import opened ShardedCreate

  // ------------------------------------------------------------------ helpers of mkdir

  lemma {:induction false} EachNewPrefix(d: DirTable, made: seq<Made>, i: nat)
    requires EachNew(d, made) && i <= |made|
    ensures EachNew(d, made[..i])
    decreases |made|
  {
    if i < |made| {
      EachNewPrefix(d, made[..|made| - 1], i);
      assert made[..|made| - 1][..i] == made[..i];
    } else {
      assert made[..i] == made;
    }
  }

  /** A server inserts the directories one by one and fails on one it already has. */
  method InsertDirs(table: DirTable, made: seq<Made>) returns (ok: bool, t: DirTable)
    ensures ok <==> EachNew(table, made)
    ensures ok ==> t == MadeTable(table, made)
  {
    t, ok := table, true;
    for i := 0 to |made|
      invariant ok && EachNew(table, made[..i]) && t == MadeTable(table, made[..i])
    {
      assert made[..i + 1][..i] == made[..i];
      if made[i].key in t {
        if EachNew(table, made) { EachNewPrefix(table, made, i + 1); }
        return false, t;
      }
      t := t[made[i].key := made[i].id];
    }
    assert made[..|made|] == made;
  }

  /** The rows of new directories at their places. */
  function PlacedRows(y: Layout, rows: Rows, made: seq<Made>): Rows {
    if made == [] then rows
    else PlacedRows(y, rows, made[..|made| - 1])[y.place(made[|made| - 1].key) := Row(made[|made| - 1].id, true, 1)]
  }

  /** No row is at the place of another when its turn comes. */
  ghost predicate EachPlaceFree(y: Layout, rows: Rows, made: seq<Made>) {
    made == [] ||
    (EachPlaceFree(y, rows, made[..|made| - 1])
     && y.place(made[|made| - 1].key) !in PlacedRows(y, rows, made[..|made| - 1]))
  }

  lemma {:induction false} EachPlacePrefix(y: Layout, rows: Rows, made: seq<Made>, i: nat)
    requires EachPlaceFree(y, rows, made) && i <= |made|
    ensures EachPlaceFree(y, rows, made[..i])
    decreases |made|
  {
    if i < |made| {
      EachPlacePrefix(y, rows, made[..|made| - 1], i);
      assert made[..|made| - 1][..i] == made[..i];
    } else {
      assert made[..i] == made;
    }
  }

  /** The shards insert the rows one by one; a row of the same name is an error. */
  method InsertRows(y: Layout, rows: Rows, made: seq<Made>) returns (ok: bool, rows': Rows)
    ensures ok <==> EachPlaceFree(y, rows, made)
    ensures ok ==> rows' == PlacedRows(y, rows, made)
  {
    rows', ok := rows, true;
    for i := 0 to |made|
      invariant ok && EachPlaceFree(y, rows, made[..i]) && rows' == PlacedRows(y, rows, made[..i])
    {
      assert made[..i + 1][..i] == made[..i];
      if y.place(made[i].key) in rows' {
        if EachPlaceFree(y, rows, made) { EachPlacePrefix(y, rows, made, i + 1); }
        return false, rows;
      }
      rows' := rows'[y.place(made[i].key) := Row(made[i].id, true, 1)];
    }
    assert made[..|made|] == made;
  }

  /** By entry: the inserts fail exactly when a new directory has the name of a file. */
  lemma {:induction false} PlacedRowsMeaning(y: Layout, rows: Rows, f: Files, d: DirTable, made: seq<Made>)
    requires LayoutOk(y) && Stores(y, rows, f) && EachNew(d, made)
    ensures EachPlaceFree(y, rows, made) <==> !Clash(f, made)
    ensures Stores(y, PlacedRows(y, rows, made), MadeRows(f, made))
  {
    if made != [] {
      var front, last := made[..|made| - 1], made[|made| - 1];
      PlacedRowsMeaning(y, rows, f, d, front);
      StoresInsert(y, PlacedRows(y, rows, front), MadeRows(f, front), last.key, Row(last.id, true, 1));
      SameKeys(d, f, front);
      ClashSplit(f, made);
    }
  }

  lemma ClashSplit(f: Files, made: seq<Made>)
    requires made != []
    ensures Clash(f, made) <==> Clash(f, made[..|made| - 1]) || made[|made| - 1].key in f
  {
    var front := made[..|made| - 1];
    if Clash(f, front) {
      var i :| 0 <= i < |front| && front[i].key in f;
      assert made[i].key in f;
    }
    if i :| 0 <= i < |made| && made[i].key in f && i < |front| { assert front[i].key in f; }
  }

  // ------------------------------------------------------------------ changing the directory table server by server

  /** The coordinator and the first i workers have the new directory table, the others still the old one. */
  ghost predicate Reaching(y: Layout, dirs: map<int, DirTable>, all: map<int, DirTable>, table: DirTable, i: nat) {
    && CN in dirs && CN in all && all.Keys == dirs.Keys && all[CN] == table
    && forall j :: 0 <= j < |y.workers| ==>
         y.workers[j] in all && all[y.workers[j]] == if j < i then table else dirs[CN]
  }

  lemma ReachingStart(y: Layout, dirs: map<int, DirTable>, table: DirTable)
    requires Replicated(y, dirs) && CN !in y.workers
    ensures Reaching(y, dirs, dirs[CN := table], table, 0)
  {
    assert CN in Servers(y);
    forall j | 0 <= j < |y.workers|
      ensures y.workers[j] in dirs && y.workers[j] != CN && dirs[y.workers[j]] == dirs[CN]
    {
      assert y.workers[j] in y.workers && y.workers[j] in Servers(y);
    }
  }

  lemma ReachingStep(y: Layout, dirs: map<int, DirTable>, all: map<int, DirTable>, table: DirTable, i: nat)
    requires Reaching(y, dirs, all, table, i) && i < |y.workers| && CN !in y.workers
    requires forall i, j :: 0 <= i < j < |y.workers| ==> y.workers[i] != y.workers[j]
    ensures Reaching(y, dirs, all[y.workers[i] := table], table, i + 1)
  {
    var w, more := y.workers[i], all[y.workers[i] := table];
    assert w in y.workers && w != CN;
    forall j | 0 <= j < |y.workers|
      ensures y.workers[j] in more && more[y.workers[j]] == if j < i + 1 then table else dirs[CN]
    {
      if j < i { assert y.workers[j] != y.workers[i]; }
    }
  }

  lemma ReachingEnd(y: Layout, dirs: map<int, DirTable>, all: map<int, DirTable>, table: DirTable)
    requires Reaching(y, dirs, all, table, |y.workers|) && dirs.Keys == Servers(y)
    ensures Replicated(y, all)
  {
    forall v | v in all ensures all[v] == table {
      if v != CN {
        assert v in y.workers;
        var j :| 0 <= j < |y.workers| && y.workers[j] == v;
      }
    }
  }

  class Cluster {
    const layout: Layout
    var dirs: map<int, DirTable>
    var rows: Rows
    ghost var files: Files
    ghost var used: set<nat>

    /** All servers have the same directory table, and the shards hold exactly the rows by entry. */
    ghost predicate Valid()
      reads this
    {
      LayoutOk(layout) && Replicated(layout, dirs) && Stores(layout, rows, files)
    }

    /** The directories are a tree under "/", and rows and directories agree. */
    ghost predicate Sound()
      requires Valid()
      reads this
    {
      TablesOk(dirs[CN], files, used)
    }

    ghost function View(): Tables
      requires Valid()
      reads this
    {
      Tables(dirs[CN], files, used)
    }

    constructor (y: Layout)
      requires LayoutOk(y)
      ensures layout == y && Valid() && Sound() && dirs[CN] == map[] && files == map[]
    {
      layout := y;
      dirs := map v | v in Servers(y) :: map[];
      rows, files, used := map[], map[], {};
    }

    // ---------------------------------------------------------------- mkdir

    /** The coordinator walks the batch and inserts into its own directory table. */
    method PlanMkdir(paths: seq<Path>, ids: seq<nat>) returns (plan: Plan)
      requires Valid() && |ids| == |paths|
      ensures plan == MkdirAll(dirs[CN], paths, ids)
    {
      var parser := new PathParser();
      plan := Plan(dirs[CN], [], []);
      for i := 0 to |paths|
        invariant plan == MkdirAll(dirs[CN], paths[..i], ids[..i])
        invariant TreeOk(parser.tree, plan.table) && NoneExclusive(parser.tree)
        invariant fresh(parser)
      {
        assert paths[..i + 1][..i] == paths[..i] && ids[..i + 1][..i] == ids[..i];
        var verdict := Verify(paths[i], false);
        if verdict != Done {
          plan := plan.(results := plan.results + [verdict]);
          continue;
        }
        ParseMkdir(parser.tree, parser.locks, plan.table, paths[i], ids[i]);
        var code, parent, name, id := parser.TreeInsert(plan.table, paths[i], FlagsOf(Kind.Mkdir), ids[i], 0);
        if code != Success {
          plan := plan.(results := plan.results + [Refused(code)]);
          continue;
        }
        var k := Key(parent, name);
        plan := Plan(plan.table[k := id], plan.made + [Made(k, id)], plan.results + [Done]);
      }
      assert paths[..|paths|] == paths && ids[..|paths|] == ids;
    }

    /** Every worker repeats the coordinator's inserts. */
    method ReplicateDirs(made: seq<Made>, table: DirTable) returns (ok: bool, all: map<int, DirTable>)
      requires Valid() && EachNew(dirs[CN], made) && table == MadeTable(dirs[CN], made)
      ensures ok && Replicated(layout, all) && all[CN] == table
    {
      all, ok := dirs[CN := table], true;
      ReachingStart(layout, dirs, table);
      for i := 0 to |layout.workers|
        invariant ok && Reaching(layout, dirs, all, table, i)
      {
        var t;
        ok, t := InsertDirs(all[layout.workers[i]], made);
        ReachingStep(layout, dirs, all, table, i);
        all := all[layout.workers[i] := t];
      }
      ReachingEnd(layout, dirs, all, table);
    }

    /** A batch of mkdir either does what its requests mean one after the other, on every server and with every
        row on its shard, or fails as a whole because a name belongs to a file. */
    method Mkdir(paths: seq<Path>, ids: seq<nat>) returns (ok: bool, results: seq<Result>)
      requires Valid() && Sound() && |ids| == |paths| && FreshIds(ids, used)
      modifies this
      ensures Valid() && Sound()
      ensures var plan := MkdirAll(old(dirs[CN]), paths, ids);
        && (ok <==> !Clash(old(files), plan.made))
        && (ok ==> dirs[CN] == plan.table && files == MadeRows(old(files), plan.made) && results == plan.results)
        && (!ok ==> dirs == old(dirs) && files == old(files) && rows == old(rows))
      ensures View() == Apply(layout, old(View()), MkdirOp(paths, ids))
    {
      var plan := PlanMkdir(paths, ids);
      results := plan.results;
      PlanTable(dirs[CN], paths, ids);
      var all, newRows;
      ok, all := ReplicateDirs(plan.made, plan.table);
      ok, newRows := InsertRows(layout, rows, plan.made);
      PlacedRowsMeaning(layout, rows, files, dirs[CN], plan.made);
      if ok {
        PlanKeeps(dirs[CN], files, used, paths, ids);
        dirs, rows := all, newRows;
        files, used := MadeRows(files, plan.made), used + IdSet(ids);
      }
    }

    // ---------------------------------------------------------------- create and unlink

    /** The walk of a file request on a worker: its entry, or why it is refused. */
    method FindFile(parser: PathParser, kind: Kind, worker: int, path: Path) returns (r: Result, k: Key)
      requires Valid() && !kind.Mkdir? && TreeOk(parser.tree, dirs[CN]) && NoneExclusive(parser.tree)
      modifies parser
      ensures (r, k) == FileKey(layout, dirs[CN], worker, path)
      ensures TreeOk(parser.tree, dirs[CN]) && NoneExclusive(parser.tree)
    {
      r, k := Verify(path, true), ROOT_KEY;
      if r != Done {
        return;
      }
      ParseParent(parser.tree, parser.locks, dirs[CN], path, kind, 0);
      var code, parent, name, id := parser.TreeInsert(dirs[CN], path, FlagsOf(kind), 0, 0);
      if code != Success {
        return Refused(code), k;
      }
      k := Key(parent, name);
      r := if layout.serverOf(layout.place(k).shard) != worker then WrongWorker else Done;
    }

    /** The walks of a batch of create, all before the first insert. */
    method FindFiles(worker: int, paths: seq<Path>) returns (found: Found)
      requires Valid()
      ensures found == FoundOf(layout, dirs[CN], worker, paths)
    {
      var parser := new PathParser();
      found := [];
      for i := 0 to |paths|
        invariant fresh(parser) && TreeOk(parser.tree, dirs[CN]) && NoneExclusive(parser.tree)
        invariant found == FoundOf(layout, dirs[CN], worker, paths[..i])
      {
        var r, k := FindFile(parser, Kind.Create, worker, paths[i]);
        found := found + [(r, k)];
      }
      assert paths[..|paths|] == paths;
    }

    /** The inserts of a batch of create, shard by shard and in groups, in whatever order the shards come. */
    method InsertFiles(worker: int, paths: seq<Path>, ids: seq<nat>, order: seq<int>) returns (results: seq<Result>)
      requires Valid() && |ids| == |paths|
      requires Covered(Placed(layout, ItemsOf(FoundOf(layout, dirs[CN], worker, paths), ids)), ShardOf, order)
      modifies this`rows, this`files
      ensures Valid()
      ensures FileBatch(files, results) == CreateAll(layout, dirs[CN], old(files), worker, paths, ids)
    {
      var found := FindFiles(worker, paths);
      rows, results := CreateFound(layout, rows, found, ids, order, dirs[CN], files, worker, paths);
      files := CreateAll(layout, dirs[CN], files, worker, paths, ids).files;
    }

    /** A batch of create on a worker does what its requests mean one after the other. */
    method Create(worker: int, paths: seq<Path>, ids: seq<nat>, order: seq<int>) returns (results: seq<Result>)
      requires Valid() && Sound() && |ids| == |paths| && FreshIds(ids, used)
      requires Covered(Placed(layout, ItemsOf(FoundOf(layout, dirs[CN], worker, paths), ids)), ShardOf, order)
      modifies this
      ensures Valid() && Sound() && dirs == old(dirs)
      ensures FileBatch(files, results) == CreateAll(layout, old(dirs[CN]), old(files), worker, paths, ids)
      ensures View() == Apply(layout, old(View()), CreateOp(worker, paths, ids))
    {
      CreateKeeps(layout, dirs[CN], files, worker, paths, ids, used);
      results := InsertFiles(worker, paths, ids, order);
      used := used + IdSet(ids);
    }

    /** Deletes the row first and looks at it afterwards. */
    method DeleteRow(k: Key) returns (r: Result)
      requires Valid()
      modifies this`rows, this`files
      ensures Valid() && files == if k in old(files) then old(files) - {k} else old(files)
      ensures r == if k !in old(files) then FileNotExists
                   else if old(files)[k].nlink != 1 || old(files)[k].isDir then ProgramError else Done
    {
      var at := layout.place(k);
      if at !in rows {
        return FileNotExists;
      }
      r := if rows[at].nlink != 1 || rows[at].isDir then ProgramError else Done;
      StoresRemove(layout, rows, files, k);
      rows := rows - {at};
      files := files - {k};
    }

    /** The loop of a batch of unlink. */
    method UnlinkEach(worker: int, paths: seq<Path>) returns (results: seq<Result>)
      requires Valid()
      modifies this`rows, this`files
      ensures Valid()
      ensures FileBatch(files, results) == UnlinkAll(layout, dirs[CN], old(files), worker, paths)
    {
      var parser := new PathParser();
      results := [];
      for i := 0 to |paths|
        invariant Valid() && fresh(parser)
        invariant TreeOk(parser.tree, dirs[CN]) && NoneExclusive(parser.tree)
        invariant FileBatch(files, results) == UnlinkAll(layout, dirs[CN], old(files), worker, paths[..i])
      {
        assert paths[..i + 1][..i] == paths[..i];
        var r, k := FindFile(parser, Kind.Lookup, worker, paths[i]);
        if r == Done {
          r := DeleteRow(k);
        }
        results := results + [r];
      }
      assert paths[..|paths|] == paths;
    }

    /** A batch of unlink on a worker does what its requests mean one after the other; the tables stay sound if
        and only if no request named a directory. */
    method Unlink(worker: int, paths: seq<Path>) returns (results: seq<Result>)
      requires Valid() && Sound()
      modifies this`rows, this`files
      ensures Valid()
      ensures FileBatch(files, results) == UnlinkAll(layout, dirs[CN], old(files), worker, paths)
      ensures Sound() <==> NoneNamesDir(layout, dirs[CN], worker, paths)
      ensures Sound() <==> ProgramError !in results
      ensures View() == Apply(layout, old(View()), UnlinkOp(worker, paths))
    {
      UnlinkKeepsIff(layout, dirs[CN], files, worker, paths, used);
      results := UnlinkEach(worker, paths);
    }

    // ---------------------------------------------------------------- rmdir

    /** Every worker deletes the entry and scans its shards for entries of the directory. */
    method RemoveEverywhere(k: Key) returns (ok: bool, all: map<int, DirTable>)
      requires Replicated(layout, dirs) && CN !in layout.workers && k in dirs[CN]
      requires forall i, j :: 0 <= i < j < |layout.workers| ==> layout.workers[i] != layout.workers[j]
      ensures ok <==> forall w :: w in layout.workers ==> !WorkerHasChild(layout, rows, w, dirs[CN][k])
      ensures ok ==> Replicated(layout, all) && all[CN] == dirs[CN] - {k}
    {
      ghost var table := dirs[CN] - {k};
      all, ok := dirs[CN := dirs[CN] - {k}], true;
      ReachingStart(layout, dirs, table);
      for i := 0 to |layout.workers|
        invariant ok && Reaching(layout, dirs, all, table, i)
        invariant forall j :: 0 <= j < i ==> !WorkerHasChild(layout, rows, layout.workers[j], dirs[CN][k])
      {
        var w := layout.workers[i];
        var id := all[w][k];
        ReachingStep(layout, dirs, all, table, i);
        all := all[w := all[w] - {k}];
        if WorkerHasChild(layout, rows, w, id) {
          return false, dirs;
        }
      }
      ReachingEnd(layout, dirs, all, table);
    }

    /** The directory and its row, once the walk has found the entry. */
    method RemoveDirectory(k: Key) returns (ok: bool)
      requires Valid() && k in dirs[CN]
      modifies this
      ensures Valid() && used == old(used)
      ensures ok <==> (k in old(files) && old(files)[k].nlink == 1
                       && forall l :: l in old(files) ==> l.parent != old(dirs[CN])[k])
      ensures ok ==> dirs[CN] == old(dirs[CN]) - {k} && files == old(files) - {k}
      ensures !ok ==> dirs == old(dirs) && files == old(files) && rows == old(rows)
    {
      var all;
      ok, all := RemoveEverywhere(k);
      WorkersSeeAll(layout, rows, files, dirs[CN][k]);
      var at := layout.place(k);
      if !ok || at !in rows || rows[at].nlink != 1 {
        return false;
      }
      StoresRemove(layout, rows, files, k);
      dirs, rows, files := all, rows - {at}, files - {k};
    }

    /** The walk of rmdir: the entry of an existing directory that is not the root. */
    method FindLeaving(path: Path) returns (found: bool, k: Key)
      requires Valid()
      ensures found <==> path != [] && path[0] == SLASH && path != ROOT && KeyFor(dirs[CN], path).Some?
                         && KeyFor(dirs[CN], path).value in dirs[CN]
      ensures found ==> KeyFor(dirs[CN], path) == Some(k)
    {
      k := ROOT_KEY;
      if Verify(path, false) != Done {
        return false, k;
      }
      var parser := new PathParser();
      ParseLeaving(dirs[CN], path);
      var code, parent, name, id := parser.TreeInsert(dirs[CN], path, Leaving(true), 0, 0);
      found, k := code == Success, Key(parent, name);
    }

    /** Removes a directory from every server, with its row, exactly when it exists, is not the root and has no
        entries. */
    method Rmdir(path: Path) returns (ok: bool)
      requires Valid() && Sound()
      modifies this
      ensures Valid() && Sound() && used == old(used)
      ensures ok <==> CanRemove(old(dirs[CN]), old(files), path)
      ensures ok ==> var k := KeyFor(old(dirs[CN]), path).value;
        dirs[CN] == old(dirs[CN]) - {k} && files == old(files) - {k}
      ensures !ok ==> dirs == old(dirs) && files == old(files) && rows == old(rows)
      ensures View() == Apply(layout, old(View()), RmdirOp(path))
    {
      var found, k := FindLeaving(path);
      if !found {
        return false;
      }
      RemoveFound(dirs[CN], files, used, k);
      ok := RemoveDirectory(k);
    }

    // ---------------------------------------------------------------- rename

    /** Two walks in one transaction. */
    method WalkTwo(first: Path, second: Path, flags: Flags, flags': Flags, x: nat, y: nat)
      returns (code: Code, code': Code, k: Key, l: Key)
      requires Valid() && first != [] && second != []
      ensures var o := Parse(map[], [], dirs[CN], first, flags, 0, x);
        var o' := Parse(o.tree, o.locks, dirs[CN], second, flags', 0, y);
        code == o.code && code' == o'.code && k == Key(o.parent, o.name) && l == Key(o'.parent, o'.name)
    {
      var parser := new PathParser();
      var p, n, id;
      code, p, n, id := parser.TreeInsert(dirs[CN], first, flags, 0, x);
      k := Key(p, n);
      code', p, n, id := parser.TreeInsert(dirs[CN], second, flags', 0, y);
      l := Key(p, n);
    }

    /** The two walks of a rename, the smaller path first. */
    method FindBoth(src: Path, dst: Path, directory: bool, id: nat) returns (ok: bool, k: Key, l: Key)
      requires Valid() && src != [] && dst != [] && '\0' !in src && '\0' !in dst
      ensures directory ==> (ok <==> CanMoveDir(dirs[CN], src, dst))
      ensures !directory ==>
        (ok <==> src != ROOT && dst != ROOT && KeyFor(dirs[CN], src).Some? && KeyFor(dirs[CN], dst).Some?)
      ensures ok ==> KeyFor(dirs[CN], src) == Some(k) && KeyFor(dirs[CN], dst) == Some(l)
    {
      var cmp := PathCmp(src, dst);
      if cmp > 0 {
        var dstCode, srcCode, q, p := WalkTwo(dst, src, Arriving(directory), Leaving(directory), id, 0);
        if directory {
          MoveDstFirst(dirs[CN], src, dst, id);
        } else {
          FileWalks(dirs[CN], dst, src, Arriving(false), Leaving(false), id, 0);
        }
        ok, k, l := srcCode == Success && dstCode == Success, p, q;
      } else {
        var srcCode, dstCode, p, q := WalkTwo(src, dst, Leaving(directory), Arriving(directory), 0, id);
        if directory {
          MoveSrcFirst(dirs[CN], src, dst, id);
        } else {
          FileWalks(dirs[CN], src, dst, Leaving(false), Arriving(false), 0, id);
        }
        ok, k, l := srcCode == Success && dstCode == Success, p, q;
      }
    }

    /** Every server drops the old name and adds the new one. */
    method MoveEverywhere(k: Key, l: Key, id: nat) returns (all: map<int, DirTable>)
      requires Replicated(layout, dirs) && CN !in layout.workers
      requires forall i, j :: 0 <= i < j < |layout.workers| ==> layout.workers[i] != layout.workers[j]
      ensures Replicated(layout, all) && all[CN] == Moved(dirs[CN], k, l, id)
    {
      ghost var table := Moved(dirs[CN], k, l, id);
      all := dirs[CN := Moved(dirs[CN], k, l, id)];
      ReachingStart(layout, dirs, table);
      for i := 0 to |layout.workers|
        invariant Reaching(layout, dirs, all, table, i)
      {
        var w := layout.workers[i];
        ReachingStep(layout, dirs, all, table, i);
        all := all[w := (all[w] - {k})[l := id]];
      }
      ReachingEnd(layout, dirs, all, table);
    }

    /** Takes the row from its shard and puts it on the shard of the new name, if that is free. */
    method MoveRow(k: Key, l: Key) returns (ok: bool)
      requires Valid()
      modifies this`rows, this`files
      ensures ok <==> k in old(files) && l !in old(files) - {k}
      ensures Valid() && files == if ok then MovedRow(old(files), k, l) else old(files)
      ensures !ok ==> rows == old(rows)
    {
      var from, to := layout.place(k), layout.place(l);
      if from !in rows {
        return false;
      }
      StoresRemove(layout, rows, files, k);
      var row, rest := rows[from], rows - {from};
      if to in rest {
        return false;
      }
      StoresInsert(layout, rest, files - {k}, l, row);
      rows, files, ok := rest[to := row], (files - {k})[l := row], true;
    }

    /** The row, and for a directory its name on every server. */
    method MoveFound(k: Key, l: Key, id: Option<nat>) returns (ok: bool)
      requires Valid()
      modifies this
      ensures Valid() && used == old(used)
      ensures ok <==> k in old(files) && l !in old(files) - {k}
      ensures ok ==> files == MovedRow(old(files), k, l)
      ensures ok ==> dirs[CN] == if id.None? then old(dirs[CN]) else Moved(old(dirs[CN]), k, l, id.value)
      ensures !ok ==> dirs == old(dirs) && files == old(files) && rows == old(rows)
    {
      ok := MoveRow(k, l);
      if ok && id.Some? {
        dirs := MoveEverywhere(k, l, id.value);
      }
    }

    /** Renames a file or a directory with everything below it, exactly when the source is there, the destination
        has a parent and is free, and a directory does not go below itself. */
    method RenameTables(src: Path, dst: Path) returns (ok: bool)
      requires Valid() && dst != [] && '\0' !in src && '\0' !in dst
      modifies this
      ensures Valid() && used == old(used)
      ensures ok <==> src != [] && CanRename(old(dirs[CN]), old(files), src, dst)
      ensures ok ==> var k, l := KeyFor(old(dirs[CN]), src).value, KeyFor(old(dirs[CN]), dst).value;
        dirs[CN] == RenamedDirs(old(dirs[CN]), src, k, l) && files == MovedRow(old(files), k, l)
      ensures !ok ==> dirs == old(dirs) && files == old(files) && rows == old(rows)
      ensures View() == Apply(layout, old(View()), RenameOp(src, dst))
    {
      var srcId;
      ok, srcId := CheckPathExists(dirs[CN], src);
      if !ok || (srcId.None? && Trailing(src)) {
        return false;
      }
      var k, l;
      ok, k, l := FindBoth(src, dst, srcId.Some?, if srcId.Some? then srcId.value else 0);
      if !ok {
        return;
      }
      ok := MoveFound(k, l, srcId);
    }

    /** A rename that succeeds keeps the tables sound if and only if the source has no trailing separator and the
        destination starts with the separator. */
    method Rename(src: Path, dst: Path) returns (ok: bool)
      requires Valid() && Sound() && dst != [] && '\0' !in src && '\0' !in dst
      modifies this
      ensures Valid()
      ensures ok <==> src != [] && CanRename(old(dirs[CN]), old(files), src, dst)
      ensures View() == Apply(layout, old(View()), RenameOp(src, dst))
      ensures Sound() <==> (ok ==> !Trailing(src) && dst[0] == SLASH)
    {
      ApplyKeepsIff(layout, View(), RenameOp(src, dst));
      ok := RenameTables(src, dst);
    }
  }

  /** Both walks of a file's rename. */
  lemma FileWalks(table: DirTable, first: Path, second: Path, flags: Flags, flags': Flags, x: nat, y: nat)
    requires first != [] && second != [] && {flags, flags'} == {Leaving(false), Arriving(false)}
    ensures var o := Parse(map[], [], table, first, flags, 0, x);
      var o' := Parse(o.tree, o.locks, table, second, flags', 0, y);
      && (o.code == Success <==> first != ROOT && KeyFor(table, first).Some?)
      && (o'.code == Success <==> second != ROOT && KeyFor(table, second).Some?)
      && (o.code == Success ==> KeyFor(table, first) == Some(Key(o.parent, o.name)))
      && (o'.code == Success ==> KeyFor(table, second) == Some(Key(o'.parent, o'.name)))
  {
    assert flags in {flags, flags'} && flags' in {flags, flags'};
    ParseFileMove(map[], [], table, first, flags, x);
    var o := Parse(map[], [], table, first, flags, 0, x);
    ParseFileMove(o.tree, o.locks, table, second, flags', y);
  }

  /** In sound tables a directory without entries is removed with its row, and the tables stay sound. */
  lemma RemoveFound(d: DirTable, f: Files, used: set<nat>, k: Key)
    requires TablesOk(d, f, used) && k in d
    ensures k in f && f[k].nlink == 1
    ensures (forall l :: l in f ==> l.parent != d[k]) ==> TablesOk(d - {k}, f - {k}, used)
  {
    if forall l :: l in f ==> l.parent != d[k] { RemoveDirKeeps(d, f, used, k); }
  }
}
