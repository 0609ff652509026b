/**
 The namespace operations of the metadata servers, each as one transaction over the directory tables of all
 servers and the inode rows of all shards: mkdir of a batch, create and unlink of a batch on a worker, rmdir and
 rename on the coordinator.
 */
module Namespace {
  import opened Common
  import opened Paths
  import opened PathParse
  import opened PathMeaning
  import opened NamespaceTables
  import opened Placement

  datatype Result =
    | Done
    | Refused(code: Code)
    | VerifyFailed
    | WrongWorker
    | FileExists
    | FileNotExists
    | ProgramError

  /** VerifyPathValidity: a path starts with the separator; one that ends with it cannot name a file. */
  function Verify(path: Path, mustBeFile: bool): Result {
    if path == [] || path[0] != SLASH then Refused(PathIsInvalid)
    else if mustBeFile && path[|path| - 1] == SLASH then VerifyFailed
    else Done
  }

  function Servers(y: Layout): set<int> {
    (set w | w in y.workers) + {CN}
  }

  /** Every server has the coordinator's directory table. */
  ghost predicate Replicated(y: Layout, dirs: map<int, DirTable>) {
    dirs.Keys == Servers(y) && forall v :: v in dirs ==> dirs[v] == dirs[CN]
  }

  /** Only the root has no parent. */
  lemma RootOnly(d: DirTable, path: Path)
    requires Injective(d) && path != [] && path[0] == SLASH && KeyFor(d, path).Some?
    ensures KeyFor(d, path).value.parent == 0 ==> path == ROOT && KeyFor(d, path).value == ROOT_KEY
  {
    if Walk(d, Parents(path)) == Some(0) {
      assert Walk(d, []) == Some(0);
      WalkUnique(d, Parents(path), []);
      assert |Components(path)| == 1;
    }
  }

  // ------------------------------------------------------------------ mkdir, one path after the other

  datatype Made = Made(key: Key, id: nat)

  /** A batch of mkdir as its requests mean it: each sees the directories made before it. */
  datatype Plan = Plan(table: DirTable, made: seq<Made>, results: seq<Result>)

  function MkdirOne(plan: Plan, path: Path, id: nat): Plan {
    if Verify(path, false) != Done then plan.(results := plan.results + [Verify(path, false)])
    else
      var k := KeyFor(plan.table, path);
      if k.None? then plan.(results := plan.results + [Refused(PathIsInvalid)])
      else if k.value in plan.table then plan.(results := plan.results + [Refused(PathExists)])
      else Plan(plan.table[k.value := id], plan.made + [Made(k.value, id)], plan.results + [Done])
  }

  function MkdirAll(d: DirTable, paths: seq<Path>, ids: seq<nat>): (plan: Plan)
    requires |ids| == |paths|
    ensures |plan.results| == |paths|
  {
    if paths == [] then Plan(d, [], [])
    else MkdirOne(MkdirAll(d, paths[..|paths| - 1], ids[..|paths| - 1]), paths[|paths| - 1], ids[|paths| - 1])
  }

  function MadeTable(d: DirTable, made: seq<Made>): DirTable {
    if made == [] then d else MadeTable(d, made[..|made| - 1])[made[|made| - 1].key := made[|made| - 1].id]
  }

  function MadeRows(f: Files, made: seq<Made>): Files {
    if made == [] then f
    else MadeRows(f, made[..|made| - 1])[made[|made| - 1].key := Row(made[|made| - 1].id, true, 1)]
  }

  ghost predicate Clash(f: Files, made: seq<Made>) {
    exists i :: 0 <= i < |made| && made[i].key in f
  }

  ghost predicate FreshIds(ids: seq<nat>, used: set<nat>) {
    && (forall i :: 0 <= i < |ids| ==> ids[i] != 0 && ids[i] !in used)
    && forall i, j :: 0 <= i < j < |ids| ==> ids[i] != ids[j]
  }

  function IdSet(ids: seq<nat>): set<nat> {
    set i | i in ids
  }

  /** Each directory of the list was not there when its turn came. */
  ghost predicate EachNew(d: DirTable, made: seq<Made>) {
    made == [] || (EachNew(d, made[..|made| - 1]) && made[|made| - 1].key !in MadeTable(d, made[..|made| - 1]))
  }

  lemma MadeMore(d: DirTable, made: seq<Made>, m: Made)
    ensures MadeTable(d, made + [m]) == MadeTable(d, made)[m.key := m.id]
    ensures EachNew(d, made + [m]) <==> EachNew(d, made) && m.key !in MadeTable(d, made)
  {
    assert (made + [m])[..|made|] == made;
  }

  lemma {:induction false} PlanTable(d: DirTable, paths: seq<Path>, ids: seq<nat>)
    requires |ids| == |paths|
    ensures var plan := MkdirAll(d, paths, ids); plan.table == MadeTable(d, plan.made) && EachNew(d, plan.made)
  {
    if paths != [] {
      var n := |paths| - 1;
      PlanTable(d, paths[..n], ids[..n]);
      var before := MkdirAll(d, paths[..n], ids[..n]);
      if paths[n] != [] && KeyFor(before.table, paths[n]).Some? {
        MadeMore(d, before.made, Made(KeyFor(before.table, paths[n]).value, ids[n]));
      }
    }
  }

  /** The batch adds the same keys to the directory table and to the rows. */
  lemma {:induction false} SameKeys(d: DirTable, f: Files, made: seq<Made>)
    ensures MadeTable(d, made).Keys - d.Keys <= MadeRows(f, made).Keys
    ensures f.Keys <= MadeRows(f, made).Keys <= f.Keys + MadeTable(d, made).Keys
    ensures d.Keys <= MadeTable(d, made).Keys
  {
    if made != [] { SameKeys(d, f, made[..|made| - 1]); }
  }

  /** The whole batch keeps the tables sound, unless it met a file. */
  lemma {:induction false} PlanKeeps(d: DirTable, f: Files, used: set<nat>, paths: seq<Path>, ids: seq<nat>)
    requires |ids| == |paths| && TablesOk(d, f, used) && FreshIds(ids, used)
    requires !Clash(f, MkdirAll(d, paths, ids).made)
    ensures var plan := MkdirAll(d, paths, ids);
      TablesOk(plan.table, MadeRows(f, plan.made), used + IdSet(ids))
  {
    if paths == [] {
      assert used + IdSet(ids) == used;
    } else {
      var n := |paths| - 1;
      var before := MkdirAll(d, paths[..n], ids[..n]);
      NoClash(f, before, paths[n], ids[n]);
      PlanKeeps(d, f, used, paths[..n], ids[..n]);
      PlanTable(d, paths[..n], ids[..n]);
      SameKeys(d, f, before.made);
      IdsSplit(ids, used);
      PlanStep(before, paths[n], ids[n], f, used + IdSet(ids[..n]));
      assert used + IdSet(ids[..n]) + {ids[n]} == used + IdSet(ids);
    }
  }

  lemma NoClash(f: Files, before: Plan, path: Path, id: nat)
    requires !Clash(f, MkdirOne(before, path, id).made)
    ensures !Clash(f, before.made)
  {
    var plan := MkdirOne(before, path, id);
    assert before.made <= plan.made;
    forall i | 0 <= i < |before.made| ensures before.made[i].key !in f { assert before.made[i] == plan.made[i]; }
  }

  lemma IdsSplit(ids: seq<nat>, used: set<nat>)
    requires ids != [] && FreshIds(ids, used)
    ensures var n := |ids| - 1;
      IdSet(ids) == IdSet(ids[..n]) + {ids[n]} && ids[n] !in used + IdSet(ids[..n]) && FreshIds(ids[..n], used)
  {
    assert ids == ids[..|ids| - 1] + [ids[|ids| - 1]];
  }

  lemma MoreUsed(d: DirTable, f: Files, used: set<nat>, id: nat)
    requires TablesOk(d, f, used)
    ensures TablesOk(d, f, used + {id})
  {
  }

  lemma PlanStep(before: Plan, path: Path, id: nat, f: Files, used: set<nat>)
    requires TablesOk(before.table, MadeRows(f, before.made), used) && id != 0 && id !in used
    requires MadeRows(f, before.made).Keys <= f.Keys + before.table.Keys
    requires !Clash(f, MkdirOne(before, path, id).made)
    ensures var plan := MkdirOne(before, path, id);
      TablesOk(plan.table, MadeRows(f, plan.made), used + {id})
  {
    var plan := MkdirOne(before, path, id);
    if plan.made == before.made {
      MoreUsed(before.table, MadeRows(f, before.made), used, id);
    } else {
      var k := KeyFor(before.table, path).value;
      assert plan.made[|before.made|].key == k && plan.made[..|plan.made| - 1] == before.made;
      RootOnly(before.table, path);
      AddDirKeeps(before.table, MadeRows(f, before.made), used, k, Parents(path), id);
    }
  }

  lemma MkdirOneStays(before: Plan, path: Path, id: nat, c: seq<Name>)
    ensures var plan := MkdirOne(before, path, id);
      && before.results <= plan.results
      && (Walk(before.table, c).Some? ==> Walk(plan.table, c) == Walk(before.table, c))
  {
    if Walk(before.table, c).Some? && path != [] && KeyFor(before.table, path).Some? {
      var k := KeyFor(before.table, path).value;
      if k !in before.table { WalkInsert(before.table, c, k, id); }
    }
  }

  /** A batch of mkdir leaves every directory where it was. */
  lemma {:induction false} MkdirStays(d: DirTable, paths: seq<Path>, ids: seq<nat>, c: seq<Name>)
    requires |ids| == |paths| && Walk(d, c).Some?
    ensures Walk(MkdirAll(d, paths, ids).table, c) == Walk(d, c)
  {
    if paths != [] {
      var n := |paths| - 1;
      MkdirStays(d, paths[..n], ids[..n], c);
      MkdirOneStays(MkdirAll(d, paths[..n], ids[..n]), paths[n], ids[n], c);
    }
  }

  /** What a request of mkdir reports, by the directories the batch leaves. */
  predicate MkdirOk(table: DirTable, path: Path, id: nat, r: Result) {
    && (r == Done ==> path != [] && Walk(table, Components(path)) == Some(id))
    && (r == Refused(PathExists) ==> path != [] && Walk(table, Components(path)).Some?)
  }

  lemma MkdirOneOk(before: Plan, path: Path, id: nat)
    ensures var plan := MkdirOne(before, path, id);
      |plan.results| == |before.results| + 1 && MkdirOk(plan.table, path, id, plan.results[|before.results|])
  {
    if path != [] && KeyFor(before.table, path).Some? {
      var k := KeyFor(before.table, path).value;
      WalkOfPath(before.table, path);
      if k !in before.table {
        WalkInsert(before.table, Parents(path), k, id);
        WalkOfPath(before.table[k := id], path);
      }
    }
  }

  lemma MkdirEarlier(before: Plan, path: Path, id: nat, path': Path, id': nat, i: nat)
    requires i < |before.results| && MkdirOk(before.table, path', id', before.results[i])
    ensures var plan := MkdirOne(before, path, id);
      i < |plan.results| && MkdirOk(plan.table, path', id', plan.results[i])
  {
    MkdirOneStays(before, path, id, if path' == [] then [] else Components(path'));
  }

  /** After the batch every directory it reports as made is there, under the id it was given. */
  lemma {:induction false} MkdirMeaning(d: DirTable, paths: seq<Path>, ids: seq<nat>, i: nat)
    requires |ids| == |paths| && i < |paths|
    ensures var plan := MkdirAll(d, paths, ids); MkdirOk(plan.table, paths[i], ids[i], plan.results[i])
  {
    var n := |paths| - 1;
    var before := MkdirAll(d, paths[..n], ids[..n]);
    if i < n {
      MkdirMeaning(d, paths[..n], ids[..n], i);
      MkdirEarlier(before, paths[n], ids[n], paths[i], ids[i], i);
    } else {
      MkdirOneOk(before, paths[n], ids[n]);
    }
  }

  // ------------------------------------------------------------------ create and unlink, one path after the other

  /** What a file request for a path comes to on a worker, before its row is looked at. */
  function FileKey(y: Layout, d: DirTable, worker: int, path: Path): (r: (Result, Key))
    ensures r.0 == Done ==> path != [] && path[0] == SLASH && path != ROOT && KeyFor(d, path) == Some(r.1)
  {
    if Verify(path, true) != Done then (Verify(path, true), ROOT_KEY)
    else
      var k := KeyFor(d, path);
      if k.None? then (Refused(PathIsInvalid), ROOT_KEY)
      else if y.serverOf(y.place(k.value).shard) != worker then (WrongWorker, k.value)
      else (Done, k.value)
  }

  /** The rows by entry and the results so far. */
  datatype FileBatch = FileBatch(files: Files, results: seq<Result>)

  function CreateOne(y: Layout, d: DirTable, b: FileBatch, worker: int, path: Path, id: nat): FileBatch {
    var (r, k) := FileKey(y, d, worker, path);
    if r != Done then FileBatch(b.files, b.results + [r])
    else if k in b.files then FileBatch(b.files, b.results + [FileExists])
    else FileBatch(b.files[k := Row(id, false, 1)], b.results + [Done])
  }

  function CreateAll(y: Layout, d: DirTable, f: Files, worker: int, paths: seq<Path>, ids: seq<nat>): (b: FileBatch)
    requires |ids| == |paths|
    ensures |b.results| == |paths|
  {
    if paths == [] then FileBatch(f, [])
    else
      var n := |paths| - 1;
      CreateOne(y, d, CreateAll(y, d, f, worker, paths[..n], ids[..n]), worker, paths[n], ids[n])
  }

  function UnlinkOne(y: Layout, d: DirTable, b: FileBatch, worker: int, path: Path): FileBatch {
    var (r, k) := FileKey(y, d, worker, path);
    if r != Done then FileBatch(b.files, b.results + [r])
    else if k !in b.files then FileBatch(b.files, b.results + [FileNotExists])
    else
      var row := b.files[k];
      FileBatch(b.files - {k}, b.results + [if row.nlink != 1 || row.isDir then ProgramError else Done])
  }

  function UnlinkAll(y: Layout, d: DirTable, f: Files, worker: int, paths: seq<Path>): (b: FileBatch)
    ensures |b.results| == |paths|
  {
    if paths == [] then FileBatch(f, [])
    else UnlinkOne(y, d, UnlinkAll(y, d, f, worker, paths[..|paths| - 1]), worker, paths[|paths| - 1])
  }

  lemma FileParent(d: DirTable, path: Path, k: Key)
    requires Injective(d) && path != [] && path[0] == SLASH && path != ROOT && KeyFor(d, path) == Some(k)
    ensures k.parent in d.Values
  {
    RootOnly(d, path);
    WalkParent(d, Parents(path), k.parent);
  }

  lemma CreateStep(y: Layout, d: DirTable, b: FileBatch, worker: int, path: Path, id: nat, used: set<nat>)
    requires TablesOk(d, b.files, used) && id != 0 && id !in used
    ensures TablesOk(d, CreateOne(y, d, b, worker, path, id).files, used + {id})
  {
    var (r, k) := FileKey(y, d, worker, path);
    MoreUsed(d, b.files, used, id);
    if r == Done && k !in b.files {
      FileParent(d, path, k);
      AddFileKeeps(d, b.files, used, k, id);
    }
  }

  /** A batch of create keeps the tables sound. */
  lemma {:induction false} CreateKeeps(y: Layout, d: DirTable, f: Files, worker: int, paths: seq<Path>, ids: seq<nat>,
                                       used: set<nat>)
    requires |ids| == |paths| && TablesOk(d, f, used) && FreshIds(ids, used)
    ensures TablesOk(d, CreateAll(y, d, f, worker, paths, ids).files, used + IdSet(ids))
  {
    if paths == [] {
      assert used + IdSet(ids) == used;
    } else {
      var n := |paths| - 1;
      IdsSplit(ids, used);
      CreateKeeps(y, d, f, worker, paths[..n], ids[..n], used);
      CreateStep(y, d, CreateAll(y, d, f, worker, paths[..n], ids[..n]), worker, paths[n], ids[n],
                 used + IdSet(ids[..n]));
      assert used + IdSet(ids[..n]) + {ids[n]} == used + IdSet(ids);
    }
  }

  /** What each request of a batch comes to, before its row is looked at. */
  function Reached(y: Layout, d: DirTable, worker: int, paths: seq<Path>): seq<(Result, Key)> {
    seq(|paths|, i requires 0 <= i < |paths| => FileKey(y, d, worker, paths[i]))
  }

  /** Some request of the batch reaches this entry. */
  predicate Named(y: Layout, d: DirTable, worker: int, paths: seq<Path>, k: Key) {
    (Done, k) in Reached(y, d, worker, paths)
  }

  lemma ReachedMore(y: Layout, d: DirTable, worker: int, paths: seq<Path>)
    requires paths != []
    ensures Reached(y, d, worker, paths) ==
      Reached(y, d, worker, paths[..|paths| - 1]) + [FileKey(y, d, worker, paths[|paths| - 1])]
  {
  }

  lemma NamedMore(y: Layout, d: DirTable, worker: int, paths: seq<Path>, k: Key)
    requires paths != []
    ensures Named(y, d, worker, paths, k) <==>
      Named(y, d, worker, paths[..|paths| - 1], k) || FileKey(y, d, worker, paths[|paths| - 1]) == (Done, k)
  {
    ReachedMore(y, d, worker, paths);
  }

  /** It keeps every older row and adds exactly the entries its requests reach. */
  lemma {:induction false} CreateRows(y: Layout, d: DirTable, f: Files, worker: int, paths: seq<Path>, ids: seq<nat>, k: Key)
    requires |ids| == |paths|
    ensures var b := CreateAll(y, d, f, worker, paths, ids);
      && (k in b.files <==> k in f || Named(y, d, worker, paths, k))
      && (k in f ==> b.files[k] == f[k])
  {
    if paths != [] {
      var n := |paths| - 1;
      CreateRows(y, d, f, worker, paths[..n], ids[..n], k);
      NamedMore(y, d, worker, paths, k);
    }
  }

  predicate HasRow(d: DirTable, f: Files, path: Path) {
    path != [] && KeyFor(d, path).Some? && KeyFor(d, path).value in f
  }

  /** What a request of create reports, by the rows it found and the rows the batch leaves. */
  predicate CreateOk(d: DirTable, before: Files, after: Files, path: Path, id: nat, r: Result) {
    && (r in {Done, FileExists} ==> HasRow(d, after, path))
    && (r == Done ==> var k := KeyFor(d, path).value; k !in before && after[k] == Row(id, false, 1))
  }

  lemma CreateOneOk(y: Layout, d: DirTable, b: FileBatch, worker: int, path: Path, id: nat)
    ensures var c := CreateOne(y, d, b, worker, path, id);
      && CreateOk(d, b.files, c.files, path, id, c.results[|b.results|])
      && forall k :: k in b.files ==> k in c.files && c.files[k] == b.files[k]
  {
  }

  lemma CreateStays(d: DirTable, before: Files, between: Files, after: Files, path: Path, id: nat, r: Result)
    requires CreateOk(d, before, between, path, id, r)
    requires forall k :: k in between ==> k in after && after[k] == between[k]
    ensures CreateOk(d, before, after, path, id, r)
  {
  }

  /** A request is Done when its file is new, and then the row carries its id; it is FileExists when the row was
      there before or an earlier request of the batch made it. */
  lemma {:induction false} CreateMeaning(y: Layout, d: DirTable, f: Files, worker: int, paths: seq<Path>, ids: seq<nat>,
                                         i: nat)
    requires |ids| == |paths| && i < |paths|
    ensures var b := CreateAll(y, d, f, worker, paths, ids); CreateOk(d, f, b.files, paths[i], ids[i], b.results[i])
  {
    var n := |paths| - 1;
    if i < n {
      CreateMeaning(y, d, f, worker, paths[..n], ids[..n], i);
      CreateEarlier(y, d, f, CreateAll(y, d, f, worker, paths[..n], ids[..n]), worker, paths[n], ids[n], paths[i], ids[i], i);
    } else {
      CreateLast(y, d, f, worker, paths, ids);
    }
  }

  lemma CreateEarlier(y: Layout, d: DirTable, f: Files, b: FileBatch, worker: int, path: Path, id: nat, path': Path,
                      id': nat, i: nat)
    requires i < |b.results| && CreateOk(d, f, b.files, path', id', b.results[i])
    ensures var c := CreateOne(y, d, b, worker, path, id);
      i < |c.results| && CreateOk(d, f, c.files, path', id', c.results[i])
  {
    var c := CreateOne(y, d, b, worker, path, id);
    CreateOneOk(y, d, b, worker, path, id);
    CreateStays(d, f, b.files, c.files, path', id', b.results[i]);
  }

  lemma CreateLast(y: Layout, d: DirTable, f: Files, worker: int, paths: seq<Path>, ids: seq<nat>)
    requires |ids| == |paths| && paths != []
    ensures var b, n := CreateAll(y, d, f, worker, paths, ids), |paths| - 1;
      CreateOk(d, f, b.files, paths[n], ids[n], b.results[n])
  {
    var n := |paths| - 1;
    var b, c := CreateAll(y, d, f, worker, paths[..n], ids[..n]), CreateAll(y, d, f, worker, paths, ids);
    CreateOneOk(y, d, b, worker, paths[n], ids[n]);
    if c.results[n] == Done { CreateRows(y, d, f, worker, paths[..n], ids[..n], KeyFor(d, paths[n]).value); }
  }

  /** A batch of unlink removes exactly the entries its requests reach and changes no other. */
  lemma {:induction false} UnlinkRows(y: Layout, d: DirTable, f: Files, worker: int, paths: seq<Path>, k: Key)
    ensures var b := UnlinkAll(y, d, f, worker, paths);
      && (k in b.files <==> k in f && !Named(y, d, worker, paths, k))
      && (k in b.files ==> b.files[k] == f[k])
  {
    if paths != [] {
      UnlinkRows(y, d, f, worker, paths[..|paths| - 1], k);
      NamedMore(y, d, worker, paths, k);
    }
  }

  /** The request reaches the entry of a directory. */
  predicate NamesDir(y: Layout, d: DirTable, worker: int, path: Path) {
    FileKey(y, d, worker, path).0 == Done && FileKey(y, d, worker, path).1 in d
  }

  predicate NoneNamesDir(y: Layout, d: DirTable, worker: int, paths: seq<Path>) {
    forall i :: 0 <= i < |paths| ==> !NamesDir(y, d, worker, paths[i])
  }

  /** A directory without its row. */
  ghost predicate LostRow(d: DirTable, f: Files) {
    exists k :: k in d && k !in f
  }

  lemma UnlinkStep(y: Layout, d: DirTable, b: FileBatch, worker: int, path: Path, used: set<nat>)
    requires TablesOk(d, b.files, used)
    ensures var c := UnlinkOne(y, d, b, worker, path);
      if NamesDir(y, d, worker, path) then c.results == b.results + [ProgramError] && LostRow(d, c.files)
      else TablesOk(d, c.files, used) && c.results[|b.results|] != ProgramError
  {
    var (r, k) := FileKey(y, d, worker, path);
    if r == Done && k in b.files {
      RemoveRowKeepsIff(d, b.files, used, k);
      assert b.files[k].isDir ==> k in d && k !in b.files - {k};
    }
  }

  lemma NoneMore(y: Layout, d: DirTable, worker: int, paths: seq<Path>)
    requires paths != []
    ensures NoneNamesDir(y, d, worker, paths) <==>
      NoneNamesDir(y, d, worker, paths[..|paths| - 1]) && !NamesDir(y, d, worker, paths[|paths| - 1])
  {
    var n := |paths| - 1;
    if NoneNamesDir(y, d, worker, paths[..n]) && !NamesDir(y, d, worker, paths[n]) {
      forall i | 0 <= i < |paths| ensures !NamesDir(y, d, worker, paths[i]) {
        if i < n { assert paths[..n][i] == paths[i]; }
      }
    }
    if NoneNamesDir(y, d, worker, paths) {
      forall i | 0 <= i < n ensures !NamesDir(y, d, worker, paths[..n][i]) {
        assert paths[..n][i] == paths[i];
      }
    }
  }

  /** A batch of unlink keeps the tables sound if and only if no request names a directory: the handler deletes
      that row too and only then reports the error. */
  lemma {:induction false} UnlinkKeepsIff(y: Layout, d: DirTable, f: Files, worker: int, paths: seq<Path>, used: set<nat>)
    requires TablesOk(d, f, used)
    ensures var b := UnlinkAll(y, d, f, worker, paths);
      && (TablesOk(d, b.files, used) <==> NoneNamesDir(y, d, worker, paths))
      && (ProgramError in b.results <==> !NoneNamesDir(y, d, worker, paths))
      && (!NoneNamesDir(y, d, worker, paths) ==> LostRow(d, b.files))
  {
    if paths != [] {
      var n := |paths| - 1;
      UnlinkKeepsIff(y, d, f, worker, paths[..n], used);
      NoneMore(y, d, worker, paths);
      var b, c := UnlinkAll(y, d, f, worker, paths[..n]), UnlinkAll(y, d, f, worker, paths);
      assert c.results == b.results + [c.results[n]];
      if NoneNamesDir(y, d, worker, paths[..n]) {
        UnlinkStep(y, d, b, worker, paths[n], used);
      } else {
        var l :| l in d && l !in b.files;
        assert l !in c.files;
      }
    }
  }

  // ------------------------------------------------------------------ an example

  const KEY_A := Key(1, "a")
  const ROOT_AND_A: DirTable := map[ROOT_KEY := 1, KEY_A := 2]
  const ROWS_OF_A: Files := map[ROOT_KEY := Row(1, true, 1), KEY_A := Row(2, true, 1)]

  lemma WalkToA()
    ensures Components("/a") == ["/", "a"] && Components("/") == ["/"]
    ensures Walk(ROOT_AND_A, ["/"]) == Some(1) && Walk(ROOT_AND_A, ["/", "a"]) == Some(2)
    ensures KeyFor(ROOT_AND_A, "/a") == Some(KEY_A)
  {
    assert "a"[1..] == [] && "/a"[1..] == "a" && "/a"[..1] == "/";
    assert Split("a"[1..]) == [[]];
    assert ['a'] + [] == "a";
    assert Split("a") == [['a'] + []] + [] == ["a"];
    assert ["/"][..0] == [] && ["/", "a"][..1] == ["/"];
  }

  lemma ExampleIsOk()
    ensures TablesOk(ROOT_AND_A, ROWS_OF_A, {1, 2})
  {
    WalkToA();
    var d := ROOT_AND_A;
    assert Reachable(d, 1) && Reachable(d, 2);
    assert ROOT_KEY in d && d[ROOT_KEY] == 1 && 1 in d.Values;
  }

  /** Unlink of the directory "/a", on the worker that has its row, takes the row away and leaves the directory in the
      directory table. */
  lemma UnlinkOfDirectory(y: Layout)
    requires LayoutOk(y)
    ensures TablesOk(ROOT_AND_A, ROWS_OF_A, {1, 2})
    ensures var worker := y.serverOf(y.place(KEY_A).shard);
      && worker in y.workers
      && UnlinkAll(y, ROOT_AND_A, ROWS_OF_A, worker, ["/a"]) == FileBatch(map[ROOT_KEY := Row(1, true, 1)], [ProgramError])
    ensures KEY_A in ROOT_AND_A && !TablesOk(ROOT_AND_A, map[ROOT_KEY := Row(1, true, 1)], {1, 2})
  {
    ExampleIsOk();
    WalkToA();
    var worker := y.serverOf(y.place(KEY_A).shard);
    assert FileKey(y, ROOT_AND_A, worker, "/a") == (Done, KEY_A);
    assert UnlinkAll(y, ROOT_AND_A, ROWS_OF_A, worker, []) == FileBatch(ROWS_OF_A, []);
    assert ["/a"][..0] == [];
  }
}
