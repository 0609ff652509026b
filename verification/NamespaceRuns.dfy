/**
 Whole runs of namespace transactions, by entry: what the handlers do to the directory table and to the rows,
 one transaction after the other.
 */
module NamespaceRuns {
  import opened Paths
  import opened PathParse
  import opened PathMeaning
  import opened NamespaceTables
  import opened Placement
  import opened Namespace
  import opened Rename

  datatype Op =
    | MkdirOp(paths: seq<Path>, ids: seq<nat>)
    | CreateOp(worker: int, paths: seq<Path>, ids: seq<nat>)
    | UnlinkOp(worker: int, paths: seq<Path>)
    | RmdirOp(path: Path)
    | RenameOp(src: Path, dst: Path)

  datatype Tables = Tables(d: DirTable, f: Files, used: set<nat>)

  predicate CanRemove(d: DirTable, f: Files, path: Path) {
    && path != [] && path[0] == SLASH && path != ROOT
    && var k := KeyFor(d, path);
    k.Some? && k.value in d && forall l :: l in f ==> l.parent != d[k.value]
  }

  /** What a transaction leaves behind: its effect, or the old tables when it fails. */
  ghost function Apply(y: Layout, s: Tables, op: Op): Tables {
    match op
    case MkdirOp(paths, ids) =>
      if |ids| != |paths| || Clash(s.f, MkdirAll(s.d, paths, ids).made) then s
      else
        var plan := MkdirAll(s.d, paths, ids);
        Tables(plan.table, MadeRows(s.f, plan.made), s.used + IdSet(ids))
    case CreateOp(worker, paths, ids) =>
      if |ids| != |paths| then s
      else s.(f := CreateAll(y, s.d, s.f, worker, paths, ids).files, used := s.used + IdSet(ids))
    case UnlinkOp(worker, paths) => s.(f := UnlinkAll(y, s.d, s.f, worker, paths).files)
    case RmdirOp(path) =>
      if !CanRemove(s.d, s.f, path) then s
      else
        var k := KeyFor(s.d, path).value;
        s.(d := s.d - {k}, f := s.f - {k})
    case RenameOp(src, dst) =>
      if src == [] || dst == [] || !CanRename(s.d, s.f, src, dst) then s
      else
        var k, l := KeyFor(s.d, src).value, KeyFor(s.d, dst).value;
        s.(d := RenamedDirs(s.d, src, k, l), f := MovedRow(s.f, k, l))
  }

  /** Ids are new; unlink is asked for files only; rename is given a source without a trailing separator and a
      destination that starts with the separator, or fails anyway. */
  ghost predicate Proper(y: Layout, s: Tables, op: Op) {
    match op
    case MkdirOp(paths, ids) => |ids| == |paths| && FreshIds(ids, s.used)
    case CreateOp(worker, paths, ids) => |ids| == |paths| && FreshIds(ids, s.used)
    case UnlinkOp(worker, paths) => NoneNamesDir(y, s.d, worker, paths)
    case RmdirOp(path) => true
    case RenameOp(src, dst) =>
      src != [] && dst != [] && CanRename(s.d, s.f, src, dst) ==> !Trailing(src) && dst[0] == SLASH
  }

  ghost predicate Ok(s: Tables) {
    TablesOk(s.d, s.f, s.used)
  }

  /** A transaction keeps the tables sound if its request is proper; a request that only fails to be proper as
      unlink or rename breaks them. */
  lemma ApplyKeepsIff(y: Layout, s: Tables, op: Op)
    requires Ok(s)
    ensures Proper(y, s, op) ==> Ok(Apply(y, s, op))
    ensures op.UnlinkOp? || op.RenameOp? ==> (Ok(Apply(y, s, op)) <==> Proper(y, s, op))
  {
    match op {
      case MkdirOp(paths, ids) =>
        if Proper(y, s, op) && !Clash(s.f, MkdirAll(s.d, paths, ids).made) {
          PlanKeeps(s.d, s.f, s.used, paths, ids);
        }
      case CreateOp(worker, paths, ids) =>
        if Proper(y, s, op) { CreateKeeps(y, s.d, s.f, worker, paths, ids, s.used); }
      case UnlinkOp(worker, paths) => UnlinkKeepsIff(y, s.d, s.f, worker, paths, s.used);
      case RmdirOp(path) =>
        if CanRemove(s.d, s.f, path) { RemoveDirKeeps(s.d, s.f, s.used, KeyFor(s.d, path).value); }
      case RenameOp(src, dst) =>
        if src != [] && dst != [] && CanRename(s.d, s.f, src, dst) { RenameSoundIff(s.d, s.f, s.used, src, dst); }
    }
  }

  ghost predicate Run(y: Layout, states: seq<Tables>, ops: seq<Op>) {
    && |states| == |ops| + 1
    && forall i :: 0 <= i < |ops| ==> states[i + 1] == Apply(y, states[i], ops[i])
  }

  /** Over any run of proper transactions from the empty cluster the directories stay a tree under "/", every
      directory has its row and every row its directory. */
  lemma {:induction false} RunSound(y: Layout, states: seq<Tables>, ops: seq<Op>, i: nat)
    requires Run(y, states, ops) && states[0].d == map[] && states[0].f == map[]
    requires forall j :: 0 <= j < |ops| ==> Proper(y, states[j], ops[j])
    requires i < |states|
    ensures Ok(states[i])
  {
    if i > 0 {
      RunSound(y, states, ops, i - 1);
      assert states[i - 1 + 1] == Apply(y, states[i - 1], ops[i - 1]);
      ApplyKeepsIff(y, states[i - 1], ops[i - 1]);
    }
  }

  /** In sound tables no directory is below itself: from a directory no path of at least one name leads back. */
  lemma NoCycle(d: DirTable, c: seq<Name>, more: seq<Name>)
    requires IsTree(d) && Walk(d, c).Some? && more != []
    ensures Walk(d, c + more) != Walk(d, c)
  {
    if Walk(d, c + more) == Walk(d, c) { WalkUnique(d, c + more, c); }
  }
}
