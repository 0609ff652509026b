/**
 The path walk of open, close and the requests on one directory.  It takes a shared lock on the target if that is a
 directory, and otherwise leaves a node without an id in the tree of the transaction.  A later walk through that node
 does not stop there, so the requests of a batch are not always answered as they would be alone.
 */
module OpenWalk {
  import opened Common
  import opened Paths
  import opened PathParse

  /** A node of the tree; no id stands for DIR_HASH_TABLE_PATH_NOT_EXIST. */
  datatype Seen = Seen(id: Option<nat>, locked: bool)
  type SeenTree = map<seq<Name>, Seen>

  /** The directory locks taken, by the key that was looked up. */
  type KeyLog = seq<(Option<nat>, Name)>

  datatype Visit = Visit(ok: bool, tree: SeenTree, locks: KeyLog, id: Option<nat>)
  datatype Opened = Opened(code: Code, tree: SeenTree, locks: KeyLog, parent: Option<nat>, inode: Option<nat>)

  /** Looking a key up in the directory table; nothing has a parent without an id. */
  function Search(table: DirTable, parent: Option<nat>, name: Name): Option<nat> {
    if parent.Some? && Key(parent.value, name) in table then Some(table[Key(parent.value, name)]) else None
  }

  /** One component further.  A node without a lock is locked by its own id, not by its parent's. */
  function Visit1(table: DirTable, v: Visit, pre: seq<Name>): Visit
    requires pre != []
  {
    var name := pre[|pre| - 1];
    if pre in v.tree then
      var n := v.tree[pre];
      if n.locked then Visit(true, v.tree, v.locks, n.id)
      else Visit(true, v.tree[pre := Seen(n.id, true)], v.locks + [(n.id, name)], n.id)
    else
      var id := Search(table, v.id, name);
      if id.None? then Visit(false, v.tree, v.locks + [(v.id, name)], None)
      else Visit(true, v.tree[pre := Seen(id, true)], v.locks + [(v.id, name)], id)
  }

  function VisitParents(table: DirTable, tree: SeenTree, locks: KeyLog, c: seq<Name>, n: nat): Visit
    requires n <= |c|
  {
    if n == 0 then Visit(true, tree, locks, Some(0))
    else
      var v := VisitParents(table, tree, locks, c, n - 1);
      if v.ok then Visit1(table, v, c[..n]) else v
  }

  /** The target: its node, or the table under a shared lock that is let go again when there is no directory. */
  function OpenTarget(table: DirTable, v: Visit, c: seq<Name>, mustBeDirectory: bool): Opened
    requires c != []
  {
    var name := c[|c| - 1];
    if c in v.tree then
      var n := v.tree[c];
      if n.id.Some? && !n.locked then
        Opened(Success, v.tree[c := Seen(n.id, true)], v.locks + [(n.id, name)], v.id, n.id)
      else Opened(Success, v.tree, v.locks, v.id, n.id)
    else
      var id := Search(table, v.id, name);
      if id.Some? then Opened(Success, v.tree[c := Seen(id, true)], v.locks + [(v.id, name)], v.id, id)
      else if mustBeDirectory then Opened(PathNotExists, v.tree, v.locks + [(v.id, name)], v.id, None)
      else Opened(Success, v.tree[c := Seen(None, false)], v.locks, v.id, None)
  }

  function Open(table: DirTable, tree: SeenTree, locks: KeyLog, path: Path, mustBeDirectory: bool): Opened
    requires path != []
  {
    var c := Components(path);
    var v := VisitParents(table, tree, locks, c, |c| - 1);
    if v.ok then OpenTarget(table, v, c, mustBeDirectory)
    else Opened(PathIsInvalid, v.tree, v.locks, None, None)
  }

  // ------------------------------------------------------------------ the walk as the code runs it

  class OpenParser {
    var tree: SeenTree
    var locks: KeyLog

    constructor ()
      ensures tree == map[] && locks == []
    {
      tree, locks := map[], [];
    }

    method Enter(table: DirTable, pre: seq<Name>, current: Option<nat>) returns (ok: bool, id: Option<nat>)
      requires pre != []
      modifies this
      ensures Visit(ok, tree, locks, id) == Visit1(table, Visit(true, old(tree), old(locks), current), pre)
    {
      var name := pre[|pre| - 1];
      ok := true;
      if pre in tree {
        id := tree[pre].id;
        if !tree[pre].locked {
          locks := locks + [(id, name)];
          tree := tree[pre := Seen(id, true)];
        }
        return;
      }
      id := Search(table, current, name);
      locks := locks + [(current, name)];
      if id.None? {
        return false, None;
      }
      tree := tree[pre := Seen(id, true)];
    }

    method TreeInsert(table: DirTable, path: Path, mustBeDirectory: bool)
      returns (code: Code, parentId: Option<nat>, inodeId: Option<nat>)
      requires path != []
      modifies this
      ensures Opened(code, tree, locks, parentId, inodeId) == Open(table, old(tree), old(locks), path, mustBeDirectory)
    {
      ghost var c, n := Components(path), 0;
      var start: nat, len: nat, prefix := 0, 1, [];
      code, parentId, inodeId := Success, Some(0), None;
      while start + len < |path|
        invariant AtPart(path, start, len, n) && prefix == c[..n] && code == Success && inodeId == None
        invariant VisitParents(table, old(tree), old(locks), c, n) == Visit(true, tree, locks, parentId)
        decreases |c| - n
      {
        var pre := prefix + [path[start..start + len]];
        assert pre == c[..n + 1];
        var ok;
        ok, parentId := Enter(table, pre, parentId);
        if !ok {
          VisitFails(table, old(tree), old(locks), c, n + 1, |c| - 1);
          return PathIsInvalid, None, None;
        }
        prefix := pre;
        start, len := NextPart(path, start, len, n);
        n := n + 1;
      }
      var target := prefix + [path[start..start + len]];
      assert target == c;
      code, inodeId := Finish(table, target, parentId, mustBeDirectory);
    }

    method Finish(table: DirTable, c: seq<Name>, parent: Option<nat>, mustBeDirectory: bool)
      returns (code: Code, inode: Option<nat>)
      requires c != []
      modifies this
      ensures Opened(code, tree, locks, parent, inode)
              == OpenTarget(table, Visit(true, old(tree), old(locks), parent), c, mustBeDirectory)
    {
      var name := c[|c| - 1];
      code := Success;
      if c in tree {
        inode := tree[c].id;
        if inode.Some? && !tree[c].locked {
          locks := locks + [(inode, name)];
          tree := tree[c := Seen(inode, true)];
        }
        return;
      }
      inode := Search(table, parent, name);
      locks := locks + [(parent, name)];
      if inode.None? && mustBeDirectory {
        return PathNotExists, None;
      }
      if inode.None? {
        locks := locks[..|locks| - 1];
      }
      tree := tree[c := Seen(inode, inode.Some?)];
    }
  }

  lemma {:induction false} VisitFails(table: DirTable, tree: SeenTree, locks: KeyLog, c: seq<Name>, m: nat, n: nat)
    requires m <= n <= |c| && !VisitParents(table, tree, locks, c, m).ok
    ensures VisitParents(table, tree, locks, c, n) == VisitParents(table, tree, locks, c, m)
  {
    if m < n { VisitFails(table, tree, locks, c, m, n - 1); }
  }

  // ------------------------------------------------------------------ what the tree says

  /** Every node has the id its path leads to, and its parent is in the tree. */
  ghost predicate SeenOk(tree: SeenTree, table: DirTable) {
    && (forall c :: c in tree ==> c != [] && tree[c].id == Walk(table, c))
    && forall c :: c in tree && |c| > 1 ==> c[..|c| - 1] in tree
  }

  /** The nodes that lead nowhere are the same. */
  ghost predicate SameMissing(tree: SeenTree, after: SeenTree, table: DirTable) {
    forall c :: Walk(table, c).None? ==> (c in after <==> c in tree)
  }

  ghost predicate VisitOk(tree: SeenTree, table: DirTable, v: Visit, pre: seq<Name>) {
    && SeenOk(v.tree, table) && SameMissing(tree, v.tree, table)
    && (v.ok <==> Walk(table, pre).Some? || pre in tree)
    && (v.ok ==> v.id == Walk(table, pre) && (pre == [] || pre in v.tree))
  }

  /** A node under one that is in the tree, with the id its path leads to. */
  lemma AddNode(tree: SeenTree, table: DirTable, c: seq<Name>, locked: bool)
    requires SeenOk(tree, table) && c != [] && (|c| > 1 ==> c[..|c| - 1] in tree)
    ensures SeenOk(tree[c := Seen(Walk(table, c), locked)], table)
    ensures forall x :: Walk(table, x).None? ==>
      (x in tree[c := Seen(Walk(table, c), locked)] <==> x in tree || (x == c && Walk(table, c).None?))
  {
  }

  lemma WalkSearch(table: DirTable, c: seq<Name>)
    requires c != []
    ensures Walk(table, c) == Search(table, Walk(table, c[..|c| - 1]), c[|c| - 1])
  {
  }

  lemma Visit1Ok(tree: SeenTree, table: DirTable, v: Visit, c: seq<Name>, n: nat)
    requires n < |c| && VisitOk(tree, table, v, c[..n]) && v.ok
    ensures VisitOk(tree, table, Visit1(table, v, c[..n + 1]), c[..n + 1])
  {
    var pre := c[..n + 1];
    assert pre[..n] == c[..n];
    WalkSearch(table, pre);
    if pre in v.tree || Walk(table, pre).Some? { AddNode(v.tree, table, pre, true); }
  }

  /** Below a path that leads nowhere, and that no request has asked for, the walk stops. */
  lemma {:induction false} VisitMeaning(table: DirTable, tree: SeenTree, locks: KeyLog, c: seq<Name>, n: nat)
    requires SeenOk(tree, table) && n <= |c|
    ensures VisitOk(tree, table, VisitParents(table, tree, locks, c, n), c[..n])
  {
    if n > 0 {
      VisitMeaning(table, tree, locks, c, n - 1);
      var v := VisitParents(table, tree, locks, c, n - 1);
      assert c[..n][..n - 1] == c[..n - 1];
      if v.ok { Visit1Ok(tree, table, v, c, n - 1); }
    }
  }

  function Parent(path: Path): seq<Name>
    requires path != []
  {
    Components(path)[..|Components(path)| - 1]
  }

  /** What a walk that reached the parent of c made of the tree. */
  ghost predicate TargetOk(tree: SeenTree, table: DirTable, o: Opened, c: seq<Name>, mustBeDirectory: bool) {
    && SeenOk(o.tree, table)
    && o.code == (if mustBeDirectory && Walk(table, c).None? && c !in tree then PathNotExists else Success)
    && o.inode == Walk(table, c)
    && forall x :: Walk(table, x).None? ==> (x in o.tree <==> x in tree || (x == c && o.code == Success))
  }

  lemma TargetMeaning(table: DirTable, v: Visit, c: seq<Name>, mustBeDirectory: bool)
    requires c != [] && SeenOk(v.tree, table) && v.id == Walk(table, c[..|c| - 1]) && (|c| > 1 ==> c[..|c| - 1] in v.tree)
    ensures TargetOk(v.tree, table, OpenTarget(table, v, c, mustBeDirectory), c, mustBeDirectory)
  {
    WalkSearch(table, c);
    AddNode(v.tree, table, c, Walk(table, c).Some?);
  }

  lemma TargetFrom(tree: SeenTree, between: SeenTree, table: DirTable, o: Opened, c: seq<Name>, mustBeDirectory: bool)
    requires SameMissing(tree, between, table) && TargetOk(between, table, o, c, mustBeDirectory)
    ensures TargetOk(tree, table, o, c, mustBeDirectory)
  {
  }

  /** The walk reaches the target if and only if the parent is a directory or in the tree. */
  lemma OpenMeaning(table: DirTable, tree: SeenTree, locks: KeyLog, path: Path, mustBeDirectory: bool)
    requires path != [] && SeenOk(tree, table)
    ensures var o := Open(table, tree, locks, path, mustBeDirectory);
      if Walk(table, Parent(path)).None? && Parent(path) !in tree
      then o.code == PathIsInvalid && SeenOk(o.tree, table) && SameMissing(tree, o.tree, table)
      else o.parent == Walk(table, Parent(path)) && TargetOk(tree, table, o, Components(path), mustBeDirectory)
  {
    var c := Components(path);
    VisitMeaning(table, tree, locks, c, |c| - 1);
    var v := VisitParents(table, tree, locks, c, |c| - 1);
    if v.ok {
      TargetMeaning(table, v, c, mustBeDirectory);
      TargetFrom(tree, v.tree, table, OpenTarget(table, v, c, mustBeDirectory), c, mustBeDirectory);
    }
  }

  // ------------------------------------------------------------------ a batch of open or close

  predicate Wellformed(path: Path) {
    path != [] && path[0] == SLASH
  }

  datatype OpenBatch = OpenBatch(tree: SeenTree, locks: KeyLog, codes: seq<Code>, parents: seq<Option<nat>>)

  /** The requests one after the other, in one tree. */
  function OpenAll(table: DirTable, paths: seq<Path>): (b: OpenBatch)
    ensures |b.codes| == |b.parents| == |paths|
  {
    if paths == [] then OpenBatch(map[], [], [], [])
    else
      var b, path := OpenAll(table, paths[..|paths| - 1]), paths[|paths| - 1];
      if !Wellformed(path) then OpenBatch(b.tree, b.locks, b.codes + [PathIsInvalid], b.parents + [None])
      else
        var o := Open(table, b.tree, b.locks, path, false);
        OpenBatch(o.tree, o.locks, b.codes + [o.code], b.parents + [o.parent])
  }

  /** The loop of the handlers. */
  method OpenEach(table: DirTable, paths: seq<Path>) returns (codes: seq<Code>, parents: seq<Option<nat>>)
    ensures var b := OpenAll(table, paths); codes == b.codes && parents == b.parents
  {
    var parser := new OpenParser();
    codes, parents := [], [];
    for i := 0 to |paths|
      invariant fresh(parser) && OpenBatch(parser.tree, parser.locks, codes, parents) == OpenAll(table, paths[..i])
    {
      assert paths[..i + 1][..i] == paths[..i];
      var code, parent := PathIsInvalid, None;
      if Wellformed(paths[i]) {
        var inode;
        code, parent, inode := parser.TreeInsert(table, paths[i], false);
      }
      codes, parents := codes + [code], parents + [parent];
    }
    assert paths[..|paths|] == paths;
  }

  /** The request asked for this path and its walk reached it. */
  predicate Asked(paths: seq<Path>, codes: seq<Code>, j: nat, c: seq<Name>)
    requires |codes| == |paths|
  {
    j < |paths| && Wellformed(paths[j]) && Components(paths[j]) == c && codes[j] == Success
  }

  /** The nodes that lead nowhere are the targets of the requests so far. */
  ghost predicate BatchOk(table: DirTable, paths: seq<Path>, b: OpenBatch) {
    && |b.codes| == |b.parents| == |paths| && SeenOk(b.tree, table)
    && forall c :: Walk(table, c).None? ==> (c in b.tree <==> exists j :: Asked(paths, b.codes, j, c))
  }

  lemma AskedMore(paths: seq<Path>, codes: seq<Code>, path: Path, code: Code, c: seq<Name>)
    requires |codes| == |paths|
    ensures (exists j :: Asked(paths + [path], codes + [code], j, c)) <==>
            (exists j :: Asked(paths, codes, j, c)) || (Wellformed(path) && Components(path) == c && code == Success)
  {
    if j :| Asked(paths, codes, j, c) { assert Asked(paths + [path], codes + [code], j, c); }
    if Wellformed(path) && Components(path) == c && code == Success {
      assert Asked(paths + [path], codes + [code], |paths|, c);
    }
    if j: nat :| Asked(paths + [path], codes + [code], j, c) && j < |paths| { assert Asked(paths, codes, j, c); }
  }

  lemma {:induction false} OpenAllOk(table: DirTable, paths: seq<Path>)
    ensures BatchOk(table, paths, OpenAll(table, paths))
  {
    if paths != [] {
      var front, path := paths[..|paths| - 1], paths[|paths| - 1];
      OpenAllOk(table, front);
      var b, b' := OpenAll(table, front), OpenAll(table, paths);
      if Wellformed(path) { OpenMeaning(table, b.tree, b.locks, path, false); }
      assert paths == front + [path];
      forall c | Walk(table, c).None? ensures c in b'.tree <==> exists j :: Asked(paths, b'.codes, j, c) {
        AskedMore(front, b.codes, path, b'.codes[|front|], c);
      }
    }
  }

  lemma {:induction false} OpenAllPrefix(table: DirTable, paths: seq<Path>, i: nat)
    requires i <= |paths|
    ensures OpenAll(table, paths[..i]).codes == OpenAll(table, paths).codes[..i]
    ensures OpenAll(table, paths[..i]).parents == OpenAll(table, paths).parents[..i]
  {
    if i < |paths| {
      OpenAllPrefix(table, paths[..|paths| - 1], i);
      assert paths[..|paths| - 1][..i] == paths[..i];
    } else {
      assert paths[..i] == paths;
    }
  }

  /** A request's walk gets through if its parent is a directory, or an earlier request asked for the parent. */
  predicate Reaches(table: DirTable, paths: seq<Path>, codes: seq<Code>, i: nat)
    requires |codes| == |paths| && i < |paths|
  {
    Wellformed(paths[i]) &&
    (Walk(table, Parent(paths[i])).Some? || exists j :: 0 <= j < i && Asked(paths, codes, j, Parent(paths[i])))
  }

  lemma CodeAt(table: DirTable, paths: seq<Path>, i: nat)
    requires i < |paths|
    ensures var b := OpenAll(table, paths);
      && b.codes[i] == (if Reaches(table, paths, b.codes, i) then Success else PathIsInvalid)
      && (b.codes[i] == Success ==> b.parents[i] == Walk(table, Parent(paths[i])))
  {
    var b, before := OpenAll(table, paths), OpenAll(table, paths[..i]);
    OpenAllOk(table, paths[..i]);
    OpenAllPrefix(table, paths, i);
    OpenAllPrefix(table, paths, i + 1);
    assert paths[..i + 1][..i] == paths[..i] && b.codes[..i + 1][i] == b.codes[i] && b.parents[..i + 1][i] == b.parents[i];
    if Wellformed(paths[i]) {
      OpenMeaning(table, before.tree, before.locks, paths[i], false);
      AskedBefore(paths, b.codes, i, Parent(paths[i]));
    }
  }

  lemma AskedBefore(paths: seq<Path>, codes: seq<Code>, i: nat, c: seq<Name>)
    requires |codes| == |paths| && i <= |paths|
    ensures (exists j :: Asked(paths[..i], codes[..i], j, c)) <==> exists j :: 0 <= j < i && Asked(paths, codes, j, c)
  {
    if j :| Asked(paths[..i], codes[..i], j, c) { assert Asked(paths, codes, j, c); }
    if j :| 0 <= j < i && Asked(paths, codes, j, c) { assert Asked(paths[..i], codes[..i], j, c); }
  }

  // ------------------------------------------------------------------ alone and in a batch

  /** The answer to a request on its own. */
  function Alone(table: DirTable, path: Path): Code {
    OpenAll(table, [path]).codes[0]
  }

  lemma AloneMeaning(table: DirTable, path: Path)
    ensures Alone(table, path) == if Wellformed(path) && Walk(table, Parent(path)).Some? then Success else PathIsInvalid
  {
    CodeAt(table, [path], 0);
  }

  /** Request j asks, in an existing directory, for something that is not a directory, and request i for an entry
      below it. */
  predicate Below(table: DirTable, paths: seq<Path>, j: nat, i: nat)
    requires j < i < |paths|
  {
    && Wellformed(paths[j]) && Wellformed(paths[i]) && Components(paths[j]) == Parent(paths[i])
    && Walk(table, Components(paths[j])).None? && Walk(table, Parent(paths[j])).Some?
  }

  /** A request that gets through although its parent is no directory comes after one that shows it the way. */
  lemma {:induction false} WayIn(table: DirTable, paths: seq<Path>, i: nat) returns (j: nat, k: nat)
    requires i < |paths| && OpenAll(table, paths).codes[i] == Success
    requires Wellformed(paths[i]) && Walk(table, Parent(paths[i])).None?
    ensures j < k < |paths| && Below(table, paths, j, k)
  {
    var codes := OpenAll(table, paths).codes;
    CodeAt(table, paths, i);
    var m :| 0 <= m < i && Asked(paths, codes, m, Parent(paths[i]));
    if Walk(table, Parent(paths[m])).Some? {
      j, k := m, i;
    } else {
      j, k := WayIn(table, paths, m);
    }
  }

  /** Every request of a batch is answered as it would be alone if and only if none asks for an entry below something
      that is not a directory and that an earlier one asked for. */
  lemma AnsweredAsAloneIff(table: DirTable, paths: seq<Path>)
    ensures (forall i :: 0 <= i < |paths| ==> OpenAll(table, paths).codes[i] == Alone(table, paths[i])) <==>
            !exists j, i :: 0 <= j < i < |paths| && Below(table, paths, j, i)
  {
    var codes := OpenAll(table, paths).codes;
    if j, i :| 0 <= j < i < |paths| && Below(table, paths, j, i) {
      CodeAt(table, paths, j);
      CodeAt(table, paths, i);
      AloneMeaning(table, paths[i]);
      assert Asked(paths, codes, j, Parent(paths[i]));
      assert codes[i] != Alone(table, paths[i]);
    }
    if i :| 0 <= i < |paths| && codes[i] != Alone(table, paths[i]) {
      CodeAt(table, paths, i);
      AloneMeaning(table, paths[i]);
      var j, k := WayIn(table, paths, i);
      assert Below(table, paths, j, k);
    }
  }

  /** A request that is answered differently has found an entry to look for in a directory that has no id. */
  lemma DifferentAnswer(table: DirTable, paths: seq<Path>, i: nat)
    requires i < |paths|
    ensures var b := OpenAll(table, paths);
      b.codes[i] != Alone(table, paths[i]) ==> b.codes[i] == Success && b.parents[i] == None
  {
    CodeAt(table, paths, i);
    AloneMeaning(table, paths[i]);
  }

  lemma PartsOfTwo()
    ensures Components("/a") == [ROOT, "a"] && Components("/a/b") == [ROOT, "a", "b"]
  {
    assert Split("") == [""];
    assert "a"[1..] == "" && "b"[1..] == "" && ['a'] + "" == "a" && ['b'] + "" == "b";
    assert Split("a") == ["a"];
    assert Split("b") == ["b"];
    assert "/b"[1..] == "b";
    assert Split("/b") == ["", "b"];
    assert "a/b"[1..] == "/b";
    assert Split("a/b") == ["a", "b"];
    assert "/a"[1..] == "a" && "/a"[..1] == ROOT && "/a/b"[1..] == "a/b" && "/a/b"[..1] == ROOT;
  }

  /** Opening /a, which is not a directory, and /a/b in one batch: the second request is not refused. */
  lemma OpenBelowFile()
    ensures var table, paths := map[Key(0, ROOT) := 1], ["/a", "/a/b"];
      && OpenAll(table, paths).codes == [Success, Success] && OpenAll(table, paths).parents == [Some(1), None]
      && Alone(table, "/a/b") == PathIsInvalid
  {
    var table, paths := map[Key(0, ROOT) := 1], ["/a", "/a/b"];
    PartsOfTwo();
    assert Parent("/a") == [ROOT] && Parent("/a/b") == [ROOT, "a"];
    assert Walk(table, [ROOT]) == Some(1) by { assert [ROOT][..0] == []; }
    assert Walk(table, [ROOT, "a"]) == None by { assert [ROOT, "a"][..1] == [ROOT]; }
    CodeAt(table, paths, 0);
    assert Asked(paths, OpenAll(table, paths).codes, 0, Parent("/a/b"));
    CodeAt(table, paths, 1);
    AloneMeaning(table, "/a/b");
  }
}
