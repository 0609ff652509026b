/**
 The path walk of a metadata transaction.  A transaction keeps a tree of the directories it has looked up,
 each with its inode id and the lock taken on it; a walk uses the tree first and the directory table second.
 The tree is a map from component lists to nodes.
 */
module PathParse {
  import opened Common
  import opened Paths

  datatype Key = Key(parent: nat, name: Name)
  type DirTable = map<Key, nat>

  datatype LockMode = Shared | Exclusive | ExclusiveForCreate
  datatype Node = Node(id: nat, lock: LockMode)
  type Tree = map<seq<Name>, Node>
  type Log = seq<seq<Name>>

  datatype Code = Success | PathIsRoot | PathIsInvalid | PathLockConflict | PathExists | PathNotExists

  datatype Flags = Flags(
    notRoot: bool, isDirectory: bool, toBeCreated: bool, idForInput: bool, toBeDeleted: bool,
    allowUnderCreated: bool)

  datatype Outcome = Outcome(
    code: Code, tree: Tree, locks: Log, parent: nat, name: Name, inode: nat)

  // ------------------------------------------------------------------ what a path means

  /** The directory a list of components leads to, from the id 0 that holds only the root. */
  function Walk(table: DirTable, c: seq<Name>): Option<nat> {
    if c == [] then Some(0)
    else
      var parent := Walk(table, c[..|c| - 1]);
      if parent.None? || Key(parent.value, c[|c| - 1]) !in table then None
      else Some(table[Key(parent.value, c[|c| - 1])])
  }

  /** Every node of the tree says what the table says, except that a walk never uses the id of a node whose
      directory this transaction is removing or moving. */
  ghost predicate TreeOk(tree: Tree, table: DirTable) {
    forall c :: c in tree ==> c != [] && (tree[c].lock.Exclusive? || Walk(table, c) == Some(tree[c].id))
  }

  lemma {:induction false} WalkPrefix(table: DirTable, c: seq<Name>, n: nat)
    requires n <= |c| && Walk(table, c).Some?
    ensures Walk(table, c[..n]).Some?
    decreases |c|
  {
    if n < |c| {
      assert c[..|c| - 1][..n] == c[..n];
      WalkPrefix(table, c[..|c| - 1], n);
    } else {
      assert c[..n] == c;
    }
  }

  /** A new directory does not change where existing paths lead. */
  lemma {:induction false} WalkInsert(table: DirTable, c: seq<Name>, k: Key, id: nat)
    requires k !in table && Walk(table, c).Some?
    ensures Walk(table[k := id], c) == Walk(table, c)
  {
    if c != [] { WalkInsert(table, c[..|c| - 1], k, id); }
  }

  /** Every directory has one entry, and none has the id that stands above the root. */
  ghost predicate Injective(table: DirTable) {
    && (forall k :: k in table ==> table[k] != 0)
    && (forall k, l :: k in table && l in table && table[k] == table[l] ==> k == l)
  }

  /** Then two different paths never lead to the same directory. */
  lemma {:induction false} WalkUnique(table: DirTable, c: seq<Name>, d: seq<Name>)
    requires Injective(table) && Walk(table, c).Some? && Walk(table, c) == Walk(table, d)
    ensures c == d
  {
    if c != [] && d != [] {
      WalkUnique(table, c[..|c| - 1], d[..|d| - 1]);
      assert c == c[..|c| - 1] + [c[|c| - 1]] && d == d[..|d| - 1] + [d[|d| - 1]];
    }
  }

  /** A new directory opens no path except those through it. */
  lemma {:induction false} WalkStaysClosed(table: DirTable, c: seq<Name>, parent: nat, id: nat, x: seq<Name>)
    requires Injective(table) && c != [] && Walk(table, c[..|c| - 1]) == Some(parent)
    requires Key(parent, c[|c| - 1]) !in table && Walk(table, x).None? && !(c <= x)
    ensures Walk(table[Key(parent, c[|c| - 1]) := id], x).None?
  {
    var front := x[..|x| - 1];
    if Walk(table, front).None? {
      assert c <= front ==> c <= x;
      WalkStaysClosed(table, c, parent, id, front);
    } else {
      WalkInsert(table, front, Key(parent, c[|c| - 1]), id);
      assert x == front + [x[|x| - 1]] && c == c[..|c| - 1] + [c[|c| - 1]];
      if Walk(table, front) == Some(parent) { WalkUnique(table, front, c[..|c| - 1]); }
    }
  }

  // ------------------------------------------------------------------ the walk over the tree

  datatype Descent =
    | Reached(tree: Tree, locks: Log, id: nat)
    | Failed(code: Code, tree: Tree, locks: Log)

  /** One component further, to the directory with the components pre. */
  function Descend1(table: DirTable, d: Descent, pre: seq<Name>): Descent
    requires d.Reached? && pre != []
  {
    var key := Key(d.id, pre[|pre| - 1]);
    if pre in d.tree then
      if d.tree[pre].lock.Exclusive? then Failed(PathLockConflict, d.tree, d.locks)
      else Reached(d.tree, d.locks, d.tree[pre].id)
    else if key !in table then Failed(PathIsInvalid, d.tree, d.locks + [pre])
    else Reached(d.tree[pre := Node(table[key], Shared)], d.locks + [pre], table[key])
  }

  /** The first n components. */
  function Descend(tree: Tree, log: Log, table: DirTable, c: seq<Name>, n: nat): Descent
    requires n <= |c|
  {
    if n == 0 then Reached(tree, log, 0)
    else
      var d := Descend(tree, log, table, c, n - 1);
      if d.Failed? then d else Descend1(table, d, c[..n])
  }

  /** What the whole call returns and does to the tree. */
  function Parse(tree: Tree, log: Log, table: DirTable, path: Path, flags: Flags, newId: nat, input: nat): Outcome
    requires path != []
  {
    if path == ROOT && flags.notRoot then Outcome(PathIsRoot, tree, log, 0, [], 0)
    else
      var c := Components(path);
      var d := Descend(tree, log, table, c, |c| - 1);
      if d.Failed? then Outcome(d.code, d.tree, d.locks, 0, [], 0)
      else Target(d.tree, table, c, d.locks, d.id, flags, newId, input)
  }

  function Target(tree: Tree, table: DirTable, c: seq<Name>, locks: Log, parent: nat, flags: Flags,
                  newId: nat, input: nat): Outcome
    requires c != []
  {
    var name := c[|c| - 1];
    var key := Key(parent, name);
    if flags.toBeCreated && flags.isDirectory then
      if c in tree then Outcome(PathExists, tree, locks, parent, name, 0)
      else
        var id := if flags.idForInput then input else if key in table then table[key] else newId;
        var lock := if flags.allowUnderCreated then ExclusiveForCreate else Exclusive;
        Outcome(if key in table then PathExists else Success, tree[c := Node(id, lock)], locks + [c], parent, name, id)
    else if flags.toBeCreated then
      Outcome(Success, tree, locks, parent, name, if flags.idForInput then input else newId)
    else if flags.toBeDeleted && flags.isDirectory then
      if c in tree then Outcome(PathLockConflict, tree, locks, parent, name, 0)
      else if key !in table then Outcome(PathNotExists, tree, locks + [c], parent, name, 0)
      else Outcome(Success, tree[c := Node(table[key], Exclusive)], locks + [c], parent, name, table[key])
    else Outcome(Success, tree, locks, parent, name, 0)
  }

  /** What the walk over the first n components has made of the tree. */
  ghost predicate Grown(tree: Tree, table: DirTable, d: Descent, pre: seq<Name>) {
    && TreeOk(d.tree, table)
    && (d.Reached? ==> Walk(table, pre) == Some(d.id))
    && (forall x :: x in tree ==> x in d.tree && d.tree[x] == tree[x])
    && (forall x :: x in d.tree && x !in tree ==> x <= pre && d.tree[x].lock.Shared?)
  }

  lemma Descend1Tree(tree: Tree, table: DirTable, d: Descent, c: seq<Name>, n: nat)
    requires d.Reached? && n < |c| && Grown(tree, table, d, c[..n])
    ensures Grown(tree, table, Descend1(table, d, c[..n + 1]), c[..n + 1])
  {
    var pre := c[..n + 1];
    assert pre[..n] == c[..n] && c[..n] <= pre;
    forall x | x in d.tree && x !in tree ensures x <= pre { assert x <= c[..n]; }
    if pre !in d.tree && Key(d.id, c[n]) in table {
      assert Walk(table, pre) == Some(table[Key(d.id, c[n])]);
    }
  }

  /** The walk only adds directories of the path that exist, with shared locks. */
  lemma {:induction false} DescendTree(tree: Tree, log: Log, table: DirTable, c: seq<Name>, n: nat)
    requires TreeOk(tree, table) && n <= |c|
    ensures Grown(tree, table, Descend(tree, log, table, c, n), c[..n])
  {
    if n > 0 {
      DescendTree(tree, log, table, c, n - 1);
      var d := Descend(tree, log, table, c, n - 1);
      if d.Reached? {
        Descend1Tree(tree, table, d, c, n - 1);
      } else {
        forall x | x in d.tree && x !in tree ensures x <= c[..n] { assert x <= c[..n - 1]; }
      }
    }
  }

  /** On success every directory on the way is in the tree, and this transaction is not removing or creating it. */
  lemma {:induction false} DescendMarks(tree: Tree, log: Log, table: DirTable, c: seq<Name>, n: nat, i: nat)
    requires TreeOk(tree, table) && 0 < i <= n <= |c| && Descend(tree, log, table, c, n).Reached?
    ensures var d := Descend(tree, log, table, c, n); c[..i] in d.tree && !d.tree[c[..i]].lock.Exclusive?
  {
    if i < n { DescendMarks(tree, log, table, c, n - 1, i); }
  }

  /** The walk fails as invalid only when the path leads nowhere, and otherwise with a conflict at a directory
      that this transaction is removing or creating. */
  lemma {:induction false} DescendFailure(tree: Tree, log: Log, table: DirTable, c: seq<Name>, n: nat)
    requires TreeOk(tree, table) && n <= |c| && Descend(tree, log, table, c, n).Failed?
    ensures var d := Descend(tree, log, table, c, n);
      if d.code == PathIsInvalid then Walk(table, c[..n]).None?
      else d.code == PathLockConflict && exists i :: 0 < i <= n && c[..i] in tree && tree[c[..i]].lock.Exclusive?
  {
    if n > 0 {
      assert c[..n][..n - 1] == c[..n - 1];
      if Descend(tree, log, table, c, n - 1).Failed? {
        DescendFailure(tree, log, table, c, n - 1);
      } else {
        DescendTree(tree, log, table, c, n - 1);
      }
    }
  }

  // ------------------------------------------------------------------ the walk as the code runs it

  /** Where the part that starts at a position ends. */
  method PartLength(path: Path, start: nat) returns (len: nat)
    requires start <= |path|
    ensures start + len <= |path| && path[start..start + len] == Split(path[start..])[0]
    ensures start + len == |path| <==> |Split(path[start..])| == 1
    ensures start + len < |path| ==> Split(path[start..])[1..] == Split(path[start + len + 1..])
  {
    len := 0;
    while start + len < |path| && path[start + len] != SLASH
      invariant start + len <= |path|
      invariant forall i :: start <= i < start + len ==> path[i] != SLASH
    {
      len := len + 1;
    }
    SplitFirst(path[start..], len);
    assert path[start..][..len] == path[start..start + len];
    if start + len < |path| { assert path[start..][len + 1..] == path[start + len + 1..]; }
  }

  lemma {:induction false} SplitFirst(s: Path, len: nat)
    requires len <= |s| && (forall i :: 0 <= i < len ==> s[i] != SLASH)
    requires len < |s| ==> s[len] == SLASH
    ensures Split(s)[0] == s[..len]
    ensures |Split(s)| == 1 <==> len == |s|
    ensures len < |s| ==> Split(s)[1..] == Split(s[len + 1..])
  {
    if len > 0 {
      SplitFirst(s[1..], len - 1);
      assert s[..len] == [s[0]] + s[1..][..len - 1];
      if len < |s| { assert s[1..][len - 1 + 1..] == s[len + 1..]; }
    }
  }

  /** Where the component after the one at start begins: the first byte is not followed by a separator. */
  function NextStart(start: nat, len: nat): nat {
    if start == 0 then 1 else start + len + 1
  }

  /** The walk stands at the n-th component, which is the stretch of bytes at start. */
  ghost predicate AtPart(path: Path, start: nat, len: nat, n: nat)
    requires path != []
  {
    var c := Components(path);
    && n < |c| && start + len <= |path| && path[start..start + len] == c[n]
    && (start == 0 ==> len == 1)
    && (start + len == |path| <==> n == |c| - 1)
    && (start + len < |path| ==> Split(path[NextStart(start, len)..]) == c[n + 1..])
  }

  /** On to the next component. */
  method NextPart(path: Path, start: nat, len: nat, ghost n: nat) returns (start': nat, len': nat)
    requires path != [] && AtPart(path, start, len, n) && start + len < |path|
    ensures AtPart(path, start', len', n + 1)
  {
    start' := NextStart(start, len);
    len' := PartLength(path, start');
    StandsAt(path, start', len', n + 1);
  }

  lemma StandsAt(path: Path, start: nat, len: nat, n: nat)
    requires path != [] && n < |Components(path)| && 0 < start && start + len <= |path|
    requires Split(path[start..]) == Components(path)[n..] && path[start..start + len] == Split(path[start..])[0]
    requires start + len == |path| <==> |Split(path[start..])| == 1
    requires start + len < |path| ==> Split(path[start..])[1..] == Split(path[start + len + 1..])
    ensures AtPart(path, start, len, n)
  {
    var c := Components(path);
    assert c[n..][0] == c[n] && c[n..][1..] == c[n + 1..];
  }

  class PathParser {
    var tree: Tree
    var locks: Log

    constructor ()
      ensures tree == map[] && locks == []
    {
      tree, locks := map[], [];
    }

    /** Walks the path byte by byte, component by component, and handles the target as the flags say. */
    method TreeInsert(table: DirTable, path: Path, flags: Flags, newId: nat, input: nat)
      returns (code: Code, parentId: nat, name: Name, inodeId: nat)
      requires path != []
      modifies this
      ensures Outcome(code, tree, locks, parentId, name, inodeId)
              == Parse(old(tree), old(locks), table, path, flags, newId, input)
    {
      if path == ROOT && flags.notRoot {
        return PathIsRoot, 0, [], 0;
      }
      code, parentId, name := WalkParents(table, path);
      if code != Success {
        return code, 0, [], 0;
      }
      code, inodeId := FinishTarget(table, Components(path), parentId, flags, newId, input);
    }

    /** Walks every component but the last. */
    method WalkParents(table: DirTable, path: Path) returns (code: Code, current: nat, name: Name)
      requires path != []
      modifies this
      ensures Descend(old(tree), old(locks), table, Components(path), |Components(path)| - 1) ==
              if code == Success then Reached(tree, locks, current) else Failed(code, tree, locks)
      ensures code == Success ==> name == Components(path)[|Components(path)| - 1]
    {
      ghost var c, n := Components(path), 0;
      var start: nat, len: nat, prefix := 0, 1, [];
      code, current, name := Success, 0, [];
      while start + len < |path|
        invariant AtPart(path, start, len, n) && prefix == c[..n] && code == Success
        invariant Descend(old(tree), old(locks), table, c, n) == Reached(tree, locks, current)
        decreases |c| - n
      {
        var pre := prefix + [path[start..start + len]];
        assert pre == c[..n + 1];
        DescendUnfold(old(tree), old(locks), table, c, n, pre);
        code, current := Enter(table, pre, current);
        if code != Success {
          DescendFails(old(tree), old(locks), table, c, n + 1, |c| - 1);
          return;
        }
        prefix := pre;
        start, len := NextPart(path, start, len, n);
        n := n + 1;
      }
      name := path[start..start + len];
    }

    /** Steps into a directory: from the tree, or from the table under a shared lock. */
    method Enter(table: DirTable, pre: seq<Name>, current: nat) returns (code: Code, id: nat)
      requires pre != []
      modifies this
      ensures Descend1(table, Reached(old(tree), old(locks), current), pre) ==
              if code == Success then Reached(tree, locks, id) else Failed(code, tree, locks)
    {
      if pre in tree {
        return if tree[pre].lock.Exclusive? then PathLockConflict else Success, tree[pre].id;
      }
      locks := locks + [pre];
      var key := Key(current, pre[|pre| - 1]);
      if key !in table {
        return PathIsInvalid, 0;
      }
      tree := tree[pre := Node(table[key], Shared)];
      return Success, table[key];
    }

    /** The target of the walk. */
    method FinishTarget(table: DirTable, c: seq<Name>, parent: nat, flags: Flags, newId: nat, input: nat)
      returns (code: Code, inodeId: nat)
      requires c != []
      modifies this
      ensures Outcome(code, tree, locks, parent, c[|c| - 1], inodeId)
              == Target(old(tree), table, c, old(locks), parent, flags, newId, input)
    {
      var key := Key(parent, c[|c| - 1]);
      code, inodeId := Success, 0;
      if flags.toBeCreated {
        if flags.isDirectory {
          if c in tree {
            return PathExists, 0;
          }
          locks := locks + [c];
          if flags.idForInput {
            inodeId := input;
          } else if key in table {
            inodeId := table[key];
          } else {
            inodeId := newId;
          }
          tree := tree[c := Node(inodeId, if flags.allowUnderCreated then ExclusiveForCreate else Exclusive)];
          if key in table {
            code := PathExists;
          }
        } else {
          inodeId := if flags.idForInput then input else newId;
        }
      } else if flags.toBeDeleted && flags.isDirectory {
        if c in tree {
          return PathLockConflict, 0;
        }
        locks := locks + [c];
        if key !in table {
          return PathNotExists, 0;
        }
        inodeId := table[key];
        tree := tree[c := Node(inodeId, Exclusive)];
      }
    }
  }

  lemma DescendUnfold(tree: Tree, log: Log, table: DirTable, c: seq<Name>, n: nat, pre: seq<Name>)
    requires n < |c| && pre == c[..n + 1] && Descend(tree, log, table, c, n).Reached?
    ensures Descend(tree, log, table, c, n + 1) == Descend1(table, Descend(tree, log, table, c, n), pre)
  {
  }

  lemma {:induction false} DescendFails(tree: Tree, log: Log, table: DirTable, c: seq<Name>, n: nat, m: nat)
    requires n <= m <= |c| && Descend(tree, log, table, c, n).Failed?
    ensures Descend(tree, log, table, c, m) == Descend(tree, log, table, c, n)
    decreases m
  {
    if n < m { DescendFails(tree, log, table, c, n, m - 1); }
  }
}
