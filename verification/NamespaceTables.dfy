/**
 The tables behind the namespace, by directory entry: a directory table, and the inode rows by parent and name.
 This file states what must hold of them between transactions, and what each kind of change does to it.
 */
module NamespaceTables {
  import opened Common
  import opened Paths
  import opened PathParse

  datatype Row = Row(ino: nat, isDir: bool, nlink: nat)
  type Files = map<Key, Row>

  const ROOT_KEY: Key := Key(0, ROOT)

  ghost predicate Reachable(d: DirTable, id: nat) {
    exists c :: Walk(d, c) == Some(id)
  }

  /** The directories are a tree under "/": one entry each, one entry without a parent, all reached by a path. */
  ghost predicate IsTree(d: DirTable) {
    && Injective(d)
    && (forall k :: k in d && k.parent == 0 ==> k == ROOT_KEY)
    && forall k :: k in d ==> Reachable(d, d[k])
  }

  predicate HasParent(d: DirTable, k: Key) {
    k.parent in d.Values || k == ROOT_KEY
  }

  /** No row without a parent directory. */
  ghost predicate Parented(d: DirTable, f: Files) {
    forall k :: k in f ==> HasParent(d, k)
  }

  /** Directory rows and directory entries are the same, with the same ids. */
  ghost predicate DirsHaveRows(d: DirTable, f: Files) {
    && (forall k :: k in f ==> (f[k].isDir <==> k in d))
    && forall k :: k in d ==> k in f && f[k].ino == d[k]
  }

  /** Inode ids were issued, belong to one row each, and no row has extra links. */
  ghost predicate InosOk(f: Files, used: set<nat>) {
    && (forall k :: k in f ==> f[k].ino in used && f[k].ino != 0 && f[k].nlink == 1)
    && forall k, l :: k in f && l in f && f[k].ino == f[l].ino ==> k == l
  }

  ghost predicate TablesOk(d: DirTable, f: Files, used: set<nat>) {
    IsTree(d) && Parented(d, f) && DirsHaveRows(d, f) && InosOk(f, used)
  }

  lemma EmptyIsOk(used: set<nat>)
    ensures TablesOk(map[], map[], used)
  {
  }

  lemma DirIdsUsed(d: DirTable, f: Files, used: set<nat>)
    requires DirsHaveRows(d, f) && InosOk(f, used)
    ensures d.Values <= used
  {
    forall id | id in d.Values ensures id in used {
      var k :| k in d && d[k] == id;
      assert k in f;
    }
  }

  lemma WalkParent(d: DirTable, c: seq<Name>, id: nat)
    requires Walk(d, c) == Some(id)
    ensures (id == 0 && c == []) || id in d.Values
  {
  }

  // ------------------------------------------------------------------ making a directory

  lemma WalkSnoc(d: DirTable, c: seq<Name>, k: Key)
    requires k in d && Walk(d, c) == Some(k.parent)
    ensures Walk(d, c + [k.name]) == Some(d[k])
  {
    var full := c + [k.name];
    assert full[..|full| - 1] == c && full[|full| - 1] == k.name;
  }

  lemma AddDirReachable(d: DirTable, k: Key, id: nat, x: nat)
    requires Reachable(d, x) && k !in d
    ensures Reachable(d[k := id], x)
  {
    var c :| Walk(d, c) == Some(x);
    WalkInsert(d, c, k, id);
    assert Walk(d[k := id], c) == Some(x);
  }

  lemma AddInjective(d: DirTable, k: Key, id: nat)
    requires Injective(d) && k !in d && id != 0 && id !in d.Values
    ensures Injective(d[k := id])
  {
    assert forall l :: l in d ==> d[l] in d.Values;
  }

  lemma AddDirTree(d: DirTable, k: Key, c: seq<Name>, id: nat)
    requires IsTree(d) && k !in d && Walk(d, c) == Some(k.parent) && (k.parent == 0 ==> k == ROOT_KEY)
    requires id != 0 && id !in d.Values
    ensures IsTree(d[k := id])
  {
    AddInjective(d, k, id);
    forall l | l in d ensures Reachable(d[k := id], d[l]) { AddDirReachable(d, k, id, d[l]); }
    WalkInsert(d, c, k, id);
    WalkSnoc(d[k := id], c, k);
    assert Reachable(d[k := id], id);
  }

  lemma ValuesGrow(d: DirTable, k: Key, id: nat)
    requires k !in d
    ensures d[k := id].Values == d.Values + {id}
  {
    var d' := d[k := id];
    forall x | x in d.Values ensures x in d'.Values {
      var l :| l in d && d[l] == x;
      assert d'[l] == x;
    }
    assert d'[k] == id;
  }

  lemma AddDirRow(d: DirTable, f: Files, k: Key, row: Row)
    requires Parented(d, f) && DirsHaveRows(d, f) && k !in f && HasParent(d, k) && row.isDir
    ensures Parented(d[k := row.ino], f[k := row]) && DirsHaveRows(d[k := row.ino], f[k := row])
  {
    ValuesGrow(d, k, row.ino);
  }

  lemma AddIno(f: Files, used: set<nat>, k: Key, row: Row)
    requires InosOk(f, used) && k !in f && row.ino != 0 && row.ino !in used && row.nlink == 1
    ensures InosOk(f[k := row], used + {row.ino})
  {
  }

  /** Making a directory keeps everything, when its parent exists and nothing has its name. */
  lemma AddDirKeeps(d: DirTable, f: Files, used: set<nat>, k: Key, c: seq<Name>, id: nat)
    requires TablesOk(d, f, used) && k !in f && Walk(d, c) == Some(k.parent) && (k.parent == 0 ==> k == ROOT_KEY)
    requires id != 0 && id !in used
    ensures TablesOk(d[k := id], f[k := Row(id, true, 1)], used + {id})
  {
    DirIdsUsed(d, f, used);
    WalkParent(d, c, k.parent);
    AddDirRow(d, f, k, Row(id, true, 1));
    AddIno(f, used, k, Row(id, true, 1));
    AddDirTree(d, k, c, id);
  }

  // ------------------------------------------------------------------ files

  lemma AddFileKeeps(d: DirTable, f: Files, used: set<nat>, k: Key, id: nat)
    requires TablesOk(d, f, used) && k !in f && k.parent in d.Values && id != 0 && id !in used
    ensures TablesOk(d, f[k := Row(id, false, 1)], used + {id})
  {
    AddIno(f, used, k, Row(id, false, 1));
  }

  lemma RemoveFileRow(d: DirTable, f: Files, used: set<nat>, k: Key)
    requires Parented(d, f) && DirsHaveRows(d, f) && InosOk(f, used) && k in f && !f[k].isDir
    ensures Parented(d, f - {k}) && DirsHaveRows(d, f - {k}) && InosOk(f - {k}, used)
  {
  }

  /** Deleting a row keeps everything exactly when it is not the row of a directory. */
  lemma RemoveRowKeepsIff(d: DirTable, f: Files, used: set<nat>, k: Key)
    requires TablesOk(d, f, used) && k in f
    ensures TablesOk(d, f - {k}, used) <==> !f[k].isDir
  {
    if f[k].isDir {
      assert k in d && k !in f - {k} && !DirsHaveRows(d, f - {k});
    } else {
      RemoveFileRow(d, f, used, k);
    }
  }

  function MovedRow(f: Files, k: Key, l: Key): Files
    requires k in f
  {
    (f - {k})[l := f[k]]
  }

  lemma MoveInos(f: Files, used: set<nat>, k: Key, l: Key)
    requires InosOk(f, used) && k in f && l !in f
    ensures InosOk(MovedRow(f, k, l), used)
  {
    var f' := MovedRow(f, k, l);
    forall x, y | x in f' && y in f' && f'[x].ino == f'[y].ino ensures x == y {
      assert f[if x == l then k else x].ino == f[if y == l then k else y].ino;
    }
  }

  lemma MoveFileRow(d: DirTable, f: Files, k: Key, l: Key)
    requires Parented(d, f) && DirsHaveRows(d, f) && k in f && !f[k].isDir && l !in f
    ensures DirsHaveRows(d, MovedRow(f, k, l)) && (Parented(d, MovedRow(f, k, l)) <==> HasParent(d, l))
  {
    assert l in MovedRow(f, k, l);
  }

  /** Moving the row of a file keeps everything exactly when the new place is below a directory. */
  lemma MoveFileKeepsIff(d: DirTable, f: Files, used: set<nat>, k: Key, l: Key)
    requires TablesOk(d, f, used) && k in f && !f[k].isDir && l !in f
    ensures TablesOk(d, MovedRow(f, k, l), used) <==> HasParent(d, l)
  {
    MoveInos(f, used, k, l);
    MoveFileRow(d, f, k, l);
  }

  // ------------------------------------------------------------------ removing a directory

  /** A path that does not end at or pass through a childless directory is not touched by removing it. */
  lemma {:induction false} WalkRemove(d: DirTable, k: Key, c: seq<Name>, id: nat)
    requires k in d && Walk(d, c) == Some(id) && id != d[k] && forall l :: l in d ==> l.parent != d[k]
    ensures Walk(d - {k}, c) == Some(id)
  {
    if c != [] {
      var front := c[..|c| - 1];
      WalkRemove(d, k, front, Walk(d, front).value);
    }
  }

  /** Removing a directory keeps everything when no row has it as parent. */
  lemma RemoveDirKeeps(d: DirTable, f: Files, used: set<nat>, k: Key)
    requires TablesOk(d, f, used) && k in d && forall l :: l in f ==> l.parent != d[k]
    ensures TablesOk(d - {k}, f - {k}, used)
  {
    var d' := d - {k};
    forall l | l in d' ensures Reachable(d', d'[l]) {
      var c :| Walk(d, c) == Some(d[l]);
      WalkRemove(d, k, c, d[l]);
      assert Walk(d', c) == Some(d'[l]);
    }
    forall l | l in f && l != k ensures HasParent(d', l) {
      if l != ROOT_KEY {
        var m :| m in d && d[m] == l.parent;
        assert d'[m] == l.parent;
      }
    }
  }

  // ------------------------------------------------------------------ moving a directory

  function Moved(d: DirTable, k: Key, l: Key, id: nat): DirTable {
    (d - {k})[l := id]
  }

  /** Paths that do not lead through the moved directory stay. */
  lemma {:induction false} WalkAvoids(d: DirTable, k: Key, l: Key, ck: seq<Name>, c: seq<Name>)
    requires Injective(d) && k in d && l !in d && Walk(d, ck) == Some(d[k]) && Walk(d, c).Some? && !(ck <= c)
    ensures Walk(Moved(d, k, l, d[k]), c) == Walk(d, c)
  {
    if c != [] {
      var front := c[..|c| - 1];
      assert ck <= front ==> ck <= c;
      WalkAvoids(d, k, l, ck, front);
      if Key(Walk(d, front).value, c[|c| - 1]) == k { WalkUnique(d, c, ck); }
    }
  }

  /** Paths through the moved directory go through its new place. */
  lemma {:induction false} WalkMoved(d: DirTable, k: Key, l: Key, ck: seq<Name>, cl: seq<Name>, rest: seq<Name>)
    requires Injective(d) && k in d && l !in d && Walk(d, ck) == Some(d[k])
    requires Walk(d, cl) == Some(l.parent) && !(ck <= cl) && Walk(d, ck + rest).Some?
    ensures Walk(Moved(d, k, l, d[k]), cl + [l.name] + rest) == Walk(d, ck + rest)
  {
    var d' := Moved(d, k, l, d[k]);
    var full, next := ck + rest, cl + [l.name] + rest;
    if rest == [] {
      assert full == ck && next[..|next| - 1] == cl;
      WalkAvoids(d, k, l, ck, cl);
    } else {
      var front := rest[..|rest| - 1];
      assert full[..|full| - 1] == ck + front && next[..|next| - 1] == cl + [l.name] + front;
      WalkMoved(d, k, l, ck, cl, front);
      var at := Key(Walk(d, ck + front).value, rest[|rest| - 1]);
      assert at in d;
      if at == k { WalkUnique(d, full, ck); }
    }
  }

  lemma MoveDirReachable(d: DirTable, k: Key, l: Key, ck: seq<Name>, cl: seq<Name>, x: nat)
    requires Injective(d) && k in d && l !in d && Walk(d, ck) == Some(d[k])
    requires Walk(d, cl) == Some(l.parent) && !(ck <= cl) && Reachable(d, x)
    ensures Reachable(Moved(d, k, l, d[k]), x)
  {
    var d' := Moved(d, k, l, d[k]);
    var c :| Walk(d, c) == Some(x);
    if ck <= c {
      var rest := c[|ck|..];
      assert c == ck + rest;
      WalkMoved(d, k, l, ck, cl, rest);
      assert Walk(d', cl + [l.name] + rest) == Some(x);
    } else {
      WalkAvoids(d, k, l, ck, c);
      assert Walk(d', c) == Some(x);
    }
  }

  lemma MoveInjective(d: DirTable, k: Key, l: Key)
    requires Injective(d) && k in d && l !in d
    ensures Injective(Moved(d, k, l, d[k])) && d.Values <= Moved(d, k, l, d[k]).Values
  {
    var d' := Moved(d, k, l, d[k]);
    forall x | x in d.Values ensures x in d'.Values {
      var m :| m in d && d[m] == x;
      assert d'[if m == k then l else m] == x;
    }
    forall x, y | x in d' && y in d' && d'[x] == d'[y] ensures x == y {
      assert d[if x == l then k else x] == d[if y == l then k else y];
    }
  }

  lemma MoveDirTree(d: DirTable, k: Key, l: Key, ck: seq<Name>, cl: seq<Name>)
    requires IsTree(d) && k in d && l !in d && Walk(d, ck) == Some(d[k])
    requires Walk(d, cl) == Some(l.parent) && !(ck <= cl) && (l.parent == 0 ==> l == ROOT_KEY)
    ensures IsTree(Moved(d, k, l, d[k]))
  {
    MoveInjective(d, k, l);
    forall m | m in d ensures Reachable(Moved(d, k, l, d[k]), d[m]) { MoveDirReachable(d, k, l, ck, cl, d[m]); }
  }

  lemma MoveDirRow(d: DirTable, f: Files, k: Key, l: Key)
    requires Injective(d) && Parented(d, f) && DirsHaveRows(d, f) && k in d && l !in f && HasParent(d, l)
    ensures Parented(Moved(d, k, l, d[k]), MovedRow(f, k, l)) && DirsHaveRows(Moved(d, k, l, d[k]), MovedRow(f, k, l))
  {
    MoveInjective(d, k, l);
  }

  /** Moving a directory, with everything below it, to a place that is not below itself keeps everything; in
      particular no cycle appears. */
  lemma MoveDirKeeps(d: DirTable, f: Files, used: set<nat>, k: Key, l: Key, ck: seq<Name>, cl: seq<Name>)
    requires TablesOk(d, f, used) && k in d && l !in f && Walk(d, ck) == Some(d[k])
    requires Walk(d, cl) == Some(l.parent) && !(ck <= cl) && (l.parent == 0 ==> l == ROOT_KEY)
    ensures TablesOk(Moved(d, k, l, d[k]), MovedRow(f, k, l), used)
  {
    WalkParent(d, cl, l.parent);
    MoveInos(f, used, k, l);
    MoveDirRow(d, f, k, l);
    MoveDirTree(d, k, l, ck, cl);
  }

  /** Linking the new name to any other directory breaks the tree: that directory then has two names. */
  lemma WrongIdBreaks(d: DirTable, k: Key, l: Key, m: Key)
    requires IsTree(d) && k in d && l !in d && m in d && m != k
    ensures !IsTree(Moved(d, k, l, d[m]))
  {
    var d' := Moved(d, k, l, d[m]);
    assert m in d' && l in d' && d'[m] == d'[l] && m != l;
  }
}
