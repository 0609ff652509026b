/**
 What the path walk answers, said without the transaction's tree: exactly when each kind of request finds its
 target, and when the two walks of a rename both succeed.
 */
module PathMeaning {
  import opened Common
  import opened Paths
  import opened PathParse
  import opened PathLocks

  function Parents(path: Path): seq<Name>
    requires path != []
  {
    Components(path)[..|Components(path)| - 1]
  }

  function LastName(path: Path): Name
    requires path != []
  {
    Components(path)[|Components(path)| - 1]
  }

  /** The table key of a path, where its parent exists. */
  function KeyFor(table: DirTable, path: Path): Option<Key>
    requires path != []
  {
    var parent := Walk(table, Parents(path));
    if parent.None? then None else Some(Key(parent.value, LastName(path)))
  }

  lemma WalkOfPath(table: DirTable, path: Path)
    requires path != []
    ensures Walk(table, Components(path)) ==
            var k := KeyFor(table, path); if k.None? || k.value !in table then None else Some(table[k.value])
  {
  }

  ghost predicate NoneExclusive(tree: Tree) {
    forall c :: c in tree ==> !tree[c].lock.Exclusive?
  }

  /** Without a directory being removed or moved, the walk to the parent answers what the table answers. */
  lemma ParentsMeaning(tree: Tree, log: Log, table: DirTable, path: Path)
    requires path != [] && TreeOk(tree, table) && NoneExclusive(tree)
    ensures var d := Descend(tree, log, table, Components(path), |Components(path)| - 1);
      && TreeOk(d.tree, table) && NoneExclusive(d.tree)
      && (if d.Reached? then Walk(table, Parents(path)) == Some(d.id)
          else d.code == PathIsInvalid && Walk(table, Parents(path)).None?)
  {
    var c := Components(path);
    DescendTree(tree, log, table, c, |c| - 1);
    if Descend(tree, log, table, c, |c| - 1).Failed? { DescendFailure(tree, log, table, c, |c| - 1); }
  }

  /** The code of a walk without a target of its own: create, stat and unlink. */
  lemma ParseParent(tree: Tree, log: Log, table: DirTable, path: Path, kind: Kind, newId: nat)
    requires path != [] && TreeOk(tree, table) && NoneExclusive(tree) && !kind.Mkdir? && path != ROOT
    ensures var o := Parse(tree, log, table, path, FlagsOf(kind), newId, 0);
      && TreeOk(o.tree, table) && NoneExclusive(o.tree)
      && (if KeyFor(table, path).None? then o.code == PathIsInvalid
          else o.code == Success && KeyFor(table, path) == Some(Key(o.parent, o.name))
               && (kind.Create? ==> o.inode == newId))
  {
    ParentsMeaning(tree, log, table, path);
  }

  /** The code of a mkdir: the parent is missing, the directory is there, or it is made. */
  lemma ParseMkdir(tree: Tree, log: Log, table: DirTable, path: Path, newId: nat)
    requires path != [] && TreeOk(tree, table) && NoneExclusive(tree)
    ensures var o := Parse(tree, log, table, path, FlagsOf(Mkdir), newId, 0);
      var k := KeyFor(table, path);
      && NoneExclusive(o.tree)
      && (if k.None? then o.code == PathIsInvalid && TreeOk(o.tree, table)
          else if k.value in table then o.code == PathExists && TreeOk(o.tree, table)
          else o.code == Success && k == Some(Key(o.parent, o.name)) && o.inode == newId
               && TreeOk(o.tree, table[k.value := newId]))
  {
    ParentsMeaning(tree, log, table, path);
    var c := Components(path);
    var d := Descend(tree, log, table, c, |c| - 1);
    if d.Reached? {
      var key := Key(d.id, c[|c| - 1]);
      if key !in table {
        assert c !in d.tree;
        MadeTree(d.tree, table, c, key, newId);
      }
    }
  }

  lemma MadeTree(tree: Tree, table: DirTable, c: seq<Name>, key: Key, id: nat)
    requires TreeOk(tree, table) && key !in table && c != []
    requires key.name == c[|c| - 1] && Walk(table, c[..|c| - 1]) == Some(key.parent)
    ensures TreeOk(tree[c := Node(id, ExclusiveForCreate)], table[key := id])
  {
    forall x | x in tree && !tree[x].lock.Exclusive? ensures Walk(table[key := id], x) == Some(tree[x].id) {
      WalkInsert(table, x, key, id);
    }
    WalkInsert(table, c[..|c| - 1], key, id);
  }

  // ------------------------------------------------------------------ removing and moving directories

  /** The flags of the source of rmdir and of rename, and of the destination of rename. */
  function Leaving(directory: bool): Flags {
    Flags(true, directory, false, false, true, false)
  }

  function Arriving(directory: bool): Flags {
    Flags(true, directory, true, true, false, false)
  }

  /** In a new transaction the directory to remove is found exactly when it is there and is not the root. */
  lemma ParseLeaving(table: DirTable, path: Path)
    requires path != []
    ensures var o := Parse(map[], [], table, path, Leaving(true), 0, 0);
      var k := KeyFor(table, path);
      && (o.code == Success <==> path != ROOT && k.Some? && k.value in table)
      && (o.code == Success ==> k == Some(Key(o.parent, o.name)) && o.inode == table[k.value])
  {
    ParentsMeaning(map[], [], table, path);
    OnlyAbove(table, path);
  }

  lemma OnlyAbove(table: DirTable, path: Path)
    requires path != []
    ensures var d := Descend(map[], [], table, Components(path), |Components(path)| - 1);
      forall x :: x in d.tree ==> x < Components(path)
  {
    var c := Components(path);
    DescendTree(map[], [], table, c, |c| - 1);
    var d := Descend(map[], [], table, c, |c| - 1);
    forall x | x in d.tree ensures x < c { assert x <= c[..|c| - 1]; }
  }

  lemma PrefixWalks(table: DirTable, c: seq<Name>, pre: seq<Name>)
    requires pre <= c && Walk(table, c).Some?
    ensures Walk(table, pre).Some?
  {
    assert c[..|pre|] == pre;
    WalkPrefix(table, c, |pre|);
  }

  /** Neither walk of a file's rename takes its target: each finds its entry when the parent exists. */
  lemma ParseFileMove(tree: Tree, log: Log, table: DirTable, path: Path, flags: Flags, id: nat)
    requires path != [] && TreeOk(tree, table) && NoneExclusive(tree) && flags in {Leaving(false), Arriving(false)}
    ensures var o := Parse(tree, log, table, path, flags, 0, id);
      && TreeOk(o.tree, table) && NoneExclusive(o.tree)
      && (o.code == Success <==> path != ROOT && KeyFor(table, path).Some?)
      && (o.code == Success ==> KeyFor(table, path) == Some(Key(o.parent, o.name)))
  {
    ParentsMeaning(tree, log, table, path);
  }

  /** What the first walk of a rename leaves in the tree: its own target, and shared directories above it. */
  ghost predicate FirstWalk(tree: Tree, table: DirTable, c: seq<Name>) {
    && TreeOk(tree, table) && c != []
    && forall x :: x in tree ==> x <= c && (tree[x].lock.Exclusive? <==> x == c)
  }

  lemma FirstWalkTree(table: DirTable, path: Path, flags: Flags, input: nat)
    requires path != [] && flags in {Leaving(true), Arriving(true)}
    requires Parse(map[], [], table, path, flags, 0, input).code == Success
    ensures var o := Parse(map[], [], table, path, flags, 0, input);
      FirstWalk(o.tree, table, Components(path)) && Components(path) in o.tree
  {
    var c := Components(path);
    ParentsMeaning(map[], [], table, path);
    OnlyAbove(table, path);
    var d := Descend(map[], [], table, c, |c| - 1);
    var o := Parse(map[], [], table, path, flags, 0, input);
    if flags == Leaving(true) {
      assert o.tree == d.tree[c := o.tree[c]];
    } else {
      assert o.tree == d.tree[c := Node(input, Exclusive)];
    }
  }

  /** The second walk, past the target of the first. */
  lemma SecondWalk(tree: Tree, log: Log, table: DirTable, first: seq<Name>, path: Path)
    requires path != [] && FirstWalk(tree, table, first) && first in tree
    ensures var d := Descend(tree, log, table, Components(path), |Components(path)| - 1);
      && (d.Reached? <==> Walk(table, Parents(path)).Some? && !(first <= Parents(path)))
      && (d.Reached? ==> Walk(table, Parents(path)) == Some(d.id))
      && (d.Reached? ==> forall x :: x in d.tree ==> x in tree || x <= Parents(path))
      && (d.Failed? ==> d.code != Success)
  {
    var c := Components(path);
    var n := |c| - 1;
    var d := Descend(tree, log, table, c, n);
    DescendTree(tree, log, table, c, n);
    if d.Failed? {
      DescendFailure(tree, log, table, c, n);
      if d.code != PathIsInvalid {
        var i :| 0 < i <= n && c[..i] in tree && tree[c[..i]].lock.Exclusive?;
        assert c[..i] == first && c[..i] <= c[..n];
      }
    } else if first <= c[..n] {
      assert c[..|first|] == c[..n][..|first|] == first;
      DescendMarks(tree, log, table, c, n, |first|);
    }
  }

  /** When a rename of a directory finds both its places: the source is a directory other than the root, the
      destination has an existing parent, does not exist itself, and is not below the source. */
  ghost predicate CanMoveDir(table: DirTable, src: Path, dst: Path)
    requires src != [] && dst != []
  {
    var k, l := KeyFor(table, src), KeyFor(table, dst);
    && src != ROOT && dst != ROOT && k.Some? && l.Some? && k.value in table && l.value !in table
    && !(Components(src) <= Parents(dst))
  }

  /** Source first, which is the order when the source sorts before the destination. */
  lemma MoveSrcFirst(table: DirTable, src: Path, dst: Path, id: nat)
    requires src != [] && dst != []
    ensures var o := Parse(map[], [], table, src, Leaving(true), 0, 0);
      var o' := Parse(o.tree, o.locks, table, dst, Arriving(true), 0, id);
      && (o.code == Success && o'.code == Success <==> CanMoveDir(table, src, dst))
      && (CanMoveDir(table, src, dst) ==> KeyFor(table, src) == Some(Key(o.parent, o.name)))
      && (CanMoveDir(table, src, dst) ==> KeyFor(table, dst) == Some(Key(o'.parent, o'.name)))
  {
    var o := Parse(map[], [], table, src, Leaving(true), 0, 0);
    ParseLeaving(table, src);
    if o.code == Success {
      var ck, cl := Components(src), Components(dst);
      FirstWalkTree(table, src, Leaving(true), 0);
      SecondWalk(o.tree, o.locks, table, ck, dst);
      var d := Descend(o.tree, o.locks, table, cl, |cl| - 1);
      if d.Reached? && cl in d.tree {
        ExistingTarget(table, o.tree, ck, dst);
      }
    }
  }

  /** A second target that the tree already knows is in the table. */
  lemma ExistingTarget(table: DirTable, tree: Tree, first: seq<Name>, path: Path)
    requires path != [] && FirstWalk(tree, table, first) && Walk(table, first).Some?
    requires Components(path) in tree || Components(path) <= Parents(path)
    ensures KeyFor(table, path).Some? && KeyFor(table, path).value in table
  {
    WalkOfPath(table, path);
  }

  /** Destination first, which is the order when it sorts before the source. */
  lemma MoveDstFirst(table: DirTable, src: Path, dst: Path, id: nat)
    requires src != [] && dst != [] && Less(dst, src)
    ensures var o' := Parse(map[], [], table, dst, Arriving(true), 0, id);
      var o := Parse(o'.tree, o'.locks, table, src, Leaving(true), 0, 0);
      && (o'.code == Success && o.code == Success <==> CanMoveDir(table, src, dst))
      && (CanMoveDir(table, src, dst) ==> KeyFor(table, src) == Some(Key(o.parent, o.name)))
      && (CanMoveDir(table, src, dst) ==> KeyFor(table, dst) == Some(Key(o'.parent, o'.name)))
  {
    var o' := Parse(map[], [], table, dst, Arriving(true), 0, id);
    var ck, cl := Components(src), Components(dst);
    ParentsMeaning(map[], [], table, dst);
    NotBelow(src, dst);
    if o'.code == Success {
      FirstWalkTree(table, dst, Arriving(true), id);
      SecondWalk(o'.tree, o'.locks, table, cl, src);
      var d := Descend(o'.tree, o'.locks, table, ck, |ck| - 1);
      WalkOfPath(table, dst);
      if Walk(table, Parents(src)).Some? && cl <= Parents(src) { PrefixWalks(table, Parents(src), cl); }
    }
  }

  /** A path that sorts after another is not its ancestor. */
  lemma NotBelow(src: Path, dst: Path)
    requires src != [] && dst != [] && Less(dst, src)
    ensures !(Components(src) <= Components(dst))
  {
    var ck, cl := Components(src), Components(dst);
    ComponentsOrder(dst, src);
    if ck <= cl {
      if ck != cl { AncestorFirst(ck, cl); }
      ComponentsLessTransitive(cl, ck, cl);
      ComponentsLessIrreflexive(cl);
    }
  }
}
