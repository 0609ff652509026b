/**
 What rename does to the tables, by entry, and exactly when that leaves them sound.
 */
module Rename {
  import opened Common
  import opened Paths
  import opened PathParse
  import opened PathMeaning
  import opened NamespaceTables
  import opened Namespace

  // ------------------------------------------------------------------ does the source exist as a directory

  /** A trailing separator, which the path walk reads as an empty last name. */
  predicate Trailing(path: Path) {
    |path| > 1 && path[|path| - 1] == SLASH
  }

  lemma {:induction false} SplitTrailing(s: Path)
    requires s != []
    ensures Split(s)[|Split(s)| - 1] == [] <==> s[|s| - 1] == SLASH
  {
    if |s| > 1 {
      SplitTrailing(s[1..]);
    } else {
      assert Split(s[1..]) == [[]];
    }
  }

  lemma TrailingName(path: Path)
    requires path != []
    ensures LastName(path) == [] <==> Trailing(path)
  {
    if |path| > 1 { SplitTrailing(path[1..]); }
  }

  /** What the existence check looks up: it stops at the end of the string, before an empty last name. */
  function CheckedComponents(path: Path): seq<Name>
    requires path != []
  {
    if LastName(path) == [] then Parents(path) else Components(path)
  }

  /** The directory a path leads to, or none; a trailing separator is ignored.  A path that does not start with the
      separator is an error. */
  method CheckPathExists(table: DirTable, path: Path) returns (ok: bool, id: Option<nat>)
    ensures ok <==> path != [] && path[0] == SLASH
    ensures ok ==> id == Walk(table, CheckedComponents(path))
  {
    if path == [] || path[0] != SLASH {
      return false, None;
    }
    ok := true;
    ghost var c, n := Components(path), 0;
    var start: nat, len: nat, parent := 0, 1, 0;
    while start < |path|
      invariant n <= |c| && start <= |path| && Walk(table, c[..n]) == Some(parent)
      invariant if start < |path| then AtPart(path, start, len, n) else c[..n] == CheckedComponents(path)
      decreases |c| - n
    {
      var key := Key(parent, path[start..start + len]);
      assert c[..n + 1][..n] == c[..n];
      if key !in table {
        NotFurther(table, path, n + 1);
        return true, None;
      }
      parent := table[key];
      n := n + 1;
      if start + len == |path| {
        assert c[..n] == c;
        break;
      }
      start, len := NextPart(path, start, len, n - 1);
    }
    assert c[..n] == CheckedComponents(path);
    id := Some(parent);
  }

  lemma NotFurther(table: DirTable, path: Path, n: nat)
    requires path != [] && n <= |CheckedComponents(path)| && Walk(table, Components(path)[..n]).None?
    ensures Walk(table, CheckedComponents(path)).None?
  {
    var c := CheckedComponents(path);
    assert c[..n] == Components(path)[..n];
    if Walk(table, c).Some? { WalkPrefix(table, c, n); }
  }

  // ------------------------------------------------------------------ when rename succeeds

  ghost predicate CanMoveFile(d: DirTable, src: Path, dst: Path)
    requires src != [] && dst != []
  {
    !Trailing(src) && src != ROOT && dst != ROOT && KeyFor(d, src).Some? && KeyFor(d, dst).Some?
  }

  /** The source is there, the destination has a parent and is free; a directory does not go below itself. */
  ghost predicate CanRename(d: DirTable, f: Files, src: Path, dst: Path)
    requires src != [] && dst != []
  {
    && src[0] == SLASH
    && (if Walk(d, CheckedComponents(src)).Some? then CanMoveDir(d, src, dst) else CanMoveFile(d, src, dst))
    && KeyFor(d, src).value in f && KeyFor(d, dst).value !in f - {KeyFor(d, src).value}
  }

  /** The directory entry the rename writes: the new name gets the id that the existence check returned. */
  function RenamedDirs(d: DirTable, src: Path, k: Key, l: Key): DirTable
    requires src != []
  {
    var id := Walk(d, CheckedComponents(src));
    if id.None? then d else Moved(d, k, l, id.value)
  }

  /** A path that does not start with the separator has a parent only when it is a single byte. */
  lemma BadPath(d: DirTable, path: Path)
    requires IsTree(d) && path != [] && path[0] != SLASH && KeyFor(d, path).Some?
    ensures KeyFor(d, path).value.parent == 0 && KeyFor(d, path).value != ROOT_KEY
  {
    var c := Parents(path);
    if c != [] {
      assert c[..1][..0] == [] && c[0] == path[..1];
      WalkPrefix(d, c, 1);
    }
    assert LastName(path) == path || c != [];
  }

  /** Moving a directory leaves the tables sound if and only if the source has no trailing separator, so that the
      id is its own, and the destination starts with the separator. */
  lemma MoveDirSoundIff(d: DirTable, f: Files, used: set<nat>, src: Path, dst: Path)
    requires TablesOk(d, f, used) && src != [] && dst != [] && CanRename(d, f, src, dst)
    requires Walk(d, CheckedComponents(src)).Some?
    ensures var k, l := KeyFor(d, src).value, KeyFor(d, dst).value;
      TablesOk(RenamedDirs(d, src, k, l), MovedRow(f, k, l), used) <==> !Trailing(src) && dst[0] == SLASH
  {
    var k, l := KeyFor(d, src).value, KeyFor(d, dst).value;
    WalkOfPath(d, src);
    TrailingName(src);
    if Trailing(src) {
      TrailingBreaks(d, src, k, l);
    } else if dst[0] != SLASH {
      BadPath(d, dst);
      assert l in RenamedDirs(d, src, k, l);
    } else {
      RootOnly(d, dst);
      MoveDirKeeps(d, f, used, k, l, Components(src), Parents(dst));
    }
  }

  /** With a trailing separator the parent directory gets the new name as a second one. */
  lemma TrailingBreaks(d: DirTable, src: Path, k: Key, l: Key)
    requires IsTree(d) && src != [] && Trailing(src) && KeyFor(d, src) == Some(k) && k in d && l !in d
    ensures !IsTree(RenamedDirs(d, src, k, l))
  {
    TrailingName(src);
    WalkOfPath(d, src);
    WalkParent(d, Parents(src), k.parent);
    var m :| m in d && d[m] == k.parent;
    if m == k { WalkUnique(d, Parents(src), Components(src)); }
    WrongIdBreaks(d, k, l, m);
  }

  /** Moving a file leaves the tables sound if and only if the destination starts with the separator. */
  lemma MoveFileSoundIff(d: DirTable, f: Files, used: set<nat>, src: Path, dst: Path)
    requires TablesOk(d, f, used) && src != [] && dst != [] && CanRename(d, f, src, dst)
    requires Walk(d, CheckedComponents(src)).None?
    ensures var k, l := KeyFor(d, src).value, KeyFor(d, dst).value;
      TablesOk(d, MovedRow(f, k, l), used) <==> dst[0] == SLASH
  {
    var k, l := KeyFor(d, src).value, KeyFor(d, dst).value;
    WalkOfPath(d, src);
    TrailingName(src);
    FileParent(d, src, k);
    if dst[0] == SLASH {
      FileParent(d, dst, l);
    } else {
      BadPath(d, dst);
    }
    if k == l {
      assert MovedRow(f, k, l) == f;
    } else {
      MoveFileKeepsIff(d, f, used, k, l);
    }
  }

  /** A rename that succeeds leaves the tables sound if and only if the source has no trailing separator and the
      destination starts with the separator. */
  lemma RenameSoundIff(d: DirTable, f: Files, used: set<nat>, src: Path, dst: Path)
    requires TablesOk(d, f, used) && src != [] && dst != [] && CanRename(d, f, src, dst)
    ensures var k, l := KeyFor(d, src).value, KeyFor(d, dst).value;
      TablesOk(RenamedDirs(d, src, k, l), MovedRow(f, k, l), used) <==> !Trailing(src) && dst[0] == SLASH
  {
    if Walk(d, CheckedComponents(src)).Some? {
      MoveDirSoundIff(d, f, used, src, dst);
    } else {
      MoveFileSoundIff(d, f, used, src, dst);
    }
  }

  // ------------------------------------------------------------------ two examples

  /** The directory "/a" is renamed to a path without the leading separator, and ends up beside the root. */
  lemma RenameToRelativePath(src: Path, dst: Path)
    requires src == "/a" && dst == "b"
    ensures var d, f := ROOT_AND_A, ROWS_OF_A;
      TablesOk(d, f, {1, 2}) && CanRename(d, f, src, dst)
      && !TablesOk(RenamedDirs(d, src, KEY_A, Key(0, "b")), MovedRow(f, KEY_A, Key(0, "b")), {1, 2})
  {
    ExampleIsOk();
    WalkToA();
    assert Components(dst) == ["b"] && Parents(dst) == [] && KeyFor(ROOT_AND_A, dst) == Some(Key(0, "b"));
    assert CheckedComponents(src) == ["/", "a"];
    RenameSoundIff(ROOT_AND_A, ROWS_OF_A, {1, 2}, src, dst);
  }

  /** What mkdir makes of "/a/": a directory with an empty name below "/a". */
  const KEY_EMPTY := Key(2, "")
  const WITH_EMPTY: DirTable := ROOT_AND_A[KEY_EMPTY := 3]
  const ROWS_WITH_EMPTY: Files := ROWS_OF_A[KEY_EMPTY := Row(3, true, 1)]

  lemma PathsOfExample()
    ensures Components("/a/") == ["/", "a", ""] && Components("/b") == ["/", "b"]
    ensures Walk(WITH_EMPTY, ["/"]) == Some(1) && Walk(WITH_EMPTY, ["/", "a"]) == Some(2)
  {
    assert "/a/"[1..] == "a/" && "a/"[1..] == "/" && "/"[1..] == [] && "/a/"[..1] == "/";
    assert Split([]) == [[]];
    assert Split("/") == [[]] + [[]];
    assert ['a'] + [] == "a";
    assert Split("a/") == [['a'] + []] + [[]] == ["a", ""];
    assert "/b"[1..] == "b" && "/b"[..1] == "/" && "b"[1..] == [];
    assert ['b'] + [] == "b";
    assert Split("b") == [['b'] + []] + [] == ["b"];
    assert ["/"][..0] == [] && ["/", "a"][..1] == ["/"];
  }

  lemma WithEmptyIsOk()
    ensures TablesOk(WITH_EMPTY, ROWS_WITH_EMPTY, {1, 2, 3})
  {
    ExampleIsOk();
    WalkToA();
    AddDirKeeps(ROOT_AND_A, ROWS_OF_A, {1, 2}, KEY_EMPTY, ["/", "a"], 3);
    assert {1, 2} + {3} == {1, 2, 3};
  }

  lemma PlacesOfExample(src: Path, dst: Path)
    requires src == "/a/" && dst == "/b"
    ensures KeyFor(WITH_EMPTY, src) == Some(KEY_EMPTY) && KeyFor(WITH_EMPTY, dst) == Some(Key(1, "b"))
    ensures Walk(WITH_EMPTY, CheckedComponents(src)) == Some(2) && CanRename(WITH_EMPTY, ROWS_WITH_EMPTY, src, dst)
  {
    PathsOfExample();
    assert Parents(src) == ["/", "a"] && LastName(src) == "" && Parents(dst) == ["/"] && LastName(dst) == "b";
    assert !(Components(src) <= Parents(dst));
  }

  /** A trailing separator in the source gives the new name the id of the parent, which then has two names. */
  lemma RenameFromTrailingPath(src: Path, dst: Path)
    requires src == "/a/" && dst == "/b"
    ensures var d, f, l := WITH_EMPTY, ROWS_WITH_EMPTY, Key(1, "b");
      && TablesOk(d, f, {1, 2, 3}) && CanRename(d, f, src, dst)
      && RenamedDirs(d, src, KEY_EMPTY, l) == Moved(d, KEY_EMPTY, l, d[KEY_A])
      && !TablesOk(RenamedDirs(d, src, KEY_EMPTY, l), MovedRow(f, KEY_EMPTY, l), {1, 2, 3})
  {
    WithEmptyIsOk();
    PlacesOfExample(src, dst);
    RenameSoundIff(WITH_EMPTY, ROWS_WITH_EMPTY, {1, 2, 3}, src, dst);
  }
}
