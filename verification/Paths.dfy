/**
 Paths and their order.  A path is a string whose characters stand for the bytes of a C string; the metadata
 servers walk it component by component, where the first byte is a component of its own (the name of the root
 directory is "/").
 */
module Paths {
  type Name = string
  type Path = string

  const SLASH: char := '/'
  const ROOT: Name := [SLASH]

  // ------------------------------------------------------------------ the order of pathcmp

  /** End of path, then the separator, then every other byte. */
  function Weight(b: char): int {
    if b == SLASH then 1 else b as int + 2
  }

  /** Lexicographic order over the weights, a proper prefix first. */
  predicate Less(p: Path, q: Path) {
    if q == [] then false
    else if p == [] then true
    else if p[0] == q[0] then Less(p[1..], q[1..])
    else Weight(p[0]) < Weight(q[0])
  }

  /** The loop of pathcmp, where ByteAt gives the terminating zero past the end. */
  method PathCmp(p: Path, q: Path) returns (r: int)
    requires '\0' !in p && '\0' !in q
    ensures r < 0 <==> Less(p, q)
    ensures r == 0 <==> p == q
    ensures r > 0 <==> Less(q, p)
  {
    var i := 0;
    var c1, c2 := ByteAt(p, i), ByteAt(q, i);
    LessSkips(p, q, 0);
    while c1 != 0 && c1 == c2
      invariant 0 <= i <= |p| && i <= |q| && p[..i] == q[..i]
      invariant c1 == ByteAt(p, i) && c2 == ByteAt(q, i)
      decreases |p| - i
    {
      i := i + 1;
      c1, c2 := ByteAt(p, i), ByteAt(q, i);
    }
    LessSkips(p, q, i);
    LessSkips(q, p, i);
    assert p == p[..i] + p[i..] && q == q[..i] + q[i..];
    if c1 == 0 {
      return c1 - c2;
    }
    if c2 == 0 || c2 == SLASH as int {
      return 1;
    }
    if c1 == SLASH as int {
      return -1;
    }
    return c1 - c2;
  }

  function ByteAt(p: Path, i: nat): int {
    if i < |p| then p[i] as int else 0
  }

  /** A common beginning does not matter. */
  lemma {:induction false} LessSkips(p: Path, q: Path, i: nat)
    requires i <= |p| && i <= |q| && p[..i] == q[..i]
    ensures Less(p, q) <==> Less(p[i..], q[i..])
  {
    if i > 0 {
      assert p[0] == p[..i][0] && q[0] == q[..i][0];
      assert p[1..][..i - 1] == p[..i][1..] && q[1..][..i - 1] == q[..i][1..];
      LessSkips(p[1..], q[1..], i - 1);
      assert p[1..][i - 1..] == p[i..] && q[1..][i - 1..] == q[i..];
    } else {
      assert p[0..] == p && q[0..] == q;
    }
  }

  lemma {:induction false} LessIrreflexive(p: Path)
    ensures !Less(p, p)
  {
    if p != [] { LessIrreflexive(p[1..]); }
  }

  lemma {:induction false} LessTransitive(p: Path, q: Path, r: Path)
    requires Less(p, q) && Less(q, r)
    ensures Less(p, r)
  {
    if p != [] && p[0] == q[0] && q[0] == r[0] { LessTransitive(p[1..], q[1..], r[1..]); }
  }

  lemma {:induction false} LessTotal(p: Path, q: Path)
    ensures Less(p, q) || p == q || Less(q, p)
  {
    if p != [] && q != [] && p[0] == q[0] {
      LessTotal(p[1..], q[1..]);
      assert p == [p[0]] + p[1..] && q == [q[0]] + q[1..];
    }
  }

  // ------------------------------------------------------------------ components

  /** The parts between separators; the empty string has one empty part. */
  function Split(s: Path): (r: seq<Name>)
    ensures r != []
  {
    if s == [] then [[]]
    else
      var rest := Split(s[1..]);
      if s[0] == SLASH then [[]] + rest else [[s[0]] + rest[0]] + rest[1..]
  }

  /** The names the path walk looks up: the first byte, then the parts of the remainder. */
  function Components(path: Path): (r: seq<Name>)
    requires path != []
    ensures r != []
  {
    if |path| == 1 then [path] else [path[..1]] + Split(path[1..])
  }

  predicate ComponentsLess(c: seq<Name>, d: seq<Name>) {
    if d == [] then false
    else if c == [] then true
    else if c[0] == d[0] then ComponentsLess(c[1..], d[1..])
    else Less(c[0], d[0])
  }

  /** pathcmp orders the remainders of two paths as it orders their lists of parts. */
  lemma {:induction false} SplitOrder(s: Path, t: Path)
    ensures Less(s, t) <==> ComponentsLess(Split(s), Split(t))
    ensures s == t <==> Split(s) == Split(t)
  {
    if s != [] && t != [] {
      SplitOrder(s[1..], t[1..]);
      var u, v := Split(s[1..]), Split(t[1..]);
      assert s == [s[0]] + s[1..] && t == [t[0]] + t[1..];
      if s[0] == t[0] {
        if s[0] == SLASH {
          assert Split(s)[1..] == u && Split(t)[1..] == v;
        } else {
          HeadOrder(s[0], u, v);
          assert Split(s) == WithHead(s[0], u) && Split(t) == WithHead(s[0], v);
        }
      } else if s[0] == SLASH || t[0] == SLASH {
        assert (Split(s)[0] == []) != (Split(t)[0] == []);
      } else {
        assert Split(s)[0][0] == s[0] && Split(t)[0][0] == t[0];
      }
    } else if s != [] {
      assert Split(t) == [[]];
      assert s[0] == SLASH ==> Split(s)[1..] == Split(s[1..]);
    } else if t != [] {
      assert Split(s) == [[]];
      assert t[0] == SLASH ==> Split(t)[1..] == Split(t[1..]);
    }
  }

  function WithHead(b: char, u: seq<Name>): seq<Name>
    requires u != []
  {
    [[b] + u[0]] + u[1..]
  }

  /** Putting the same byte in front of both first parts changes nothing. */
  lemma HeadEqual(b: char, u: seq<Name>, v: seq<Name>)
    requires u != [] && v != []
    ensures WithHead(b, u) == WithHead(b, v) <==> u == v
    ensures WithHead(b, u)[0] == WithHead(b, v)[0] <==> u[0] == v[0]
  {
    var x, y := WithHead(b, u), WithHead(b, v);
    assert x[0][1..] == u[0] && y[0][1..] == v[0];
    if x == y {
      assert x[1..] == u[1..] && y[1..] == v[1..];
      assert u == [u[0]] + u[1..] && v == [v[0]] + v[1..];
    }
  }

  lemma HeadOrder(b: char, u: seq<Name>, v: seq<Name>)
    requires u != [] && v != []
    ensures ComponentsLess(WithHead(b, u), WithHead(b, v)) <==> ComponentsLess(u, v)
    ensures WithHead(b, u) == WithHead(b, v) <==> u == v
  {
    var x, y := WithHead(b, u), WithHead(b, v);
    HeadEqual(b, u, v);
    assert x[1..] == u[1..] && y[1..] == v[1..];
    assert x[0][1..] == u[0] && y[0][1..] == v[0] && x[0][0] == y[0][0];
    assert Less(x[0], y[0]) <==> Less(u[0], v[0]);
  }

  /** pathcmp orders paths as it orders their components, so sorting paths sorts what the walk visits. */
  lemma ComponentsOrder(p: Path, q: Path)
    requires p != [] && q != []
    ensures Less(p, q) <==> ComponentsLess(Components(p), Components(q))
    ensures p == q <==> Components(p) == Components(q)
  {
    var c, d := Components(p), Components(q);
    assert p == [p[0]] + p[1..] && q == [q[0]] + q[1..];
    assert p[..1] == [p[0]] && q[..1] == [q[0]];
    assert c[0] == d[0] <==> p[0] == q[0];
    SplitOrder(p[1..], q[1..]);
    if p[0] == q[0] && |p| > 1 && |q| > 1 {
      assert c[1..] == Split(p[1..]) && d[1..] == Split(q[1..]);
    } else if p[0] != q[0] {
      assert Less(c[0], d[0]) <==> Weight(p[0]) < Weight(q[0]);
    }
  }

  lemma {:induction false} ComponentsLessIrreflexive(c: seq<Name>)
    ensures !ComponentsLess(c, c)
  {
    if c != [] { ComponentsLessIrreflexive(c[1..]); }
  }

  lemma {:induction false} ComponentsLessTransitive(c: seq<Name>, d: seq<Name>, e: seq<Name>)
    requires ComponentsLess(c, d) && ComponentsLess(d, e)
    ensures ComponentsLess(c, e)
  {
    if c != [] {
      if c[0] == d[0] == e[0] {
        ComponentsLessTransitive(c[1..], d[1..], e[1..]);
      } else if c[0] != d[0] && d[0] != e[0] {
        LessTransitive(c[0], d[0], e[0]);
        if c[0] == e[0] { LessIrreflexive(c[0]); }
      }
    }
  }

  lemma {:induction false} ComponentsLessTotal(c: seq<Name>, d: seq<Name>)
    ensures ComponentsLess(c, d) || c == d || ComponentsLess(d, c)
  {
    if c != [] && d != [] {
      LessTotal(c[0], d[0]);
      if c[0] == d[0] {
        ComponentsLessTotal(c[1..], d[1..]);
        assert c == [c[0]] + c[1..] && d == [d[0]] + d[1..];
      }
    }
  }

  predicate AtMost(c: seq<Name>, d: seq<Name>) {
    c == d || ComponentsLess(c, d)
  }

  /** Ancestors come first. */
  lemma {:induction false} AncestorFirst(c: seq<Name>, d: seq<Name>)
    requires c < d
    ensures ComponentsLess(c, d)
  {
    if c != [] {
      assert c[0] == d[0] && c[1..] < d[1..];
      AncestorFirst(c[1..], d[1..]);
    }
  }

  /** Subtrees are contiguous: what sorts between an ancestor and something below it is below it too. */
  lemma {:induction false} SubtreeContiguous(top: seq<Name>, c: seq<Name>, below: seq<Name>)
    requires AtMost(top, c) && AtMost(c, below) && top <= below
    ensures top <= c
  {
    if top != [] && c != top && c != below {
      assert top[0] == below[0];
      if c[0] != top[0] {
        LessTransitive(top[0], c[0], below[0]);
        LessIrreflexive(top[0]);
      } else {
        assert top[1..] <= below[1..];
        SubtreeContiguous(top[1..], c[1..], below[1..]);
        assert top == [top[0]] + top[1..] && c == [c[0]] + c[1..];
      }
    }
  }

  lemma SplitFront(b: char, u: seq<Name>, v: seq<Name>)
    requires u != []
    ensures [[b] + (u + v)[0]] + (u + v)[1..] == ([[b] + u[0]] + u[1..]) + v && [[]] + (u + v) == ([[]] + u) + v
  {
  }

  /** The parts of a joined string are the parts of its two halves. */
  lemma {:induction false} SplitConcat(s: Path, t: Path)
    ensures Split(s + [SLASH] + t) == Split(s) + Split(t)
  {
    var whole := s + [SLASH] + t;
    if s == [] {
      assert whole[1..] == t;
    } else {
      var rest := s[1..] + [SLASH] + t;
      assert whole[0] == s[0] && whole[1..] == rest;
      SplitConcat(s[1..], t);
      SplitFront(s[0], Split(s[1..]), Split(t));
    }
  }

  /** Being an ancestor as a string is being a prefix as a list of components. */
  lemma StringAncestor(p: Path, rest: Path)
    requires |p| > 1
    ensures Components(p) < Components(p + [SLASH] + rest)
    ensures Less(p, p + [SLASH] + rest)
  {
    var whole := p + [SLASH] + rest;
    assert whole[1..] == p[1..] + [SLASH] + rest && whole[..1] == p[..1];
    SplitConcat(p[1..], rest);
    assert Components(p) == Components(whole)[..|Components(p)|];
    AncestorFirst(Components(p), Components(whole));
    ComponentsOrder(p, whole);
  }
}
