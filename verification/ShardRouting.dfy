/**
 Which shard and which server an inode row belongs to: the part id of a name, the hash of the part id, the
 shard table the coordinator builds, the server's binary search and the client's ordered map.
 */
module ShardRouting {
  import opened Common
  import opened Paths

  const PART_COUNT: nat := 0x2000
  const FILENAME_LENGTH: nat := 256
  const RANGE_MAX: nat := 0x7FFF_FFFF
  const SHARD_COUNT_MAX: nat := 100_000_000

  // ------------------------------------------------------------------ hashes

  /** A byte as the signed char it is read through. */
  function CharValue(b: char): int {
    if b as int < 128 then b as int else b as int - 256
  }

  /** The 16-bit hash of a name before masking. */
  function NameHash(name: Name): (h: nat)
    ensures h < 0x1_0000
  {
    if name == [] then 0 else (NameHash(name[..|name| - 1]) * 31 + CharValue(name[|name| - 1])) % 0x1_0000
  }

  function Capped(name: Name): Name {
    if |name| <= FILENAME_LENGTH then name else name[..FILENAME_LENGTH]
  }

  function PartId(name: Name): (p: nat)
    ensures p < PART_COUNT
  {
    NameHash(Capped(name)) % PART_COUNT
  }

  /** The hash loop, in 16-bit arithmetic. */
  method HashPartId(name: Name) returns (part: nat)
    ensures part == PartId(name)
  {
    var hash, i := 0, 0;
    var n := Capped(name);
    while i < |n|
      invariant 0 <= i <= |n| && hash == NameHash(n[..i])
    {
      hash := (hash * 31 + CharValue(n[i])) % 0x1_0000;
      assert n[..i + 1][..i] == n[..i];
      i := i + 1;
    }
    assert n[..i] == n;
    part := hash % PART_COUNT;
  }

  function Combine(parent: nat, part: nat): nat
    requires part < PART_COUNT
  {
    parent * PART_COUNT + part
  }

  /** Parent and part are both read back from the combined id, and one parent's ids form one range. */
  lemma CombineInverts(parent: nat, part: nat)
    requires part < PART_COUNT
    ensures Combine(parent, part) / PART_COUNT == parent && Combine(parent, part) % PART_COUNT == part
    ensures forall pp: nat :: Combine(parent, 0) <= pp <= Combine(parent, PART_COUNT - 1) <==> pp / PART_COUNT == parent
  {
  }

  function Rotate(w: bv32, n: nat): bv32
    requires 0 < n < 32
  {
    w.RotateLeft(n)
  }

  /** The 32-bit mixing function, the same one on both sides. */
  function HashBytesUint32(k: bv32): bv32 {
    var b: bv32 := 0x9e37_79b9 + 4 + 3923095;
    var a := b + k;
    var c := (b ^ b) - Rotate(b, 14);
    var a := (a ^ c) - Rotate(c, 11);
    var b := (b ^ a) - Rotate(a, 25);
    var c := (c ^ b) - Rotate(b, 16);
    var a := (a ^ c) - Rotate(c, 4);
    var b := (b ^ a) - Rotate(a, 14);
    (c ^ b) - Rotate(b, 24)
  }

  /** The position of a part id in 0..INT32_MAX. */
  function HashPart(part: nat): (h: nat)
    requires part < PART_COUNT
    ensures h <= RANGE_MAX
  {
    HashBytesUint32(part as bv32) as nat % 0x8000_0000
  }

  function HashShard(parentPart: nat): (h: nat)
    ensures h <= RANGE_MAX
  {
    HashPart(parentPart % PART_COUNT)
  }

  /** The shard of a row does not depend on its parent directory. */
  lemma ShardIgnoresParent(parent: nat, name: Name)
    ensures HashShard(Combine(parent, PartId(name))) == HashPart(PartId(name))
  {
    CombineInverts(parent, PartId(name));
  }

  // ------------------------------------------------------------------ the shard table

  datatype Shard = Shard(point: int, server: int)

  /** Range points strictly increase from at least 0 to INT32_MAX. */
  predicate TableOk(table: seq<Shard>) {
    && table != [] && table[0].point >= 0 && table[|table| - 1].point == RANGE_MAX
    && forall i, j :: 0 <= i < j < |table| ==> table[i].point < table[j].point
  }

  function RangePoint(i: nat, count: nat): nat
    requires i < count
  {
    RANGE_MAX * (i + 1) / count
  }

  lemma RangePointsIncrease(i: nat, count: nat)
    requires i + 1 < count <= SHARD_COUNT_MAX
    ensures RangePoint(i, count) < RangePoint(i + 1, count) <= RANGE_MAX
  {
    var x := RANGE_MAX * (i + 1);
    DivStep(x, RANGE_MAX, count);
    assert x + RANGE_MAX == RANGE_MAX * (i + 2);
    assert RANGE_MAX * (i + 2) <= RANGE_MAX * count;
    DivAtMost(RANGE_MAX * (i + 2), RANGE_MAX, count);
  }

  lemma MulMono(a: int, b: int, n: nat)
    requires a <= b
    ensures a * n <= b * n
  {
  }

  lemma DivStep(x: nat, d: nat, n: nat)
    requires 0 < n <= d
    ensures x / n < (x + d) / n
  {
    assert x == x / n * n + x % n && x + d == (x + d) / n * n + (x + d) % n;
    if (x + d) / n <= x / n { MulMono((x + d) / n, x / n, n); }
  }

  lemma DivAtMost(x: nat, q: nat, n: nat)
    requires n > 0 && x <= q * n
    ensures x / n <= q
  {
    assert x == x / n * n + x % n;
    if q + 1 <= x / n { MulMono(q + 1, x / n, n); }
  }

  lemma DivModUnique(q: nat, r: nat, n: nat)
    requires r < n
    ensures (q * n + r) / n == q && (q * n + r) % n == r
  {
    var x := q * n + r;
    assert x == x / n * n + x % n;
    if q + 1 <= x / n { MulMono(q + 1, x / n, n); }
    if x / n + 1 <= q { MulMono(x / n + 1, q, n); }
  }

  /** Builds the table for a number of shards, handing them out to the workers in turn. */
  method BuildShardTable(count: int, servers: seq<int>) returns (table: Option<seq<Shard>>)
    ensures table.None? <==> count <= 0 || count > SHARD_COUNT_MAX || servers == []
    ensures table.Some? ==>
      && |table.value| == count && TableOk(table.value)
      && forall i :: 0 <= i < count ==> table.value[i].server == servers[i % |servers|]
  {
    if count <= 0 || count > SHARD_COUNT_MAX || servers == [] {
      return None;
    }
    var rows, round := [], 0;
    for i := 0 to count
      invariant |rows| == i && round == i % |servers|
      invariant forall j :: 0 <= j < i ==> rows[j] == Shard(RangePoint(j, count), servers[j % |servers|])
    {
      var point := if i == count - 1 then RANGE_MAX else RANGE_MAX * (i + 1) / count;
      LastPoint(count);
      rows := rows + [Shard(point, servers[round])];
      NextRound(i, |servers|);
      round := (round + 1) % |servers|;
    }
    LastPoint(count);
    PointsIncrease(rows, count);
    table := Some(rows);
  }

  lemma LastPoint(count: nat)
    requires count > 0
    ensures RangePoint(count - 1, count) == RANGE_MAX
  {
    DivModUnique(RANGE_MAX, 0, count);
  }

  lemma NextRound(i: nat, n: nat)
    requires n > 0
    ensures (i % n + 1) % n == (i + 1) % n
  {
    var q, r := i / n, i % n;
    assert i == q * n + r;
    if r + 1 < n {
      DivModUnique(q, r + 1, n);
    } else {
      assert i + 1 == (q + 1) * n + 0;
      DivModUnique(q + 1, 0, n);
    }
  }

  lemma {:induction false} PointBelow(i: nat, j: nat, count: nat)
    requires i < j < count <= SHARD_COUNT_MAX
    ensures RangePoint(i, count) < RangePoint(j, count)
    decreases j
  {
    RangePointsIncrease(j - 1, count);
    if i < j - 1 { PointBelow(i, j - 1, count); }
  }

  lemma PointsIncrease(rows: seq<Shard>, count: nat)
    requires 0 < count <= SHARD_COUNT_MAX && |rows| == count
    requires forall j :: 0 <= j < count ==> rows[j].point == RangePoint(j, count)
    ensures forall i, j :: 0 <= i < j < count ==> rows[i].point < rows[j].point
  {
    forall i, j | 0 <= i < j < count ensures rows[i].point < rows[j].point { PointBelow(i, j, count); }
  }

  /** The shard at index k is the one that covers the hash value. */
  predicate Covers(table: seq<Shard>, k: nat, h: int)
    requires k < |table|
  {
    h <= table[k].point && (k > 0 ==> table[k - 1].point < h)
  }

  /** Range points strictly increase, as they come out of the index. */
  predicate Ascending(table: seq<Shard>) {
    forall i, j :: 0 <= i < j < |table| ==> table[i].point < table[j].point
  }

  /** Binary search finds the only covering shard, or reports an error when the hash value is above all points; in a
      table the coordinator built it finds one for every hash value. */
  method SearchShard(table: seq<Shard>, h: int) returns (k: Option<nat>)
    requires Ascending(table)
    ensures k.None? <==> forall i :: 0 <= i < |table| ==> table[i].point < h
    ensures k.Some? ==> k.value < |table| && Covers(table, k.value, h)
    ensures k.Some? ==> forall j :: 0 <= j < |table| && Covers(table, j, h) ==> j == k.value
    ensures TableOk(table) && 0 <= h <= RANGE_MAX ==> k.Some?
  {
    var l, r := 0, |table|;
    while l < r
      invariant 0 <= l <= r <= |table|
      invariant forall i :: 0 <= i < l ==> table[i].point < h
      invariant forall i :: r <= i < |table| ==> h <= table[i].point
    {
      var mid := (l + r) / 2;
      if table[mid].point < h {
        l := mid + 1;
      } else {
        r := mid;
      }
    }
    if l == |table| {
      return None;
    }
    assert h <= table[l].point;
    k := Some(l);
  }

  // ------------------------------------------------------------------ the client's copy

  datatype Range = Range(min: int, max: int, server: int)

  /** A shard as a range: from just above the one before it to its own range point. */
  function RowFor(table: seq<Shard>, i: nat): Range
    requires i < |table|
  {
    Range(if i == 0 then 0 else table[i - 1].point + 1, table[i].point, table[i].server)
  }

  /** The rows the coordinator sends: each shard with the end of the one before it. */
  method RenewShardTable(table: seq<Shard>) returns (rows: seq<Range>)
    ensures Sent(table, rows)
  {
    rows := [];
    var low := 0;
    for i := 0 to |table|
      invariant |rows| == i && low == if i == 0 then 0 else table[i - 1].point + 1
      invariant forall j :: 0 <= j < i ==> rows[j] == RowFor(table, j)
    {
      rows := rows + [Range(low, table[i].point, table[i].server)];
      low := table[i].point + 1;
    }
  }

  const INT32_MIN: int := -0x8000_0000

  /** What the client checks before it uses the rows; a range that ends at INT32_MIN resets the check. */
  predicate Consecutive(rows: seq<Range>) {
    forall i :: 0 < i < |rows| ==> rows[i - 1].max == INT32_MIN || rows[i].min == rows[i - 1].max + 1
  }

  predicate Increasing(rows: seq<Range>) {
    && (rows != [] ==> INT32_MIN < rows[0].min <= rows[0].max)
    && forall i, j :: 0 <= i < j < |rows| ==> rows[i].max < rows[j].max
  }

  /** Adds one range; the first one, or one after a range that ends at INT32_MIN, also gets the entry below it. */
  method AddRange(shards: map<int, int>, last: int, ghost rows: seq<Range>, row: Range, ghost i: nat)
    returns (more: map<int, int>)
    requires i < |rows| && rows[i] == row && last == if i == 0 then INT32_MIN else rows[i - 1].max
    ensures Increasing(rows) && Holds(rows[..i], shards) ==> Holds(rows[..i + 1], more)
  {
    more := shards;
    if last == INT32_MIN && row.min != INT32_MIN {
      more := Emplace(more, row.min - 1, -1);
    }
    more := Emplace(more, row.max, row.server);
    if Increasing(rows) && Holds(rows[..i], shards) { HoldsStep(rows, i, shards); }
  }

  /** The client's ordered map from the end of a range to its server, with an entry below the first range that
      names no server; None where it throws. */
  method FetchShardTable(rows: seq<Range>) returns (m: Option<map<int, int>>)
    ensures m.Some? <==> Consecutive(rows) && rows != [] && rows[|rows| - 1].max == RANGE_MAX
    ensures m.Some? && Increasing(rows) ==> Holds(rows, m.value)
  {
    var last, shards := INT32_MIN, map[];
    for i := 0 to |rows|
      invariant last == if i == 0 then INT32_MIN else rows[i - 1].max
      invariant forall j :: 0 < j < i ==> rows[j - 1].max == INT32_MIN || rows[j].min == rows[j - 1].max + 1
      invariant Increasing(rows) ==> Holds(rows[..i], shards)
    {
      if last != INT32_MIN && last + 1 != rows[i].min {
        return None;
      }
      shards := AddRange(shards, last, rows, rows[i], i);
      last := rows[i].max;
    }
    assert rows[..|rows|] == rows;
    if last != RANGE_MAX {
      return None;
    }
    m := Some(shards);
  }

  /** std::map::emplace keeps an entry that is already there. */
  function Emplace(m: map<int, int>, key: int, server: int): map<int, int> {
    if key in m then m else m[key := server]
  }

  lemma HoldsStep(rows: seq<Range>, i: nat, m: map<int, int>)
    requires Increasing(rows) && i < |rows| && Holds(rows[..i], m)
    ensures var m' := if i == 0 then Emplace(m, rows[i].min - 1, -1) else m;
      Holds(rows[..i + 1], Emplace(m', rows[i].max, rows[i].server))
    ensures i > 0 ==> rows[i - 1].max != INT32_MIN
  {
    var m' := if i == 0 then Emplace(m, rows[i].min - 1, -1) else m;
    var m'' := Emplace(m', rows[i].max, rows[i].server);
    var front, front' := rows[..i], rows[..i + 1];
    assert rows[i].max !in m';
    forall key | key in m'' ensures key == rows[0].min - 1 || exists j :: 0 <= j < |front'| && front'[j].max == key {
      if key == rows[i].max {
        assert front'[i].max == key;
      } else if i > 0 && key != rows[0].min - 1 {
        var j :| 0 <= j < |front| && front[j].max == key;
        assert front'[j].max == key;
      }
    }
  }

  predicate Holds(rows: seq<Range>, m: map<int, int>) {
    && (forall i :: 0 <= i < |rows| ==> rows[i].max in m && m[rows[i].max] == rows[i].server)
    && forall key :: key in m ==> rows != [] && (key == rows[0].min - 1 || exists i :: 0 <= i < |rows| && rows[i].max == key)
  }

  predicate Sent(table: seq<Shard>, rows: seq<Range>) {
    |rows| == |table| && forall i :: 0 <= i < |table| ==> rows[i] == RowFor(table, i)
  }

  predicate Agrees(table: seq<Shard>, m: map<int, int>) {
    && (forall i :: 0 <= i < |table| ==> table[i].point in m && m[table[i].point] == table[i].server)
    && forall key :: key in m ==> key == -1 || exists i :: 0 <= i < |table| && table[i].point == key
  }

  /** The client accepts every table the coordinator can send, and then holds the same shards. */
  lemma SentIsAccepted(table: seq<Shard>, rows: seq<Range>)
    requires TableOk(table) && Sent(table, rows)
    ensures Consecutive(rows) && Increasing(rows) && rows != [] && rows[|rows| - 1].max == RANGE_MAX
    ensures forall m: map<int, int> :: Holds(rows, m) ==> Agrees(table, m)
  {
    forall m: map<int, int> | Holds(rows, m) ensures Agrees(table, m) {
      forall i | 0 <= i < |table| ensures table[i].point in m && m[table[i].point] == table[i].server {
        assert rows[i].max == table[i].point;
      }
      forall key | key in m && key != -1 ensures exists i :: 0 <= i < |table| && table[i].point == key {
        var i :| 0 <= i < |rows| && rows[i].max == key;
        assert table[i].point == key;
      }
    }
  }

  /** std::map::lower_bound: the least key that is not below the value. */
  predicate LowerBound(m: map<int, int>, h: int, key: int) {
    key in m && h <= key && forall k :: k in m && h <= k ==> key <= k
  }

  /** For every hash value the client finds exactly one entry, the server's covering shard. */
  lemma SameShard(table: seq<Shard>, m: map<int, int>, h: int, k: nat)
    requires TableOk(table) && Agrees(table, m) && 0 <= h <= RANGE_MAX && k < |table| && Covers(table, k, h)
    ensures forall key :: LowerBound(m, h, key) <==> key == table[k].point
    ensures m[table[k].point] == table[k].server
  {
    assert table[k].point in m;
    forall key | key in m && h <= key ensures table[k].point <= key {
      var i :| 0 <= i < |table| && table[i].point == key;
    }
  }

  // ------------------------------------------------------------------ the client's name for a path

  /** The bytes the client hashes for a path: what follows the last separator, where one trailing separator is set
      aside for the search but comes back, because the string view is hashed up to the terminating zero. */
  ghost predicate ClientHashes(path: Path, name: Name) {
    if |path| <= 1 then path == ROOT && name == ROOT
    else
      path[0] == SLASH && exists last ::
        0 <= last < |path| - 1 && path[last] == SLASH && name == path[last + 1..]
        && forall i :: last < i < |path| - 1 ==> path[i] != SLASH
  }

  /** The name the server hashes. */
  function ServerName(path: Path): Name
    requires path != []
  {
    Components(path)[|Components(path)| - 1]
  }

  /** Client and server hash the same name if and only if the path has no trailing separator. */
  lemma NamesAgreeIff(path: Path, name: Name)
    requires path != [] && ClientHashes(path, name)
    ensures name == ServerName(path) <==> path == ROOT || path[|path| - 1] != SLASH
  {
    if |path| > 1 {
      var last :| 0 <= last < |path| - 1 && path[last] == SLASH && name == path[last + 1..]
                  && forall i :: last < i < |path| - 1 ==> path[i] != SLASH;
      if path[|path| - 1] == SLASH {
        TrailingIsEmpty(path);
      } else {
        LastComponent(path, last);
      }
    }
  }

  lemma TrailingIsEmpty(path: Path)
    requires |path| > 1 && path[|path| - 1] == SLASH
    ensures ServerName(path) == []
  {
    var s: Path := path[1..|path| - 1];
    assert path[1..] == s + [SLASH] + [];
    SplitConcat(s, []);
  }

  /** The client's name for a path, or none for a path it refuses; it is the server's if and only if the path has no
      trailing separator. */
  method ClientName(path: Path) returns (name: Option<Name>)
    ensures name.None? <==> path == [] || path[0] != SLASH
    ensures name.Some? ==> ClientHashes(path, name.value)
    ensures name.Some? ==> (name.value == ServerName(path) <==> path == ROOT || path[|path| - 1] != SLASH)
  {
    if path == [] || path[0] != SLASH {
      return None;
    }
    var end := if |path| > 1 && path[|path| - 1] == SLASH then |path| - 1 else |path|;
    var last := end - 1;
    while path[last] != SLASH
      invariant 0 <= last < end
      invariant forall i :: last < i < end ==> path[i] != SLASH
      decreases last
    {
      last := last - 1;
    }
    if last == 0 && end == 1 {
      assert path == ROOT || path[1..] == ROOT;
      name := Some(ROOT);
    } else {
      name := Some(path[last + 1..]);
    }
    NamesAgreeIff(path, name.value);
  }

  lemma LastComponent(path: Path, last: nat)
    requires last + 1 < |path| && path[last] == SLASH && path[0] == SLASH
    requires forall i :: last < i < |path| ==> path[i] != SLASH
    ensures Components(path)[|Components(path)| - 1] == path[last + 1..]
  {
    if last == 0 {
      SplitWhole(path[1..]);
    } else {
      var s, t := path[1..last], path[last + 1..];
      assert path[1..] == s + [SLASH] + t;
      SplitConcat(s, t);
      SplitWhole(t);
    }
  }

  lemma {:induction false} SplitWhole(s: Path)
    requires forall i :: 0 <= i < |s| ==> s[i] != SLASH
    ensures Split(s) == [s]
  {
    if s != [] {
      SplitWhole(s[1..]);
      assert s == [s[0]] + s[1..];
    }
  }

  /** The client's routing, where an unknown key is the exception it throws. */
  ghost predicate ClientRoutes(m: map<int, int>, name: Name, server: int) {
    exists key :: LowerBound(m, HashPart(PartId(name)), key) && m[key] == server
  }

  /** For every name, every parent directory and every table the coordinator can build, the client asks exactly
      the server that holds the row. */
  lemma ClientAndServerAgree(table: seq<Shard>, m: map<int, int>, parent: nat, name: Name, k: nat, server: int)
    requires TableOk(table) && Agrees(table, m)
    requires k < |table| && Covers(table, k, HashShard(Combine(parent, PartId(name))))
    ensures ClientRoutes(m, name, server) <==> server == table[k].server
  {
    ShardIgnoresParent(parent, name);
    SameShard(table, m, HashPart(PartId(name)), k);
    assert LowerBound(m, HashPart(PartId(name)), table[k].point);
  }

  lemma CoversOnce(table: seq<Shard>, j: nat, k: nat, h: int)
    requires TableOk(table) && j < k < |table| && Covers(table, k, h)
    ensures !Covers(table, j, h)
  {
    assert table[j].point <= table[k - 1].point;
  }

  /** The client asks the server that holds the row of a path if and only if the shards of the two names are on one
      server, and so always when the path has no trailing separator.  k is the shard of the row, l that of the name the
      client hashes. */
  lemma PathRoutesIff(table: seq<Shard>, m: map<int, int>, parent: nat, path: Path, name: Name, k: nat, l: nat)
    requires TableOk(table) && Agrees(table, m) && path != [] && ClientHashes(path, name) && k < |table| && l < |table|
    requires Covers(table, k, HashShard(Combine(parent, PartId(ServerName(path)))))
    requires Covers(table, l, HashShard(Combine(parent, PartId(name))))
    ensures ClientRoutes(m, name, table[k].server) <==> table[l].server == table[k].server
    ensures path == ROOT || path[|path| - 1] != SLASH ==> ClientRoutes(m, name, table[k].server)
  {
    ClientAndServerAgree(table, m, parent, name, l, table[k].server);
    NamesAgreeIff(path, name);
    if name == ServerName(path) {
      if k < l { CoversOnce(table, k, l, HashShard(Combine(parent, PartId(name)))); }
      if l < k { CoversOnce(table, l, k, HashShard(Combine(parent, PartId(name)))); }
    }
  }

  /** For the path "/a/" the two names have different part ids. */
  lemma TrailingSlashDiffers(path: Path, name: Name)
    requires path == "/a/" && ClientHashes(path, name)
    ensures name == "a/" && ServerName(path) == [] && PartId(name) != PartId(ServerName(path))
  {
    TrailingIsEmpty(path);
    assert path[1..] == "a/" && path[2..] == "/";
    assert name[..1] == "a" && name[..1][..0] == "";
    assert NameHash("a") == 97;
    assert NameHash(name) == (97 * 31 + 47) % 0x1_0000;
  }
}
