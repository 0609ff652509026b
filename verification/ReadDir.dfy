/**
 Reading a directory page by page on one worker.  Each shard's table is scanned in the order of its index, part id
 before name; a page ends after a number of entries and the next one starts behind the last name returned.
 */
module ReadDir {
  import opened Paths
  import opened ShardRouting
  import Placement

  datatype Row = Row(parentPart: nat, name: Name, mode: nat)
  datatype ShardRows = ShardRows(server: int, rows: seq<Row>)

  /** The order of names in the index, left to the database's collation: the position of each name on a line, as
      any total order of names can be given. */
  type NameOrder = Name -> real

  predicate Before(lt: NameOrder, a: Row, b: Row) {
    a.parentPart < b.parentPart || (a.parentPart == b.parentPart && lt(a.name) < lt(b.name))
  }

  /** A table in index order, with unique keys. */
  ghost predicate Indexed(lt: NameOrder, rows: seq<Row>) {
    forall i, j :: 0 <= i < j < |rows| ==> Before(lt, rows[i], rows[j])
  }

  // ------------------------------------------------------------------ the scans

  /** The keys of a scan: a whole directory, the same combined id and a greater name, the greater ids of the
      directory, and, to say what the last two give together, everything of the directory behind a row. */
  datatype Query =
    | InDirectory(id: nat)
    | SameIdGreaterName(pp: nat, last: Name)
    | GreaterId(id: nat, pp: nat)
    | Behind(id: nat, at: Row)

  predicate InRange(id: nat, r: Row) {
    Combine(id, 0) <= r.parentPart <= Combine(id, PART_COUNT - 1)
  }

  predicate Matches(lt: NameOrder, q: Query, r: Row) {
    match q
    case InDirectory(id) => InRange(id, r)
    case SameIdGreaterName(pp, last) => r.parentPart == pp && lt(last) < lt(r.name)
    case GreaterId(id, pp) => r.parentPart > pp && r.parentPart <= Combine(id, PART_COUNT - 1)
    case Behind(id, at) => InRange(id, r) && Before(lt, at, r)
  }

  function Filter(rows: seq<Row>, keep: Row -> bool): seq<Row> {
    if rows == [] then [] else (if keep(rows[0]) then [rows[0]] else []) + Filter(rows[1..], keep)
  }

  /** A scan: the rows that match, in index order. */
  function Scan(lt: NameOrder, rows: seq<Row>, q: Query): seq<Row> {
    Filter(rows, r => Matches(lt, q, r))
  }

  /** What one filter keeps is what two narrower ones keep one after the other. */
  lemma {:induction false} FilterSplit(rows: seq<Row>, both: Row -> bool, first: Row -> bool, second: Row -> bool)
    requires (forall r :: both(r) <==> first(r) || second(r)) && (forall r :: !(first(r) && second(r)))
    requires forall i, j :: 0 <= i < j < |rows| && second(rows[i]) ==> !first(rows[j])
    ensures Filter(rows, both) == Filter(rows, first) + Filter(rows, second)
  {
    if rows != [] {
      var head, rest := rows[0], rows[1..];
      forall i, j | 0 <= i < j < |rest| && second(rest[i]) ensures !first(rest[j]) {
        assert rest[i] == rows[i + 1] && rest[j] == rows[j + 1];
      }
      FilterSplit(rest, both, first, second);
      if second(head) {
        forall i | 0 <= i < |rest| ensures !first(rest[i]) { assert rest[i] == rows[i + 1]; }
        FilterNone(rest, first);
      }
      HeadSplit(head, first(head), second(head), Filter(rest, first), Filter(rest, second));
    }
  }

  lemma HeadSplit(head: Row, first: bool, second: bool, a: seq<Row>, b: seq<Row>)
    requires !(first && second) && (second ==> a == [])
    ensures (if first || second then [head] else []) + (a + b)
            == ((if first then [head] else []) + a) + ((if second then [head] else []) + b)
  {
  }

  lemma {:induction false} FilterNone(rows: seq<Row>, keep: Row -> bool)
    requires forall i :: 0 <= i < |rows| ==> !keep(rows[i])
    ensures Filter(rows, keep) == []
  {
    if rows != [] { FilterNone(rows[1..], keep); }
  }

  lemma {:induction false} FilterSame(rows: seq<Row>, p: Row -> bool, q: Row -> bool)
    requires forall r :: r in rows ==> (p(r) <==> q(r))
    ensures Filter(rows, p) == Filter(rows, q)
  {
    if rows != [] {
      assert forall r :: r in rows[1..] ==> r in rows;
      FilterSame(rows[1..], p, q);
    }
  }

  lemma {:induction false} FilterMembers(rows: seq<Row>, keep: Row -> bool, r: Row)
    ensures r in Filter(rows, keep) <==> r in rows && keep(r)
  {
    if rows != [] {
      FilterMembers(rows[1..], keep, r);
      assert r in rows <==> r == rows[0] || r in rows[1..];
    }
  }

  /** The two scans after a resumed page give exactly what is behind the last entry, in index order. */
  lemma ResumedScans(lt: NameOrder, rows: seq<Row>, id: nat, at: Row)
    requires Indexed(lt, rows) && InRange(id, at)
    ensures Scan(lt, rows, Behind(id, at)) ==
            Scan(lt, rows, SameIdGreaterName(at.parentPart, at.name)) + Scan(lt, rows, GreaterId(id, at.parentPart))
  {
    var first, second := SameIdGreaterName(at.parentPart, at.name), GreaterId(id, at.parentPart);
    forall i, j | 0 <= i < j < |rows| && Matches(lt, second, rows[i]) ensures !Matches(lt, first, rows[j]) {
      assert Before(lt, rows[i], rows[j]);
    }
    FilterSplit(rows, r => Matches(lt, Behind(id, at), r), r => Matches(lt, first, r), r => Matches(lt, second, r));
  }

  lemma ScanMembers(lt: NameOrder, rows: seq<Row>, q: Query, r: Row)
    ensures r in Scan(lt, rows, q) <==> r in rows && Matches(lt, q, r)
  {
    FilterMembers(rows, x => Matches(lt, q, x), r);
  }

  lemma {:induction false} ScanIndexed(lt: NameOrder, rows: seq<Row>, q: Query)
    requires Indexed(lt, rows)
    ensures Indexed(lt, Scan(lt, rows, q))
  {
    if rows != [] {
      ScanIndexed(lt, rows[1..], q);
      var tail := Scan(lt, rows[1..], q);
      forall r | r in tail ensures Before(lt, rows[0], r) {
        ScanMembers(lt, rows[1..], q, r);
        FirstIsBefore(lt, rows, r);
      }
    }
  }

  lemma FirstIsBefore(lt: NameOrder, rows: seq<Row>, r: Row)
    requires Indexed(lt, rows) && rows != [] && r in rows[1..]
    ensures Before(lt, rows[0], r)
  {
    var rest := rows[1..];
    var j :| 0 <= j < |rest| && rest[j] == r;
    assert rows[j + 1] == r;
  }

  /** What is behind the k-th entry of a directory is the rest of its entries. */
  lemma {:induction false} BehindIsRest(lt: NameOrder, rows: seq<Row>, id: nat, k: nat)
    requires Indexed(lt, rows) && k < |Scan(lt, rows, InDirectory(id))|
    ensures var all := Scan(lt, rows, InDirectory(id)); Scan(lt, rows, Behind(id, all[k])) == all[k + 1..]
  {
    var rest := rows[1..];
    var all, tail := Scan(lt, rows, InDirectory(id)), Scan(lt, rest, InDirectory(id));
    if !InRange(id, rows[0]) {
      BehindIsRest(lt, rest, id, k);
    } else if k == 0 {
      BehindFirst(lt, rows, id);
    } else {
      BehindIsRest(lt, rest, id, k - 1);
      NotBehindLater(lt, rows, id, tail, k - 1);
      assert all[k] == tail[k - 1] && all[k + 1..] == tail[k..];
    }
  }

  lemma BehindFirst(lt: NameOrder, rows: seq<Row>, id: nat)
    requires Indexed(lt, rows) && rows != []
    ensures Scan(lt, rows, Behind(id, rows[0])) == Scan(lt, rows[1..], InDirectory(id))
  {
    var rest := rows[1..];
    forall r | r in rest ensures Matches(lt, Behind(id, rows[0]), r) <==> Matches(lt, InDirectory(id), r) {
      FirstIsBefore(lt, rows, r);
    }
    ScanSame(lt, rest, Behind(id, rows[0]), InDirectory(id));
  }

  lemma NotBehindLater(lt: NameOrder, rows: seq<Row>, id: nat, tail: seq<Row>, k: nat)
    requires Indexed(lt, rows) && rows != [] && tail == Scan(lt, rows[1..], InDirectory(id)) && k < |tail|
    ensures !Matches(lt, Behind(id, tail[k]), rows[0])
  {
    assert tail[k] in tail;
    ScanMembers(lt, rows[1..], InDirectory(id), tail[k]);
    FirstIsBefore(lt, rows, tail[k]);
  }

  lemma ScanSame(lt: NameOrder, rows: seq<Row>, p: Query, q: Query)
    requires forall r :: r in rows ==> (Matches(lt, p, r) <==> Matches(lt, q, r))
    ensures Scan(lt, rows, p) == Scan(lt, rows, q)
  {
    FilterSame(rows, x => Matches(lt, p, x), x => Matches(lt, q, x));
  }

  // ------------------------------------------------------------------ pages

  /** Where the next page starts: at the beginning, or behind a name in a shard. */
  datatype Cursor = Start | At(shard: nat, name: Name)

  /** The entries of the directory in the worker's shards from one shard on. */
  function FromShard(lt: NameOrder, shards: seq<ShardRows>, me: int, id: nat, i: nat): seq<Row>
    decreases |shards| - i
  {
    if i >= |shards| then []
    else
      (if shards[i].server == me then Scan(lt, shards[i].rows, InDirectory(id)) else []) + FromShard(lt, shards, me, id, i + 1)
  }

  /** Every entry of the directory on the worker, in the order of shard, part id and name. */
  function AllEntries(lt: NameOrder, shards: seq<ShardRows>, me: int, id: nat): seq<Row> {
    FromShard(lt, shards, me, id, 0)
  }

  function LastRow(id: nat, name: Name): Row {
    Row(Combine(id, PartId(name)), name, 0)
  }

  function Rest(lt: NameOrder, shards: seq<ShardRows>, me: int, id: nat, cursor: Cursor): seq<Row> {
    match cursor
    case Start => AllEntries(lt, shards, me, id)
    case At(i, name) =>
      (if i < |shards| then Scan(lt, shards[i].rows, Behind(id, LastRow(id, name))) else []) + FromShard(lt, shards, me, id, i + 1)
  }

  /** The tables are in index order, and every row of the directory carries the part id of its name. */
  ghost predicate TablesOk(lt: NameOrder, shards: seq<ShardRows>, id: nat) {
    forall i :: 0 <= i < |shards| ==> Indexed(lt, shards[i].rows) && Placed(shards[i].rows, id)
  }

  ghost predicate Placed(rows: seq<Row>, id: nat) {
    forall r :: r in rows && InRange(id, r) ==> r.parentPart == Combine(id, PartId(r.name))
  }

  predicate HasName(rows: seq<Row>, name: Name) {
    exists k :: 0 <= k < |rows| && rows[k].name == name
  }

  predicate CursorOk(lt: NameOrder, shards: seq<ShardRows>, me: int, id: nat, cursor: Cursor) {
    cursor.At? ==>
      && cursor.shard < |shards| && shards[cursor.shard].server == me
      && HasName(Scan(lt, shards[cursor.shard].rows, InDirectory(id)), cursor.name)
  }

  /** Behind the k-th entry of a shard, found again by its name alone. */
  lemma BehindName(lt: NameOrder, rows: seq<Row>, id: nat, k: nat)
    requires Indexed(lt, rows) && Placed(rows, id) && k < |Scan(lt, rows, InDirectory(id))|
    ensures var all := Scan(lt, rows, InDirectory(id));
      && all[k].parentPart == Combine(id, PartId(all[k].name)) && InRange(id, all[k])
      && Scan(lt, rows, Behind(id, LastRow(id, all[k].name))) == all[k + 1..]
  {
    var all := Scan(lt, rows, InDirectory(id));
    assert all[k] in all;
    ScanMembers(lt, rows, InDirectory(id), all[k]);
    BehindIsRest(lt, rows, id, k);
    ScanSame(lt, rows, Behind(id, all[k]), Behind(id, LastRow(id, all[k].name)));
  }

  datatype Phase = SameId | HigherId | NewShard

  /** What a phase scans in a shard. */
  function PhaseScan(lt: NameOrder, rows: seq<Row>, id: nat, phase: Phase, last: Name): seq<Row> {
    match phase
    case SameId => Scan(lt, rows, SameIdGreaterName(Combine(id, PartId(last)), last))
    case HigherId => Scan(lt, rows, GreaterId(id, Combine(id, PartId(last))))
    case NewShard => Scan(lt, rows, InDirectory(id))
  }

  /** What the phases from this one on still scan in the shard. */
  function PhaseRest(lt: NameOrder, rows: seq<Row>, id: nat, phase: Phase, last: Name): seq<Row> {
    PhaseScan(lt, rows, id, phase, last) + if phase == SameId then PhaseScan(lt, rows, id, HigherId, last) else []
  }

  lemma ResumedPhases(lt: NameOrder, rows: seq<Row>, id: nat, name: Name)
    requires Indexed(lt, rows) && Placed(rows, id) && HasName(Scan(lt, rows, InDirectory(id)), name)
    ensures SuffixOf(PhaseRest(lt, rows, id, SameId, name), Scan(lt, rows, InDirectory(id)))
    ensures PhaseRest(lt, rows, id, SameId, name) == Scan(lt, rows, Behind(id, LastRow(id, name)))
  {
    var all := Scan(lt, rows, InDirectory(id));
    var k :| 0 <= k < |all| && all[k].name == name;
    BehindName(lt, rows, id, k);
    ResumedScans(lt, rows, id, LastRow(id, name));
  }

  /** What a page that stands in a phase of a shard can still return. */
  function Pending(lt: NameOrder, shards: seq<ShardRows>, me: int, id: nat, i: nat, phase: Phase, last: Name): seq<Row> {
    if i >= |shards| then []
    else
      (if shards[i].server == me then PhaseRest(lt, shards[i].rows, id, phase, last) else []) + FromShard(lt, shards, me, id, i + 1)
  }

  lemma PendingNew(lt: NameOrder, shards: seq<ShardRows>, me: int, id: nat, i: nat, last: Name)
    ensures Pending(lt, shards, me, id, i, NewShard, last) == FromShard(lt, shards, me, id, i)
  {
  }

  /** After a phase's scan the next phase, or the next shard, is pending. */
  lemma PendingAfter(lt: NameOrder, shards: seq<ShardRows>, me: int, id: nat, i: nat, phase: Phase, last: Name)
    requires i < |shards| && (shards[i].server == me || phase == NewShard)
    ensures Pending(lt, shards, me, id, i, phase, last) ==
            if shards[i].server != me then Pending(lt, shards, me, id, i + 1, NewShard, last)
            else PhaseScan(lt, shards[i].rows, id, phase, last)
                 + if phase == SameId then Pending(lt, shards, me, id, i, HigherId, last)
                   else Pending(lt, shards, me, id, i + 1, NewShard, last)
  {
    PendingNew(lt, shards, me, id, i + 1, last);
  }

  predicate SuffixOf(rest: seq<Row>, all: seq<Row>) {
    |rest| <= |all| && rest == all[|all| - |rest|..]
  }

  /** The phases from this one on return the last entries of the directory in the shard. */
  predicate InShard(lt: NameOrder, rows: seq<Row>, id: nat, phase: Phase, last: Name) {
    SuffixOf(PhaseRest(lt, rows, id, phase, last), Scan(lt, rows, InDirectory(id)))
  }

  /** A scan that stops after some entries can be resumed by the name of the last one. */
  lemma ResumeByName(lt: NameOrder, rows: seq<Row>, id: nat, rest: seq<Row>, take: nat)
    requires Indexed(lt, rows) && Placed(rows, id) && SuffixOf(rest, Scan(lt, rows, InDirectory(id))) && 0 < take <= |rest|
    ensures HasName(Scan(lt, rows, InDirectory(id)), rest[take - 1].name)
    ensures Scan(lt, rows, Behind(id, LastRow(id, rest[take - 1].name))) == rest[take..]
  {
    var all := Scan(lt, rows, InDirectory(id));
    var k := |all| - |rest| + take - 1;
    assert rest[take - 1] == all[k] && rest[take..] == all[k + 1..];
    BehindName(lt, rows, id, k);
  }

  lemma DropFront(a: seq<Row>, b: seq<Row>, n: nat)
    requires n <= |a|
    ensures (a + b)[n..] == a[n..] + b
  {
  }

  /** The page is full inside a phase: the last name leads back to what is left. */
  lemma StopHere(lt: NameOrder, shards: seq<ShardRows>, me: int, id: nat, i: nat, rest: seq<Row>, take: nat)
    requires TablesOk(lt, shards, id) && i < |shards| && shards[i].server == me && 0 < take <= |rest|
    requires SuffixOf(rest, Scan(lt, shards[i].rows, InDirectory(id)))
    ensures var next := At(i, rest[take - 1].name);
      CursorOk(lt, shards, me, id, next) && Rest(lt, shards, me, id, next) == rest[take..] + FromShard(lt, shards, me, id, i + 1)
  {
    ResumeByName(lt, shards[i].rows, id, rest, take);
  }

  /** Where a page starts. */
  lemma StartHere(lt: NameOrder, shards: seq<ShardRows>, me: int, id: nat, i: nat, name: Name)
    requires TablesOk(lt, shards, id) && CursorOk(lt, shards, me, id, At(i, name))
    ensures InShard(lt, shards[i].rows, id, SameId, name)
    ensures Rest(lt, shards, me, id, At(i, name)) == Pending(lt, shards, me, id, i, SameId, name)
  {
    var rows := shards[i].rows;
    ResumedPhases(lt, rows, id, name);
    assert Scan(lt, rows, Behind(id, LastRow(id, name))) == PhaseRest(lt, rows, id, SameId, name);
  }

  lemma NextPhase(lt: NameOrder, rows: seq<Row>, id: nat, last: Name)
    requires InShard(lt, rows, id, SameId, last)
    ensures InShard(lt, rows, id, HigherId, last)
  {
    var all, found := Scan(lt, rows, InDirectory(id)), PhaseScan(lt, rows, id, SameId, last);
    SuffixDrop(PhaseRest(lt, rows, id, SameId, last), all, |found|);
    assert PhaseRest(lt, rows, id, SameId, last)[|found|..] == PhaseRest(lt, rows, id, HigherId, last);
  }

  lemma SuffixDrop(rest: seq<Row>, all: seq<Row>, n: nat)
    requires SuffixOf(rest, all) && n <= |rest|
    ensures SuffixOf(rest[n..], all)
  {
  }

  /** Where a page stands. */
  datatype Point = Point(i: nat, phase: Phase, last: Name)

  predicate PointOk(lt: NameOrder, shards: seq<ShardRows>, me: int, id: nat, p: Point) {
    && p.i <= |shards|
    && (p.phase != NewShard ==>
          p.i < |shards| && shards[p.i].server == me && InShard(lt, shards[p.i].rows, id, p.phase, p.last))
  }

  function PendingAt(lt: NameOrder, shards: seq<ShardRows>, me: int, id: nat, p: Point): seq<Row> {
    Pending(lt, shards, me, id, p.i, p.phase, p.last)
  }

  function PointAfter(p: Point): Point {
    if p.phase == SameId then Point(p.i, HigherId, p.last) else Point(p.i + 1, NewShard, p.last)
  }

  lemma PointAfterOk(lt: NameOrder, shards: seq<ShardRows>, me: int, id: nat, p: Point)
    requires PointOk(lt, shards, me, id, p) && p.i < |shards|
    ensures PointOk(lt, shards, me, id, PointAfter(p))
  {
    if p.phase == SameId { NextPhase(lt, shards[p.i].rows, id, p.last); }
  }

  /** One scan: part of a page, and either the rest is still pending or the page is full. */
  method ScanOnce(lt: NameOrder, shards: seq<ShardRows>, me: int, id: nat, p: Point, room: nat)
    returns (part: seq<Row>, full: bool, next: Cursor)
    requires TablesOk(lt, shards, id) && PointOk(lt, shards, me, id, p) && p.i < |shards| && room > 0
    ensures CursorOk(lt, shards, me, id, next)
    ensures var pending := PendingAt(lt, shards, me, id, p);
      if full then |pending| >= room == |part| && part == pending[..room] && Rest(lt, shards, me, id, next) == pending[room..]
      else |part| < room && pending == part + PendingAt(lt, shards, me, id, PointAfter(p))
  {
    part, full, next := [], false, Start;
    if shards[p.i].server != me {
      NotFull(lt, shards, me, id, p);
      return;
    }
    var found := PhaseScan(lt, shards[p.i].rows, id, p.phase, p.last);
    if |found| < room {
      NotFull(lt, shards, me, id, p);
      part := found;
    } else {
      FullHere(lt, shards, me, id, p, room);
      part, full, next := found[..room], true, At(p.i, found[room - 1].name);
    }
  }

  lemma NotFull(lt: NameOrder, shards: seq<ShardRows>, me: int, id: nat, p: Point)
    requires p.i < |shards| && (shards[p.i].server == me || p.phase == NewShard)
    ensures PendingAt(lt, shards, me, id, p) ==
            (if shards[p.i].server == me then PhaseScan(lt, shards[p.i].rows, id, p.phase, p.last) else [])
            + PendingAt(lt, shards, me, id, PointAfter(p))
  {
    PendingAfter(lt, shards, me, id, p.i, p.phase, p.last);
  }

  lemma FullPending(lt: NameOrder, shards: seq<ShardRows>, me: int, id: nat, p: Point, room: nat)
    requires p.i < |shards| && shards[p.i].server == me
    requires 0 < room <= |PhaseScan(lt, shards[p.i].rows, id, p.phase, p.last)|
    ensures var pending, found := PendingAt(lt, shards, me, id, p), PhaseScan(lt, shards[p.i].rows, id, p.phase, p.last);
      var rest := PhaseRest(lt, shards[p.i].rows, id, p.phase, p.last);
      && |pending| >= room && found[..room] == pending[..room] && |rest| >= room && found[room - 1] == rest[room - 1]
      && pending[room..] == rest[room..] + FromShard(lt, shards, me, id, p.i + 1)
  {
    var found := PhaseScan(lt, shards[p.i].rows, id, p.phase, p.last);
    var rest := PhaseRest(lt, shards[p.i].rows, id, p.phase, p.last);
    FrontOf(found, rest[|found|..], FromShard(lt, shards, me, id, p.i + 1), room);
    assert rest == found + rest[|found|..];
  }

  lemma RestIsSuffix(lt: NameOrder, shards: seq<ShardRows>, me: int, id: nat, p: Point)
    requires PointOk(lt, shards, me, id, p) && p.i < |shards|
    ensures SuffixOf(PhaseRest(lt, shards[p.i].rows, id, p.phase, p.last), Scan(lt, shards[p.i].rows, InDirectory(id)))
  {
    if p.phase == NewShard {
      var rest, all := PhaseRest(lt, shards[p.i].rows, id, p.phase, p.last), Scan(lt, shards[p.i].rows, InDirectory(id));
      assert rest == all;
    }
  }

  lemma FullHere(lt: NameOrder, shards: seq<ShardRows>, me: int, id: nat, p: Point, room: nat)
    requires TablesOk(lt, shards, id) && PointOk(lt, shards, me, id, p) && p.i < |shards| && room > 0
    requires shards[p.i].server == me && |PhaseScan(lt, shards[p.i].rows, id, p.phase, p.last)| >= room
    ensures var pending, found := PendingAt(lt, shards, me, id, p), PhaseScan(lt, shards[p.i].rows, id, p.phase, p.last);
      var next := At(p.i, found[room - 1].name);
      && |pending| >= room && found[..room] == pending[..room]
      && CursorOk(lt, shards, me, id, next) && Rest(lt, shards, me, id, next) == pending[room..]
  {
    FullPending(lt, shards, me, id, p, room);
    RestIsSuffix(lt, shards, me, id, p);
    StopHere(lt, shards, me, id, p.i, PhaseRest(lt, shards[p.i].rows, id, p.phase, p.last), room);
  }

  lemma FrontOf(found: seq<Row>, more: seq<Row>, after: seq<Row>, n: nat)
    requires 0 < n <= |found|
    ensures var rest := found + more;
      && found[..n] == (rest + after)[..n] && found[n - 1] == rest[n - 1] && |rest + after| >= n
      && (rest + after)[n..] == rest[n..] + after
  {
    DropFront(found + more, after, n);
  }

  lemma PointStart(lt: NameOrder, shards: seq<ShardRows>, me: int, id: nat, cursor: Cursor)
    requires TablesOk(lt, shards, id) && CursorOk(lt, shards, me, id, cursor)
    ensures var p := if cursor.At? then Point(cursor.shard, SameId, cursor.name) else Point(0, NewShard, []);
      PointOk(lt, shards, me, id, p) && Rest(lt, shards, me, id, cursor) == PendingAt(lt, shards, me, id, p)
  {
    if cursor.At? {
      StartHere(lt, shards, me, id, cursor.shard, cursor.name);
    } else {
      PendingNew(lt, shards, me, id, 0, []);
    }
  }

  lemma TakeWhole(page: seq<Row>, part: seq<Row>, pending: seq<Row>, rest: seq<Row>, limit: nat)
    requires rest == page + pending && |page| < limit && |pending| >= limit - |page| && part == pending[..limit - |page|]
    ensures page + part == rest[..limit] && rest[limit..] == pending[limit - |page|..] && |rest| >= limit
  {
  }

  /** The loop of a page from where it stands. */
  method ReadFrom(lt: NameOrder, shards: seq<ShardRows>, me: int, id: nat, start: Point, limit: nat)
    returns (page: seq<Row>, finished: bool, next: Cursor)
    requires TablesOk(lt, shards, id) && PointOk(lt, shards, me, id, start) && limit > 0
    ensures Paged(lt, shards, me, id, PendingAt(lt, shards, me, id, start), limit, page, finished, next)
  {
    page, finished, next := [], true, Start;
    var p := start;
    ghost var rest := PendingAt(lt, shards, me, id, start);
    ghost var pending := rest;
    while p.i < |shards|
      invariant PointOk(lt, shards, me, id, p) && |page| < limit && finished && next == Start
      invariant rest == page + pending && pending == PendingAt(lt, shards, me, id, p)
      decreases |shards| - p.i, if p.phase == SameId then 1 else 0
    {
      var part, full, after := ScanOnce(lt, shards, me, id, p, limit - |page|);
      if full {
        TakeWhole(page, part, pending, rest, limit);
        return page + part, false, after;
      }
      PointAfterOk(lt, shards, me, id, p);
      TakePart(page, part, pending, rest);
      page, p := page + part, PointAfter(p);
      pending := pending[|part|..];
    }
  }

  /** A page of what is left: everything and finished, or limit entries and a cursor to the others. */
  predicate Paged(lt: NameOrder, shards: seq<ShardRows>, me: int, id: nat, rest: seq<Row>, limit: nat, page: seq<Row>,
                  finished: bool, next: Cursor) {
    && (finished <==> |rest| < limit) && CursorOk(lt, shards, me, id, next)
    && if finished then page == rest
       else |rest| >= limit && page == rest[..limit] && Rest(lt, shards, me, id, next) == rest[limit..]
  }

  /** One page: the next max entries, and where to go on.  -1 asks for INT32_MAX entries. */
  method ReadPage(lt: NameOrder, shards: seq<ShardRows>, me: int, id: nat, cursor: Cursor, max: int)
    returns (page: seq<Row>, finished: bool, next: Cursor)
    requires TablesOk(lt, shards, id) && CursorOk(lt, shards, me, id, cursor) && (max == -1 || max >= 1)
    ensures Paged(lt, shards, me, id, Rest(lt, shards, me, id, cursor), if max == -1 then RANGE_MAX else max, page, finished, next)
  {
    PointStart(lt, shards, me, id, cursor);
    var p := if cursor.At? then Point(cursor.shard, SameId, cursor.name) else Point(0, NewShard, []);
    page, finished, next := ReadFrom(lt, shards, me, id, p, if max == -1 then RANGE_MAX else max);
  }

  lemma TakePart(page: seq<Row>, part: seq<Row>, pending: seq<Row>, rest: seq<Row>)
    requires rest == page + pending && |part| <= |pending| && part == pending[..|part|]
    ensures rest == page + part + pending[|part|..]
  {
    assert pending == pending[..|part|] + pending[|part|..];
  }

  /** Reading on from page to page, whatever the page sizes, ends with every entry returned once and in order. */
  method ReadDirectory(lt: NameOrder, shards: seq<ShardRows>, me: int, id: nat) returns (all: seq<Row>)
    requires TablesOk(lt, shards, id)
    ensures all == AllEntries(lt, shards, me, id)
  {
    all := [];
    var cursor := Start;
    ghost var rest := Rest(lt, shards, me, id, cursor);
    ghost var total := rest;
    while true
      invariant CursorOk(lt, shards, me, id, cursor) && rest == Rest(lt, shards, me, id, cursor) && total == all + rest
      decreases |rest|
    {
      var max: int := *;
      if max < 1 {
        max := -1;
      }
      var page, finished, next := ReadPage(lt, shards, me, id, cursor, max);
      if finished {
        all := all + page;
        break;
      }
      ghost var limit := if max == -1 then RANGE_MAX else max;
      Joined(all, rest, limit);
      all, cursor, rest := all + page, next, rest[limit..];
    }
  }

  lemma Joined(all: seq<Row>, rest: seq<Row>, limit: nat)
    requires 0 < limit <= |rest|
    ensures all + rest == all + rest[..limit] + rest[limit..] && |rest[limit..]| < |rest|
  {
  }

  predicate EntryOf(shards: seq<ShardRows>, me: int, id: nat, j: int, r: Row) {
    0 <= j < |shards| && shards[j].server == me && r in shards[j].rows && InRange(id, r)
  }

  /** The entries are exactly the rows of the directory in the worker's shards. */
  lemma {:induction false} EntriesComplete(lt: NameOrder, shards: seq<ShardRows>, me: int, id: nat, i: nat, r: Row)
    ensures r in FromShard(lt, shards, me, id, i) <==> exists j :: i <= j && EntryOf(shards, me, id, j, r)
    decreases |shards| - i
  {
    if i < |shards| {
      EntriesComplete(lt, shards, me, id, i + 1, r);
      ScanMembers(lt, shards[i].rows, InDirectory(id), r);
      var here := if shards[i].server == me then Scan(lt, shards[i].rows, InDirectory(id)) else [];
      assert r in FromShard(lt, shards, me, id, i) <==> r in here || r in FromShard(lt, shards, me, id, i + 1);
      assert r in here <==> EntryOf(shards, me, id, i, r);
    }
  }

  /** A name is in one shard only. */
  ghost predicate OneShardEach(shards: seq<ShardRows>, me: int, id: nat) {
    forall j, k, r, q :: j < k && EntryOf(shards, me, id, j, r) && EntryOf(shards, me, id, k, q) ==> r.name != q.name
  }

  ghost predicate DistinctNames(rows: seq<Row>) {
    forall a, b :: 0 <= a < b < |rows| ==> rows[a].name != rows[b].name
  }

  /** No entry comes twice, as a name belongs to one shard. */
  lemma {:induction false} EntriesDistinct(lt: NameOrder, shards: seq<ShardRows>, me: int, id: nat, i: nat)
    requires TablesOk(lt, shards, id) && OneShardEach(shards, me, id)
    ensures DistinctNames(FromShard(lt, shards, me, id, i))
    decreases |shards| - i
  {
    if i < |shards| {
      EntriesDistinct(lt, shards, me, id, i + 1);
      var rest := FromShard(lt, shards, me, id, i + 1);
      if shards[i].server == me {
        DistinctHere(lt, shards[i].rows, id);
        var here := Scan(lt, shards[i].rows, InDirectory(id));
        forall a, b | 0 <= a < |here| && 0 <= b < |rest| ensures here[a].name != rest[b].name {
          ScanMembers(lt, shards[i].rows, InDirectory(id), here[a]);
          EntriesComplete(lt, shards, me, id, i + 1, rest[b]);
          assert here[a] in here && rest[b] in rest && EntryOf(shards, me, id, i, here[a]);
        }
        DistinctJoin(here, rest);
      } else {
        assert FromShard(lt, shards, me, id, i) == rest;
      }
    }
  }

  lemma DistinctJoin(a: seq<Row>, b: seq<Row>)
    requires DistinctNames(a) && DistinctNames(b)
    requires forall i, j :: 0 <= i < |a| && 0 <= j < |b| ==> a[i].name != b[j].name
    ensures DistinctNames(a + b)
  {
  }

  lemma DistinctHere(lt: NameOrder, rows: seq<Row>, id: nat)
    requires Indexed(lt, rows) && Placed(rows, id)
    ensures DistinctNames(Scan(lt, rows, InDirectory(id)))
  {
    var all := Scan(lt, rows, InDirectory(id));
    ScanIndexed(lt, rows, InDirectory(id));
    forall a, b | 0 <= a < b < |all| ensures all[a].name != all[b].name {
      ScanMembers(lt, rows, InDirectory(id), all[a]);
      ScanMembers(lt, rows, InDirectory(id), all[b]);
      assert all[a] in all && all[b] in all && Before(lt, all[a], all[b]);
    }
  }

  // ------------------------------------------------------------------ where rows are

  /** Every row has the part id of its name and is in the shard that covers the hash of its combined id. */
  ghost predicate Sharded(table: seq<Shard>, shards: seq<ShardRows>) {
    && |shards| == |table|
    && forall j, r :: 0 <= j < |shards| && r in shards[j].rows ==>
         && r.parentPart == Combine(r.parentPart / PART_COUNT, PartId(r.name))
         && Covers(table, j, HashShard(r.parentPart))
  }

  /** The shards list rows that are stored at their places. */
  ghost predicate Lists(table: seq<Shard>, rows: Placement.Rows, shards: seq<ShardRows>) {
    && |shards| == |table|
    && forall j, r :: 0 <= j < |shards| && r in shards[j].rows ==>
         Placement.Place(table[j].point, r.parentPart, r.name) in rows
  }

  /** So it is when the handlers of the namespace have stored them. */
  lemma StoredIsSharded(workers: seq<int>, table: seq<Shard>, rows: Placement.Rows, f: Placement.NamespaceTables.Files,
                        shards: seq<ShardRows>)
    requires TableOk(table) && Placement.Stores(Placement.LayoutOf(workers, table), rows, f) && Lists(table, rows, shards)
    ensures Sharded(table, shards)
  {
    forall j, r | 0 <= j < |shards| && r in shards[j].rows
      ensures r.parentPart == Combine(r.parentPart / PART_COUNT, PartId(r.name)) && Covers(table, j, HashShard(r.parentPart))
    {
      var p := Placement.Place(table[j].point, r.parentPart, r.name);
      assert p == Placement.PlaceOf(table, Placement.KeyOf(p));
      SamePoint(table, j, Placement.OwnerIndex(table, HashShard(r.parentPart)));
    }
  }

  lemma SamePoint(table: seq<Shard>, j: nat, k: nat)
    requires TableOk(table) && j < |table| && k < |table| && table[j].point == table[k].point
    ensures j == k
  {
  }

  lemma ShardedIsPlaced(table: seq<Shard>, shards: seq<ShardRows>, id: nat, j: nat)
    requires Sharded(table, shards) && j < |shards|
    ensures Placed(shards[j].rows, id)
  {
    forall r | r in shards[j].rows && InRange(id, r) ensures r.parentPart == Combine(id, PartId(r.name)) {
      CombineInverts(id, 0);
    }
  }

  lemma ShardedIsOneShardEach(table: seq<Shard>, shards: seq<ShardRows>, me: int, id: nat)
    requires TableOk(table) && Sharded(table, shards)
    ensures OneShardEach(shards, me, id)
  {
    forall j, k, r, q | j < k && EntryOf(shards, me, id, j, r) && EntryOf(shards, me, id, k, q) ensures r.name != q.name {
      CombineInverts(id, 0);
      CoversOnce(table, j, k, HashShard(q.parentPart));
    }
  }

  /** In the shards of a table the coordinator built, with each shard's rows in index order, reading a directory
      returns every entry once. */
  lemma EveryEntryOnce(lt: NameOrder, table: seq<Shard>, shards: seq<ShardRows>, me: int, id: nat)
    requires TableOk(table) && Sharded(table, shards)
    requires forall j :: 0 <= j < |shards| ==> Indexed(lt, shards[j].rows)
    ensures TablesOk(lt, shards, id) && DistinctNames(AllEntries(lt, shards, me, id))
    ensures forall r :: r in AllEntries(lt, shards, me, id) <==> exists j :: EntryOf(shards, me, id, j, r)
  {
    forall j | 0 <= j < |shards| ensures Placed(shards[j].rows, id) { ShardedIsPlaced(table, shards, id, j); }
    ShardedIsOneShardEach(table, shards, me, id);
    EntriesDistinct(lt, shards, me, id, 0);
    forall r ensures r in AllEntries(lt, shards, me, id) <==> exists j :: EntryOf(shards, me, id, j, r) {
      EntriesComplete(lt, shards, me, id, 0, r);
    }
  }
}
