/**
 Where inode rows are stored: every row of a directory entry on the shard that owns the hash of its name, every
 shard on one worker.
 */
module Placement {
  import opened Paths
  import opened PathParse
  import opened ShardRouting
  import opened NamespaceTables

  /** The shard, by its range point, and the key in that shard's table. */
  datatype Place = Place(shard: int, parentPart: nat, name: Name)
  type Rows = map<Place, Row>

  function KeyOf(p: Place): Key {
    Key(p.parentPart / PART_COUNT, p.name)
  }

  /** The place of an entry and the worker of a shard, as functions. */
  datatype Layout = Layout(place: Key -> Place, serverOf: int -> int, workers: seq<int>)

  /** The coordinator's server id. */
  const CN: int := 0

  /** Places tell entries apart, and every place is on a worker. */
  ghost predicate LayoutOk(y: Layout) {
    && CN !in y.workers && (forall i, j :: 0 <= i < j < |y.workers| ==> y.workers[i] != y.workers[j])
    && forall k :: KeyOf(y.place(k)) == k && y.serverOf(y.place(k).shard) in y.workers
  }

  /** The rows on the shards are the rows by entry, each at its own place. */
  ghost predicate Stores(y: Layout, rows: Rows, f: Files) {
    && (forall k :: k in f <==> y.place(k) in rows)
    && (forall k :: k in f ==> rows[y.place(k)] == f[k])
    && (forall p :: p in rows ==> p == y.place(KeyOf(p)))
  }

  lemma StoresInsert(y: Layout, rows: Rows, f: Files, k: Key, row: Row)
    requires LayoutOk(y) && Stores(y, rows, f)
    ensures Stores(y, rows[y.place(k) := row], f[k := row])
  {
    forall l | y.place(l) == y.place(k) ensures l == k { assert KeyOf(y.place(l)) == l; }
  }

  lemma StoresRemove(y: Layout, rows: Rows, f: Files, k: Key)
    requires LayoutOk(y) && Stores(y, rows, f)
    ensures Stores(y, rows - {y.place(k)}, f - {k})
  {
    forall l | y.place(l) == y.place(k) ensures l == k { assert KeyOf(y.place(l)) == l; }
  }

  /** Scanning a directory's range of keys on the shards of one worker. */
  predicate WorkerHasChild(y: Layout, rows: Rows, worker: int, id: nat) {
    exists p :: p in rows && y.serverOf(p.shard) == worker
                && Combine(id, 0) <= p.parentPart <= Combine(id, PART_COUNT - 1)
  }

  /** The scans of all workers together find every entry of the directory. */
  lemma WorkersSeeAll(y: Layout, rows: Rows, f: Files, id: nat)
    requires LayoutOk(y) && Stores(y, rows, f)
    ensures (exists w :: w in y.workers && WorkerHasChild(y, rows, w, id)) <==> exists k :: k in f && k.parent == id
  {
    CombineInverts(id, 0);
    if w :| w in y.workers && WorkerHasChild(y, rows, w, id) {
      var p :| p in rows && Combine(id, 0) <= p.parentPart <= Combine(id, PART_COUNT - 1);
      var k := KeyOf(p);
      assert k in f && k.parent == id;
    }
    if k :| k in f && k.parent == id {
      var p := y.place(k);
      assert KeyOf(p) == k;
      assert WorkerHasChild(y, rows, y.serverOf(p.shard), id);
    }
  }

  // ------------------------------------------------------------------ the layout of a shard table

  predicate WorkersHold(workers: seq<int>, table: seq<Shard>) {
    && TableOk(table) && CN !in workers && (forall i, j :: 0 <= i < j < |workers| ==> workers[i] != workers[j])
    && forall i :: 0 <= i < |table| ==> table[i].server in workers
  }

  /** The first shard whose range point is not below the value. */
  function OwnerIndex(table: seq<Shard>, h: int, from: nat := 0): (k: nat)
    requires TableOk(table) && h <= RANGE_MAX && from < |table| && (from > 0 ==> table[from - 1].point < h)
    ensures k < |table| && Covers(table, k, h)
    decreases |table| - from
  {
    if h <= table[from].point then from else OwnerIndex(table, h, from + 1)
  }

  function PlaceOf(table: seq<Shard>, k: Key): Place
    requires TableOk(table)
  {
    var pp := Combine(k.parent, PartId(k.name));
    Place(table[OwnerIndex(table, HashShard(pp))].point, pp, k.name)
  }

  function ServerOf(table: seq<Shard>, point: int): int
    requires TableOk(table)
  {
    if point > RANGE_MAX then -1 else table[OwnerIndex(table, point)].server
  }

  function LayoutOf(workers: seq<int>, table: seq<Shard>): Layout
    requires TableOk(table)
  {
    Layout(k => PlaceOf(table, k), point => ServerOf(table, point), workers)
  }

  /** Every table the coordinator builds lays the rows out soundly. */
  lemma LayoutOfOk(workers: seq<int>, table: seq<Shard>)
    requires WorkersHold(workers, table)
    ensures LayoutOk(LayoutOf(workers, table))
  {
    var y := LayoutOf(workers, table);
    forall k ensures KeyOf(y.place(k)) == k && y.serverOf(y.place(k).shard) in workers {
      PlaceKey(workers, table, k);
    }
  }

  lemma PlaceKey(workers: seq<int>, table: seq<Shard>, k: Key)
    requires WorkersHold(workers, table)
    ensures KeyOf(PlaceOf(table, k)) == k && ServerOf(table, PlaceOf(table, k).shard) in workers
  {
    CombineInverts(k.parent, PartId(k.name));
  }
}
