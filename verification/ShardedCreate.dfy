/**
 A batch of create as the worker runs it: the requests are sorted out by shard, and each shard's requests are inserted
 in groups, in whatever order the shards come.  It gives what inserting the requests one after the other gives.
 */
module ShardedCreate {
  import opened Paths
  import opened PathParse
  import opened NamespaceTables
  import opened Placement
  import opened Namespace
  import G = GroupedCreate

  type Item<K> = G.Item<K>

  // ------------------------------------------------------------------ shard by shard

  /** The requests of one shard, in their order. */
  function Of<K>(items: seq<Item<K>>, shardOf: K -> int, s: int): seq<Item<K>> {
    if items == [] then []
    else
      var last := items[|items| - 1];
      Of(items[..|items| - 1], shardOf, s) + if shardOf(last.key) == s then [last] else []
  }

  predicate SameAt<K>(f: G.Rows<K>, g: G.Rows<K>, k: K) {
    (k in f <==> k in g) && (k in f ==> f[k] == g[k])
  }

  /** What the inserts do at a key depends on what was there. */
  lemma {:induction false} BaseOnly<K>(f: G.Rows<K>, g: G.Rows<K>, items: seq<Item<K>>, k: K)
    requires SameAt(f, g, k)
    ensures SameAt(G.RowsAfter(f, items), G.RowsAfter(g, items), k)
  {
    if items != [] { BaseOnly(f, g, items[..|items| - 1], k); }
  }

  lemma RowsAppend<K>(f: G.Rows<K>, items: seq<Item<K>>, last: Item<K>)
    ensures var before := G.RowsAfter(f, items);
      G.RowsAfter(f, items + [last]) == if last.key in before then before else before[last.key := G.NewRow(last)]
  {
    assert (items + [last])[..|items|] == items;
  }

  /** And on the requests of its own shard. */
  lemma {:induction false} OwnShard<K>(f: G.Rows<K>, items: seq<Item<K>>, shardOf: K -> int, s: int, k: K)
    ensures SameAt(G.RowsAfter(f, Of(items, shardOf, s)), if shardOf(k) == s then G.RowsAfter(f, items) else f, k)
  {
    if items != [] {
      var front, last := items[..|items| - 1], items[|items| - 1];
      var list := Of(front, shardOf, s);
      OwnShard(f, front, shardOf, s, k);
      RowsAppend(f, list, last);
      RowsAppend(f, front, last);
      assert items == front + [last];
      if shardOf(last.key) == s {
        assert Of(items, shardOf, s) == list + [last];
      } else {
        assert Of(items, shardOf, s) == list;
      }
    }
  }

  /** Where a request stands among those of its shard. */
  lemma {:induction false} PlaceInShard<K>(items: seq<Item<K>>, shardOf: K -> int, s: int, i: nat)
    requires i < |items| && shardOf(items[i].key) == s
    ensures var p, list := |Of(items[..i], shardOf, s)|, Of(items, shardOf, s);
      p < |list| && list[p] == items[i] && list[..p] == Of(items[..i], shardOf, s)
  {
    var front := items[..|items| - 1];
    if i < |front| {
      PlaceInShard(front, shardOf, s, i);
      assert front[..i] == items[..i];
    } else {
      assert front == items[..i];
    }
  }

  /** Every request of the shard's list is one of the batch. */
  lemma {:induction false} FromBatch<K>(items: seq<Item<K>>, shardOf: K -> int, s: int, p: nat) returns (i: nat)
    requires p < |Of(items, shardOf, s)|
    ensures i < |items| && shardOf(items[i].key) == s && items[i] == Of(items, shardOf, s)[p] && p == |Of(items[..i], shardOf, s)|
  {
    var front := items[..|items| - 1];
    if p < |Of(front, shardOf, s)| {
      i := FromBatch(front, shardOf, s, p);
      assert front[..i] == items[..i];
    } else {
      i := |front|;
    }
  }

  /** A request gets the code and the inode id it would get in the whole batch. */
  lemma SameCode<K>(rows: G.Rows<K>, table: G.Rows<K>, items: seq<Item<K>>, shardOf: K -> int, s: int, i: nat)
    requires i < |items| && shardOf(items[i].key) == s && SameAt(table, rows, items[i].key)
    ensures var p, list := |Of(items[..i], shardOf, s)|, Of(items, shardOf, s);
      && p < |list| && list[p] == items[i]
      && G.CodeOf(table, list, p) == G.CodeOf(rows, items, i) && G.InodeOf(table, list, p) == G.InodeOf(rows, items, i)
  {
    var front, k := items[..i], items[i].key;
    PlaceInShard(items, shardOf, s, i);
    BaseOnly(table, rows, Of(front, shardOf, s), k);
    OwnShard(rows, front, shardOf, s, k);
  }

  datatype Answer = Answer(code: G.Code, inode: nat)

  /** Requests have different numbers. */
  ghost predicate Numbered<K>(items: seq<Item<K>>) {
    forall i, j :: 0 <= i < j < |items| ==> items[i].at != items[j].at
  }

  ghost predicate Answered<K>(rows: G.Rows<K>, items: seq<Item<K>>, answers: map<nat, Answer>, i: nat)
    requires i < |items|
  {
    items[i].at in answers && answers[items[i].at] == Answer(G.CodeOf(rows, items, i), G.InodeOf(rows, items, i))
  }

  /** The answers go to the requests of the shard. */
  method Deliver<K>(list: seq<Item<K>>, codes: seq<G.Code>, inodes: seq<nat>, answers: map<nat, Answer>)
    returns (more: map<nat, Answer>)
    requires |codes| == |list| == |inodes| && Numbered(list)
    ensures forall p :: 0 <= p < |list| ==> list[p].at in more && more[list[p].at] == Answer(codes[p], inodes[p])
    ensures forall a :: a in answers && (forall p :: 0 <= p < |list| ==> list[p].at != a) ==> a in more && more[a] == answers[a]
  {
    more := answers;
    for n := 0 to |list|
      invariant forall p :: 0 <= p < n ==> list[p].at in more && more[list[p].at] == Answer(codes[p], inodes[p])
      invariant forall a :: a in answers && (forall p :: 0 <= p < n ==> list[p].at != a) ==> a in more && more[a] == answers[a]
    {
      more := more[list[n].at := Answer(codes[n], inodes[n])];
    }
  }

  lemma {:induction false} ListNumbered<K>(items: seq<Item<K>>, shardOf: K -> int, s: int)
    requires Numbered(items)
    ensures Numbered(Of(items, shardOf, s))
  {
    if items != [] {
      var front, last := items[..|items| - 1], items[|items| - 1];
      ListNumbered(front, shardOf, s);
      var list := Of(front, shardOf, s);
      forall p | 0 <= p < |list| ensures list[p].at != last.at {
        var i := FromBatch(front, shardOf, s, p);
        assert items[i].at != items[|items| - 1].at;
      }
    }
  }

  /** What is inserted and answered when these shards are done. */
  ghost predicate DoneFor<K(!new)>(rows: G.Rows<K>, items: seq<Item<K>>, shardOf: K -> int, done: set<int>, table: G.Rows<K>,
                                  answers: map<nat, Answer>) {
    && (forall k :: SameAt(table, if shardOf(k) in done then G.RowsAfter(rows, items) else rows, k))
    && forall i :: 0 <= i < |items| && shardOf(items[i].key) in done ==> Answered(rows, items, answers, i)
  }

  lemma TableStep<K(!new)>(rows: G.Rows<K>, items: seq<Item<K>>, shardOf: K -> int, done: set<int>, table: G.Rows<K>, s: int)
    requires s !in done
    requires forall k :: SameAt(table, if shardOf(k) in done then G.RowsAfter(rows, items) else rows, k)
    ensures forall k :: SameAt(G.RowsAfter(table, Of(items, shardOf, s)),
                               if shardOf(k) in done + {s} then G.RowsAfter(rows, items) else rows, k)
  {
    var list := Of(items, shardOf, s);
    forall k ensures SameAt(G.RowsAfter(table, list), if shardOf(k) in done + {s} then G.RowsAfter(rows, items) else rows, k) {
      OwnShard(table, items, shardOf, s, k);
      if shardOf(k) == s { BaseOnly(table, rows, items, k); }
    }
  }

  /** One shard in groups. */
  method CreateShard<K(==, !new)>(ghost rows: G.Rows<K>, items: seq<Item<K>>, shardOf: K -> int, ghost done: set<int>, s: int,
                                  table: G.Rows<K>, answers: map<nat, Answer>)
    returns (table': G.Rows<K>, answers': map<nat, Answer>)
    requires Numbered(items) && s !in done && DoneFor(rows, items, shardOf, done, table, answers)
    ensures DoneFor(rows, items, shardOf, done + {s}, table', answers')
  {
    var list := Of(items, shardOf, s);
    var codes, inodes;
    table', codes, inodes := G.CreateInGroups(table, list);
    TableStep(rows, items, shardOf, done, table, s);
    ListNumbered(items, shardOf, s);
    answers' := Deliver(list, codes, inodes, answers);
    forall i | 0 <= i < |items| && shardOf(items[i].key) in done + {s} ensures Answered(rows, items, answers', i) {
      if shardOf(items[i].key) == s {
        SameCode(rows, table, items, shardOf, s, i);
      } else {
        assert Answered(rows, items, answers, i);
        forall p | 0 <= p < |list| ensures list[p].at != items[i].at {
          var j := FromBatch(items, shardOf, s, p);
          assert j != i;
        }
      }
    }
  }

  lemma SameEverywhere<K(!new)>(f: G.Rows<K>, g: G.Rows<K>)
    requires forall k :: SameAt(f, g, k)
    ensures f == g
  {
    assert forall k :: k in f ==> SameAt(f, g, k);
    assert forall k :: k in g ==> SameAt(f, g, k);
  }

  /** The order in which the shards come lists every shard of the batch once. */
  ghost predicate Covered<K>(items: seq<Item<K>>, shardOf: K -> int, order: seq<int>) {
    && (forall i, j :: 0 <= i < j < |order| ==> order[i] != order[j])
    && forall i :: 0 <= i < |items| ==> shardOf(items[i].key) in order
  }

  /** All shards, in whatever order they come. */
  method CreatePerShard<K(==, !new)>(rows: G.Rows<K>, items: seq<Item<K>>, shardOf: K -> int, order: seq<int>)
    returns (table: G.Rows<K>, answers: map<nat, Answer>)
    requires Numbered(items) && Covered(items, shardOf, order)
    ensures table == G.RowsAfter(rows, items)
    ensures forall i :: 0 <= i < |items| ==> Answered(rows, items, answers, i)
  {
    table, answers := rows, map[];
    ghost var done: set<int> := {};
    for n := 0 to |order|
      invariant done == (set s | s in order[..n]) && DoneFor(rows, items, shardOf, done, table, answers)
    {
      assert order[n] !in order[..n] && order[..n + 1] == order[..n] + [order[n]];
      table, answers := CreateShard(rows, items, shardOf, done, order[n], table, answers);
      done := done + {order[n]};
    }
    assert order[..|order|] == order;
    forall k ensures SameAt(table, G.RowsAfter(rows, items), k) {
      if shardOf(k) !in done { Untouched(rows, items, k); }
    }
    SameEverywhere(table, G.RowsAfter(rows, items));
  }

  lemma {:induction false} Untouched<K>(rows: G.Rows<K>, items: seq<Item<K>>, k: K)
    requires forall i :: 0 <= i < |items| ==> items[i].key != k
    ensures SameAt(rows, G.RowsAfter(rows, items), k)
  {
    if items != [] { Untouched(rows, items[..|items| - 1], k); }
  }

  // ------------------------------------------------------------------ the batch of create

  /** What the walks of the requests found. */
  type Found = seq<(Result, Key)>

  function FoundOf(y: Layout, d: DirTable, worker: int, paths: seq<Path>): Found {
    seq(|paths|, i requires 0 <= i < |paths| => FileKey(y, d, worker, paths[i]))
  }

  /** The requests that reach an entry on this worker. */
  function ItemsOf(found: Found, ids: seq<nat>): seq<Item<Key>>
    requires |ids| == |found|
  {
    if found == [] then []
    else
      var n := |found| - 1;
      ItemsOf(found[..n], ids[..n]) + if found[n].0 == Done then [G.Item(found[n].1, ids[n], n)] else []
  }

  /** The same requests by the places of their entries. */
  function Placed(y: Layout, items: seq<Item<Key>>): (r: seq<Item<Place>>)
    ensures |r| == |items|
  {
    seq(|items|, i requires 0 <= i < |items| => G.Item(y.place(items[i].key), items[i].newId, items[i].at))
  }

  function ShardOf(p: Place): int {
    p.shard
  }

  lemma {:induction false} ItemsNumbered(found: Found, ids: seq<nat>)
    requires |ids| == |found|
    ensures var items := ItemsOf(found, ids); Numbered(items) && forall i :: 0 <= i < |items| ==> items[i].at < |found|
  {
    if found != [] { ItemsNumbered(found[..|found| - 1], ids[..|found| - 1]); }
  }

  /** Where a request stands among those that reach an entry. */
  lemma {:induction false} ItemPlace(found: Found, ids: seq<nat>, i: nat)
    requires |ids| == |found| && i < |found| && found[i].0 == Done
    ensures var items, front := ItemsOf(found, ids), ItemsOf(found[..i], ids[..i]);
      |front| < |items| && items[..|front|] == front && items[|front|] == G.Item(found[i].1, ids[i], i)
  {
    var n := |found| - 1;
    if i < n {
      ItemPlace(found[..n], ids[..n], i);
      assert found[..n][..i] == found[..i] && ids[..n][..i] == ids[..i];
    }
  }

  /** One insert after the other is what a batch of create means. */
  lemma {:induction false} CreateIsRowsAfter(y: Layout, d: DirTable, f: Files, worker: int, paths: seq<Path>, ids: seq<nat>)
    requires |ids| == |paths|
    ensures CreateAll(y, d, f, worker, paths, ids).files == G.RowsAfter(f, ItemsOf(FoundOf(y, d, worker, paths), ids))
  {
    if paths != [] {
      var n, found := |paths| - 1, FoundOf(y, d, worker, paths);
      CreateIsRowsAfter(y, d, f, worker, paths[..n], ids[..n]);
      assert found[..n] == FoundOf(y, d, worker, paths[..n]);
      var front := ItemsOf(found[..n], ids[..n]);
      RowsAppend(f, front, G.Item(found[n].1, ids[n], n));
      if found[n].0 != Done { assert ItemsOf(found, ids) == front; }
    }
  }

  /** A request reports what it finds after those before it. */
  lemma {:induction false} ResultPlace(y: Layout, d: DirTable, f: Files, worker: int, paths: seq<Path>, ids: seq<nat>, i: nat)
    requires |ids| == |paths| && i < |paths|
    ensures var (r, k) := FileKey(y, d, worker, paths[i]);
      CreateAll(y, d, f, worker, paths, ids).results[i] ==
      if r != Done then r
      else if k in CreateAll(y, d, f, worker, paths[..i], ids[..i]).files then FileExists else Done
  {
    var n := |paths| - 1;
    if i < n {
      ResultPlace(y, d, f, worker, paths[..n], ids[..n], i);
      assert paths[..n][..i] == paths[..i] && ids[..n][..i] == ids[..i];
    }
  }

  function ResultOf(code: G.Code): Result {
    if code == G.Created then Done else FileExists
  }

  /** The shards hold what the entries say, also after the inserts. */
  lemma {:induction false} StoresAfter(y: Layout, rows: Rows, f: Files, items: seq<Item<Key>>)
    requires LayoutOk(y) && Stores(y, rows, f)
    ensures Stores(y, G.RowsAfter(rows, Placed(y, items)), G.RowsAfter(f, items))
  {
    if items != [] {
      var front, last := items[..|items| - 1], items[|items| - 1];
      StoresAfter(y, rows, f, front);
      var at := G.Item(y.place(last.key), last.newId, last.at);
      assert Placed(y, items) == Placed(y, front) + [at] && items == front + [last];
      RowsAppend(rows, Placed(y, front), at);
      RowsAppend(f, front, last);
      StoresInsert(y, G.RowsAfter(rows, Placed(y, front)), G.RowsAfter(f, front), last.key, G.NewRow(last));
    }
  }

  lemma SameCodes(y: Layout, rows: Rows, f: Files, items: seq<Item<Key>>, i: nat)
    requires LayoutOk(y) && Stores(y, rows, f) && i < |items|
    ensures G.CodeOf(rows, Placed(y, items), i) == G.CodeOf(f, items, i)
  {
    StoresAfter(y, rows, f, items[..i]);
    assert Placed(y, items)[..i] == Placed(y, items[..i]);
  }

  /** The result of a request, from the walk and from the answers of the shards. */
  predicate Reported(found: Found, answers: map<nat, Answer>, i: nat, result: Result)
    requires i < |found|
  {
    if found[i].0 != Done then result == found[i].0 else i in answers && result == ResultOf(answers[i].code)
  }

  lemma CreateResult(y: Layout, d: DirTable, rows: Rows, f: Files, worker: int, paths: seq<Path>, ids: seq<nat>,
                     answers: map<nat, Answer>, i: nat)
    requires LayoutOk(y) && Stores(y, rows, f) && |ids| == |paths| && i < |paths|
    requires var items := Placed(y, ItemsOf(FoundOf(y, d, worker, paths), ids));
      forall j :: 0 <= j < |items| ==> Answered(rows, items, answers, j)
    ensures Reported(FoundOf(y, d, worker, paths), answers, i, CreateAll(y, d, f, worker, paths, ids).results[i])
  {
    var found := FoundOf(y, d, worker, paths);
    ResultPlace(y, d, f, worker, paths, ids, i);
    if found[i].0 == Done {
      var items, m := ItemsOf(found, ids), |ItemsOf(found[..i], ids[..i])|;
      ItemPlace(found, ids, i);
      assert found[..i] == FoundOf(y, d, worker, paths[..i]);
      CreateIsRowsAfter(y, d, f, worker, paths[..i], ids[..i]);
      assert Answered(rows, Placed(y, items), answers, m);
      SameCodes(y, rows, f, items, m);
    }
  }

  ghost predicate AllReported(found: Found, answers: map<nat, Answer>, results: seq<Result>) {
    |results| == |found| && forall i :: 0 <= i < |found| ==> Reported(found, answers, i, results[i])
  }

  /** The results, in the order of the requests. */
  method Report(found: Found, answers: map<nat, Answer>) returns (results: seq<Result>)
    requires forall i :: 0 <= i < |found| && found[i].0 == Done ==> i in answers
    ensures AllReported(found, answers, results)
  {
    results := [];
    for i := 0 to |found|
      invariant |results| == i && forall j :: 0 <= j < i ==> Reported(found, answers, j, results[j])
    {
      results := results + [if found[i].0 == Done then ResultOf(answers[i].code) else found[i].0];
    }
  }

  lemma PlacedNumbered(y: Layout, found: Found, ids: seq<nat>)
    requires |ids| == |found|
    ensures Numbered(Placed(y, ItemsOf(found, ids)))
  {
    ItemsNumbered(found, ids);
  }

  ghost predicate AllAnswered(rows: Rows, items: seq<Item<Place>>, answers: map<nat, Answer>) {
    forall i :: 0 <= i < |items| ==> Answered(rows, items, answers, i)
  }

  lemma CreateResults(y: Layout, d: DirTable, rows: Rows, f: Files, worker: int, paths: seq<Path>, ids: seq<nat>,
                      answers: map<nat, Answer>)
    requires LayoutOk(y) && Stores(y, rows, f) && |ids| == |paths|
    requires AllAnswered(rows, Placed(y, ItemsOf(FoundOf(y, d, worker, paths), ids)), answers)
    ensures AllReported(FoundOf(y, d, worker, paths), answers, CreateAll(y, d, f, worker, paths, ids).results)
  {
    forall i | 0 <= i < |paths|
      ensures Reported(FoundOf(y, d, worker, paths), answers, i, CreateAll(y, d, f, worker, paths, ids).results[i])
    {
      CreateResult(y, d, rows, f, worker, paths, ids, answers, i);
    }
  }

  lemma AnswersThere(found: Found, answers: map<nat, Answer>, results: seq<Result>)
    requires AllReported(found, answers, results)
    ensures forall i :: 0 <= i < |found| && found[i].0 == Done ==> i in answers
  {
    forall i | 0 <= i < |found| && found[i].0 == Done ensures i in answers {
      assert Reported(found, answers, i, results[i]);
    }
  }

  lemma SameResults(found: Found, answers: map<nat, Answer>, results: seq<Result>, others: seq<Result>)
    requires AllReported(found, answers, results) && AllReported(found, answers, others)
    ensures results == others
  {
    forall i | 0 <= i < |found| ensures results[i] == others[i] {
      assert Reported(found, answers, i, results[i]) && Reported(found, answers, i, others[i]);
    }
  }

  /** The inserts of a batch of create, shard by shard and in groups, give its rows and its results. */
  method CreateFound(y: Layout, rows: Rows, found: Found, ids: seq<nat>, order: seq<int>,
                     ghost d: DirTable, ghost f: Files, ghost worker: int, ghost paths: seq<Path>)
    returns (table: Rows, results: seq<Result>)
    requires LayoutOk(y) && Stores(y, rows, f) && |ids| == |paths| && found == FoundOf(y, d, worker, paths)
    requires Covered(Placed(y, ItemsOf(found, ids)), ShardOf, order)
    ensures var b := CreateAll(y, d, f, worker, paths, ids); Stores(y, table, b.files) && results == b.results
  {
    PlacedNumbered(y, found, ids);
    var answers;
    table, answers := CreatePerShard(rows, Placed(y, ItemsOf(found, ids)), ShardOf, order);
    CreateResults(y, d, rows, f, worker, paths, ids, answers);
    AnswersThere(found, answers, CreateAll(y, d, f, worker, paths, ids).results);
    results := Report(found, answers);
    SameResults(found, answers, results, CreateAll(y, d, f, worker, paths, ids).results);
    StoresAfter(y, rows, f, ItemsOf(found, ids));
    CreateIsRowsAfter(y, d, f, worker, paths, ids);
  }
}
