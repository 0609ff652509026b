/**
 Creating the files of one shard in groups: a subtransaction inserts up to a group of rows, and a unique violation
 rolls the whole group back, marks the request that met it, and tries again.
 */
module GroupedCreate {
  import opened NamespaceTables

  const GROUP_SIZE: nat := 8

  /** A request for one key of a shard's table, by its number in the batch. */
  datatype Item<K> = Item(key: K, newId: nat, at: nat)
  datatype Code = Created | FileExists
  type Rows<K> = map<K, Row>

  function NewRow<K>(item: Item<K>): Row {
    Row(item.newId, false, 1)
  }

  // ------------------------------------------------------------------ one insert at a time

  /** The rows after inserting the requests one at a time, in order, where a taken key changes nothing. */
  function RowsAfter<K>(rows: Rows<K>, items: seq<Item<K>>): Rows<K> {
    if items == [] then rows
    else
      var before, last := RowsAfter(rows, items[..|items| - 1]), items[|items| - 1];
      if last.key in before then before else before[last.key := NewRow(last)]
  }

  function CodeOf<K>(rows: Rows<K>, items: seq<Item<K>>, i: nat): Code
    requires i < |items|
  {
    if items[i].key in RowsAfter(rows, items[..i]) then FileExists else Created
  }

  /** The inode id a request reports: its own, or that of the row that was there first. */
  function InodeOf<K>(rows: Rows<K>, items: seq<Item<K>>, i: nat): nat
    requires i < |items|
  {
    var before := RowsAfter(rows, items[..i]);
    if items[i].key in before then before[items[i].key].ino else items[i].newId
  }

  /** No row is ever changed, and every request's key ends up with the inode it reports. */
  lemma {:induction false} RowsStay<K>(rows: Rows<K>, items: seq<Item<K>>, i: nat)
    requires i <= |items|
    ensures var before, after := RowsAfter(rows, items[..i]), RowsAfter(rows, items);
      && (forall k :: k in before ==> k in after && after[k] == before[k])
      && (i < |items| ==> items[i].key in after && after[items[i].key].ino == InodeOf(rows, items, i))
  {
    if i == |items| {
      assert items[..i] == items;
    } else {
      var front := items[..|items| - 1];
      if i < |front| {
        RowsStay(rows, front, i);
        assert front[..i] == items[..i];
      } else {
        assert front == items[..i];
      }
    }
  }

  /** Two requests for one key get the same inode, and at most the first of them creates it. */
  lemma DuplicatesAgree<K>(rows: Rows<K>, items: seq<Item<K>>, i: nat, j: nat)
    requires i < j < |items| && items[i].key == items[j].key
    ensures CodeOf(rows, items, j) == FileExists && InodeOf(rows, items, i) == InodeOf(rows, items, j)
  {
    assert items[..j][..i] == items[..i] && items[..j][i] == items[i];
    RowsStay(rows, items[..j], i);
  }

  function Marked(codes: seq<Code>): nat {
    if codes == [] then 0 else Marked(codes[..|codes| - 1]) + if codes[|codes| - 1] == FileExists then 1 else 0
  }

  lemma {:induction false} MarkOne(codes: seq<Code>, i: nat)
    requires i < |codes| && codes[i] == Created
    ensures Marked(codes[i := FileExists]) == Marked(codes) + 1 && Marked(codes[i := FileExists]) <= |codes|
  {
    var n := |codes| - 1;
    var after := codes[i := FileExists];
    MarkedAtMost(after);
    if i == n {
      assert after[..n] == codes[..n];
    } else {
      MarkOne(codes[..n], i);
      assert after[..n] == codes[..n][i := FileExists];
    }
  }

  lemma {:induction false} MarkedAtMost(codes: seq<Code>)
    ensures Marked(codes) <= |codes|
  {
    if codes != [] { MarkedAtMost(codes[..|codes| - 1]); }
  }

  // ------------------------------------------------------------------ in groups

  /** A mark is only ever put where one insert at a time fails too. */
  ghost predicate MarksOk<K>(rows: Rows<K>, items: seq<Item<K>>, codes: seq<Code>) {
    |codes| == |items| && forall i :: 0 <= i < |items| && codes[i] == FileExists ==> CodeOf(rows, items, i) == FileExists
  }

  ghost predicate DoneOk<K>(rows: Rows<K>, items: seq<Item<K>>, codes: seq<Code>, inodes: seq<nat>, done: nat) {
    && |codes| == |items| == |inodes| && done <= |items|
    && (forall i :: 0 <= i < done ==> codes[i] == CodeOf(rows, items, i) && inodes[i] == InodeOf(rows, items, i))
    && forall i :: done <= i < |items| && codes[i] == Created ==> inodes[i] == items[i].newId
  }

  lemma NextItem<K>(rows: Rows<K>, items: seq<Item<K>>, i: nat)
    requires i < |items|
    ensures RowsAfter(rows, items[..i + 1]) ==
            if items[i].key in RowsAfter(rows, items[..i]) then RowsAfter(rows, items[..i])
            else RowsAfter(rows, items[..i])[items[i].key := NewRow(items[i])]
  {
    assert items[..i + 1][..i] == items[..i];
  }

  lemma DoneBefore<K>(rows: Rows<K>, items: seq<Item<K>>, codes: seq<Code>, inodes: seq<nat>, done: nat, at: nat)
    requires done <= at && DoneOk(rows, items, codes, inodes, at)
    ensures DoneOk(rows, items, codes, inodes, done)
  {
  }

  lemma DoneNext<K>(rows: Rows<K>, items: seq<Item<K>>, codes: seq<Code>, inodes: seq<nat>, at: nat)
    requires at < |items| && DoneOk(rows, items, codes, inodes, at) && codes[at] == CodeOf(rows, items, at)
    ensures DoneOk(rows, items, codes, inodes[at := InodeOf(rows, items, at)], at + 1)
    ensures codes[at] == Created ==> inodes[at := InodeOf(rows, items, at)] == inodes
  {
  }

  /** One subtransaction from request done on: it inserts a group, or fails at a request that must fail. */
  method TryGroup<K>(ghost rows: Rows<K>, table: Rows<K>, items: seq<Item<K>>, codes: seq<Code>, inodes: seq<nat>, done: nat)
    returns (failed: bool, at: nat, table': Rows<K>, inodes': seq<nat>)
    requires done < |items| && MarksOk(rows, items, codes) && DoneOk(rows, items, codes, inodes, done)
    requires table == RowsAfter(rows, items[..done])
    ensures failed ==> at < |items| && codes[at] == Created && CodeOf(rows, items, at) == FileExists
    ensures failed ==> table' == table && DoneOk(rows, items, codes, inodes', done)
    ensures !failed ==> done < at <= |items| && table' == RowsAfter(rows, items[..at]) && DoneOk(rows, items, codes, inodes', at)
  {
    failed, at, table', inodes' := false, done, table, inodes;
    var room := GROUP_SIZE;
    while room > 0 && at < |items|
      invariant done <= at <= |items| && (at == done ==> room > 0)
      invariant table' == RowsAfter(rows, items[..at]) && DoneOk(rows, items, codes, inodes', at)
      decreases |items| - at
    {
      var item := items[at];
      NextItem(rows, items, at);
      if codes[at] == CodeOf(rows, items, at) { DoneNext(rows, items, codes, inodes', at); }
      if codes[at] == FileExists {
        assert CodeOf(rows, items, at) == FileExists;
        inodes' := inodes'[at := table'[item.key].ino];
      } else if item.key in table' {
        DoneBefore(rows, items, codes, inodes', done, at);
        return true, at, table, inodes';
      } else {
        assert CodeOf(rows, items, at) == Created;
        table' := table'[item.key := NewRow(item)];
        room := room - 1;
      }
      at := at + 1;
    }
  }

  /** Groups with rollback and retry end, and give the table, the codes and the inode ids of one insert at a time. */
  method CreateInGroups<K>(rows: Rows<K>, items: seq<Item<K>>) returns (table: Rows<K>, codes: seq<Code>, inodes: seq<nat>)
    ensures table == RowsAfter(rows, items) && |codes| == |items| == |inodes|
    ensures forall i :: 0 <= i < |items| ==> codes[i] == CodeOf(rows, items, i) && inodes[i] == InodeOf(rows, items, i)
  {
    table := rows;
    codes := seq(|items|, _ => Created);
    inodes := seq(|items|, i requires 0 <= i < |items| => items[i].newId);
    var done: nat := 0;
    MarkedAtMost(codes);
    while done < |items|
      invariant done <= |items| && MarksOk(rows, items, codes) && DoneOk(rows, items, codes, inodes, done)
      invariant table == RowsAfter(rows, items[..done]) && Marked(codes) <= |items|
      decreases |items| - Marked(codes), |items| - done
    {
      var failed, at, t, ids := TryGroup(rows, table, items, codes, inodes, done);
      inodes := ids;
      if failed {
        MarkOne(codes, at);
        codes := codes[at := FileExists];
      } else {
        table, done := t, at;
      }
    }
    assert items[..done] == items;
  }
}
