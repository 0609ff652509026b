/**
 The directory cache as the code runs it: an entry is found or entered, the table is read or written, and the log is
 applied at commit.  What a transaction leaves behind is exactly what module DirCacheRuns says of its requests.
 */
module DirCache {
  import opened Common
  import opened PathParse
  import opened DirCacheRuns

  class DirectoryCache {
    var cache: Cache
    var table: DirTable
    var log: seq<Action>
    var pinned: set<Key>
    var committed: DirTable

    ghost predicate Valid()
      reads this
    {
      pinned <= cache.Keys
    }

    ghost predicate Quiet()
      reads this
    {
      log == [] && pinned == {} && table == committed
    }

    ghost function Now(): View
      reads this
    {
      View(cache, table, log, pinned)
    }

    constructor (table: DirTable)
      ensures Valid() && Quiet() && this.table == table && cache == map[]
    {
      this.table, committed, cache := table, table, map[];
      log, pinned := [], {};
    }

    /** Entries whose lock this transaction does not hold may go at any time. */
    method Evict(lost: set<Key>)
      requires Valid()
      modifies this`cache
      ensures Valid() && Now() == Lose(old(Now()), lost)
    {
      cache := cache - (lost - pinned);
    }

    /** Finds or enters an entry; without a lock to keep there may be no room for a new one. */
    method FindOrEnter(k: Key, value: Cached, lock: bool, room: bool)
      requires Valid()
      modifies this`cache, this`log, this`pinned
      ensures Valid() && Now() == Enter(old(Now()), k, value, lock, room)
    {
      if k !in cache && (lock || room) {
        log, cache := log + [Added(k)], cache[k := value];
      }
      if lock {
        pinned := pinned + {k};
      }
    }

    /** Answers from the cache, or from the table.  The cache stays coherent with the committed table if and only if
        the answer came from the cache, was not kept, or is the committed one. */
    method Search(k: Key, lock: bool, room: bool) returns (r: Cached)
      requires Valid()
      modifies this`cache, this`log, this`pinned
      ensures Valid() && Now() == LookUp(old(Now()), k, lock, room)
      ensures r == if Has(old(cache), k) then old(cache)[k] else Answer(table, k)
      ensures old(Coherent(cache, committed)) ==>
        (Coherent(cache, committed) <==> Has(old(cache), k) || k !in cache || Answer(table, k) == Answer(committed, k))
    {
      if Has(cache, k) {
        FindOrEnter(k, Unknown, lock, room);
        return cache[k];
      }
      r := Answer(table, k);
      FindOrEnter(k, r, lock, room);
      if k in cache {
        cache := cache[k := r];
      }
    }

    /** Adds a directory: an error when it is there, otherwise the table has it and the log will tell the cache.  It
        looks the key up first, so the cache stays coherent with the committed table if and only if the answer was
        cached, the call failed, the answer was not kept, or the committed table does not have the key either. */
    method Insert(k: Key, id: nat, lock: bool, room: bool) returns (ok: bool)
      requires Valid()
      modifies this`cache, this`log, this`pinned, this`table
      ensures Valid() && Effect(Now(), ok) == Do(old(Now()), Make(k, id, lock), room)
      ensures ok <==> k !in old(table)
      ensures old(Coherent(cache, committed)) ==>
        (Coherent(cache, committed) <==> Has(old(cache), k) || k in old(table) || k !in cache || k !in committed)
    {
      if !Has(cache, k) && k in table {
        return false;
      }
      var _ := Search(k, lock, room);
      if k in table {
        return false;
      }
      table := table[k := id];
      if k in cache {
        log := log + [Update(k, Known(id))];
      }
      ok := true;
    }

    /** Removes a directory: an error when it is not there, otherwise the table forgets it and the log will tell the
        cache.  It never looks the answer up, so coherence is kept. */
    method Delete(k: Key, lock: bool, room: bool) returns (ok: bool)
      requires Valid()
      modifies this`cache, this`log, this`pinned, this`table
      ensures Valid() && Effect(Now(), ok) == Do(old(Now()), Remove(k, lock), room)
      ensures ok <==> k in old(table)
      ensures old(Coherent(cache, committed)) ==> Coherent(cache, committed)
    {
      FindOrEnter(k, Unknown, lock, room);
      if k !in table {
        return false;
      }
      table := table - {k};
      if k in cache {
        log := log + [Update(k, Absent)];
      }
      ok := true;
    }

    /** Applies the log, with whatever is evicted to make room and wherever an update finds none.  Then the cache is
        coherent with the transaction's table when the log has its answers, and for keys without an update the cache
        had its answers or none. */
    method Commit() returns (ghost ds: seq<Chance>)
      modifies this
      ensures Valid() && Quiet() && table == old(table)
      ensures |ds| == |old(log)| && cache == ApplyLog(old(cache), old(log), ds)
      ensures (forall k :: Last(old(log), k) != Unknown ==> Last(old(log), k) == Answer(table, k))
              && (forall k :: Last(old(log), k) == Unknown && k in old(cache) ==>
                    old(cache)[k] == Unknown || old(cache)[k] == Answer(table, k))
              ==> Coherent(cache, committed)
    {
      ds := [];
      for i := 0 to |log|
        invariant log == old(log) && table == old(table) && |ds| == i
        invariant cache == ApplyLog(old(cache), log[..i], ds)
      {
        var lost: set<Key>, room: bool := *, *;
        match log[i] {
          case Added(_) => cache := cache - lost;
          case Update(k, value) =>
            if k in cache || room {
              cache := cache[k := value];
            }
        }
        assert log[..i + 1][..i] == log[..i] && (ds + [Chance(lost, room)])[..i] == ds;
        ds := ds + [Chance(lost, room)];
      }
      assert log[..|log|] == log;
      forall k | k in cache
        ensures if Last(log, k) != Unknown then cache[k] == Last(log, k)
                else cache[k] == Unknown || (k in old(cache) && cache[k] == old(cache)[k])
      {
        Applied(old(cache), log, ds, k);
      }
      committed, log, pinned := table, [], {};
    }

    /** Drops the log and the transaction's writes; the cache stays as it is. */
    method Abort()
      modifies this
      ensures Valid() && Quiet() && committed == old(committed) && cache == old(cache)
    {
      table, log, pinned := committed, [], {};
    }

    // ---------------------------------------------------------------- whole transactions

    method Serve(r: Request, room: bool) returns (ok: bool)
      requires Valid()
      modifies this`cache, this`log, this`pinned, this`table
      ensures Valid() && Effect(Now(), ok) == Do(old(Now()), r, room)
    {
      match r {
        case Lookup(k, lock) =>
          var _ := Search(k, lock, room);
          ok := true;
        case Make(k, id, lock) => ok := Insert(k, id, lock, room);
        case Remove(k, lock) => ok := Delete(k, lock, room);
      }
    }

    /** Runs requests until one fails; cs are the evictions meanwhile and the room there was. */
    method ServeAll(rs: seq<Request>) returns (ok: bool, ghost cs: seq<Chance>)
      requires Valid() && Quiet()
      modifies this`cache, this`log, this`pinned, this`table
      ensures Valid() && |cs| == |rs| && Effect(Now(), ok) == RunAll(old(Now()), rs, cs)
    {
      cs := [];
      for i := 0 to |rs|
        invariant Valid() && |cs| == i && RunAll(old(Now()), rs[..i], cs) == Effect(Now(), true)
      {
        var lost: set<Key>, room: bool := *, *;
        Evict(lost);
        ok := Serve(rs[i], room);
        assert rs[..i + 1][..i] == rs[..i] && (cs + [Chance(lost, room)])[..i] == cs;
        cs := cs + [Chance(lost, room)];
        if !ok {
          ghost var all := cs + seq(|rs| - i - 1, _ => Chance({}, false));
          assert all[..i + 1] == cs;
          StopsThere(old(Now()), rs, all, i + 1);
          cs := all;
          return;
        }
      }
      assert rs[..|rs|] == rs;
      ok := true;
    }

    /** A transaction runs its requests until one fails, then commits or aborts; a failure always aborts.  With or
        without the cache the committed table is the one the requests make.  The cache ends coherent after a commit
        when no key's last write is a second one without its lock, and after an abort when every key was looked up, or
        made, as committed; what it holds is what these requests leave under the given evictions and room. */
    method Transaction(rs: seq<Request>, commit: bool) returns (ok: bool, ghost cs: seq<Chance>, ghost ds: seq<Chance>)
      requires Valid() && Quiet()
      modifies this
      ensures Valid() && Quiet()
      ensures ok <==> commit && TableAfterAll(old(committed), rs).Some?
      ensures committed == if ok then TableAfterAll(old(committed), rs).value else old(committed)
      ensures |cs| == |rs|
      ensures var v := RunAll(Start(old(cache), old(committed)), rs, cs).v;
        if ok then |ds| == |v.log| && cache == ApplyLog(v.cache, v.log, ds) else cache == v.cache
      ensures old(Coherent(cache, committed)) && (if ok then Loose(rs) == {} else LooksUpFirst(old(committed), rs)) ==>
        Coherent(cache, committed)
    {
      ok, cs := ServeAll(rs);
      RunTable(old(cache), old(committed), rs, cs);
      ds := [];
      if ok && commit {
        ds := Commit();
        if old(Coherent(cache, committed)) && Loose(rs) == {} {
          CommitStaysCoherent(old(cache), old(committed), rs, cs, ds);
        }
      } else {
        Abort();
        ok := false;
        if old(Coherent(cache, committed)) && LooksUpFirst(old(committed), rs) {
          StaysCoherent(old(cache), old(committed), rs, cs);
        }
      }
    }
  }

  // ------------------------------------------------------------------ what goes wrong otherwise

  /** Looking a key up after writing it leaves a wrong answer behind when the transaction aborts: a directory that
      exists is remembered as absent. */
  method LookupAfterWriteThenAbort(k: Key, id: nat) returns (c: DirectoryCache)
    ensures fresh(c) && c.Valid() && c.Quiet() && k in c.cache
    ensures c.cache[k] == Absent && c.committed == map[k := id] && !Coherent(c.cache, c.committed)
  {
    c := new DirectoryCache(map[k := id]);
    var ok := c.Delete(k, true, true);
    assert c.cache[k] == Unknown && k !in c.table;
    var r := c.Search(k, true, true);
    c.Abort();
  }

  /** So does making it again after removing it. */
  method MakeAfterRemoveThenAbort(k: Key, id: nat) returns (c: DirectoryCache)
    ensures fresh(c) && c.Valid() && c.Quiet() && k in c.cache
    ensures c.cache[k] == Absent && c.committed == map[k := id] && !Coherent(c.cache, c.committed)
  {
    c := new DirectoryCache(map[k := id]);
    var ok := c.Delete(k, false, true);
    assert c.cache[k] == Unknown && k !in c.table;
    ok := c.Insert(k, id, false, true);
    c.Abort();
  }

  /** Two writes of a key without its lock leave a wrong answer behind when the transaction commits, if the entry is
      evicted between them and the second write finds no room. */
  lemma SecondWriteThenCommit(k: Key, id: nat)
    ensures var rs, committed := [Remove(k, false), Make(k, id, false)], map[k := id];
      TableAfterAll(committed, rs) == Some(map[k := id]) && Loose(rs) == {k} && !CommitsCoherent(committed, rs)
  {
    var rs, committed := [Remove(k, false), Make(k, id, false)], map[k := id];
    assert rs[..1] == [Remove(k, false)] && rs[..1][..0] == [];
    assert TableAfterAll(committed, rs[..1]) == Some(map[]);
    assert Written(rs[..1]) == {k} && Loose(rs[..1]) == {} && Pinned(rs[..1]) == {};
    assert Pinned(rs) == {};
    CommitCoherentIff(committed, rs);
  }
}
