/**
 The directory cache in front of one server's directory table, as values: what one request and one transaction do,
 and exactly which transactions leave every cached answer right.  Lookups fill the cache from the table as the running
 transaction sees it; writes go to the table at once and to the cache through a log that is applied at commit and
 dropped at abort.
 */
module DirCacheRuns {
  import opened Common
  import opened PathParse

  /** A cached answer: the id, that there is no such directory, or that the answer must be looked up. */
  datatype Cached = Unknown | Absent | Known(id: nat)

  datatype Action = Added(key: Key) | Update(key: Key, value: Cached)

  type Cache = map<Key, Cached>

  function Answer(table: DirTable, k: Key): Cached {
    if k in table then Known(table[k]) else Absent
  }

  /** Every cached answer is Unknown or what the table says. */
  ghost predicate Coherent(cache: Cache, table: DirTable) {
    forall k :: k in cache ==> cache[k] == Unknown || cache[k] == Answer(table, k)
  }

  // ------------------------------------------------------------------ one request

  /** pinned: the entries whose lock the transaction holds, which cannot be evicted. */
  datatype View = View(cache: Cache, table: DirTable, log: seq<Action>, pinned: set<Key>)

  /** lock: the caller asks for the entry's lock, and keeps it until the transaction ends. */
  datatype Request =
    | Lookup(key: Key, lock: bool)
    | Make(key: Key, id: nat, lock: bool)
    | Remove(key: Key, lock: bool)

  /** What others do before a request: the entries they evict, and whether they leave room for a new one. */
  datatype Chance = Chance(lost: set<Key>, room: bool)

  datatype Effect = Effect(v: View, ok: bool)

  predicate Has(cache: Cache, k: Key) {
    k in cache && cache[k] != Unknown
  }

  function Lose(v: View, lost: set<Key>): View {
    v.(cache := v.cache - (lost - v.pinned))
  }

  /** Finds or enters the entry, where a new one gets the given value; without a lock to keep there may be no room. */
  function Enter(v: View, k: Key, value: Cached, lock: bool, room: bool): View {
    View(if k !in v.cache && (lock || room) then v.cache[k := value] else v.cache, v.table,
         if k !in v.cache && (lock || room) then v.log + [Added(k)] else v.log,
         if lock then v.pinned + {k} else v.pinned)
  }

  /** The same for a lookup, which also fills an entry that is Unknown. */
  function LookUp(v: View, k: Key, lock: bool, room: bool): View {
    var w := Enter(v, k, Answer(v.table, k), lock, room);
    if k in w.cache && w.cache[k] == Unknown then w.(cache := w.cache[k := Answer(v.table, k)]) else w
  }

  /** Writes the table, and logs the new answer when there is an entry. */
  function Write(v: View, k: Key, table: DirTable): View {
    v.(table := table, log := if k in v.cache then v.log + [Update(k, Answer(table, k))] else v.log)
  }

  function Do(v: View, r: Request, room: bool): Effect {
    match r
    case Lookup(k, lock) => Effect(LookUp(v, k, lock, room), true)
    case Make(k, id, lock) =>
      if !Has(v.cache, k) && k in v.table then Effect(v, false)
      else
        var w := LookUp(v, k, lock, room);
        if k in v.table then Effect(w, false) else Effect(Write(w, k, v.table[k := id]), true)
    case Remove(k, lock) =>
      var w := Enter(v, k, Unknown, lock, room);
      if k in v.table then Effect(Write(w, k, v.table - {k}), true) else Effect(w, false)
  }

  /** What a successful request does to the entry of its key, and to no other. */
  ghost predicate EntryStep(v: View, w: View, r: Request, room: bool) {
    && w.pinned == v.pinned + (if r.lock then {r.key} else {})
    && (forall l :: l != r.key ==> (l in w.cache <==> l in v.cache) && (l in v.cache ==> w.cache[l] == v.cache[l]))
    && (r.key in w.cache <==> r.key in v.cache || r.lock || room)
    && (Has(w.cache, r.key) <==> Has(v.cache, r.key) || (!r.Remove? && r.key in w.cache))
    && (Has(v.cache, r.key) ==> w.cache[r.key] == v.cache[r.key])
    && (Has(w.cache, r.key) && !Has(v.cache, r.key) ==> w.cache[r.key] == Answer(v.table, r.key))
  }

  lemma LookUpEntry(v: View, k: Key, lock: bool, room: bool)
    ensures EntryStep(v, LookUp(v, k, lock, room), Lookup(k, lock), room)
  {
  }

  lemma RemoveEntry(v: View, k: Key, lock: bool, room: bool)
    ensures EntryStep(v, Enter(v, k, Unknown, lock, room), Remove(k, lock), room)
  {
  }

  lemma DoEntry(v: View, r: Request, room: bool)
    requires Do(v, r, room).ok
    ensures EntryStep(v, Do(v, r, room).v, r, room)
  {
    match r {
      case Lookup(k, lock) => LookUpEntry(v, k, lock, room);
      case Make(k, _, lock) => LookUpEntry(v, k, lock, room);
      case Remove(k, lock) => RemoveEntry(v, k, lock, room);
    }
  }

  // ------------------------------------------------------------------ whole transactions

  function Start(cache: Cache, table: DirTable): View {
    View(cache, table, [], {})
  }

  /** The requests one after the other, up to the first that fails. */
  function RunAll(v: View, rs: seq<Request>, cs: seq<Chance>): Effect
    requires |cs| == |rs|
  {
    if rs == [] then Effect(v, true)
    else
      var n := |rs| - 1;
      var o := RunAll(v, rs[..n], cs[..n]);
      if o.ok then Do(Lose(o.v, cs[n].lost), rs[n], cs[n].room) else o
  }

  /** What one request does to the table, or that it fails. */
  function TableAfter(table: DirTable, r: Request): Option<DirTable> {
    match r
    case Lookup(_, _) => Some(table)
    case Make(k, id, _) => if k in table then None else Some(table[k := id])
    case Remove(k, _) => if k in table then Some(table - {k}) else None
  }

  function TableAfterAll(table: DirTable, rs: seq<Request>): Option<DirTable> {
    if rs == [] then Some(table)
    else
      var before := TableAfterAll(table, rs[..|rs| - 1]);
      if before.None? then None else TableAfter(before.value, rs[|rs| - 1])
  }

  /** The cache never changes what a transaction does to the table. */
  lemma {:induction false} RunTable(cache: Cache, table: DirTable, rs: seq<Request>, cs: seq<Chance>)
    requires |cs| == |rs|
    ensures var o := RunAll(Start(cache, table), rs, cs);
      && (o.ok <==> TableAfterAll(table, rs).Some?)
      && (o.ok ==> o.v.table == TableAfterAll(table, rs).value)
  {
    if rs != [] { RunTable(cache, table, rs[..|rs| - 1], cs[..|rs| - 1]); }
  }

  lemma {:induction false} FailsForGood(table: DirTable, rs: seq<Request>, i: nat)
    requires i <= |rs| && TableAfterAll(table, rs[..i]).None?
    ensures TableAfterAll(table, rs).None?
    decreases |rs|
  {
    if i < |rs| {
      assert rs[..|rs| - 1][..i] == rs[..i];
      FailsForGood(table, rs[..|rs| - 1], i);
    } else {
      assert rs[..i] == rs;
    }
  }

  /** A run that failed stays as it was. */
  lemma {:induction false} StopsThere(v: View, rs: seq<Request>, cs: seq<Chance>, i: nat)
    requires |cs| == |rs| && i <= |rs| && !RunAll(v, rs[..i], cs[..i]).ok
    ensures RunAll(v, rs, cs) == RunAll(v, rs[..i], cs[..i])
    decreases |rs|
  {
    if i < |rs| {
      var n := |rs| - 1;
      assert rs[..n][..i] == rs[..i] && cs[..n][..i] == cs[..i];
      StopsThere(v, rs[..n], cs[..n], i);
    } else {
      assert rs[..i] == rs && cs[..i] == cs;
    }
  }

  // ------------------------------------------------------------------ what the requests alone decide

  /** The keys whose lock some request takes. */
  function Pinned(rs: seq<Request>): set<Key> {
    if rs == [] then {}
    else Pinned(rs[..|rs| - 1]) + if rs[|rs| - 1].lock then {rs[|rs| - 1].key} else {}
  }

  /** The keys that are looked up, or made, while the transaction has their lock: their answers stay in the cache. */
  function Settled(rs: seq<Request>): set<Key> {
    if rs == [] then {}
    else
      var front, last := rs[..|rs| - 1], rs[|rs| - 1];
      Settled(front) + if !last.Remove? && last.key in Pinned(rs) then {last.key} else {}
  }

  predicate Writes(r: Request) {
    r.Make? || r.Remove?
  }

  function Written(rs: seq<Request>): set<Key> {
    if rs == [] then {}
    else Written(rs[..|rs| - 1]) + if Writes(rs[|rs| - 1]) then {rs[|rs| - 1].key} else {}
  }

  /** The keys whose last write is a second one and comes before the transaction has their lock. */
  function Loose(rs: seq<Request>): set<Key> {
    if rs == [] then {}
    else
      var front, last := rs[..|rs| - 1], rs[|rs| - 1];
      if !Writes(last) then Loose(front)
      else if last.key in Pinned(rs) then Loose(front) - {last.key}
      else if last.key in Written(front) then Loose(front) + {last.key}
      else Loose(front)
  }

  /** The request may put the table's answer into the cache. */
  predicate Fills(table: DirTable, r: Request) {
    r.Lookup? || (r.Make? && r.key !in table)
  }

  /** This request of the transaction may fill the cache with an answer that is not the committed one. */
  predicate FillsWrong(committed: DirTable, rs: seq<Request>, j: nat) {
    && j < |rs| && TableAfterAll(committed, rs[..j]).Some?
    && var table := TableAfterAll(committed, rs[..j]).value;
    Fills(table, rs[j]) && rs[j].key !in Settled(rs[..j]) && Answer(table, rs[j].key) != Answer(committed, rs[j].key)
  }

  /** Every key is looked up, or made, while it is as committed, or was looked up before under its lock. */
  predicate LooksUpFirst(committed: DirTable, rs: seq<Request>) {
    forall j: nat :: j < |rs| ==> !FillsWrong(committed, rs, j)
  }

  // ------------------------------------------------------------------ abort

  /** Settled keys have their answers, and their entries stay. */
  ghost predicate SettledStay(v: View, rs: seq<Request>) {
    && (forall k :: k in Settled(rs) ==> Has(v.cache, k))
    && (forall k :: k in Pinned(rs) ==> k in v.pinned && k in v.cache)
    && forall k :: k in Settled(rs) ==> k in Pinned(rs)
  }

  lemma SettledStep(v: View, w: View, rs: seq<Request>, room: bool)
    requires rs != [] && SettledStay(v, rs[..|rs| - 1]) && EntryStep(v, w, rs[|rs| - 1], room)
    ensures SettledStay(w, rs)
  {
    var r := rs[|rs| - 1];
    assert forall k :: k in Pinned(rs) <==> k in Pinned(rs[..|rs| - 1]) || (r.lock && k == r.key);
  }

  lemma SettledLose(v: View, rs: seq<Request>, lost: set<Key>)
    requires SettledStay(v, rs)
    ensures SettledStay(Lose(v, lost), rs)
  {
  }

  lemma CoherentStep(v: View, committed: DirTable, r: Request, room: bool, lost: set<Key>)
    requires Coherent(v.cache, committed)
    requires Fills(v.table, r) ==>
      Answer(v.table, r.key) == Answer(committed, r.key) || (Has(v.cache, r.key) && r.key in v.pinned)
    ensures Coherent(Do(Lose(v, lost), r, room).v.cache, committed)
  {
    var u := Lose(v, lost);
    match r {
      case Lookup(k, lock) => LookUpEntry(u, k, lock, room);
      case Make(k, _, lock) => LookUpEntry(u, k, lock, room);
      case Remove(k, lock) => RemoveEntry(u, k, lock, room);
    }
  }

  lemma LooksUpFirstFront(committed: DirTable, rs: seq<Request>)
    requires rs != [] && LooksUpFirst(committed, rs)
    ensures LooksUpFirst(committed, rs[..|rs| - 1])
  {
    var front := rs[..|rs| - 1];
    forall j: nat | j < |front| ensures !FillsWrong(committed, front, j) {
      assert front[..j] == rs[..j] && !FillsWrong(committed, rs, j);
    }
  }

  lemma {:induction false} StaysCoherent(cache: Cache, committed: DirTable, rs: seq<Request>, cs: seq<Chance>)
    requires |cs| == |rs| && Coherent(cache, committed) && LooksUpFirst(committed, rs)
    ensures var o := RunAll(Start(cache, committed), rs, cs);
      Coherent(o.v.cache, committed) && (o.ok ==> SettledStay(o.v, rs))
  {
    if rs != [] {
      var n := |rs| - 1;
      LooksUpFirstFront(committed, rs);
      StaysCoherent(cache, committed, rs[..n], cs[..n]);
      RunTable(cache, committed, rs[..n], cs[..n]);
      var o := RunAll(Start(cache, committed), rs[..n], cs[..n]);
      if o.ok {
        assert !FillsWrong(committed, rs, n);
        CoherentStep(o.v, committed, rs[n], cs[n].room, cs[n].lost);
        var u := Lose(o.v, cs[n].lost);
        if Do(u, rs[n], cs[n].room).ok {
          SettledLose(o.v, rs[..n], cs[n].lost);
          DoEntry(u, rs[n], cs[n].room);
          SettledStep(u, Do(u, rs[n], cs[n].room).v, rs, cs[n].room);
        }
      }
    }
  }

  /** Others leave room for one request only, and evict nothing. */
  function RoomAt(n: nat, j: nat): (cs: seq<Chance>)
    ensures |cs| == n && forall i :: 0 <= i < n ==> cs[i] == Chance({}, i == j)
  {
    seq(n, i => Chance({}, i == j))
  }

  lemma {:induction false} RoomFront(n: nat, j: nat)
    requires n > 0
    ensures RoomAt(n, j)[..n - 1] == RoomAt(n - 1, j)
  {
  }

  /** The cache has the entries that are pinned, and the answers that are settled. */
  ghost predicate Bare(v: View, rs: seq<Request>) {
    v.cache.Keys == Pinned(rs) && forall k :: Has(v.cache, k) <==> k in Settled(rs)
  }

  lemma BareStep(v: View, w: View, rs: seq<Request>)
    requires rs != [] && Bare(v, rs[..|rs| - 1]) && EntryStep(v, w, rs[|rs| - 1], false)
    ensures Bare(w, rs)
  {
    var r := rs[|rs| - 1];
    forall k ensures k in w.cache <==> k in Pinned(rs) { }
    forall k ensures Has(w.cache, k) <==> k in Settled(rs) { }
  }

  /** So it is when it was empty and there is no room. */
  lemma {:induction false} OnlyPinned(committed: DirTable, rs: seq<Request>, j: nat)
    requires |rs| <= j && TableAfterAll(committed, rs).Some?
    ensures var o := RunAll(Start(map[], committed), rs, RoomAt(|rs|, j)); o.ok && Bare(o.v, rs)
  {
    RunTable(map[], committed, rs, RoomAt(|rs|, j));
    if rs != [] {
      var n := |rs| - 1;
      RoomFront(|rs|, j);
      OnlyPinned(committed, rs[..n], j);
      var v := RunAll(Start(map[], committed), rs[..n], RoomAt(n, j)).v;
      assert Lose(v, {}) == v;
      DoEntry(v, rs[n], false);
      BareStep(v, Do(v, rs[n], false).v, rs);
    }
  }

  lemma KnownStays(v: View, r: Request, room: bool, k: Key)
    requires Has(v.cache, k)
    ensures var w := Do(Lose(v, {}), r, room).v; Has(w.cache, k) && w.cache[k] == v.cache[k]
  {
    assert Lose(v, {}) == v;
  }

  /** A wrong answer stays until the end. */
  lemma {:induction false} WrongStays(committed: DirTable, rs: seq<Request>, j: nat)
    requires FillsWrong(committed, rs, j)
    ensures var cache := RunAll(Start(map[], committed), rs, RoomAt(|rs|, j)).v.cache;
      Has(cache, rs[j].key) && cache[rs[j].key] != Answer(committed, rs[j].key)
    decreases |rs|
  {
    var n := |rs| - 1;
    RoomFront(|rs|, j);
    var o := RunAll(Start(map[], committed), rs[..n], RoomAt(n, j));
    if j < n {
      assert rs[..n][..j] == rs[..j];
      WrongStays(committed, rs[..n], j);
      if o.ok { KnownStays(o.v, rs[n], false, rs[j].key); }
    } else {
      OnlyPinned(committed, rs[..n], j);
      RunTable(map[], committed, rs[..n], RoomAt(n, j));
      assert Lose(o.v, {}) == o.v;
    }
  }

  ghost predicate AbortsCoherent(committed: DirTable, rs: seq<Request>) {
    forall cache: Cache, cs: seq<Chance> :: |cs| == |rs| && Coherent(cache, committed) ==>
      Coherent(RunAll(Start(cache, committed), rs, cs).v.cache, committed)
  }

  /** A transaction that aborts leaves the cache coherent, whatever it held and whatever others do meanwhile, if and
      only if every key is looked up, or made, while it is as committed or was looked up before under its lock. */
  lemma AbortCoherentIff(committed: DirTable, rs: seq<Request>)
    ensures AbortsCoherent(committed, rs) <==> LooksUpFirst(committed, rs)
  {
    if LooksUpFirst(committed, rs) {
      forall cache: Cache, cs: seq<Chance> | |cs| == |rs| && Coherent(cache, committed)
        ensures Coherent(RunAll(Start(cache, committed), rs, cs).v.cache, committed)
      {
        StaysCoherent(cache, committed, rs, cs);
      }
    } else {
      var j: nat :| j < |rs| && FillsWrong(committed, rs, j);
      WrongStays(committed, rs, j);
      assert Coherent(map[], committed);
    }
  }

  // ------------------------------------------------------------------ commit

  /** The value of the last update of a key, or Unknown when the log has none. */
  function Last(log: seq<Action>, k: Key): Cached {
    if log == [] then Unknown
    else
      var a := log[|log| - 1];
      if a.Update? && a.key == k then a.value else Last(log[..|log| - 1], k)
  }

  lemma LastAppend(log: seq<Action>, a: Action, k: Key)
    ensures Last(log + [a], k) == if a.Update? && a.key == k then a.value else Last(log, k)
  {
    var more := log + [a];
    assert more[..|more| - 1] == log;
  }

  /** Applies the log.  Making room for what was added may evict any entries, and an update may find no room. */
  function ApplyLog(cache: Cache, log: seq<Action>, cs: seq<Chance>): Cache
    requires |cs| == |log|
  {
    if log == [] then cache
    else
      var n := |log| - 1;
      var c := ApplyLog(cache, log[..n], cs[..n]);
      match log[n]
      case Added(_) => c - cs[n].lost
      case Update(k, value) => if k in c || cs[n].room then c[k := value] else c
  }

  /** The last update of a key, or what was there before, or nothing. */
  lemma {:induction false} Applied(cache: Cache, log: seq<Action>, cs: seq<Chance>, k: Key)
    requires |cs| == |log|
    ensures var c := ApplyLog(cache, log, cs);
      k in c ==> if Last(log, k) != Unknown then c[k] == Last(log, k)
                 else c[k] == Unknown || (k in cache && c[k] == cache[k])
  {
    if log != [] { Applied(cache, log[..|log| - 1], cs[..|log| - 1], k); }
  }

  /** The log has the transaction's own answer for a key, unless its last write is loose; for a key without an update
      in the log, the cache has that answer or none. */
  ghost predicate LogOk(v: View, committed: DirTable, rs: seq<Request>, k: Key) {
    && (k !in Written(rs) ==> Answer(v.table, k) == Answer(committed, k))
    && if Last(v.log, k) == Unknown then k in v.cache ==> v.cache[k] == Unknown || v.cache[k] == Answer(v.table, k)
       else k in Written(rs) && (k !in Loose(rs) ==> Last(v.log, k) == Answer(v.table, k))
  }

  lemma EnterLog(v: View, k: Key, value: Cached, lock: bool, room: bool, l: Key)
    ensures Last(Enter(v, k, value, lock, room).log, l) == Last(v.log, l)
  {
    LastAppend(v.log, Added(k), l);
  }

  lemma WriteLog(v: View, k: Key, table: DirTable, l: Key)
    ensures Last(Write(v, k, table).log, l) == if l == k && k in v.cache then Answer(table, k) else Last(v.log, l)
  {
    LastAppend(v.log, Update(k, Answer(table, k)), l);
  }

  /** What a successful request does to the log and the table. */
  ghost predicate LogStep(v: View, w: View, r: Request, l: Key) {
    && (l == r.key && Writes(r) ==> Answer(w.table, l) != Answer(v.table, l))
    && (l != r.key || !Writes(r) ==> Answer(w.table, l) == Answer(v.table, l))
    && Last(w.log, l) == if l == r.key && Writes(r) && l in w.cache then Answer(w.table, l) else Last(v.log, l)
  }

  lemma LookUpLog(v: View, k: Key, lock: bool, room: bool, l: Key)
    ensures Last(LookUp(v, k, lock, room).log, l) == Last(v.log, l)
  {
    EnterLog(v, k, Answer(v.table, k), lock, room, l);
  }

  lemma MakeLog(v: View, k: Key, id: nat, lock: bool, room: bool, l: Key)
    requires k !in v.table
    ensures LogStep(v, Write(LookUp(v, k, lock, room), k, v.table[k := id]), Make(k, id, lock), l)
  {
    LookUpLog(v, k, lock, room, l);
    WriteLog(LookUp(v, k, lock, room), k, v.table[k := id], l);
  }

  lemma RemoveLog(v: View, k: Key, lock: bool, room: bool, l: Key)
    requires k in v.table
    ensures LogStep(v, Write(Enter(v, k, Unknown, lock, room), k, v.table - {k}), Remove(k, lock), l)
  {
    EnterLog(v, k, Unknown, lock, room, l);
    WriteLog(Enter(v, k, Unknown, lock, room), k, v.table - {k}, l);
  }

  lemma DoLog(v: View, r: Request, room: bool, l: Key)
    requires Do(v, r, room).ok
    ensures LogStep(v, Do(v, r, room).v, r, l)
  {
    match r {
      case Lookup(k, lock) => LookUpLog(v, k, lock, room, l);
      case Make(k, id, lock) => MakeLog(v, k, id, lock, room, l);
      case Remove(k, lock) => RemoveLog(v, k, lock, room, l);
    }
  }

  lemma LogOkStep(v: View, w: View, committed: DirTable, rs: seq<Request>, room: bool, l: Key)
    requires rs != [] && LogOk(v, committed, rs[..|rs| - 1], l) && SettledStay(v, rs[..|rs| - 1])
    requires EntryStep(v, w, rs[|rs| - 1], room) && LogStep(v, w, rs[|rs| - 1], l)
    ensures LogOk(w, committed, rs, l)
  {
  }

  lemma {:induction false} LogStaysOk(cache: Cache, committed: DirTable, rs: seq<Request>, cs: seq<Chance>, l: Key)
    requires |cs| == |rs| && Coherent(cache, committed) && TableAfterAll(committed, rs).Some?
    ensures var o := RunAll(Start(cache, committed), rs, cs); o.ok && LogOk(o.v, committed, rs, l) && SettledStay(o.v, rs)
  {
    RunTable(cache, committed, rs, cs);
    if rs != [] {
      var n := |rs| - 1;
      LogStaysOk(cache, committed, rs[..n], cs[..n], l);
      var v := RunAll(Start(cache, committed), rs[..n], cs[..n]).v;
      var u := Lose(v, cs[n].lost);
      SettledLose(v, rs[..n], cs[n].lost);
      DoEntry(u, rs[n], cs[n].room);
      DoLog(u, rs[n], cs[n].room, l);
      SettledStep(u, Do(u, rs[n], cs[n].room).v, rs, cs[n].room);
      LogOkStep(u, Do(u, rs[n], cs[n].room).v, committed, rs, cs[n].room, l);
    }
  }

  // ------------------------------------------------------------------ when a commit goes wrong

  /** A key that is written and not locked can have its last write logged. */
  lemma {:induction false} CanBeLogged(committed: DirTable, rs: seq<Request>, k: Key) returns (cs: seq<Chance>)
    requires TableAfterAll(committed, rs).Some? && k in Written(rs)
    ensures |cs| == |rs|
    ensures var v := RunAll(Start(map[], committed), rs, cs).v; Last(v.log, k) == Answer(v.table, k)
  {
    var n := |rs| - 1;
    if Writes(rs[n]) && rs[n].key == k {
      cs := RoomAt(n, n) + [Chance({}, true)];
    } else {
      var front := CanBeLogged(committed, rs[..n], k);
      cs := front + [Chance({}, false)];
    }
    assert cs[..n] + [cs[n]] == cs;
    RunTable(map[], committed, rs, cs);
    var v := RunAll(Start(map[], committed), rs[..n], cs[..n]).v;
    assert Lose(v, {}) == v;
    DoEntry(v, rs[n], cs[n].room);
    DoLog(v, rs[n], cs[n].room, k);
  }

  lemma {:induction false} PinnedOnly(committed: DirTable, rs: seq<Request>, cs: seq<Chance>)
    requires |cs| == |rs| && TableAfterAll(committed, rs).Some?
    ensures RunAll(Start(map[], committed), rs, cs).v.pinned == Pinned(rs)
  {
    RunTable(map[], committed, rs, cs);
    if rs != [] {
      var n := |rs| - 1;
      PinnedOnly(committed, rs[..n], cs[..n]);
      DoEntry(Lose(RunAll(Start(map[], committed), rs[..n], cs[..n]).v, cs[n].lost), rs[n], cs[n].room);
    }
  }

  lemma {:induction false} LooseIsWritten(rs: seq<Request>)
    ensures Loose(rs) <= Written(rs)
  {
    if rs != [] { LooseIsWritten(rs[..|rs| - 1]); }
  }

  /** A loose key can end with an older answer in the log: its entry is evicted before the last write, which then finds
      no room. */
  lemma {:induction false} CanBeStale(committed: DirTable, rs: seq<Request>, k: Key) returns (cs: seq<Chance>)
    requires TableAfterAll(committed, rs).Some? && k in Loose(rs)
    ensures |cs| == |rs|
    ensures var v := RunAll(Start(map[], committed), rs, cs).v; Last(v.log, k) != Unknown && Last(v.log, k) != Answer(v.table, k)
  {
    var n := |rs| - 1;
    if Writes(rs[n]) && rs[n].key == k {
      LooseIsWritten(rs[..n]);
      var front := CanBeLogged(committed, rs[..n], k);
      cs := front + [Chance({k}, false)];
      PinnedOnly(committed, rs[..n], front);
    } else {
      var front := CanBeStale(committed, rs[..n], k);
      cs := front + [Chance({}, false)];
    }
    assert cs[..n] + [cs[n]] == cs;
    RunTable(map[], committed, rs, cs);
    var u := Lose(RunAll(Start(map[], committed), rs[..n], cs[..n]).v, cs[n].lost);
    DoEntry(u, rs[n], cs[n].room);
    DoLog(u, rs[n], cs[n].room, k);
  }

  function RoomForAll(n: nat): (cs: seq<Chance>)
    ensures |cs| == n && forall i :: 0 <= i < n ==> cs[i] == Chance({}, true)
  {
    seq(n, _ => Chance({}, true))
  }

  /** With room for all, every logged update arrives. */
  lemma {:induction false} AllApplied(cache: Cache, log: seq<Action>, k: Key)
    requires Last(log, k) != Unknown
    ensures var c := ApplyLog(cache, log, RoomForAll(|log|)); k in c && c[k] == Last(log, k)
  {
    var n := |log| - 1;
    assert RoomForAll(|log|)[..n] == RoomForAll(n);
    if !(log[n].Update? && log[n].key == k) { AllApplied(cache, log[..n], k); }
  }

  ghost predicate CommitsCoherent(committed: DirTable, rs: seq<Request>) {
    forall cache: Cache, cs: seq<Chance>, ds: seq<Chance> :: |cs| == |rs| && Coherent(cache, committed) ==>
      var v := RunAll(Start(cache, committed), rs, cs).v;
      |ds| == |v.log| ==> Coherent(ApplyLog(v.cache, v.log, ds), v.table)
  }

  lemma CommitStaysCoherent(cache: Cache, committed: DirTable, rs: seq<Request>, cs: seq<Chance>, ds: seq<Chance>)
    requires |cs| == |rs| && Coherent(cache, committed) && TableAfterAll(committed, rs).Some? && Loose(rs) == {}
    requires |ds| == |RunAll(Start(cache, committed), rs, cs).v.log|
    ensures var v := RunAll(Start(cache, committed), rs, cs).v; Coherent(ApplyLog(v.cache, v.log, ds), v.table)
  {
    var v := RunAll(Start(cache, committed), rs, cs).v;
    var c := ApplyLog(v.cache, v.log, ds);
    forall k | k in c ensures c[k] == Unknown || c[k] == Answer(v.table, k) {
      Applied(v.cache, v.log, ds, k);
      LogStaysOk(cache, committed, rs, cs, k);
    }
  }

  /** A transaction that commits leaves the cache coherent with the new table, whatever it held and whatever others do
      meanwhile, if and only if no key's last write is a second one without the key's lock. */
  lemma CommitCoherentIff(committed: DirTable, rs: seq<Request>)
    requires TableAfterAll(committed, rs).Some?
    ensures CommitsCoherent(committed, rs) <==> Loose(rs) == {}
  {
    if Loose(rs) == {} {
      forall cache: Cache, cs: seq<Chance>, ds: seq<Chance> |
        |cs| == |rs| && Coherent(cache, committed) && |ds| == |RunAll(Start(cache, committed), rs, cs).v.log|
        ensures var v := RunAll(Start(cache, committed), rs, cs).v; Coherent(ApplyLog(v.cache, v.log, ds), v.table)
      {
        CommitStaysCoherent(cache, committed, rs, cs, ds);
      }
    } else {
      var k :| k in Loose(rs);
      var cs := CanBeStale(committed, rs, k);
      var v := RunAll(Start(map[], committed), rs, cs).v;
      AllApplied(v.cache, v.log, k);
      assert Coherent(map[], committed) && !Coherent(ApplyLog(v.cache, v.log, RoomForAll(|v.log|)), v.table);
    }
  }
}
