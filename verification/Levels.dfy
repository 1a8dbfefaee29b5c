/** Levels of the LSM tree and point lookups (level_handler.go, levels.go get, db.go get). */
module Levels {
  import opened Wrappers
  import opened Entries

  /** `filter` is the set of user keys the Bloom filter may contain; `Blooms.NoFalseNegatives`
      shows that it includes every key of the table. */
  datatype Table = Table(id: nat, entries: seq<Entry>, filter: set<int>)

  ghost predicate ValidTable(t: Table) {
    && t.entries != [] && Sorted(t.entries)
    && forall e :: e in t.entries ==> e.key.user in t.filter && 1 <= e.key.ts <= MAX_TS
  }

  function Smallest(t: Table): Key requires t.entries != [] { t.entries[0].key }

  function Biggest(t: Table): Key requires t.entries != [] { t.entries[|t.entries| - 1].key }

  ghost predicate ValidTables(ts: seq<Table>) {
    && (forall i :: 0 <= i < |ts| ==> ValidTable(ts[i]))
    && (forall i, j :: 0 <= i < j < |ts| ==> ts[i].id != ts[j].id)
  }

  /** The shape of every level from 1 on: tables in key order, no user key in two of them. */
  ghost predicate Shape(ts: seq<Table>) {
    && ValidTables(ts)
    && forall i, j :: 0 <= i < j < |ts| ==> Biggest(ts[i]).user < Smallest(ts[j]).user
  }

  lemma WithinTable(t: Table, e: Entry)
    requires ValidTable(t) && e in t.entries
    ensures LessEq(Smallest(t), e.key) && LessEq(e.key, Biggest(t))
    ensures Smallest(t).user <= e.key.user <= Biggest(t).user
  {
  }

  // ---------------------------------------------------------------- sort.Search

  /** The least index in [0, n) where `f` holds, or n; `f` must be false and then true. */
  method Search(n: nat, f: nat -> bool) returns (r: nat)
    requires forall i, j :: 0 <= i < j < n && f(i) ==> f(j)
    ensures r <= n && (forall i :: 0 <= i < r ==> !f(i)) && (forall i :: r <= i < n ==> f(i))
  {
    var lo, hi := 0, n;
    while lo < hi
      invariant 0 <= lo <= hi <= n
      invariant forall i :: 0 <= i < lo ==> !f(i)
      invariant forall i :: hi <= i < n ==> f(i)
    {
      var mid := (lo + hi) / 2;
      if !f(mid) {
        lo := mid + 1;
      } else {
        hi := mid;
      }
    }
    r := lo;
  }

  // ---------------------------------------------------------------- one level

  /** The best of several places, earlier ones winning ties. */
  function Gather(ps: seq<seq<Entry>>, key: Key): Option<Entry> {
    if ps == [] then None
    else Newer(Gather(ps[..|ps| - 1], key), Best(ps[|ps| - 1], key.user, key.ts))
  }

  lemma {:induction false} GatherIsBest(ps: seq<seq<Entry>>, key: Key)
    ensures Gather(ps, key) == Best(Concat(ps), key.user, key.ts)
  {
    if ps != [] {
      GatherIsBest(ps[..|ps| - 1], key);
      BestConcat(Concat(ps[..|ps| - 1]), ps[|ps| - 1], key.user, key.ts);
    }
  }

  lemma GatherOne(ps: seq<seq<Entry>>, i: nat, key: Key)
    requires i < |ps|
    ensures Gather(ps[..i + 1], key) == Newer(Gather(ps[..i], key), Best(ps[i], key.user, key.ts))
  {
    assert ps[..i + 1][..i] == ps[..i];
  }

  /** The early exit: a version equal to the one asked cannot be beaten by any later place. */
  lemma {:induction false} ExactWins(ps: seq<seq<Entry>>, i: nat, key: Key)
    requires i < |ps|
    requires var b := Best(ps[i], key.user, key.ts); b.Some? && b.value.key.ts == key.ts
    requires Ver(Gather(ps[..i], key)) < key.ts
    ensures Gather(ps, key) == Best(ps[i], key.user, key.ts)
    decreases |ps|
  {
    var n := |ps| - 1;
    BestIsGreatest(ps[n], key.user, key.ts);
    if i < n {
      assert ps[..n][..i] == ps[..i];
      ExactWins(ps[..n], i, key);
    }
  }

  /** The places of a level in the order they are searched: level 0 from the back, where flushes add
      tables. */
  function PlacesOf(level: nat, ts: seq<Table>): seq<seq<Entry>> {
    seq(|ts|, i requires 0 <= i < |ts| => if level == 0 then ts[|ts| - 1 - i].entries else ts[i].entries)
  }

  function Contents(level: nat, ts: seq<Table>): seq<Entry> {
    Concat(PlacesOf(level, ts))
  }

  lemma ContentsMember(level: nat, ts: seq<Table>, e: Entry)
    ensures e in Contents(level, ts) <==> exists i :: 0 <= i < |ts| && e in ts[i].entries
  {
    var ps := PlacesOf(level, ts);
    ConcatMember(ps, e);
    if e in Contents(level, ts) {
      var i :| 0 <= i < |ps| && e in ps[i];
      assert e in ts[if level == 0 then |ts| - 1 - i else i].entries;
    }
    if i :| 0 <= i < |ts| && e in ts[i].entries {
      assert e in ps[if level == 0 then |ts| - 1 - i else i];
    }
  }

  function Ver(r: Option<Entry>): nat {
    if r.Some? then r.value.key.ts else 0
  }

  /** One table: the filter, then a seek. */
  method TableGet(t: Table, key: Key) returns (r: Option<Entry>)
    requires ValidTable(t)
    ensures r == Best(t.entries, key.user, key.ts)
    ensures r.Some? ==> 1 <= r.value.key.ts <= key.ts
  {
    SeekIsBest(t.entries, key);
    if key.user !in t.filter {
      return None;
    }
    var i := SeekIndex(t.entries, key);
    if i < |t.entries| && t.entries[i].key.user == key.user {
      return Some(t.entries[i]);
    }
    return None;
  }

  /** In a level of the right shape, a key can only be in the first table that ends at or after it. */
  lemma OnlyTable(level: nat, ts: seq<Table>, key: Key, idx: nat)
    requires Shape(ts) && idx <= |ts|
    requires forall i :: 0 <= i < idx ==> Less(Biggest(ts[i]), key)
    requires idx < |ts| ==> LessEq(key, Biggest(ts[idx]))
    ensures idx == |ts| ==> Best(Contents(level, ts), key.user, key.ts) == None
    ensures idx < |ts| ==> Best(Contents(level, ts), key.user, key.ts) == Best(ts[idx].entries, key.user, key.ts)
  {
    var part := if idx == |ts| then [] else ts[idx].entries;
    forall e | e in part ensures e in Contents(level, ts) {
      ContentsMember(level, ts, e);
    }
    forall e | e in Contents(level, ts) && Matches(e, key.user, key.ts) ensures e in part {
      ContentsMember(level, ts, e);
      var i :| 0 <= i < |ts| && e in ts[i].entries;
      MatchIsHere(ts, key, idx, i, e);
    }
    BestSame(Contents(level, ts), part, key.user, key.ts);
  }

  lemma MatchIsHere(ts: seq<Table>, key: Key, idx: nat, i: nat, e: Entry)
    requires Shape(ts) && idx <= |ts| && i < |ts| && e in ts[i].entries && Matches(e, key.user, key.ts)
    requires forall k :: 0 <= k < idx ==> Less(Biggest(ts[k]), key)
    requires idx < |ts| ==> LessEq(key, Biggest(ts[idx]))
    ensures i == idx
  {
  }

  function EntriesOf(ts: seq<Table>): seq<seq<Entry>> {
    seq(|ts|, i requires 0 <= i < |ts| => ts[i].entries)
  }

  method BestOfTables(ts: seq<Table>, key: Key) returns (maxVs: Option<Entry>)
    requires forall i :: 0 <= i < |ts| ==> ValidTable(ts[i])
    ensures maxVs == Gather(EntriesOf(ts), key)
    ensures maxVs.Some? ==> 1 <= maxVs.value.key.ts <= key.ts
  {
    maxVs := None;
    ghost var ps := EntriesOf(ts);
    for k := 0 to |ts|
      invariant maxVs == Gather(ps[..k], key) && (maxVs.Some? ==> 1 <= maxVs.value.key.ts <= key.ts)
    {
      GatherOne(ps, k, key);
      var vs := TableGet(ts[k], key);
      if vs.Some? && Ver(maxVs) < vs.value.key.ts {
        maxVs := vs;
      }
    }
    assert ps[..|ts|] == ps;
  }

  class LevelHandler {
    const level: nat
    var tables: seq<Table>

    ghost predicate Valid()
      reads this
    {
      if level == 0 then ValidTables(tables) else Shape(tables)
    }

    constructor (level: nat)
      ensures Valid() && tables == [] && this.level == level
    {
      this.level, tables := level, [];
    }

    /** The tables that can hold a key at or after `key` first: all of level 0, from the back, or one. */
    method GetTableForKey(key: Key) returns (out: seq<Table>, ghost idx: nat)
      requires Valid()
      ensures level == 0 ==> |out| == |tables| && forall i :: 0 <= i < |out| ==> out[i] == tables[|tables| - 1 - i]
      ensures level != 0 ==> FirstNotBelow(tables, key, idx) && out == (if idx == |tables| then [] else [tables[idx]])
    {
      if level == 0 {
        out, idx := [], 0;
        for i := |tables| downto 0
          invariant |out| == |tables| - i
          invariant forall k :: 0 <= k < |out| ==> out[k] == tables[|tables| - 1 - k]
        {
          out := out + [tables[i]];
        }
        return;
      }
      var ts := tables;
      var f := (i: nat) => i < |ts| && ts[i].entries != [] && LessEq(key, Biggest(ts[i]));
      forall i, j | 0 <= i < j < |ts| && f(i) ensures f(j) {
        assert Biggest(ts[i]).user < Smallest(ts[j]).user;
        WithinTable(ts[j], ts[j].entries[0]);
      }
      var k := Search(|ts|, f);
      idx := k;
      forall i | 0 <= i < idx ensures Less(Biggest(ts[i]), key) { assert !f(i); }
      if idx < |ts| { assert f(idx); }
      assert FirstNotBelow(tables, key, idx);
      out := if k >= |ts| then [] else [ts[k]];
    }

    /** The newest version of the key in this level at or below the one asked; on a tie in level 0
        the table furthest back wins. */
    method Get(key: Key) returns (maxVs: Option<Entry>)
      requires Valid()
      ensures maxVs == Best(Contents(level, tables), key.user, key.ts)
      ensures maxVs.Some? ==> 1 <= maxVs.value.key.ts <= key.ts
    {
      var ts, idx := GetTableForKey(key);
      ghost var ps := EntriesOf(ts);
      maxVs := BestOfTables(ts, key);
      GatherIsBest(ps, key);
      if level == 0 {
        assert ps == PlacesOf(level, tables);
      } else {
        OnlyTable(level, tables, key, idx);
        if idx < |tables| { assert Concat(ps) == tables[idx].entries; }
      }
    }
  }

  ghost predicate FirstNotBelow(ts: seq<Table>, key: Key, idx: nat)
    requires ValidTables(ts)
  {
    && idx <= |ts|
    && (forall i :: 0 <= i < idx ==> Less(Biggest(ts[i]), key))
    && (idx < |ts| ==> LessEq(key, Biggest(ts[idx])))
  }

  // ---------------------------------------------------------------- the whole tree

  ghost predicate ValidMem(m: seq<Entry>) {
    Sorted(m) && forall e :: e in m ==> 1 <= e.key.ts <= MAX_TS
  }

  ghost predicate ValidHandlers(handlers: seq<LevelHandler>)
    reads handlers
  {
    forall i :: 0 <= i < |handlers| ==> handlers[i].level == i && handlers[i].Valid()
  }

  function LevelPlaces(handlers: seq<LevelHandler>): seq<seq<Entry>>
    reads handlers
  {
    seq(|handlers|, i requires 0 <= i < |handlers| reads handlers => Contents(i, handlers[i].tables))
  }

  /** levelsController.get, going on from what the memtables gave. */
  method LevelsGet(handlers: seq<LevelHandler>, key: Key, start: Option<Entry>) returns (maxVs: Option<Entry>)
    requires ValidHandlers(handlers) && Ver(start) < key.ts
    ensures maxVs == Newer(start, Gather(LevelPlaces(handlers), key))
  {
    maxVs := start;
    ghost var all := LevelPlaces(handlers);
    for i := 0 to |handlers|
      invariant maxVs == Newer(start, Gather(all[..i], key)) && Ver(maxVs) < key.ts
    {
      GatherOne(all, i, key);
      var vs := handlers[i].Get(key);
      if vs.None? {
        continue;
      }
      if vs.value.key.ts == key.ts {
        ExactWins(all, i, key);
        return vs;
      }
      if Ver(maxVs) < vs.value.key.ts {
        maxVs := vs;
      }
    }
    assert all[..|handlers|] == all;
  }

  /** The memtables, newest first; an exact version ends the search. */
  method MemsGet(mems: seq<seq<Entry>>, key: Key) returns (maxVs: Option<Entry>)
    requires forall i :: 0 <= i < |mems| ==> ValidMem(mems[i])
    requires key.ts >= 1
    ensures maxVs == Gather(mems, key) && Ver(maxVs) <= key.ts
  {
    maxVs := None;
    for i := 0 to |mems|
      invariant maxVs == Gather(mems[..i], key) && Ver(maxVs) < key.ts
    {
      GatherOne(mems, i, key);
      var vs := MemGet(mems[i], key);
      if vs.None? {
        continue;
      }
      if vs.value.key.ts == key.ts {
        ExactWins(mems, i, key);
        return vs;
      }
      if Ver(maxVs) < vs.value.key.ts {
        maxVs := vs;
      }
    }
    assert mems[..|mems|] == mems;
  }

  /** db.get: whatever shortcut it takes, it returns the entry with the greatest version at or below
      the one asked over all memtables (newest first) and all levels, the place searched first winning ties. */
  method DbGet(mems: seq<seq<Entry>>, handlers: seq<LevelHandler>, key: Key) returns (r: Option<Entry>)
    requires forall i :: 0 <= i < |mems| ==> ValidMem(mems[i])
    requires ValidHandlers(handlers) && key.ts >= 1
    ensures r == Best(Concat(mems + LevelPlaces(handlers)), key.user, key.ts)
  {
    GatherIsBest(mems + LevelPlaces(handlers), key);
    GatherJoin(mems, LevelPlaces(handlers), key);
    hide LevelPlaces, Gather, Concat, Best, ValidMem, ValidHandlers;
    var maxVs := MemsGet(mems, key);
    if Ver(maxVs) == key.ts {
      NothingBeats(LevelPlaces(handlers), key);
      return maxVs;
    }
    r := LevelsGet(handlers, key, maxVs);
  }

  lemma {:induction false} GatherJoin(a: seq<seq<Entry>>, b: seq<seq<Entry>>, key: Key)
    ensures Gather(a + b, key) == Newer(Gather(a, key), Gather(b, key))
  {
    if b == [] {
      assert a + b == a;
    } else {
      assert (a + b)[..|a + b| - 1] == a + b[..|b| - 1];
      GatherJoin(a, b[..|b| - 1], key);
    }
  }

  lemma {:induction false} NothingBeats(ps: seq<seq<Entry>>, key: Key)
    ensures Ver(Gather(ps, key)) <= key.ts
  {
    if ps != [] {
      NothingBeats(ps[..|ps| - 1], key);
      BestIsGreatest(ps[|ps| - 1], key.user, key.ts);
    }
  }

  /** The skiplist's Get (see `Skiplists`), on the sorted entries of a memtable. */
  method MemGet(m: seq<Entry>, key: Key) returns (r: Option<Entry>)
    requires ValidMem(m)
    ensures r == Best(m, key.user, key.ts) && (r.Some? ==> 1 <= r.value.key.ts <= key.ts)
  {
    SeekIsBest(m, key);
    var i := SeekIndex(m, key);
    r := if i < |m| && m[i].key.user == key.user then Some(m[i]) else None;
  }
}
