/** Iterating over the tables that are picked (iterator.go NewIterator, levels.go appendIterators).

    `PickedTables` says which tables an iterator opens, on byte strings; `TxnIterators` what iterating
    over all tables yields, on keys that are numbered. `PickedIsAll` puts the two together. */
module PickedIterators {
  import opened Wrappers
  import opened Entries
  import opened MergeIterators
  import opened TxnIterators
  import P = PickedTables
  import Keys

  /** A table as both see it: its keys and the filter, and the entries, whose keys are numbered. */
  datatype Source = Source(table: P.Table, entries: seq<Entry>)

  /** The entries have the table's keys, by their numbers, and the options say the same of a key and of
      its number. */
  ghost predicate Holds(s: Source, o: P.Options, v: View, number: Keys.Bytes -> int) {
    && (forall e :: e in s.entries ==>
          exists i :: 0 <= i < |s.table.keys| && e.key == Key(number(s.table.keys[i].user), s.table.keys[i].ts))
    && forall i :: 0 <= i < |s.table.keys| ==>
         var b := s.table.keys[i].user; Fits(v, number(b)) <==> if o.prefixIsKey then b == o.prefix else o.prefix <= b
  }

  ghost predicate ValidSources(ss: seq<Source>, o: P.Options, v: View, number: Keys.Bytes -> int) {
    o.sinceTs == v.sinceTs && forall i :: 0 <= i < |ss| ==> P.ValidTable(ss[i].table, o.hash) && Holds(ss[i], o, v, number)
  }

  /** The entries of the tables picked. */
  function Picked(o: P.Options, ss: seq<Source>): seq<seq<Entry>>
    requires forall i :: 0 <= i < |ss| ==> ss[i].table.keys != []
  {
    if ss == [] then []
    else
      var last := ss[|ss| - 1];
      Picked(o, ss[..|ss| - 1]) + if P.PickTable(o, last.table) then [last.entries] else []
  }

  function All(ss: seq<Source>): seq<seq<Entry>> {
    if ss == [] then [] else All(ss[..|ss| - 1]) + [ss[|ss| - 1].entries]
  }

  /** An entry that the iterator may show. */
  predicate Asked(v: View, e: Entry) {
    Fits(v, e.key.user) && (v.sinceTs > 0 ==> e.key.ts > v.sinceTs)
  }

  /** A table that has one is picked. */
  lemma AskedIsPicked(o: P.Options, v: View, number: Keys.Bytes -> int, s: Source, e: Entry)
    requires o.sinceTs == v.sinceTs && P.ValidTable(s.table, o.hash) && Holds(s, o, v, number) && e in s.entries && Asked(v, e)
    ensures P.PickTable(o, s.table)
  {
    var i :| 0 <= i < |s.table.keys| && e.key == Key(number(s.table.keys[i].user), s.table.keys[i].ts);
    P.NothingMissed(o, s.table, i);
    hide P.PickTable, P.ValidTable;
  }

  /** The entry of the first list that has the key. */
  ghost predicate Leads(lists: seq<seq<Entry>>, e: Entry) {
    exists i :: 0 <= i < |lists| && Earliest(lists, i, e)
  }

  ghost predicate Somewhere(lists: seq<seq<Entry>>, k: Key) {
    exists i :: 0 <= i < |lists| && HasKey(lists[i], k)
  }

  lemma LeadsLast(lists: seq<seq<Entry>>, last: seq<Entry>, e: Entry)
    ensures Leads(lists + [last], e) <==> Leads(lists, e) || (e in last && !Somewhere(lists, e.key))
    ensures Somewhere(lists + [last], e.key) <==> Somewhere(lists, e.key) || HasKey(last, e.key)
  {
    var more, n := lists + [last], |lists|;
    assert forall i :: 0 <= i < n ==> more[i] == lists[i];
    assert more[n] == last;
    forall i | 0 <= i < n ensures Earliest(more, i, e) <==> Earliest(lists, i, e) {
    }
    hide HasKey;
    assert Earliest(more, n, e) <==> e in last && !Somewhere(lists, e.key);
  }

  /** Leaving out tables without such entries, the same ones lead. */
  lemma {:induction false} SameLead(o: P.Options, v: View, number: Keys.Bytes -> int, first: seq<seq<Entry>>, ss: seq<Source>, e: Entry)
    requires ValidSources(ss, o, v, number) && Asked(v, e)
    ensures Leads(first + Picked(o, ss), e) <==> Leads(first + All(ss), e)
    ensures Somewhere(first + Picked(o, ss), e.key) <==> Somewhere(first + All(ss), e.key)
  {
    if ss != [] {
      var front, last := ss[..|ss| - 1], ss[|ss| - 1];
      SameLead(o, v, number, first, front, e);
      Joined(first, Picked(o, front), last.entries);
      Joined(first, All(front), last.entries);
      LeadsLast(first + Picked(o, front), last.entries, e);
      LeadsLast(first + All(front), last.entries, e);
      if x :| x in last.entries && x.key == e.key {
        AskedIsPicked(o, v, number, last, x);
      } else {
        NoKey(last.entries, e);
        JoinedNone(first, Picked(o, front));
      }
      hide P.PickTable, Leads, Somewhere, P.ValidTable, Holds, HasKey;
    }
  }

  lemma Joined(first: seq<seq<Entry>>, lists: seq<seq<Entry>>, last: seq<Entry>)
    ensures first + (lists + [last]) == first + lists + [last]
  {
  }

  lemma JoinedNone(first: seq<seq<Entry>>, lists: seq<seq<Entry>>)
    ensures first + (lists + []) == first + lists
  {
  }

  lemma NoKey(es: seq<Entry>, e: Entry)
    requires forall x :: x in es ==> x.key != e.key
    ensures !HasKey(es, e.key) && e !in es
  {
  }

  /** What is shown, of the keys the options let through, is the same. */
  lemma SameShown(v: View, few: seq<Entry>, all: seq<Entry>, e: Entry)
    requires forall x :: Asked(v, x) ==> (x in few <==> x in all)
    ensures Fits(v, e.key.user) ==> (Shown(v, few, e) <==> Shown(v, all, e))
  {
    if Fits(v, e.key.user) {
      forall x | InView(v, x) && x.key.user == e.key.user ensures x in few <==> x in all {
        assert Asked(v, x);
      }
      if InView(v, e) { assert Asked(v, e); }
    }
  }

  /** Iterating over the tables picked, after the pending writes and the memtables, yields from Rewind
      what iterating over all tables yields. */
  lemma PickedIsAll(o: P.Options, v: View, number: Keys.Bytes -> int, first: seq<seq<Entry>>, ss: seq<Source>,
                    few: seq<Entry>, all: seq<Entry>)
    requires ValidSources(ss, o, v, number)
    requires v.prefix.Some? ==> v.prefix.value.lo <= v.prefix.value.hi
    requires FromEarliest(v.reverse, first + Picked(o, ss), few) && FromEarliest(v.reverse, first + All(ss), all)
    ensures Iterated(v, few, None) == Iterated(v, all, None)
  {
    forall x | Asked(v, x) ensures x in few <==> x in all {
      SameLead(o, v, number, first, ss, x);
      assert x in few <==> Leads(first + Picked(o, ss), x);
      assert x in all <==> Leads(first + All(ss), x);
    }
    RewindShows(v, few);
    RewindShows(v, all);
    forall e ensures e in Iterated(v, few, None) <==> e in Iterated(v, all, None) {
      SameShown(v, few, all, e);
      assert Covers(v, e.key.user) ==> Fits(v, e.key.user);
    }
    hide Iterated, FromEarliest, Shown, Asked, ValidSources;
    UnionIsUnique(v.reverse, Iterated(v, few, None), Iterated(v, all, None));
  }

  /** So it is a snapshot of the whole database. */
  lemma PickedIsSnapshot(o: P.Options, v: View, number: Keys.Bytes -> int, writes: map<int, ValueStruct>, pending: seq<Entry>,
                         mems: seq<seq<Entry>>, ss: seq<Source>, few: seq<Entry>, all: seq<Entry>, e: Entry)
    requires ValidSources(ss, o, v, number) && PendingOf(v, writes, pending)
    requires !v.allVersions && (v.prefix.Some? ==> v.prefix.value.lo <= v.prefix.value.hi)
    requires FromEarliest(v.reverse, [pending] + mems + Picked(o, ss), few)
    requires FromEarliest(v.reverse, [pending] + (mems + All(ss)), all)
    ensures e in Iterated(v, few, None) <==>
              && Covers(v, e.key.user) && e.key.user !in v.hidden
              && Seen(v, writes, mems + All(ss), e.key.user) == Some(e) && (v.sinceTs > 0 ==> e.key.ts > v.sinceTs)
              && !e.vs.meta.delete && (e.vs.expiresAt == 0 || e.vs.expiresAt > v.now)
  {
    assert [pending] + mems + All(ss) == [pending] + (mems + All(ss));
    hide *;
    PickedIsAll(o, v, number, [pending] + mems, ss, few, all);
    IterationIsSnapshot(v, writes, pending, mems + All(ss), all);
  }
}
