/** Which tables an iterator with a prefix looks at (iterator.go, pickTable and pickTables). */
module PickedTables {
  import opened Keys
  import opened Sequences

  datatype Versioned = Versioned(user: Bytes, ts: nat)

  /** `bloom` holds the hashes the filter does not deny. */
  datatype Table = Table(keys: seq<Versioned>, maxVersion: nat, hasBloomFilter: bool, bloom: set<nat>) {
    function Smallest(): Bytes
      requires keys != []
    {
      keys[0].user
    }

    function Biggest(): Bytes
      requires keys != []
    {
      keys[|keys| - 1].user
    }

    predicate DoesNotHave(hash: nat) {
      hasBloomFilter && hash !in bloom
    }
  }

  datatype Options = Options(prefix: Bytes, prefixIsKey: bool, sinceTs: nat, hash: Bytes -> nat)

  ghost predicate ValidTable(t: Table, hash: Bytes -> nat) {
    && t.keys != []
    && (forall i, j :: 0 <= i <= j < |t.keys| ==> Compare(t.keys[i].user, t.keys[j].user) <= 0)
    && forall i :: 0 <= i < |t.keys| ==> t.keys[i].ts <= t.maxVersion && hash(t.keys[i].user) in t.bloom
  }

  ghost predicate ValidTables(ts: seq<Table>, hash: Bytes -> nat) {
    forall i :: 0 <= i < |ts| ==> ValidTable(ts[i], hash)
  }

  /** A level below level 0. */
  ghost predicate InOrder(ts: seq<Table>, hash: Bytes -> nat) {
    && ValidTables(ts, hash)
    && forall i, j :: 0 <= i < j < |ts| ==> Compare(ts[i].Biggest(), ts[j].Smallest()) < 0
  }

  // ---------------------------------------------------------------- comparing to a prefix

  function Cut(key: Bytes, n: nat): Bytes {
    if |key| > n then key[..n] else key
  }

  function CompareToPrefix(prefix: Bytes, key: Bytes): int {
    Compare(Cut(key, |prefix|), prefix)
  }

  lemma {:induction false} CutKeepsOrder(a: Bytes, b: Bytes, n: nat)
    requires Compare(a, b) <= 0
    ensures Compare(Cut(a, n), Cut(b, n)) <= 0
  {
    if a != [] && b != [] && n > 0 && a[0] == b[0] {
      CutKeepsOrder(a[1..], b[1..], n - 1);
      assert Cut(a, n)[1..] == Cut(a[1..], n - 1) && Cut(b, n)[1..] == Cut(b[1..], n - 1);
    }
  }

  lemma CompareLe(a: Bytes, b: Bytes, c: Bytes)
    requires Compare(a, b) <= 0 && Compare(b, c) <= 0
    ensures Compare(a, c) <= 0
  {
  }

  /** Going up in the order of keys, the comparison with a prefix never goes down. */
  lemma PrefixMonotone(prefix: Bytes, a: Bytes, b: Bytes)
    requires Compare(a, b) <= 0
    ensures CompareToPrefix(prefix, a) <= CompareToPrefix(prefix, b)
  {
    var x, y := Cut(a, |prefix|), Cut(b, |prefix|);
    CutKeepsOrder(a, b, |prefix|);
    CompareIsOrder(x, prefix);
    CompareIsOrder(y, prefix);
    if Compare(y, prefix) <= 0 { CompareLe(x, y, prefix); }
    if Compare(y, prefix) < 0 && Compare(x, prefix) == 0 {
      CompareIsOrder(x, y);
    }
    hide Compare, Cut;
  }

  lemma PrefixIs(prefix: Bytes, key: Bytes)
    ensures CompareToPrefix(prefix, key) == 0 <==> prefix <= key
  {
    CompareIsOrder(Cut(key, |prefix|), prefix);
  }

  /** In front of a key with the prefix: in front of the prefix itself, or with the prefix. */
  lemma {:induction false} Below(prefix: Bytes, a: Bytes)
    ensures CompareToPrefix(prefix, a) < 0 ==> Compare(a, prefix) < 0
    ensures CompareToPrefix(prefix, a) > 0 ==> Compare(prefix, a) < 0
    decreases |a|
  {
    if a != [] && prefix != [] && a[0] == prefix[0] {
      Below(prefix[1..], a[1..]);
      assert Cut(a, |prefix|)[1..] == Cut(a[1..], |prefix| - 1);
    }
  }

  /** The two comparisons with the prefix say whether any key between `a` and `b` can have it. */
  lemma RangeReaches(prefix: Bytes, a: Bytes, b: Bytes)
    requires Compare(a, b) <= 0
    ensures CompareToPrefix(prefix, a) <= 0 && CompareToPrefix(prefix, b) >= 0 <==>
            exists k :: prefix <= k && Compare(a, k) <= 0 && Compare(k, b) <= 0
  {
    forall k | prefix <= k && Compare(a, k) <= 0 && Compare(k, b) <= 0
      ensures CompareToPrefix(prefix, a) <= 0 && CompareToPrefix(prefix, b) >= 0
    {
      PrefixIs(prefix, k);
      PrefixMonotone(prefix, a, k);
      PrefixMonotone(prefix, k, b);
    }
    if CompareToPrefix(prefix, a) <= 0 && CompareToPrefix(prefix, b) >= 0 {
      var k := Between(prefix, a, b);
      assert Compare(a, k) <= 0 && Compare(k, b) <= 0;
    }
    hide *;
  }

  lemma Between(prefix: Bytes, a: Bytes, b: Bytes) returns (k: Bytes)
    requires Compare(a, b) <= 0 && CompareToPrefix(prefix, a) <= 0 && CompareToPrefix(prefix, b) >= 0
    ensures prefix <= k && Compare(a, k) <= 0 && Compare(k, b) <= 0
  {
    hide Compare, CompareToPrefix;
    PrefixIs(prefix, a);
    PrefixIs(prefix, b);
    Below(prefix, a);
    Below(prefix, b);
    CompareIsOrder(a, a);
    CompareIsOrder(b, b);
    k := if CompareToPrefix(prefix, a) == 0 then a else if CompareToPrefix(prefix, b) == 0 then b else prefix;
  }

  // ---------------------------------------------------------------- one table

  /** pickTable, which level 0 uses on each table. */
  predicate PickTable(o: Options, t: Table)
    requires t.keys != []
  {
    && t.maxVersion >= o.sinceTs
    && (|o.prefix| == 0 ||
        (&& CompareToPrefix(o.prefix, t.Smallest()) <= 0
         && CompareToPrefix(o.prefix, t.Biggest()) >= 0
         && !(o.prefixIsKey && t.DoesNotHave(o.hash(o.prefix)))))
  }

  /** Exactly the tables that are new enough and with room for a key with the prefix between their smallest
      and their biggest; for a single key, the bloom filter must not deny it. */
  lemma PickedIff(o: Options, t: Table)
    requires ValidTable(t, o.hash)
    ensures PickTable(o, t) <==>
            && t.maxVersion >= o.sinceTs
            && (o.prefix != [] ==>
                 && (exists k :: o.prefix <= k && Compare(t.keys[0].user, k) <= 0
                                 && Compare(k, t.keys[|t.keys| - 1].user) <= 0)
                 && (o.prefixIsKey && t.hasBloomFilter ==> o.hash(o.prefix) in t.bloom))
  {
    RangeReaches(o.prefix, t.Smallest(), t.Biggest());
    hide Compare, CompareToPrefix;
  }

  /** What the iterator is after: keys with the prefix, or the key itself, newer than sinceTs. */
  predicate Wanted(o: Options, k: Versioned) {
    (o.sinceTs > 0 ==> k.ts > o.sinceTs) && if o.prefixIsKey then k.user == o.prefix else o.prefix <= k.user
  }

  /** No table with a wanted key is passed over. */
  lemma NothingMissed(o: Options, t: Table, i: nat)
    requires ValidTable(t, o.hash) && i < |t.keys| && Wanted(o, t.keys[i])
    ensures PickTable(o, t)
  {
    var k := t.keys[i];
    PrefixIs(o.prefix, k.user);
    PrefixMonotone(o.prefix, t.Smallest(), k.user);
    PrefixMonotone(o.prefix, k.user, t.Biggest());
    hide Compare, CompareToPrefix;
  }

  // ---------------------------------------------------------------- a level

  predicate Keyed(ts: seq<Table>) {
    forall i :: 0 <= i < |ts| ==> ts[i].keys != []
  }

  /** Each table for itself. */
  function Picked(o: Options, ts: seq<Table>): seq<Table>
    requires Keyed(ts)
  {
    if ts == [] then [] else Picked(o, ts[..|ts| - 1]) + if PickTable(o, ts[|ts| - 1]) then [ts[|ts| - 1]] else []
  }

  function Fresh(sinceTs: nat, ts: seq<Table>): seq<Table> {
    if ts == [] then []
    else Fresh(sinceTs, ts[..|ts| - 1]) + if ts[|ts| - 1].maxVersion < sinceTs then [] else [ts[|ts| - 1]]
  }

  /** filterTables. */
  method FilterTables(o: Options, tables: seq<Table>) returns (out: seq<Table>)
    ensures out == Fresh(o.sinceTs, tables)
  {
    out := tables;
    if o.sinceTs > 0 {
      var tmp: seq<Table> := [];
      for i := 0 to |tables|
        invariant tmp == Fresh(o.sinceTs, tables[..i])
      {
        FreshMore(o.sinceTs, tables, i);
        if tables[i].maxVersion < o.sinceTs {
          continue;
        }
        tmp := tmp + [tables[i]];
      }
      assert tables[..|tables|] == tables;
      out := tmp;
    } else {
      AllFresh(tables);
    }
  }

  lemma FreshMore(sinceTs: nat, ts: seq<Table>, i: nat)
    requires i < |ts|
    ensures Fresh(sinceTs, ts[..i + 1]) ==
            Fresh(sinceTs, ts[..i]) + if ts[i].maxVersion < sinceTs then [] else [ts[i]]
  {
    assert ts[..i + 1][..i] == ts[..i];
  }

  lemma {:induction false} AllFresh(ts: seq<Table>)
    ensures Fresh(0, ts) == ts
  {
    if ts != [] { AllFresh(ts[..|ts| - 1]); }
  }

  /** Tables [lo, hi) are those whose range reaches the prefix. */
  ghost predicate Run(o: Options, ts: seq<Table>, lo: nat, hi: nat)
    requires Keyed(ts)
  {
    && lo <= hi <= |ts|
    && (forall i :: 0 <= i < |ts| ==> (lo <= i <==> CompareToPrefix(o.prefix, ts[i].Biggest()) >= 0))
    && (forall i :: lo <= i < |ts| ==> (i < hi <==> CompareToPrefix(o.prefix, ts[i].Smallest()) <= 0))
  }

  lemma {:induction false} NonePicked(o: Options, a: seq<Table>)
    requires Keyed(a) && forall i :: 0 <= i < |a| ==> !PickTable(o, a[i])
    ensures Picked(o, a) == []
  {
    if a != [] { NonePicked(o, a[..|a| - 1]); }
  }

  /** Picking table by table is picking from the run only. */
  lemma PickedInRun(o: Options, ts: seq<Table>, lo: nat, hi: nat)
    requires Keyed(ts) && Run(o, ts, lo, hi) && o.prefix != []
    ensures lo <= hi <= |ts| && Picked(o, ts) == Picked(o, ts[lo..hi])
  {
  }

  /** In the run only the bloom filter and the version are left to look at. */
  lemma {:induction false} PickedIsFresh(o: Options, ts: seq<Table>)
    requires Keyed(ts) && (o.prefix != [] ==> !o.prefixIsKey && forall i :: 0 <= i < |ts| ==> Reaches(o, ts[i]))
    ensures Picked(o, ts) == Fresh(o.sinceTs, ts)
  {
    if ts != [] { PickedIsFresh(o, ts[..|ts| - 1]); }
  }

  /** The result has exactly the tables that are to be picked. */
  lemma {:induction false} PickedMembers(o: Options, ts: seq<Table>)
    requires Keyed(ts)
    ensures forall t :: t in Picked(o, ts) <==> t in ts && PickTable(o, t)
  {
    hide PickTable;
    if ts != [] {
      var a := ts[..|ts| - 1];
      PickedMembers(o, a);
      assert ts == a + [ts[|ts| - 1]];
    }
  }

  /** And they are in the order they were in. */
  lemma {:induction false} PickedInOrder(o: Options, ts: seq<Table>)
    requires InOrder(ts, o.hash)
    ensures InOrder(Picked(o, ts), o.hash)
  {
    hide PickTable, Compare;
    if ts != [] {
      var a, last := ts[..|ts| - 1], ts[|ts| - 1];
      PickedInOrder(o, a);
      PickedMembers(o, a);
      var p := Picked(o, a);
      hide Picked;
      forall i | 0 <= i < |p| ensures Compare(p[i].Biggest(), last.Smallest()) < 0 {
        assert p[i] in a;
      }
    }
  }

  predicate Reaches(o: Options, t: Table)
    requires t.keys != []
  {
    CompareToPrefix(o.prefix, t.Smallest()) <= 0 && CompareToPrefix(o.prefix, t.Biggest()) >= 0
  }

  lemma RunReaches(o: Options, ts: seq<Table>, lo: nat, hi: nat)
    requires Keyed(ts) && Run(o, ts, lo, hi)
    ensures forall i :: lo <= i < hi ==> Reaches(o, ts[i])
  {
  }

  /** The searches and shortcuts of pickTables find what picking each table for itself finds. */
  method PickTables(o: Options, all: seq<Table>) returns (out: seq<Table>)
    requires InOrder(all, o.hash)
    ensures out == Picked(o, all)
  {
    hide PickTable, Compare, CompareToPrefix, Picked, Fresh, Reaches;
    if |o.prefix| == 0 {
      out := FilterTables(o, all);
      PickedIsFresh(o, all);
      return;
    }
    var sIdx := SearchBiggest(o, all);
    ghost var hi := RunFrom(o, all, sIdx);
    RunReaches(o, all, sIdx, hi);
    PickedInRun(o, all, sIdx, hi);
    hide Run, InOrder;
    if sIdx == |all| {
      NonePicked(o, all[sIdx..hi]);
      return [];
    }
    var filtered := all[sIdx..];
    assert all[sIdx..hi] == filtered[..hi - sIdx];
    if !o.prefixIsKey {
      var eIdx := SearchSmallest(o, filtered, all, sIdx, hi);
      out := FilterTables(o, filtered[..eIdx]);
      PickedIsFresh(o, all[sIdx..hi]);
      return;
    }
    out := PickKey(o, filtered, all, sIdx, hi);
  }

  lemma BiggestMonotone(o: Options, ts: seq<Table>, i: nat, j: nat)
    requires InOrder(ts, o.hash) && i <= j < |ts|
    ensures CompareToPrefix(o.prefix, ts[i].Biggest()) <= CompareToPrefix(o.prefix, ts[j].Biggest())
    ensures CompareToPrefix(o.prefix, ts[i].Smallest()) <= CompareToPrefix(o.prefix, ts[j].Smallest())
  {
    if i < j {
      assert Compare(ts[i].Smallest(), ts[i].Biggest()) <= 0 && Compare(ts[j].Smallest(), ts[j].Biggest()) <= 0;
      CompareLe(ts[i].Biggest(), ts[j].Smallest(), ts[j].Biggest());
      CompareLe(ts[i].Smallest(), ts[i].Biggest(), ts[j].Smallest());
      PrefixMonotone(o.prefix, ts[i].Biggest(), ts[j].Biggest());
      PrefixMonotone(o.prefix, ts[i].Smallest(), ts[j].Smallest());
    }
  }

  /** The first table whose biggest key reaches the prefix. */
  method SearchBiggest(o: Options, all: seq<Table>) returns (idx: nat)
    requires InOrder(all, o.hash)
    ensures idx <= |all|
    ensures forall i :: 0 <= i < |all| ==> (idx <= i <==> CompareToPrefix(o.prefix, all[i].Biggest()) >= 0)
  {
    hide CompareToPrefix, Compare;
    var lo, hi := 0, |all|;
    while lo < hi
      invariant 0 <= lo <= hi <= |all|
      invariant forall i :: 0 <= i < lo ==> CompareToPrefix(o.prefix, all[i].Biggest()) < 0
      invariant forall i :: hi <= i < |all| ==> CompareToPrefix(o.prefix, all[i].Biggest()) >= 0
    {
      var mid := (lo + hi) / 2;
      forall i | 0 <= i < |all| ensures if i <= mid
        then CompareToPrefix(o.prefix, all[i].Biggest()) <= CompareToPrefix(o.prefix, all[mid].Biggest())
        else CompareToPrefix(o.prefix, all[mid].Biggest()) <= CompareToPrefix(o.prefix, all[i].Biggest())
      {
        if i <= mid { BiggestMonotone(o, all, i, mid); } else { BiggestMonotone(o, all, mid, i); }
      }
      if CompareToPrefix(o.prefix, all[mid].Biggest()) >= 0 {
        hi := mid;
      } else {
        lo := mid + 1;
      }
    }
    idx := lo;
  }

  lemma RunFrom(o: Options, ts: seq<Table>, lo: nat) returns (hi: nat)
    requires InOrder(ts, o.hash) && lo <= |ts|
    requires forall i :: 0 <= i < |ts| ==> (lo <= i <==> CompareToPrefix(o.prefix, ts[i].Biggest()) >= 0)
    ensures Run(o, ts, lo, hi)
  {
    hide CompareToPrefix, Compare;
    hi := lo;
    while hi < |ts| && CompareToPrefix(o.prefix, ts[hi].Smallest()) <= 0
      invariant lo <= hi <= |ts|
      invariant forall i :: lo <= i < hi ==> CompareToPrefix(o.prefix, ts[i].Smallest()) <= 0
    {
      hi := hi + 1;
    }
    forall i | hi <= i < |ts| ensures CompareToPrefix(o.prefix, ts[i].Smallest()) > 0 {
      BiggestMonotone(o, ts, hi, i);
    }
  }

  /** The first table of `filtered` that starts after the prefix. */
  method SearchSmallest(o: Options, filtered: seq<Table>, ghost all: seq<Table>, ghost s: nat, ghost end: nat) returns (idx: nat)
    requires InOrder(all, o.hash) && Run(o, all, s, end) && filtered == all[s..]
    ensures idx == end - s
  {
    hide CompareToPrefix, Compare;
    assert forall i :: 0 <= i < |filtered| ==> filtered[i] == all[s + i];
    var lo, hi := 0, |filtered|;
    while lo < hi
      invariant 0 <= lo <= end - s <= hi <= |filtered|
    {
      var mid := (lo + hi) / 2;
      if CompareToPrefix(o.prefix, filtered[mid].Smallest()) > 0 {
        hi := mid;
      } else {
        lo := mid + 1;
      }
    }
    idx := lo;
  }

  /** The prefix is a key: bloom filters are asked, and the first table beyond it ends the search. */
  method PickKey(o: Options, filtered: seq<Table>, ghost all: seq<Table>, ghost s: nat, ghost end: nat)
    returns (out: seq<Table>)
    requires InOrder(all, o.hash) && Run(o, all, s, end) && filtered == all[s..] && o.prefixIsKey && o.prefix != []
    ensures end - s <= |filtered| && out == Picked(o, filtered[..end - s])
  {
    var hash := o.hash(o.prefix);
    ghost var n := end - s;
    var kept: seq<Table> := [];
    var i := 0;
    hide Compare, CompareToPrefix;
    while i < |filtered|
      invariant 0 <= i <= n && Keyed(filtered[..i])
      invariant Fresh(o.sinceTs, kept) == Picked(o, filtered[..i])
      invariant i < |filtered| || i == n
    {
      assert filtered[i] == all[s + i];
      if CompareToPrefix(o.prefix, filtered[i].Smallest()) > 0 {
        break;
      }
      PickedMore(o, filtered, i);
      if !filtered[i].DoesNotHave(hash) {
        KeptMore(o, kept, filtered[i]);
        kept := kept + [filtered[i]];
      }
      i := i + 1;
    }
    out := FilterTables(o, kept);
  }

  lemma PickedMore(o: Options, ts: seq<Table>, i: nat)
    requires i < |ts| && Keyed(ts[..i + 1])
    ensures Picked(o, ts[..i + 1]) == Picked(o, ts[..i]) + if PickTable(o, ts[i]) then [ts[i]] else []
  {
    assert ts[..i + 1][..i] == ts[..i];
  }

  lemma KeptMore(o: Options, kept: seq<Table>, t: Table)
    ensures Fresh(o.sinceTs, kept + [t]) == Fresh(o.sinceTs, kept) + if t.maxVersion < o.sinceTs then [] else [t]
  {
  }
}
