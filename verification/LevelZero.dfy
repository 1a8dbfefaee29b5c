/** Level 0: its tables overlap, so their order and who is compacted together matter (levels.go
    fillTablesL0ToL0, fillTablesL0ToLbase, checkOverlap; level_handler.go replaceTables).

    Flushes append tables, so position is age until a compaction within level 0 sorts the level by
    smallest key. `SortKeepsAgeIff` says when age survives that; `LeftIsNewer` that what fillTablesL0ToLbase
    leaves is newer than what it takes all the same. */
module LevelZero {
  import opened Wrappers
  import opened Entries
  import opened Levels
  import opened LevelChanges
  import opened Compactions
  import Status = CompactStatuses

  // ---------------------------------------------------------------- fillTablesL0ToL0

  datatype File = File(table: Table, size: nat, createdAt: nat)

  const SETTLED: nat := 10

  /** Not too big already, not just created, and no compaction has it. */
  predicate Free(f: File, fileSz: nat, now: int, busy: set<nat>) {
    f.size < 2 * fileSz && now - f.createdAt >= SETTLED && f.table.id !in busy
  }

  function Selected(top: seq<File>, fileSz: nat, now: int, busy: set<nat>): (r: seq<File>)
    ensures forall f :: f in r <==> f in top && Free(f, fileSz, now, busy)
  {
    if top == [] then []
    else
      var last := top[|top| - 1];
      Selected(top[..|top| - 1], fileSz, now, busy) + if Free(last, fileSz, now, busy) then [last] else []
  }

  method FillTablesL0ToL0(compactorId: nat, top: seq<File>, fileSz: nat, now: int, busy: set<nat>)
    returns (ok: bool, out: seq<File>)
    ensures ok <==> compactorId == 0 && |Selected(top, fileSz, now, busy)| >= 4
    ensures ok ==> out == Selected(top, fileSz, now, busy)
    ensures ok ==> forall f :: f in out <==> f in top && f.size < 2 * fileSz && now - f.createdAt >= 10 && f.table.id !in busy
    ensures !ok ==> compactorId != 0 || |out| < 4
  {
    if compactorId != 0 {
      return false, [];
    }
    out := [];
    for i := 0 to |top|
      invariant out == Selected(top[..i], fileSz, now, busy)
    {
      assert top[..i + 1][..i] == top[..i];
      if top[i].size >= 2 * fileSz {
        continue;
      }
      if now - top[i].createdAt < SETTLED {
        continue;
      }
      if top[i].table.id in busy {
        continue;
      }
      out := out + [top[i]];
    }
    assert top[..|top|] == top;
    ok := |out| >= 4;
  }

  // ---------------------------------------------------------------- checkOverlap

  /** Whether a table of level `lev` or below overlaps the range of `tables`. */
  method CheckOverlap(levels: seq<seq<Table>>, tables: seq<Table>, lev: nat) returns (r: bool)
    requires lev >= 1 && ValidTables(tables) && forall k :: 1 <= k < |levels| ==> Shape(levels[k])
    ensures r <==> OverlapsBelow(levels, tables, lev)
  {
    var kr := GetKeyRange(tables);
    for i := 0 to |levels|
      invariant forall k, t :: lev <= k < i && t in levels[k] ==> !Touches(tables, t)
    {
      if i < lev {
        continue;
      }
      var left, right := OverlappingTables(levels[i], kr);
      OverlapIsTouch(tables, levels[i], kr, left, right);
      if right - left > 0 {
        assert levels[i][left] in levels[i];
        return true;
      }
    }
    r := false;
  }

  lemma OverlapIsTouch(tables: seq<Table>, ts: seq<Table>, kr: KeyRange, left: nat, right: nat)
    requires ValidTables(tables) && ValidTables(ts)
    requires tables == [] ==> left == right == 0
    requires tables != [] ==>
               && kr.left.Some? && kr.right.Some? && Touching(tables, kr.left.value.user, kr.right.value.user)
               && Overlaps(ts, left, right, kr.left.value.user, kr.right.value.user)
    ensures left <= right <= |ts|
    ensures left < right <==> exists t :: t in ts && Touches(tables, t)
    ensures left < right ==> Touches(tables, ts[left])
  {
    if tables != [] {
      TouchesIsOverlap(tables, ts, left, right, kr.left.value.user, kr.right.value.user);
      if t :| t in ts && Touches(tables, t) {
        var k :| 0 <= k < |ts| && ts[k] == t;
      }
      if left < right { assert ts[left] in ts; }
    }
  }

  /** What checkOverlap says yes to. */
  ghost predicate OverlapsBelow(levels: seq<seq<Table>>, tables: seq<Table>, lev: nat) {
    exists k, t :: lev <= k < |levels| && t in levels[k] && Touches(tables, t)
  }

  /** With no overlap, no user key of the tables is further down. */
  lemma NoneBelow(levels: seq<seq<Table>>, tables: seq<Table>, lev: nat, k: nat, t: Table, i: nat, x: Entry, y: Entry)
    requires ValidTables(tables) && lev <= k < |levels| && ValidTables(levels[k]) && !OverlapsBelow(levels, tables, lev)
    requires t in levels[k] && y in t.entries && i < |tables| && x in tables[i].entries
    ensures x.key.user != y.key.user
  {
    var j :| 0 <= j < |levels[k]| && levels[k][j] == t;
    WithinTable(t, y);
    WithinTable(tables[i], x);
    assert !Touches(tables, t);
  }

  // ---------------------------------------------------------------- compacting level 0 into itself

  function TablesOf(fs: seq<File>): (ts: seq<Table>)
    ensures |ts| == |fs| && forall i :: 0 <= i < |fs| ==> ts[i] == fs[i].table
  {
    seq(|fs|, i requires 0 <= i < |fs| => fs[i].table)
  }

  /** `es` is the merged input of the tables selected, `left` what is in the tables of level 0 that are
      not, and `lower` what is in the levels below. */
  ghost predicate ZeroToZero(top: seq<File>, out: seq<File>, levels: seq<seq<Table>>, c: Config,
                             es: seq<Entry>, left: seq<Entry>, lower: seq<Entry>) {
    && ValidTables(TablesOf(out)) && (forall k :: 1 <= k < |levels| ==> ValidTables(levels[k]))
    && Sorted(es) && (forall e :: e in es <==> exists f :: f in out && e in f.table.entries)
    && (forall e :: e in left <==> exists f :: f in top && f !in out && e in f.table.entries)
    && (forall e :: e in lower ==> exists k, t :: 1 <= k < |levels| && t in levels[k] && e in t.entries)
    && (c.hasOverlap <==> OverlapsBelow(levels, TablesOf(out), 1))
  }

  /** Exactly when such a compaction changes a read: it drops the tombstone that the read finds among
      the tables selected, while a memtable or a table left out holds an older version that is alive. */
  lemma ZeroToZeroIff(top: seq<File>, out: seq<File>, levels: seq<seq<Table>>, c: Config, mem: seq<Entry>,
                      es: seq<Entry>, left: seq<Entry>, lower: seq<Entry>, user: int, t: nat, now: nat)
    requires ZeroToZero(top, out, levels, c, es, left, lower) && t >= c.discardTs && now >= c.now
    ensures Visible((mem + left) + Kept(c, es, 0, |es|) + lower, user, t, now) == Visible((mem + left) + es + lower, user, t, now)
            <==> !Revives(c, Best(es, user, t), Best(mem + left, user, t), now)
  {
    if !c.hasOverlap {
      forall x, y | x in es && y in lower ensures x.key.user != y.key.user {
        var f :| f in out && x in f.table.entries;
        var i :| 0 <= i < |out| && out[i] == f;
        var k, tb :| 1 <= k < |levels| && tb in levels[k] && y in tb.entries;
        NoneBelow(levels, TablesOf(out), 1, k, tb, i, x, y);
      }
    }
    hide ZeroToZero, Visible, Kept, Revives, Best;
    PreservedIff(c, mem + left, es, lower, user, t, now);
  }

  function One(id: nat, user: int, ts: nat, delete: bool): Table {
    Table(id, [Entry(Key(user, ts), ValueStruct(Meta(delete, false, false, false), 0, [7]))], {user})
  }

  /** The files of the example: the first is too big to be selected and holds a live version, the
      second a newer tombstone for it. */
  function Example(): seq<File> {
    [File(One(1, 1, 3, false), 200, 0), File(One(2, 1, 5, true), 10, 0), File(One(3, 2, 6, false), 10, 0),
     File(One(4, 3, 7, false), 10, 0), File(One(5, 4, 8, false), 10, 0)]
  }

  /** What the last four hold. */
  function ExampleInput(): seq<Entry> {
    var e := Example();
    [e[1].table.entries[0], e[2].table.entries[0], e[3].table.entries[0], e[4].table.entries[0]]
  }

  lemma ExampleSelected()
    ensures Selected(Example(), 100, 50, {}) == Example()[1..] && |Example()[1..]| >= 4
  {
    var e := Example();
    assert !Free(e[0], 100, 50, {}) && Free(e[1], 100, 50, {}) && Free(e[2], 100, 50, {});
    assert Free(e[3], 100, 50, {}) && Free(e[4], 100, 50, {}) && |e| == 5;
    hide Example, Free, Selected;
    AllButFirst(e);
  }

  lemma {:induction false} AllButFirst(top: seq<File>)
    requires top != [] && !Free(top[0], 100, 50, {}) && forall i :: 1 <= i < |top| ==> Free(top[i], 100, 50, {})
    ensures Selected(top, 100, 50, {}) == top[1..]
  {
    hide Free;
    if |top| == 1 {
      assert Selected(top[..0], 100, 50, {}) == [];
    } else {
      AllButFirst(top[..|top| - 1]);
      assert top[..|top| - 1][1..] + [top[|top| - 1]] == top[1..];
    }
  }

  /** With nothing below level 0: fillTablesL0ToL0 selects the last four files, the tombstone is
      dropped, and the deleted version shows again. */
  lemma TombstoneOverLeftOutTable()
    ensures
      var top, es := Example(), ExampleInput();
      var out, left := Selected(top, 100, 50, {}), top[0].table.entries;
      var c := Config(9, false, 1, 0);
      && |out| >= 4 && ZeroToZero(top, out, [TablesOf(top), []], c, es, left, [])
      && Visible(left + es, 1, 9, 0) == None
      && Visible(left + Kept(c, es, 0, |es|), 1, 9, 0) == Some(left[0].vs)
  {
    var top, es := Example(), ExampleInput();
    var left, c := top[0].table.entries, Config(9, false, 1, 0);
    ExampleSelected();
    ExampleIs();
    ExampleReads();
    KeptNothing(c, es, 1, 9);
    BestConcat(left, es, 1, 9);
    BestConcat(left, Kept(c, es, 0, |es|), 1, 9);
    hide Kept, Best, Selected, ZeroToZero, Example, ExampleInput, Sorted, TablesOf;
  }

  lemma ExampleReads()
    ensures
      var left, es := Example()[0].table.entries, ExampleInput();
      && Sorted(es) && left != [] && es != []
      && Best(left, 1, 9) == Some(left[0]) && !IsDeletedOrExpired(left[0].vs, 0)
      && Best(es, 1, 9) == Some(es[0]) && DropsTombstone(Config(9, false, 1, 0), es[0])
      && es[0].key.ts > left[0].key.ts && IsDeletedOrExpired(es[0].vs, 0)
  {
    var left, es := Example()[0].table.entries, ExampleInput();
    BestIs(left, 1, 9, left[0]);
    BestIs(es, 1, 9, es[0]);
    hide Best;
  }

  lemma ExampleIs()
    ensures var top := Example();
            ZeroToZero(top, top[1..], [TablesOf(top), []], Config(9, false, 1, 0), ExampleInput(), top[0].table.entries, [])
  {
    var top, es := Example(), ExampleInput();
    var out := top[1..];
    ExampleTables();
    hide ValidTables, Example, ExampleInput;
    assert ValidTables(TablesOf(out)) && Sorted(es);
  }

  lemma ExampleTables()
    ensures var top, es := Example(), ExampleInput();
            var out := top[1..];
            && ValidTables(TablesOf(out)) && ValidTables([]) && Sorted(es)
            && (forall e :: e in es <==> exists f :: f in out && e in f.table.entries)
            && forall e :: e in top[0].table.entries <==> exists f :: f in top && f !in out && e in f.table.entries
  {
    ExampleValid();
    ExampleIn();
    ExampleLeft();
    hide Example, ExampleInput, ValidTables, Sorted, TablesOf;
  }

  lemma ExampleValid()
    ensures ValidTables(TablesOf(Example()[1..])) && ValidTables([]) && Sorted(ExampleInput())
  {
    var ts := TablesOf(Example()[1..]);
    assert ts == [One(2, 1, 5, true), One(3, 2, 6, false), One(4, 3, 7, false), One(5, 4, 8, false)];
    ExampleSorted();
    OneValid(2, 1, 5, true);
    OneValid(3, 2, 6, false);
    OneValid(4, 3, 7, false);
    OneValid(5, 4, 8, false);
    hide One, Example, ExampleInput, TablesOf, Sorted, ValidTable;
  }

  lemma OneValid(id: nat, user: int, ts: nat, delete: bool)
    requires 1 <= ts <= MAX_TS
    ensures ValidTable(One(id, user, ts, delete)) && One(id, user, ts, delete).id == id
  {
  }

  lemma ExampleSorted()
    ensures Sorted(ExampleInput())
  {
  }

  lemma ExampleIn()
    ensures forall e :: e in ExampleInput() <==> exists f :: f in Example()[1..] && e in f.table.entries
  {
    var es, out := ExampleInput(), Example()[1..];
    assert |es| == |out| == 4 && forall i :: 0 <= i < 4 ==> out[i].table.entries == [es[i]];
    hide Example, ExampleInput;
    forall e ensures e in es <==> exists f :: f in out && e in f.table.entries {
      if e in es {
        var i :| 0 <= i < 4 && e == es[i];
        assert out[i] in out && e in out[i].table.entries;
      }
    }
  }

  lemma ExampleLeft()
    ensures var top := Example();
            forall e :: e in top[0].table.entries <==> exists f :: f in top && f !in top[1..] && e in f.table.entries
  {
    var top := Example();
    assert top == [top[0]] + top[1..] && top[0] !in top[1..];
    hide Example;
    assert forall f :: f in top && f !in top[1..] <==> f == top[0];
  }

  // ---------------------------------------------------------------- the order of level 0

  /** Of two versions of a key, the newer one is in the later table. */
  ghost predicate AgeOrdered(ts: seq<Table>) {
    forall i, j, x, y :: 0 <= i < j < |ts| && x in ts[i].entries && y in ts[j].entries && x.key.user == y.key.user ==>
      x.key.ts < y.key.ts
  }

  /** `a` has a version older than one `b` has. */
  ghost predicate Older(a: Table, b: Table) {
    exists x, y :: x in a.entries && y in b.entries && x.key.user == y.key.user && x.key.ts < y.key.ts
  }

  /** Every version is in one table. */
  ghost predicate Apart(ts: seq<Table>) {
    forall a, b, x, y :: a in ts && b in ts && x in a.entries && y in b.entries && x.key == y.key ==> a == b
  }

  /** Of any two tables the one with the older version has the smaller smallest key. */
  ghost predicate AgeIsKeyOrder(ts: seq<Table>)
    requires ValidTables(ts)
  {
    forall a, b :: a in ts && b in ts && a != b && Older(a, b) ==> Less(Smallest(a), Smallest(b))
  }

  /** Sorting by smallest key, as replaceTables does, keeps the order of age exactly then. */
  lemma SortKeepsAgeIff(ts: seq<Table>, r: seq<Table>)
    requires ValidTables(ts) && ValidTables(r) && WeaklyOrdered(r) && Apart(ts) && forall t :: t in r <==> t in ts
    ensures AgeOrdered(r) <==> AgeIsKeyOrder(ts)
  {
    hide AgeOrdered, AgeIsKeyOrder, WeaklyOrdered, ValidTables, Apart;
    if AgeOrdered(r) { AgeGivesKeys(ts, r); }
    if AgeIsKeyOrder(ts) { KeysGiveAge(ts, r); }
  }

  lemma AgeGivesKeys(ts: seq<Table>, r: seq<Table>)
    requires ValidTables(ts) && ValidTables(r) && WeaklyOrdered(r) && Apart(ts) && (forall t :: t in r <==> t in ts) && AgeOrdered(r)
    ensures AgeIsKeyOrder(ts)
  {
    hide Less, AgeOrdered, WeaklyOrdered, Older, Apart;
    forall a, b | a in ts && b in ts && a != b && Older(a, b) ensures Less(Smallest(a), Smallest(b)) {
      AgeGivesKey(ts, r, a, b);
    }
  }

  lemma AgeGivesKey(ts: seq<Table>, r: seq<Table>, a: Table, b: Table)
    requires ValidTables(ts) && ValidTables(r) && WeaklyOrdered(r) && Apart(ts) && AgeOrdered(r)
    requires a in ts && b in ts && a in r && b in r && a != b && Older(a, b)
    ensures Less(Smallest(a), Smallest(b))
  {
    hide Less, AgeOrdered, WeaklyOrdered, ValidTables, Older, Apart;
    SmallestApart(ts, a, b);
    var i :| 0 <= i < |r| && r[i] == a;
    var j :| 0 <= j < |r| && r[j] == b;
    InOrderOfKeys(r, i, j);
  }

  lemma KeysGiveAge(ts: seq<Table>, r: seq<Table>)
    requires ValidTables(ts) && ValidTables(r) && WeaklyOrdered(r) && Apart(ts) && (forall t :: t in r <==> t in ts) && AgeIsKeyOrder(ts)
    ensures AgeOrdered(r)
  {
    forall i, j, x, y | 0 <= i < j < |r| && x in r[i].entries && y in r[j].entries && x.key.user == y.key.user
      ensures x.key.ts < y.key.ts
    {
      hide Less, AgeIsKeyOrder, WeaklyOrdered, ValidTables, Apart;
      InOrderOfAge(ts, r, i, j, x, y);
    }
  }

  lemma SmallestApart(ts: seq<Table>, a: Table, b: Table)
    requires ValidTables(ts) && Apart(ts) && a in ts && b in ts && a != b
    ensures a.entries != [] && b.entries != [] && Smallest(a) != Smallest(b)
  {
    assert a.entries[0] in a.entries && b.entries[0] in b.entries;
  }

  lemma InOrderOfKeys(r: seq<Table>, i: nat, j: nat)
    requires WeaklyOrdered(r) && AgeOrdered(r) && i < |r| && j < |r| && Older(r[i], r[j]) && i != j
    requires Smallest(r[i]) != Smallest(r[j])
    ensures Less(Smallest(r[i]), Smallest(r[j]))
  {
    var x, y :| x in r[i].entries && y in r[j].entries && x.key.user == y.key.user && x.key.ts < y.key.ts;
    assert !(j < i);
  }

  lemma InOrderOfAge(ts: seq<Table>, r: seq<Table>, i: nat, j: nat, x: Entry, y: Entry)
    requires ValidTables(ts) && ValidTables(r) && WeaklyOrdered(r) && Apart(ts) && (forall t :: t in r <==> t in ts)
    requires AgeIsKeyOrder(ts) && i < j < |r| && x in r[i].entries && y in r[j].entries && x.key.user == y.key.user
    ensures x.key.ts < y.key.ts
  {
    var a, b := r[i], r[j];
    assert a.id != b.id && a in ts && b in ts;
    assert LessEq(Smallest(a), Smallest(b));
    assert x.key != y.key;
    if y.key.ts < x.key.ts { assert Older(b, a); }
  }

  /** It can be lost: the older of two tables starts further back, so sorting turns them around. */
  lemma SortLosesAge(r: seq<Table>)
    requires multiset(r) == multiset([FirstFlushed(), ThenFlushed()]) && WeaklyOrdered(r)
    ensures AgeOrdered([FirstFlushed(), ThenFlushed()]) && !AgeOrdered(r)
  {
    var a, b := FirstFlushed(), ThenFlushed();
    LostAge();
    InKeyOrder();
    TwoSwapped(a, b);
    hide AgeOrdered, WeaklyOrdered, StrictlyOrdered, FirstFlushed, ThenFlushed;
    SortedIs(r, [b, a]);
  }

  lemma InKeyOrder()
    ensures StrictlyOrdered([ThenFlushed(), FirstFlushed()])
  {
  }

  lemma LostAge()
    ensures var a, b := FirstFlushed(), ThenFlushed(); AgeOrdered([a, b]) && !AgeOrdered([b, a])
  {
    var a, b := FirstFlushed(), ThenFlushed();
    assert b.entries[1] in [b, a][0].entries && a.entries[0] in [b, a][1].entries;
  }

  lemma TwoSwapped(a: Table, b: Table)
    ensures multiset([a, b]) == multiset([b, a])
  {
  }

  function FirstFlushed(): Table {
    Table(1, [Entry(Key(2, 1), ValueStruct(Meta(false, false, false, false), 0, []))], {2})
  }

  function ThenFlushed(): Table {
    Table(2, [Entry(Key(1, 9), ValueStruct(Meta(false, false, false, false), 0, [])),
              Entry(Key(2, 5), ValueStruct(Meta(false, false, false, false), 0, []))], {1, 2})
  }

  /** Lookups do not mind: they take the greatest version, and only a version that is in two tables
      would be a tie. */
  lemma OrderDoesNotMatter(a: seq<Table>, b: seq<Table>, user: int, t: nat)
    requires forall x :: x in a <==> x in b
    requires forall x, y :: x in Contents(0, a) && y in Contents(0, a) && x.key == y.key ==> x == y
    ensures Best(Contents(0, a), user, t) == Best(Contents(0, b), user, t)
  {
    forall e ensures e in Contents(0, a) <==> e in Contents(0, b) {
      ContentsMember(0, a, e);
      ContentsMember(0, b, e);
      if e in Contents(0, a) {
        var i :| 0 <= i < |a| && e in a[i].entries;
        assert a[i] in b;
      }
      if e in Contents(0, b) {
        var i :| 0 <= i < |b| && e in b[i].entries;
        assert b[i] in a;
      }
    }
    BestIsGreatest(Contents(0, a), user, t);
    BestIsGreatest(Contents(0, b), user, t);
    hide Contents, Best;
  }

  // ---------------------------------------------------------------- fillTablesL0ToLbase

  /** The range of table `n` overlaps the hull of those before it. */
  ghost predicate Joins(ts: seq<Table>, n: nat)
    requires ValidTables(ts) && n < |ts|
  {
    n == 0 || Touches(ts[..n], ts[n])
  }

  /** From the first table on, as long as the next one overlaps what was taken. */
  method FillTablesL0ToLbase(top: seq<Table>) returns (out: seq<Table>)
    requires ValidTables(top)
    ensures |out| <= |top| && out == top[..|out|] && (top != [] ==> out != [])
    ensures forall i :: 0 <= i < |out| ==> Joins(top, i)
    ensures |out| < |top| ==> !Joins(top, |out|)
  {
    hide Joins, SpanIs, Sorted;
    out := [];
    var kr := KeyRange(None, None, false);
    var i := 0;
    while i < |top|
      invariant 0 <= i <= |top| && out == top[..i]
      invariant if i == 0 then kr.IsEmpty() else SpanIs(kr, top[..i])
      invariant forall k :: 0 <= k < i ==> Joins(top, k)
    {
      var dkr := GetKeyRange([top[i]]);
      OneSpan(top[i], dkr);
      JoinIsOverlap(top, i, kr, dkr);
      if !Status.OverlapsWith(kr, dkr) {
        break;
      }
      assert top[..i + 1] == top[..i] + [top[i]];
      SpanExtends(kr, dkr, top[..i], top[i]);
      out := out + [top[i]];
      kr := Status.Extend(kr, dkr);
      i := i + 1;
    }
  }

  lemma OneSpan(t: Table, kr: KeyRange)
    requires ValidTable(t) && !kr.inf && kr.left.Some? && kr.right.Some? && kr.left.value.ts == MAX_TS && kr.right.value.ts == 0
    requires Touching([t], kr.left.value.user, kr.right.value.user)
    ensures SpanIs(kr, [t])
  {
  }

  /** What getKeyRange gives for these tables. */
  ghost predicate SpanIs(kr: KeyRange, ts: seq<Table>)
    requires ValidTables(ts)
  {
    && !kr.inf && kr.left.Some? && kr.right.Some? && kr.left.value.ts == MAX_TS && kr.right.value.ts == 0
    && Touching(ts, kr.left.value.user, kr.right.value.user)
  }

  lemma JoinIsOverlap(ts: seq<Table>, n: nat, kr: KeyRange, dkr: KeyRange)
    requires ValidTables(ts) && n < |ts| && SpanIs(dkr, [ts[n]])
    requires if n == 0 then kr.IsEmpty() else SpanIs(kr, ts[..n])
    ensures Status.OverlapsWith(kr, dkr) <==> Joins(ts, n)
  {
    hide Sorted;
    if n > 0 {
      SpanOverlap(kr, dkr, ts[..n], ts[n]);
    }
  }

  lemma SpanOverlap(kr: KeyRange, dkr: KeyRange, ts: seq<Table>, t: Table)
    requires ValidTables(ts) && ValidTable(t) && SpanIs(kr, ts) && SpanIs(dkr, [t])
    ensures Status.OverlapsWith(kr, dkr) <==> Touches(ts, t)
  {
    hide Sorted;
    assert [t][0] == t;
  }

  lemma SpanExtends(kr: KeyRange, dkr: KeyRange, ts: seq<Table>, t: Table)
    requires ValidTables(ts + [t]) && ValidTables(ts) && ValidTable(t) && SpanIs(dkr, [t])
    requires if ts == [] then kr.IsEmpty() else SpanIs(kr, ts)
    ensures SpanIs(Status.Extend(kr, dkr), ts + [t])
  {
    hide Sorted;
    var x := Status.Extend(kr, dkr);
    var lo, hi := dkr.left.value.user, dkr.right.value.user;
    assert lo == Smallest([t][0]).user && hi == Biggest([t][0]).user;
    if ts == [] {
      assert ts + [t] == [t];
    } else {
      ExtendedIs(kr, dkr);
      HullExtends(ts, t, kr.left.value.user, kr.right.value.user);
    }
  }

  lemma ExtendedIs(kr: KeyRange, dkr: KeyRange)
    requires !kr.inf && kr.left.Some? && kr.right.Some? && kr.left.value.ts == MAX_TS && kr.right.value.ts == 0
    requires !dkr.inf && dkr.left.Some? && dkr.right.Some? && dkr.left.value.ts == MAX_TS && dkr.right.value.ts == 0
    ensures var a, b, c, d := kr.left.value.user, dkr.left.value.user, kr.right.value.user, dkr.right.value.user;
            Status.Extend(kr, dkr) == KeyRange(Some(Key(if b < a then b else a, MAX_TS)), Some(Key(if c < d then d else c, 0)), false)
  {
  }

  lemma HullExtends(ts: seq<Table>, t: Table, lo: int, hi: int)
    requires ValidTables(ts + [t]) && ValidTables(ts) && ValidTable(t) && Touching(ts, lo, hi)
    ensures var a, b := Smallest(t).user, Biggest(t).user;
            Touching(ts + [t], if a < lo then a else lo, if hi < b then b else hi)
  {
    hide Sorted;
    var all := ts + [t];
    var i :| 0 <= i < |ts| && lo == Smallest(ts[i]).user;
    var j :| 0 <= j < |ts| && hi == Biggest(ts[j]).user;
    assert all[|ts|] == t && all[i] == ts[i] && all[j] == ts[j];
    WithinTable(t, t.entries[0]);
    WithinTable(ts[i], ts[i].entries[0]);
  }

  /** Level 0 as it is between restarts: `m` tables in the order of their smallest keys, then tables in
      the order of age, newer than all before. */
  ghost predicate SortedThenAged(ts: seq<Table>, m: nat) {
    && ValidTables(ts) && m <= |ts|
    && (forall i, j :: 0 <= i < j < m ==> LessEq(Smallest(ts[i]), Smallest(ts[j])))
    && forall i, j, x, y :: 0 <= i < j < |ts| && m <= j && x in ts[i].entries && y in ts[j].entries && x.key.user == y.key.user ==>
         x.key.ts < y.key.ts
  }

  /** What is left is newer than what is taken, although position is no longer age. */
  lemma LeftIsNewer(ts: seq<Table>, m: nat, n: nat, i: nat, j: nat, x: Entry, y: Entry)
    requires SortedThenAged(ts, m) && n <= |ts| && (n < |ts| ==> !Joins(ts, n))
    requires i < n <= j < |ts| && x in ts[i].entries && y in ts[j].entries && x.key.user == y.key.user
    ensures x.key.ts < y.key.ts
  {
    if j < m {
      WithinTable(ts[i], x);
      WithinTable(ts[j], y);
      BeyondHull(ts, m, n, i, j);
    }
  }

  /** Among the sorted tables, those from the first that does not join are beyond all taken. */
  lemma BeyondHull(ts: seq<Table>, m: nat, n: nat, i: nat, j: nat)
    requires SortedThenAged(ts, m) && i < n <= j < m && !Joins(ts, n)
    ensures Biggest(ts[i]).user < Smallest(ts[j]).user
  {
    WithinTable(ts[n], ts[n].entries[0]);
    assert LessEq(Smallest(ts[i]), Smallest(ts[n])) && (n < j ==> LessEq(Smallest(ts[n]), Smallest(ts[j])));
    assert ts[..n][i] == ts[i];
    assert Smallest(ts[..n][i]).user <= Biggest(ts[n]).user;
  }

  /** A flush keeps that shape. */
  lemma FlushKeeps(ts: seq<Table>, m: nat, t: Table)
    requires SortedThenAged(ts, m) && ValidTables(ts + [t])
    requires forall i, x, y :: 0 <= i < |ts| && x in ts[i].entries && y in t.entries && x.key.user == y.key.user ==> x.key.ts < y.key.ts
    ensures SortedThenAged(ts + [t], m)
  {
  }

  /** So does taking any tables away, as deleteTables does; a compaction to the base level may find its
      tables no longer in front, when one within level 0 has sorted the level meanwhile. */
  lemma {:induction false} DropKeeps(ts: seq<Table>, m: nat, gone: set<nat>)
    requires SortedThenAged(ts, m)
    ensures SortedThenAged(Without(ts, gone), |Without(ts[..m], gone)|)
    ensures forall t :: t in Without(ts, gone) ==> t in ts
  {
    hide ValidTables, LessEq;
    if ts != [] {
      var n := |ts| - 1;
      FrontKeeps(ts, m);
      FrontDrops(ts, m, gone);
      hide SortedThenAged, Without;
      DropKeeps(ts[..n], if m <= n then m else n, gone);
      if ts[n].id !in gone { LastKeeps(ts, m, Without(ts[..n], gone), |Without(ts[..n][..if m <= n then m else n], gone)|); }
    }
  }

  lemma FrontDrops(ts: seq<Table>, m: nat, gone: set<nat>)
    requires ts != [] && m <= |ts|
    ensures var n := |ts| - 1;
            && Without(ts, gone) == (if ts[n].id in gone then Without(ts[..n], gone) else Without(ts[..n], gone) + [ts[n]])
            && (if m <= n then ts[..n][..m] == ts[..m] else ts[..n][..n] == ts[..n] && ts[..m] == ts)
  {
  }

  lemma FrontKeeps(ts: seq<Table>, m: nat)
    requires SortedThenAged(ts, m) && ts != []
    ensures var n := |ts| - 1; SortedThenAged(ts[..n], if m <= n then m else n)
  {
    hide Sorted, LessEq;
  }

  /** The last table goes on after any of those before it. */
  lemma LastKeeps(ts: seq<Table>, m: nat, left: seq<Table>, k: nat)
    requires SortedThenAged(ts, m) && ts != [] && SortedThenAged(left, k) && (m == |ts| ==> k == |left|)
    requires forall t :: t in left ==> t in ts[..|ts| - 1]
    ensures SortedThenAged(left + [ts[|ts| - 1]], if m == |ts| then k + 1 else k)
  {
    hide Sorted, LessEq;
    var n, more := |ts| - 1, left + [ts[|ts| - 1]];
    forall i | 0 <= i < |left|
      ensures left[i].id != ts[n].id && (m == |ts| ==> LessEq(Smallest(left[i]), Smallest(ts[n])))
      ensures m < |ts| ==> forall x, y :: x in left[i].entries && y in ts[n].entries && x.key.user == y.key.user ==> x.key.ts < y.key.ts
    {
      assert left[i] in left;
      assert left[i] in ts[..n];
      var j :| 0 <= j < n && ts[j] == left[i];
    }
  }

  /** And replaceTables, which sorts all of it. */
  lemma SortKeeps(r: seq<Table>)
    requires ValidTables(r) && WeaklyOrdered(r)
    ensures SortedThenAged(r, |r|)
  {
  }
}
