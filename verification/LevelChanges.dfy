/** How a compaction changes levels: choosing the tables below, replacing them, deleting the old
    ones (level_handler.go, compaction.go getKeyRange, util.go validate). The main result is
    `BetweenLevels`. */
module LevelChanges {
  import opened Wrappers
  import opened Entries
  import opened Levels
  import Compactions

  // ---------------------------------------------------------------- ranges

  /** getKeyRange: every version of every key from the smallest to the biggest. */
  method GetKeyRange(ts: seq<Table>) returns (r: KeyRange)
    requires ValidTables(ts)
    ensures ts == [] ==> r == KeyRange(None, None, false)
    ensures ts != [] ==> !r.inf && r.left.Some? && r.right.Some? && r.left.value.ts == MAX_TS && r.right.value.ts == 0
    ensures forall i, e :: 0 <= i < |ts| && e in ts[i].entries ==> LessEq(r.left.value, e.key) && LessEq(e.key, r.right.value)
    ensures ts != [] ==> Touching(ts, r.left.value.user, r.right.value.user)
  {
    if |ts| == 0 {
      return KeyRange(None, None, false);
    }
    var smallest, biggest := Smallest(ts[0]), Biggest(ts[0]);
    ghost var a, b := 0, 0;
    hide Sorted;
    for i := 1 to |ts|
      invariant 0 <= a < i && 0 <= b < i && smallest == Smallest(ts[a]) && biggest == Biggest(ts[b])
      invariant forall k :: 0 <= k < i ==> LessEq(smallest, Smallest(ts[k])) && LessEq(Biggest(ts[k]), biggest)
    {
      if Less(Smallest(ts[i]), smallest) {
        smallest, a := Smallest(ts[i]), i;
      }
      if Less(biggest, Biggest(ts[i])) {
        biggest, b := Biggest(ts[i]), i;
      }
    }
    Hull(ts, smallest, biggest);
    r := KeyRange(Some(Key(smallest.user, MAX_TS)), Some(Key(biggest.user, 0)), false);
  }

  /** Every key lies between the smallest of the smallest keys and the biggest of the biggest. */
  lemma Hull(ts: seq<Table>, smallest: Key, biggest: Key)
    requires ValidTables(ts)
    requires forall k :: 0 <= k < |ts| ==> LessEq(smallest, Smallest(ts[k])) && LessEq(Biggest(ts[k]), biggest)
    ensures forall i, e :: 0 <= i < |ts| && e in ts[i].entries ==>
              LessEq(Key(smallest.user, MAX_TS), e.key) && LessEq(e.key, Key(biggest.user, 0))
  {
  }

  /** Tables [l, r) are exactly those with a key in the range of user keys [lo, hi]. */
  ghost predicate Overlaps(ts: seq<Table>, l: nat, r: nat, lo: int, hi: int)
    requires ValidTables(ts)
  {
    && l <= r <= |ts|
    && (forall i :: 0 <= i < |ts| ==> (l <= i < r <==> lo <= Biggest(ts[i]).user && Smallest(ts[i]).user <= hi))
    && (forall i :: 0 <= i < l ==> Biggest(ts[i]).user < lo)
    && (forall i :: r <= i < |ts| ==> hi < Smallest(ts[i]).user)
  }

  method OverlappingTables(ts: seq<Table>, kr: KeyRange) returns (left: nat, right: nat)
    requires Shape(ts)
    requires kr.left.Some? && kr.right.Some? ==>
               kr.left.value.ts == MAX_TS && kr.right.value.ts == 0 && kr.left.value.user <= kr.right.value.user
    ensures kr.left.None? || kr.right.None? ==> left == right == 0
    ensures kr.left.Some? && kr.right.Some? ==> Overlaps(ts, left, right, kr.left.value.user, kr.right.value.user)
  {
    if kr.left.None? || kr.right.None? {
      return 0, 0;
    }
    var f := (i: nat) => i < |ts| && ts[i].entries != [] && LessEq(kr.left.value, Biggest(ts[i]));
    var g := (i: nat) => i < |ts| && ts[i].entries != [] && Less(kr.right.value, Smallest(ts[i]));
    forall i | 0 <= i < |ts|
      ensures f(i) <==> kr.left.value.user <= Biggest(ts[i]).user
      ensures g(i) <==> kr.right.value.user < Smallest(ts[i]).user
      ensures Smallest(ts[i]).user <= Biggest(ts[i]).user
    {
      assert ts[i].entries[0] in ts[i].entries && ts[i].entries[|ts[i].entries| - 1] in ts[i].entries;
      WithinTable(ts[i], ts[i].entries[0]);
    }
    left := Search(|ts|, f);
    right := Search(|ts|, g);
    assert !(right < left) by {
      assert right < |ts| ==> f(right) || !g(right);
    }
  }

  // ---------------------------------------------------------------- changing the tables

  function Ids(ts: seq<Table>): set<nat> {
    set t | t in ts :: t.id
  }

  /** The tables whose id is not in `gone`. */
  function Without(ts: seq<Table>, gone: set<nat>): seq<Table> {
    if ts == [] then []
    else
      var last := ts[|ts| - 1];
      Without(ts[..|ts| - 1], gone) + if last.id in gone then [] else [last]
  }

  ghost predicate WeaklyOrdered(ts: seq<Table>) {
    && (forall i :: 0 <= i < |ts| ==> ts[i].entries != [])
    && forall i, j :: 0 <= i < j < |ts| ==> LessEq(Smallest(ts[i]), Smallest(ts[j]))
  }

  method DeleteTables(h: LevelHandler, toDel: seq<Table>)
    modifies h
    ensures h.tables == Without(old(h.tables), Ids(toDel))
  {
    var newTables := Remaining(h.tables, Ids(toDel));
    h.tables := newTables;
  }

  method Remaining(ts: seq<Table>, toDel: set<nat>) returns (newTables: seq<Table>)
    ensures newTables == Without(ts, toDel)
  {
    newTables := [];
    for i := 0 to |ts|
      invariant newTables == Without(ts[..i], toDel)
    {
      assert ts[..i + 1][..i] == ts[..i];
      if ts[i].id !in toDel {
        newTables := newTables + [ts[i]];
        continue;
      }
    }
    assert ts[..|ts|] == ts;
  }

  method ReplaceTables(h: LevelHandler, toDel: seq<Table>, toAdd: seq<Table>)
    requires forall i :: 0 <= i < |h.tables| ==> h.tables[i].entries != []
    requires forall i :: 0 <= i < |toAdd| ==> toAdd[i].entries != []
    modifies h
    ensures multiset(h.tables) == multiset(Without(old(h.tables), Ids(toDel)) + toAdd)
    ensures WeaklyOrdered(h.tables)
  {
    var newTables := Remaining(h.tables, Ids(toDel));
    WithoutSubset(h.tables, Ids(toDel));
    h.tables := SortBySmallest(newTables + toAdd);
  }

  lemma {:induction false} WithoutSubset(ts: seq<Table>, gone: set<nat>)
    ensures forall t :: t in Without(ts, gone) <==> t in ts && t.id !in gone
  {
    if ts != [] { WithoutSubset(ts[..|ts| - 1], gone); }
  }

  /** sort.Slice by smallest key. */
  method SortBySmallest(ts: seq<Table>) returns (r: seq<Table>)
    requires forall i :: 0 <= i < |ts| ==> ts[i].entries != []
    ensures multiset(r) == multiset(ts) && WeaklyOrdered(r)
  {
    r := [];
    for i := 0 to |ts|
      invariant multiset(r) == multiset(ts[..i]) && WeaklyOrdered(r)
    {
      assert ts[..i + 1] == ts[..i] + [ts[i]];
      r := Insert(r, ts[i]);
    }
    assert ts[..|ts|] == ts;
  }

  method Insert(s: seq<Table>, t: Table) returns (r: seq<Table>)
    requires WeaklyOrdered(s) && t.entries != []
    ensures multiset(r) == multiset(s) + multiset{t} && WeaklyOrdered(r)
  {
    var k := 0;
    while k < |s| && LessEq(Smallest(s[k]), Smallest(t))
      invariant k <= |s| && forall j :: 0 <= j < k ==> LessEq(Smallest(s[j]), Smallest(t))
    {
      k := k + 1;
    }
    r := s[..k] + [t] + s[k..];
    assert multiset(s) == multiset(s[..k] + s[k..]) by { assert s == s[..k] + s[k..]; }
    InsertKeepsOrder(s, k, t);
  }

  lemma InsertKeepsOrder(s: seq<Table>, k: nat, t: Table)
    requires WeaklyOrdered(s) && t.entries != [] && k <= |s|
    requires forall j :: 0 <= j < k ==> LessEq(Smallest(s[j]), Smallest(t))
    requires k < |s| ==> Less(Smallest(t), Smallest(s[k]))
    ensures WeaklyOrdered(s[..k] + [t] + s[k..])
  {
  }

  // ---------------------------------------------------------------- the shape is kept

  ghost predicate StrictlyOrdered(ts: seq<Table>) {
    && (forall i :: 0 <= i < |ts| ==> ts[i].entries != [])
    && forall i, j :: 0 <= i < j < |ts| ==> Less(Smallest(ts[i]), Smallest(ts[j]))
  }

  lemma SameHead(r: seq<Table>, t: seq<Table>)
    requires multiset(r) == multiset(t) && WeaklyOrdered(r) && StrictlyOrdered(t) && t != [] && r != []
    ensures r[0] == t[0]
  {
    assert t[0] in multiset(r) && r[0] in multiset(t);
    var k :| 0 <= k < |r| && r[k] == t[0];
    var m :| 0 <= m < |t| && t[m] == r[0];
    assert LessEq(Smallest(r[0]), Smallest(r[k]));
    assert m == 0;
  }

  lemma TailBag(s: seq<Table>)
    requires s != []
    ensures s == [s[0]] + s[1..] && multiset(s[1..]) == multiset(s) - multiset{s[0]}
  {
  }

  /** Sorting has one possible outcome when the smallest keys differ. */
  lemma {:induction false} SortedIs(r: seq<Table>, t: seq<Table>)
    requires multiset(r) == multiset(t) && WeaklyOrdered(r) && StrictlyOrdered(t)
    ensures r == t
  {
    assert |r| == |multiset(r)| == |multiset(t)| == |t|;
    if t != [] {
      SameHead(r, t);
      TailBag(r);
      TailBag(t);
      SortedIs(r[1..], t[1..]);
    }
  }

  lemma {:induction false} KeepTail(a: seq<Table>, b: seq<Table>, gone: set<nat>)
    requires forall i :: 0 <= i < |b| ==> b[i].id !in gone
    ensures Without(a + b, gone) == Without(a, gone) + b
  {
    if b == [] {
      assert a + b == a;
    } else {
      assert (a + b)[..|a + b| - 1] == a + b[..|b| - 1];
      KeepTail(a, b[..|b| - 1], gone);
    }
  }

  lemma {:induction false} DropTail(a: seq<Table>, b: seq<Table>, gone: set<nat>)
    requires forall i :: 0 <= i < |b| ==> b[i].id in gone
    ensures Without(a + b, gone) == Without(a, gone)
  {
    if b == [] {
      assert a + b == a;
    } else {
      assert (a + b)[..|a + b| - 1] == a + b[..|b| - 1];
      DropTail(a, b[..|b| - 1], gone);
    }
  }

  lemma WithoutMiddle(a: seq<Table>, mid: seq<Table>, b: seq<Table>, gone: set<nat>)
    requires forall i :: 0 <= i < |a| ==> a[i].id !in gone
    requires forall i :: 0 <= i < |mid| ==> mid[i].id in gone
    requires forall i :: 0 <= i < |b| ==> b[i].id !in gone
    ensures Without(a + mid + b, gone) == a + b
  {
    KeepTail(a + mid, b, gone);
    DropTail(a, mid, gone);
    KeepTail([], a, gone);
    assert [] + a == a;
  }

  ghost predicate DistinctIds(ts: seq<Table>) {
    forall i, j :: 0 <= i < j < |ts| ==> ts[i].id != ts[j].id
  }

  lemma WithoutSlice(ts: seq<Table>, l: nat, r: nat)
    requires DistinctIds(ts) && l <= r <= |ts|
    ensures Without(ts, Ids(ts[l..r])) == ts[..l] + ts[r..]
  {
    SliceIds(ts, l, r);
    WithoutRun(ts, l, r, Ids(ts[l..r]));
  }

  lemma WithoutRun(ts: seq<Table>, l: nat, r: nat, gone: set<nat>)
    requires l <= r <= |ts| && forall i :: 0 <= i < |ts| ==> (ts[i].id in gone <==> l <= i < r)
    ensures Without(ts, gone) == ts[..l] + ts[r..]
  {
    WithoutMiddle(ts[..l], ts[l..r], ts[r..], gone);
    assert ts == ts[..l] + ts[l..r] + ts[r..];
  }

  lemma SliceIds(ts: seq<Table>, l: nat, r: nat)
    requires DistinctIds(ts) && l <= r <= |ts|
    ensures forall i :: 0 <= i < |ts| ==> (ts[i].id in Ids(ts[l..r]) <==> l <= i < r)
  {
  }

  lemma ShapeJoins(a: seq<Table>, b: seq<Table>)
    requires Shape(a) && Shape(b)
    requires forall i, j :: 0 <= i < |a| && 0 <= j < |b| ==>
               a[i].id != b[j].id && Biggest(a[i]).user < Smallest(b[j]).user
    ensures Shape(a + b)
  {
  }

  lemma ShapeIsStrict(ts: seq<Table>)
    requires Shape(ts)
    ensures StrictlyOrdered(ts)
  {
  }

  lemma BetweenNeighbours(ts: seq<Table>, l: nat, r: nat, t: Table, lo: int, hi: int, i: nat)
    requires Shape(ts) && ValidTable(t) && Overlaps(ts, l, r, lo, hi) && lo <= hi && Inside(ts, l, r, t, lo, hi)
    requires i < l || r <= i < |ts|
    ensures if i < l then Biggest(ts[i]).user < Smallest(t).user else Biggest(t).user < Smallest(ts[i]).user
  {
  }

  /** New tables that stay between their neighbours leave the level in shape. */
  lemma PartsShape(ts: seq<Table>, l: nat, r: nat)
    requires Shape(ts) && l <= r <= |ts|
    ensures Shape(ts[..l]) && Shape(ts[r..])
  {
  }

  lemma SpliceKeepsShape(ts: seq<Table>, l: nat, r: nat, made: seq<Table>, lo: int, hi: int)
    requires Shape(ts) && Shape(made) && Overlaps(ts, l, r, lo, hi) && lo <= hi
    requires forall i :: 0 <= i < |made| ==> made[i].id !in Ids(ts) && Inside(ts, l, r, made[i], lo, hi)
    ensures Shape(ts[..l] + made + ts[r..])
  {
    forall i, j | 0 <= i < |ts| && !(l <= i < r) && 0 <= j < |made|
      ensures ts[i].id != made[j].id
      ensures if i < l then Biggest(ts[i]).user < Smallest(made[j]).user else Biggest(made[j]).user < Smallest(ts[i]).user
    {
      BetweenNeighbours(ts, l, r, made[j], lo, hi, i);
    }
    PartsShape(ts, l, r);
    hide ValidTables, Sorted, Overlaps, Inside, Shape;
    ShapeJoins(ts[..l], made);
    ShapeJoins(ts[..l] + made, ts[r..]);
  }

  /** All keys of `t` are in the range compacted, or in the range of a table replaced. */
  ghost predicate Inside(ts: seq<Table>, l: nat, r: nat, t: Table, lo: int, hi: int)
    requires ValidTables(ts) && l <= r <= |ts|
  {
    forall e :: e in t.entries ==>
      lo <= e.key.user <= hi || exists k :: l <= k < r && Smallest(ts[k]).user <= e.key.user <= Biggest(ts[k]).user
  }

  /** A compaction from one level to the next leaves the next level sorted, with disjoint tables
      and no user key in two of them. `top` is what is moved down, `bot` the overlapping run; the
      new tables hold only keys of these and are separate, as the compaction loop makes them. */
  method BetweenLevels(next: LevelHandler, top: seq<Table>, made: seq<Table>) returns (bot: seq<Table>)
    requires next.level != 0 && next.Valid() && ValidTables(top) && top != []
    requires Shape(made) && forall i :: 0 <= i < |made| ==> made[i].id !in Ids(next.tables)
    requires forall i, e :: 0 <= i < |made| && e in made[i].entries ==> FromInput(top, next.tables, e)
    modifies next
    ensures next.Valid()
    ensures forall t :: t in bot <==> t in old(next.tables) && Touches(top, t)
    ensures forall t :: t in next.tables <==> t in made || (t in old(next.tables) && !Touches(top, t))
  {
    var range := GetKeyRange(top);
    ghost var lo, hi := range.left.value.user, range.right.value.user;
    RangeOrdered(top, lo, hi);
    var l, r := OverlappingTables(next.tables, range);
    ghost var ts := next.tables;
    bot := next.tables[l..r];
    SpliceOk(top, ts, made, l, r, lo, hi);
    ReplaceTables(next, bot, made);
    SpliceIs(ts, l, r, made, next.tables);
  }

  /** What the splice leaves, stated by membership. */
  lemma SpliceOk(top: seq<Table>, ts: seq<Table>, made: seq<Table>, l: nat, r: nat, lo: int, hi: int)
    requires ValidTables(top) && Shape(ts) && Shape(made) && Touching(top, lo, hi) && Overlaps(ts, l, r, lo, hi)
    requires forall i :: 0 <= i < |made| ==> made[i].id !in Ids(ts)
    requires forall i, e :: 0 <= i < |made| && e in made[i].entries ==> FromInput(top, ts, e)
    ensures Without(ts, Ids(ts[l..r])) == ts[..l] + ts[r..]
    ensures Shape(ts[..l] + made + ts[r..])
    ensures forall t :: t in ts[l..r] <==> t in ts && Touches(top, t)
    ensures forall t :: t in ts[..l] + made + ts[r..] <==> t in made || (t in ts && !Touches(top, t))
  {
    RangeOrdered(top, lo, hi);
    TouchesIsOverlap(top, ts, l, r, lo, hi);
    MadeInside(top, ts, made, l, r, lo, hi);
    SpliceKeepsShape(ts, l, r, made, lo, hi);
    WithoutSlice(ts, l, r);
    SpliceMembers(top, ts, l, r);
    assert forall t :: t in ts[..l] + made + ts[r..] <==> t in made || t in ts[..l] || t in ts[r..];
  }

  lemma SpliceMembers(top: seq<Table>, ts: seq<Table>, l: nat, r: nat)
    requires l <= r <= |ts| && forall k :: 0 <= k < |ts| ==> (l <= k < r <==> Touches(top, ts[k]))
    ensures forall t :: t in ts[l..r] <==> t in ts && Touches(top, t)
    ensures forall t :: t in ts[..l] || t in ts[r..] <==> t in ts && !Touches(top, t)
  {
  }

  lemma SpliceIs(ts: seq<Table>, l: nat, r: nat, made: seq<Table>, result: seq<Table>)
    requires l <= r <= |ts| && Shape(ts[..l] + made + ts[r..]) && WeaklyOrdered(result)
    requires multiset(result) == multiset(ts[..l] + ts[r..] + made)
    ensures result == ts[..l] + made + ts[r..]
  {
    ShapeIsStrict(ts[..l] + made + ts[r..]);
    SortedIs(result, ts[..l] + made + ts[r..]);
  }

  lemma MadeInside(top: seq<Table>, ts: seq<Table>, made: seq<Table>, l: nat, r: nat, lo: int, hi: int)
    requires ValidTables(top) && ValidTables(ts) && Touching(top, lo, hi) && Overlaps(ts, l, r, lo, hi)
    requires forall i, e :: 0 <= i < |made| && e in made[i].entries ==> FromInput(top, ts, e)
    ensures forall i :: 0 <= i < |made| ==> Inside(ts, l, r, made[i], lo, hi)
  {
    TouchesIsOverlap(top, ts, l, r, lo, hi);
    forall i, e | 0 <= i < |made| && e in made[i].entries
      ensures lo <= e.key.user <= hi || exists k :: l <= k < r && Smallest(ts[k]).user <= e.key.user <= Biggest(ts[k]).user
    {
      assert FromInput(top, ts, e);
      if k :| 0 <= k < |top| && e in top[k].entries {
        WithinTable(top[k], e);
      } else {
        var k :| 0 <= k < |ts| && e in ts[k].entries && Touches(top, ts[k]);
        WithinTable(ts[k], e);
      }
    }
  }

  /** `e` comes from a table moved down or from a table it overlaps. */
  ghost predicate FromInput(top: seq<Table>, ts: seq<Table>, e: Entry) {
    || (exists k :: 0 <= k < |top| && e in top[k].entries)
    || (exists k :: 0 <= k < |ts| && e in ts[k].entries && Touches(top, ts[k]))
  }

  /** A table with a key inside the range spanned by `top`. */
  ghost predicate Touches(top: seq<Table>, t: Table) {
    t.entries != [] &&
    exists i, j :: 0 <= i < |top| && 0 <= j < |top| && top[i].entries != [] && top[j].entries != []
                && Smallest(top[i]).user <= Biggest(t).user && Smallest(t).user <= Biggest(top[j]).user
  }

  ghost predicate Touching(top: seq<Table>, lo: int, hi: int)
    requires ValidTables(top)
  {
    && (forall i :: 0 <= i < |top| ==> lo <= Smallest(top[i]).user && Biggest(top[i]).user <= hi)
    && (exists i :: 0 <= i < |top| && lo == Smallest(top[i]).user)
    && (exists j :: 0 <= j < |top| && hi == Biggest(top[j]).user)
  }

  lemma RangeOrdered(top: seq<Table>, lo: int, hi: int)
    requires ValidTables(top) && Touching(top, lo, hi)
    ensures lo <= hi
  {
  }

  lemma TouchesIsOverlap(top: seq<Table>, ts: seq<Table>, l: nat, r: nat, lo: int, hi: int)
    requires ValidTables(top) && ValidTables(ts) && Touching(top, lo, hi) && Overlaps(ts, l, r, lo, hi)
    ensures forall k :: 0 <= k < |ts| ==> (l <= k < r <==> Touches(top, ts[k]))
  {
  }

  /** The tables a compaction writes, with fresh ids and filters, form a level of the right shape. */
  lemma WrittenTablesHaveShape(es: seq<Entry>, lists: seq<seq<Entry>>, ts: seq<Table>)
    requires Compactions.Separate(lists) && Compactions.NonEmpty(lists) && Compactions.SubTables(lists, es) && |ts| == |lists|
    requires forall e :: e in es ==> 1 <= e.key.ts <= MAX_TS
    requires forall k :: 0 <= k < |ts| ==>
               ts[k].entries == lists[k] && forall e :: e in lists[k] ==> e.key.user in ts[k].filter
    requires forall i, j :: 0 <= i < j < |ts| ==> ts[i].id != ts[j].id
    ensures Shape(ts)
  {
  }
}
