/** Which compactions are running (compaction.go): the key ranges registered at every level and the
    tables taken. The invariant over any run of registrations and removals is `Tracks`. */
module CompactStatuses {
  import opened Wrappers
  import opened Entries

  /** r.overlapsWith(dst). */
  predicate OverlapsWith(r: KeyRange, dst: KeyRange) {
    if r.IsEmpty() then true
    else if dst.IsEmpty() then false
    else if r.inf || dst.inf then true
    else
      && (r.left.Some? && dst.right.Some? ==> !Less(dst.right.value, r.left.value))
      && (r.right.Some? && dst.left.Some? ==> !Less(r.right.value, dst.left.value))
  }

  /** A range with two ends, as getKeyRange makes it. */
  predicate Proper(r: KeyRange) {
    !r.inf && r.left.Some? && r.right.Some? && LessEq(r.left.value, r.right.value)
  }

  predicate Contains(r: KeyRange, k: Key) {
    r.inf || (r.left.Some? && r.right.Some? && LessEq(r.left.value, k) && LessEq(k, r.right.value))
  }

  predicate Within(r: KeyRange, q: KeyRange)
    requires Proper(r)
  {
    Contains(q, r.left.value) && Contains(q, r.right.value)
  }

  function Extend(r: KeyRange, kr: KeyRange): KeyRange {
    if kr.IsEmpty() then r
    else
      var q := if r.IsEmpty() then kr else r;
      KeyRange(if q.left.None? || (kr.left.Some? && Less(kr.left.value, q.left.value)) then kr.left else q.left,
               if q.right.None? || (kr.right.Some? && Less(q.right.value, kr.right.value)) then kr.right else q.right,
               q.inf || kr.inf)
  }

  /** The extended range is the smallest one with both. */
  lemma ExtendIsHull(r: KeyRange, kr: KeyRange)
    requires (r.IsEmpty() || Proper(r)) && Proper(kr)
    ensures Proper(Extend(r, kr))
    ensures forall k :: Contains(kr, k) || (!r.IsEmpty() && Contains(r, k)) ==> Contains(Extend(r, kr), k)
    ensures forall q :: (Proper(q) && Within(kr, q) && (r.IsEmpty() || Within(r, q))) ==> Within(Extend(r, kr), q)
  {
  }

  /** An infinite range overlaps all that are not empty, and so they do it; an empty one overlaps everything,
      and nothing but empty ones overlaps it. Extending by an infinite range makes an infinite one. */
  lemma InfiniteAndEmpty(r: KeyRange, q: KeyRange, none: KeyRange)
    requires none == KeyRange(None, None, false)
    ensures OverlapsWith(none, r) && Extend(r, none) == r
    ensures r != none ==> !OverlapsWith(r, none)
    ensures r != none && q.inf ==> OverlapsWith(r, q) && OverlapsWith(q, r) && Extend(r, q).inf && Extend(q, r).inf
  {
  }

  /** Proper ranges overlap just when they share a key. */
  lemma OverlapIsShared(a: KeyRange, b: KeyRange)
    requires Proper(a) && Proper(b)
    ensures OverlapsWith(a, b) <==> exists k :: Contains(a, k) && Contains(b, k)
  {
    if OverlapsWith(a, b) {
      var k := if Less(a.left.value, b.left.value) then b.left.value else a.left.value;
      assert Contains(a, k) && Contains(b, k);
    }
  }

  /** A compaction: its levels, the ranges it registers there, its tables and their size. */
  datatype Def = Def(thisLevel: nat, nextLevel: nat, thisRange: KeyRange, nextRange: KeyRange,
                     top: set<nat>, bot: set<nat>, thisSize: int)
  {
    predicate Between() {
      thisLevel != nextLevel
    }

    /** What fillTablesL0ToL0 sets up. */
    predicate ZeroToZero() {
      thisLevel == 0 && nextLevel == 0 && thisRange == INF_RANGE && nextRange.IsEmpty() && bot == {}
    }

    function Tables(): set<nat> {
      top + bot
    }
  }

  predicate AnyOverlap(ranges: seq<KeyRange>, dst: KeyRange) {
    exists i :: 0 <= i < |ranges| && OverlapsWith(ranges[i], dst)
  }

  /** The ranges that are not equal to `dst`. */
  function Without(ranges: seq<KeyRange>, dst: KeyRange): seq<KeyRange> {
    if ranges == [] then []
    else Without(ranges[..|ranges| - 1], dst) + if ranges[|ranges| - 1] == dst then [] else [ranges[|ranges| - 1]]
  }

  lemma {:induction false} WithoutMembers(ranges: seq<KeyRange>, dst: KeyRange, r: KeyRange)
    ensures r in Without(ranges, dst) <==> r in ranges && r != dst
  {
    if ranges != [] { WithoutMembers(ranges[..|ranges| - 1], dst, r); }
  }

  lemma {:induction false} WithoutNone(ranges: seq<KeyRange>, dst: KeyRange)
    requires dst !in ranges
    ensures Without(ranges, dst) == ranges
  {
    if ranges != [] { WithoutNone(ranges[..|ranges| - 1], dst); }
  }

  // ---------------------------------------------------------------- one registration and its removal

  function Added(ranges: seq<seq<KeyRange>>, d: Def): seq<seq<KeyRange>>
    requires d.thisLevel < |ranges| && d.nextLevel < |ranges|
  {
    var one := ranges[d.thisLevel := ranges[d.thisLevel] + [d.thisRange]];
    one[d.nextLevel := one[d.nextLevel] + [d.nextRange]]
  }

  function Removed(ranges: seq<seq<KeyRange>>, d: Def): (r: seq<seq<KeyRange>>)
    requires d.thisLevel < |ranges| && d.nextLevel < |ranges|
    ensures |r| == |ranges|
  {
    var one := ranges[d.thisLevel := Without(ranges[d.thisLevel], d.thisRange)];
    if d.Between() && !d.nextRange.IsEmpty() then one[d.nextLevel := Without(one[d.nextLevel], d.nextRange)] else one
  }

  /** Removing a compaction right after compareAndAdd accepted it restores the ranges just when it is
      between two levels, or registered the same range twice: at one level `delete` does not look
      for a different second range. */
  lemma RemoveUndoesAdd(ranges: seq<seq<KeyRange>>, d: Def)
    requires d.thisLevel < |ranges| && d.nextLevel < |ranges| && Proper(d.thisRange) && Proper(d.nextRange)
    requires !AnyOverlap(ranges[d.thisLevel], d.thisRange) && !AnyOverlap(ranges[d.nextLevel], d.nextRange)
    ensures Removed(Added(ranges, d), d) == ranges <==> d.Between() || d.nextRange == d.thisRange
  {
    NotThere(ranges[d.thisLevel], d.thisRange);
    NotThere(ranges[d.nextLevel], d.nextRange);
    var a, b := ranges[d.thisLevel], ranges[d.nextLevel];
    WithoutLast(a, d.thisRange);
    if d.Between() {
      WithoutLast(b, d.nextRange);
    } else {
      SameLevelTwice(a, d.thisRange, d.nextRange);
      hide Without;
      assert Added(ranges, d)[d.thisLevel] == a + [d.thisRange] + [d.nextRange];
      assert Removed(Added(ranges, d), d)[d.thisLevel] == Without(a + [d.thisRange] + [d.nextRange], d.thisRange);
    }
  }

  /** A compaction within the last level whose second range stays. */
  lemma RangeLeftBehind()
    ensures
      var x, y := KeyRange(Some(Key(1, 9)), Some(Key(2, 0)), false), KeyRange(Some(Key(3, 9)), Some(Key(4, 0)), false);
      var d := Def(1, 1, x, y, {1}, {2}, 0);
      && Proper(x) && Proper(y) && !OverlapsWith(x, y)
      && Removed(Added([[], []], d), d) == [[], [y]]
  {
    var x, y := KeyRange(Some(Key(1, 9)), Some(Key(2, 0)), false), KeyRange(Some(Key(3, 9)), Some(Key(4, 0)), false);
    var d := Def(1, 1, x, y, {1}, {2}, 0);
    SameLevelTwice([], x, y);
    assert [] + [x] + [y] == [x, y];
    hide Without;
    assert Added([[], []], d)[1] == [x, y];
    assert Removed(Added([[], []], d), d)[1] == [y];
  }

  lemma SameLevelTwice(a: seq<KeyRange>, x: KeyRange, y: KeyRange)
    requires x !in a
    ensures Without(a + [x] + [y], x) == if y == x then a else a + [y]
  {
    var two := a + [x] + [y];
    assert two[..|two| - 1] == a + [x];
    WithoutLast(a, x);
  }

  lemma NotThere(ranges: seq<KeyRange>, r: KeyRange)
    requires Proper(r) && !AnyOverlap(ranges, r)
    ensures r !in ranges
  {
  }

  lemma WithoutLast(ranges: seq<KeyRange>, r: KeyRange)
    requires r !in ranges
    ensures Without(ranges + [r], r) == ranges
  {
    assert (ranges + [r])[..|ranges|] == ranges;
    WithoutNone(ranges, r);
  }

  // ---------------------------------------------------------------- any run

  /** A compaction that is running has registered `r` at level `l`. */
  predicate Registers(d: Def, l: nat, r: KeyRange) {
    (d.thisLevel == l && r == d.thisRange) || (d.Between() && d.nextLevel == l && r == d.nextRange)
  }

  ghost predicate Registered(running: map<nat, Def>, l: nat, r: KeyRange) {
    exists i :: i in running && Registers(running[i], l, r)
  }

  ghost predicate Owned(running: map<nat, Def>, t: nat) {
    exists i :: i in running && t in running[i].Tables()
  }

  predicate NoDup(ranges: seq<KeyRange>) {
    forall i, j :: 0 <= i < j < |ranges| ==> ranges[i] != ranges[j]
  }

  /** Two compactions between levels never overlap at a level. */
  predicate Apart(a: Def, b: Def) {
    a.Between() && b.Between() ==>
      && (a.thisLevel == b.thisLevel ==> !OverlapsWith(a.thisRange, b.thisRange))
      && (a.thisLevel == b.nextLevel ==> !OverlapsWith(a.thisRange, b.nextRange))
      && (a.nextLevel == b.thisLevel ==> !OverlapsWith(a.nextRange, b.thisRange))
      && (a.nextLevel == b.nextLevel ==> !OverlapsWith(a.nextRange, b.nextRange))
  }

  /** Where a table is and a key it has: neither changes while the table exists. */
  datatype Home = Home(level: nat, key: Key)

  /** The tables are at the two levels, inside the ranges. */
  ghost predicate Housed(d: Def, homes: map<nat, Home>) {
    && (forall t :: t in d.top ==> t in homes && homes[t].level == d.thisLevel && Contains(d.thisRange, homes[t].key))
    && (forall t :: t in d.bot ==> t in homes && homes[t].level == d.nextLevel && Contains(d.nextRange, homes[t].key))
  }

  ghost predicate DefOk(d: Def, homes: map<nat, Home>, n: nat) {
    && d.thisLevel < n && d.nextLevel < n && Housed(d, homes)
    && if d.Between() then Proper(d.thisRange) && Proper(d.nextRange) else d.ZeroToZero()
  }

  /** The registered state is that of the running compactions: no two share a table, ranges at a
      level are apart, and at most one compacts level 0 into itself. */
  ghost predicate Tracks(ranges: seq<seq<KeyRange>>, tables: set<nat>, running: map<nat, Def>, homes: map<nat, Home>) {
    && (forall i :: i in running ==> DefOk(running[i], homes, |ranges|) && running[i].Tables() <= tables)
    && (forall t :: t in tables ==> Owned(running, t))
    && (forall i, j :: i in running && j in running && i != j ==>
          Apart(running[i], running[j]) && running[i].Tables() !! running[j].Tables())
    && (forall i, j :: i in running && j in running && !running[i].Between() && !running[j].Between() ==> i == j)
    && (forall l :: 0 <= l < |ranges| ==> NoDup(ranges[l]) && forall r :: r in ranges[l] <==> Registered(running, l, r))
  }

  class CompactStatus {
    var ranges: seq<seq<KeyRange>>
    var delSizes: seq<int>
    var tables: set<nat>
    ghost var running: map<nat, Def>
    ghost const homes: map<nat, Home>

    ghost predicate Valid()
      reads this
    {
      |delSizes| == |ranges| && Tracks(ranges, tables, running, homes)
    }

    constructor (levels: nat, ghost homes: map<nat, Home>)
      ensures Valid() && running == map[] && |ranges| == levels && this.homes == homes
    {
      ranges, delSizes, tables, running := seq(levels, _ => []), seq(levels, _ => 0), {}, map[];
      this.homes := homes;
    }

    method OverlapsAt(level: nat, dst: KeyRange) returns (r: bool)
      requires level < |ranges|
      ensures r == AnyOverlap(ranges[level], dst)
    {
      for i := 0 to |ranges[level]|
        invariant forall j :: 0 <= j < i ==> !OverlapsWith(ranges[level][j], dst)
      {
        if OverlapsWith(ranges[level][i], dst) {
          return true;
        }
      }
      return false;
    }

    /** Takes `dst` out of a level, wherever it is. */
    method Remove(level: nat, dst: KeyRange) returns (found: bool)
      requires level < |ranges|
      modifies `ranges
      ensures ranges == old(ranges)[level := Without(old(ranges)[level], dst)] && found == (dst in old(ranges)[level])
    {
      var final, all := [], ranges[level];
      found := false;
      for i := 0 to |all|
        invariant final == Without(all[..i], dst) && found == (dst in all[..i])
      {
        assert all[..i + 1] == all[..i] + [all[i]];
        if all[i] != dst {
          final := final + [all[i]];
        } else {
          found := true;
        }
      }
      assert all[..|all|] == all;
      ranges := ranges[level := final];
    }

    method CompareAndAdd(cd: Def, ghost i: nat) returns (ok: bool)
      requires Valid() && i !in running && cd.Between() && DefOk(cd, homes, |ranges|)
      modifies this
      ensures Valid()
      ensures ok <==> !AnyOverlap(old(ranges)[cd.thisLevel], cd.thisRange) && !AnyOverlap(old(ranges)[cd.nextLevel], cd.nextRange)
      ensures ok ==> running == old(running)[i := cd] && ranges == Added(old(ranges), cd) && tables == old(tables) + cd.Tables()
      ensures ok ==> delSizes == old(delSizes)[cd.thisLevel := old(delSizes)[cd.thisLevel] + cd.thisSize]
      ensures !ok ==> running == old(running) && ranges == old(ranges) && tables == old(tables) && delSizes == old(delSizes)
    {
      var this1 := OverlapsAt(cd.thisLevel, cd.thisRange);
      if this1 {
        return false;
      }
      var next1 := OverlapsAt(cd.nextLevel, cd.nextRange);
      if next1 {
        return false;
      }
      AddTracks(ranges, tables, running, homes, cd, i);
      ranges := ranges[cd.thisLevel := ranges[cd.thisLevel] + [cd.thisRange]];
      ranges := ranges[cd.nextLevel := ranges[cd.nextLevel] + [cd.nextRange]];
      delSizes := delSizes[cd.thisLevel := delSizes[cd.thisLevel] + cd.thisSize];
      tables := tables + cd.Tables();
      running := running[i := cd];
      return true;
    }

    /** fillTablesL0ToL0: any tables of level 0 that no compaction has; only one compactor does this,
        so none is doing it yet. */
    method AddZeroToZero(cd: Def, ghost i: nat)
      requires Valid() && i !in running && DefOk(cd, homes, |ranges|) && cd.ZeroToZero()
      requires forall j :: j in running ==> running[j].Between()
      requires cd.top !! tables
      modifies this
      ensures Valid() && running == old(running)[i := cd] && tables == old(tables) + cd.top
      ensures ranges == old(ranges)[0 := old(ranges)[0] + [INF_RANGE]] && delSizes == old(delSizes)
    {
      ZeroTracks(ranges, tables, running, homes, cd, i);
      ranges := ranges[0 := ranges[0] + [INF_RANGE]];
      tables := tables + cd.top;
      running := running[i := cd];
    }

    /** delete: takes away exactly what was added; the ranges are always found. */
    method Delete(cd: Def, ghost i: nat) returns (found: bool)
      requires Valid() && i in running && running[i] == cd
      modifies this
      ensures Valid() && found && running == old(running) - {i}
      ensures ranges == Removed(old(ranges), cd) && tables == old(tables) - cd.Tables()
      ensures delSizes == old(delSizes)[cd.thisLevel := old(delSizes)[cd.thisLevel] - cd.thisSize]
      ensures forall l, r :: 0 <= l < |ranges| ==> (r in ranges[l] <==> r in old(ranges)[l] && !Registers(cd, l, r))
    {
      RemoveTracks(ranges, tables, running, homes, i);
      hide Tracks, Registers, Without;
      delSizes := delSizes[cd.thisLevel := delSizes[cd.thisLevel] - cd.thisSize];
      found := Remove(cd.thisLevel, cd.thisRange);
      if cd.thisLevel != cd.nextLevel && !cd.nextRange.IsEmpty() {
        var f := Remove(cd.nextLevel, cd.nextRange);
        found := f && found;
      }
      tables := tables - cd.Tables();
      running := running - {i};
    }
  }

  lemma RegisteredHere(running: map<nat, Def>, i: nat, l: nat, r: KeyRange)
    requires i in running && Registers(running[i], l, r)
    ensures Registered(running, l, r)
  {
  }

  /** A compaction that was accepted is apart from every other one. */
  lemma NewIsApart(ranges: seq<seq<KeyRange>>, running: map<nat, Def>, homes: map<nat, Home>, d: Def, j: nat)
    requires j in running && d.Between() && DefOk(d, homes, |ranges|) && DefOk(running[j], homes, |ranges|)
    requires forall l :: 0 <= l < |ranges| ==> forall r :: r in ranges[l] <==> Registered(running, l, r)
    requires !AnyOverlap(ranges[d.thisLevel], d.thisRange) && !AnyOverlap(ranges[d.nextLevel], d.nextRange)
    ensures Apart(running[j], d) && Apart(d, running[j]) && running[j].Tables() !! d.Tables()
  {
    var e := running[j];
    forall l, r | 0 <= l < |ranges| && Registers(e, l, r)
      ensures (l == d.thisLevel ==> !OverlapsWith(r, d.thisRange)) && (l == d.nextLevel ==> !OverlapsWith(r, d.nextRange))
    {
      RegisteredHere(running, j, l, r);
      assert r in ranges[l];
    }
    assert Registers(e, e.thisLevel, e.thisRange) && (e.Between() ==> Registers(e, e.nextLevel, e.nextRange));
    forall t | t in e.Tables() ensures t !in d.Tables() {
    }
  }

  lemma AddTracks(ranges: seq<seq<KeyRange>>, tables: set<nat>, running: map<nat, Def>, homes: map<nat, Home>, d: Def, i: nat)
    requires Tracks(ranges, tables, running, homes) && i !in running && d.Between() && DefOk(d, homes, |ranges|)
    requires !AnyOverlap(ranges[d.thisLevel], d.thisRange) && !AnyOverlap(ranges[d.nextLevel], d.nextRange)
    ensures Tracks(Added(ranges, d), tables + d.Tables(), running[i := d], homes)
  {
    forall j | j in running ensures Apart(running[j], d) && Apart(d, running[j]) && running[j].Tables() !! d.Tables() {
      NewIsApart(ranges, running, homes, d, j);
    }
    NotThere(ranges[d.thisLevel], d.thisRange);
    NotThere(ranges[d.nextLevel], d.nextRange);
    forall l, r | 0 <= l < |ranges| ensures r in Added(ranges, d)[l] <==> Registered(running[i := d], l, r) {
      MoreRegistered(running, i, d, l, r);
    }
    TablesTrack(tables, running, i, d);
    hide DefOk, Apart, Registered;
  }

  lemma MoreRegistered(running: map<nat, Def>, i: nat, d: Def, l: nat, r: KeyRange)
    requires i !in running
    ensures Registered(running[i := d], l, r) <==> Registered(running, l, r) || Registers(d, l, r)
  {
    var more := running[i := d];
    if j :| j in running && Registers(running[j], l, r) { RegisteredHere(more, j, l, r); }
    if Registers(d, l, r) { RegisteredHere(more, i, l, r); }
  }

  lemma TablesTrack(tables: set<nat>, running: map<nat, Def>, i: nat, d: Def)
    requires i !in running && forall t :: t in tables ==> Owned(running, t)
    ensures forall t :: t in tables + d.Tables() ==> Owned(running[i := d], t)
  {
    var more := running[i := d];
    forall t | t in tables + d.Tables() ensures Owned(more, t) {
      if t in d.Tables() {
        assert t in more[i].Tables();
      } else {
        var j :| j in running && t in running[j].Tables();
        assert more[j] == running[j];
      }
    }
  }

  lemma NoInf(running: map<nat, Def>, homes: map<nat, Home>, n: nat)
    requires forall j :: j in running ==> DefOk(running[j], homes, n) && running[j].Between()
    ensures !Registered(running, 0, INF_RANGE)
  {
  }

  lemma ZeroTracks(ranges: seq<seq<KeyRange>>, tables: set<nat>, running: map<nat, Def>, homes: map<nat, Home>, d: Def, i: nat)
    requires Tracks(ranges, tables, running, homes) && i !in running && DefOk(d, homes, |ranges|) && d.ZeroToZero()
    requires (forall j :: j in running ==> running[j].Between()) && d.top !! tables
    ensures Tracks(ranges[0 := ranges[0] + [INF_RANGE]], tables + d.top, running[i := d], homes)
  {
    NoInf(running, homes, |ranges|);
    var more := ranges[0 := ranges[0] + [INF_RANGE]];
    forall l, r | 0 <= l < |ranges| ensures r in more[l] <==> Registered(running[i := d], l, r) {
      MoreRegistered(running, i, d, l, r);
    }
    TablesTrack(tables, running, i, d);
    assert d.Tables() == d.top;
    hide DefOk, Registered;
  }

  // ---------------------------------------------------------------- removal

  /** Nothing else at the level has a range of `running[i]`. */
  lemma OnlyMine(ranges: seq<seq<KeyRange>>, tables: set<nat>, running: map<nat, Def>, homes: map<nat, Home>, i: nat, j: nat, l: nat, r: KeyRange)
    requires Tracks(ranges, tables, running, homes) && i in running && j in running && i != j
    requires Registers(running[i], l, r)
    ensures !Registers(running[j], l, r)
  {
  }

  lemma RemovedIs(ranges: seq<seq<KeyRange>>, d: Def, l: nat, r: KeyRange)
    requires d.thisLevel < |ranges| && d.nextLevel < |ranges| && (d.Between() ==> !d.nextRange.IsEmpty()) && l < |ranges|
    ensures r in Removed(ranges, d)[l] <==> r in ranges[l] && !Registers(d, l, r)
    ensures NoDup(ranges[l]) ==> NoDup(Removed(ranges, d)[l])
  {
    WithoutMembers(ranges[d.thisLevel], d.thisRange, r);
    WithoutMembers(ranges[d.nextLevel], d.nextRange, r);
    if NoDup(ranges[l]) {
      if l == d.thisLevel { WithoutNoDup(ranges[l], d.thisRange); }
      if l == d.nextLevel { WithoutNoDup(ranges[l], d.nextRange); }
    }
  }

  lemma RemoveTracks(ranges: seq<seq<KeyRange>>, tables: set<nat>, running: map<nat, Def>, homes: map<nat, Home>, i: nat)
    requires Tracks(ranges, tables, running, homes) && i in running
    ensures var d := running[i];
            && d.thisLevel < |ranges| && d.nextLevel < |ranges| && (d.Between() ==> !d.nextRange.IsEmpty())
            && d.thisRange in ranges[d.thisLevel] && (d.Between() ==> d.nextRange in ranges[d.nextLevel])
            && Tracks(Removed(ranges, d), tables - d.Tables(), running - {i}, homes)
            && forall l, r :: 0 <= l < |ranges| ==> (r in Removed(ranges, d)[l] <==> r in ranges[l] && !Registers(d, l, r))
  {
    hide DefOk, Registered, Removed, Apart, NoDup, Registers, Owned;
    MyRanges(ranges, tables, running, homes, i);
    RemoveRanges(ranges, tables, running, homes, i);
    FewerTables(tables, running, i);
  }

  lemma MyRanges(ranges: seq<seq<KeyRange>>, tables: set<nat>, running: map<nat, Def>, homes: map<nat, Home>, i: nat)
    requires Tracks(ranges, tables, running, homes) && i in running
    ensures var d := running[i];
            && d.thisLevel < |ranges| && d.nextLevel < |ranges| && (d.Between() ==> !d.nextRange.IsEmpty())
            && d.thisRange in ranges[d.thisLevel] && (d.Between() ==> d.nextRange in ranges[d.nextLevel])
  {
  }

  lemma RemoveRanges(ranges: seq<seq<KeyRange>>, tables: set<nat>, running: map<nat, Def>, homes: map<nat, Home>, i: nat)
    requires Tracks(ranges, tables, running, homes) && i in running
    requires var d := running[i]; d.thisLevel < |ranges| && d.nextLevel < |ranges| && (d.Between() ==> !d.nextRange.IsEmpty())
    ensures forall l :: 0 <= l < |ranges| ==> NoDup(Removed(ranges, running[i])[l])
    ensures forall l, r :: 0 <= l < |ranges| ==>
              (r in Removed(ranges, running[i])[l] <==> r in ranges[l] && !Registers(running[i], l, r))
    ensures forall l, r :: 0 <= l < |ranges| ==>
              (r in Removed(ranges, running[i])[l] <==> Registered(running - {i}, l, r))
  {
    hide DefOk, Registered, Removed, Apart, NoDup, Registers;
    var d := running[i];
    var after := Removed(ranges, d);
    forall l | 0 <= l < |ranges| ensures NoDup(after[l]) {
      RemovedIs(ranges, d, l, INF_RANGE);
    }
    forall l, r | 0 <= l < |ranges|
      ensures r in after[l] <==> r in ranges[l] && !Registers(d, l, r)
      ensures r in after[l] <==> Registered(running - {i}, l, r)
    {
      RemovedIs(ranges, d, l, r);
      FewerRegistered(ranges, tables, running, homes, i, l, r);
    }
  }

  lemma FewerTables(tables: set<nat>, running: map<nat, Def>, i: nat)
    requires i in running && forall t :: t in tables ==> Owned(running, t)
    requires forall j :: j in running && i != j ==> running[i].Tables() !! running[j].Tables()
    requires forall j :: j in running ==> running[j].Tables() <= tables
    ensures forall j :: j in running - {i} ==> (running - {i})[j].Tables() <= tables - running[i].Tables()
    ensures forall t :: t in tables - running[i].Tables() ==> Owned(running - {i}, t)
  {
    var less := running - {i};
    forall t | t in tables - running[i].Tables() ensures Owned(less, t) {
      var j :| j in running && t in running[j].Tables();
      assert j in less && less[j] == running[j];
    }
  }

  lemma FewerRegistered(ranges: seq<seq<KeyRange>>, tables: set<nat>, running: map<nat, Def>, homes: map<nat, Home>, i: nat, l: nat, r: KeyRange)
    requires Tracks(ranges, tables, running, homes) && i in running
    ensures Registered(running - {i}, l, r) <==> Registered(running, l, r) && !Registers(running[i], l, r)
  {
    var less := running - {i};
    if Registered(less, l, r) {
      var j :| j in less && Registers(less[j], l, r);
      RegisteredHere(running, j, l, r);
      if Registers(running[i], l, r) { OnlyMine(ranges, tables, running, homes, i, j, l, r); }
    }
    if Registered(running, l, r) && !Registers(running[i], l, r) {
      var j :| j in running && Registers(running[j], l, r);
      RegisteredHere(less, j, l, r);
    }
  }

  lemma {:induction false} WithoutNoDup(ranges: seq<KeyRange>, dst: KeyRange)
    requires NoDup(ranges)
    ensures NoDup(Without(ranges, dst))
  {
    if ranges != [] {
      WithoutNoDup(ranges[..|ranges| - 1], dst);
      WithoutMembers(ranges[..|ranges| - 1], dst, ranges[|ranges| - 1]);
    }
  }
}
