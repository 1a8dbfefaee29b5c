/** The level that level 0 is compacted into (levels.go, levelTargets).

    Compacting past a level that is not empty takes newer versions below older ones (see
    `Interleavings`). `NothingPassedIff` says for which sizes the choice does that. */
module BaseLevels {
  import opened Arithmetic

  /** The deepest level at or above `i` whose share of the last level's size, a multiple less per level,
      is no more than the base size; 0 if there is none. */
  function BySize(share: nat, i: nat, base: nat, multiplier: nat): (r: nat)
    requires multiplier >= 1
    ensures r <= i
  {
    if i == 0 then 0 else if share <= base then i else BySize(share / multiplier, i - 1, base, multiplier)
  }

  /** Further down as long as the next level is empty, but not to the last one. */
  function BroughtDown(sizes: seq<nat>, b: nat): (r: nat)
    requires b < |sizes|
    ensures b <= r < |sizes| && (r > b ==> r < |sizes| - 1)
    ensures forall k :: b < k <= r ==> sizes[k] == 0
    ensures r + 1 < |sizes| - 1 ==> sizes[r + 1] > 0
    decreases |sizes| - b
  {
    if b + 1 < |sizes| - 1 && sizes[b + 1] == 0 then BroughtDown(sizes, b + 1) else b
  }

  /** The share of level `i`. */
  function Share(sizes: seq<nat>, i: nat, multiplier: nat): nat
    requires i < |sizes| && multiplier >= 1
    decreases |sizes| - i
  {
    if i == |sizes| - 1 then sizes[i] else Share(sizes, i + 1, multiplier) / multiplier
  }

  function Target(sizes: seq<nat>, i: nat, base: nat, multiplier: nat): nat
    requires i < |sizes| && multiplier >= 1
  {
    if Share(sizes, i, multiplier) < base then base else Share(sizes, i, multiplier)
  }

  function Base(sizes: seq<nat>, base: nat, multiplier: nat): (b: nat)
    requires |sizes| >= 2 && multiplier >= 1
    ensures 1 <= b < |sizes|
  {
    var d := BroughtDown(sizes, BySize(sizes[|sizes| - 1], |sizes| - 1, base, multiplier));
    var b := if d < |sizes| - 1 && sizes[d] == 0 && sizes[d + 1] < Target(sizes, d + 1, base, multiplier) then d + 1 else d;
    if b == 0 then 1 else b
  }

  function Power(m: nat, n: nat): (r: nat)
    ensures m >= 1 ==> r >= 1
  {
    if n == 0 then 1 else Power(m, n - 1) * m
  }

  /** A level's share is the size of the last level, less by the multiplier for each level in between. */
  lemma {:induction false} ShareIs(sizes: seq<nat>, i: nat, multiplier: nat)
    requires i < |sizes| && multiplier >= 1
    ensures Share(sizes, i, multiplier) == sizes[|sizes| - 1] / Power(multiplier, |sizes| - 1 - i)
    decreases |sizes| - i
  {
    if i < |sizes| - 1 {
      ShareIs(sizes, i + 1, multiplier);
      DivTwice(sizes[|sizes| - 1], Power(multiplier, |sizes| - 2 - i), multiplier);
    }
  }

  /** The level chosen by size is the deepest whose share is at most the base size. */
  lemma {:induction false} ChosenIs(sizes: seq<nat>, i: nat, base: nat, multiplier: nat)
    requires i < |sizes| && multiplier >= 1
    ensures var d := BySize(Share(sizes, i, multiplier), i, base, multiplier);
            && (d > 0 ==> Share(sizes, d, multiplier) <= base)
            && forall k :: d < k <= i ==> Share(sizes, k, multiplier) > base
  {
    if i > 0 && Share(sizes, i, multiplier) > base { ChosenIs(sizes, i - 1, base, multiplier); }
  }

  /** The base level in full: the level chosen by size, brought down over empty levels but not to the last,
      and one further when it is empty itself and the next one is below its target size; never level 0. */
  lemma BaseIs(sizes: seq<nat>, base: nat, multiplier: nat, d: nat, r: nat)
    requires |sizes| >= 2 && multiplier >= 1 && d < |sizes|
    requires d > 0 ==> Share(sizes, d, multiplier) <= base
    requires forall k :: d < k < |sizes| ==> Share(sizes, k, multiplier) > base
    requires d <= r < |sizes| && (r > d ==> r < |sizes| - 1) && forall k :: d < k <= r ==> sizes[k] == 0
    requires r + 1 < |sizes| - 1 ==> sizes[r + 1] > 0
    ensures var further := r < |sizes| - 1 && sizes[r] == 0
                           && (sizes[r + 1] < base || sizes[r + 1] < Share(sizes, r + 1, multiplier));
            Base(sizes, base, multiplier) == if further then r + 1 else if r == 0 then 1 else r
  {
    ChosenIs(sizes, |sizes| - 1, base, multiplier);
    assert Share(sizes, |sizes| - 1, multiplier) == sizes[|sizes| - 1];
    hide Share, BySize;
  }

  /** The first loop of levelTargets. */
  method TargetsBySize(sizes: seq<nat>, baseLevelSize: nat, multiplier: nat) returns (targetSz: seq<nat>, baseLevel: nat)
    requires |sizes| >= 2 && multiplier >= 1
    ensures baseLevel == BySize(sizes[|sizes| - 1], |sizes| - 1, baseLevelSize, multiplier)
    ensures |targetSz| == |sizes| && forall i :: 1 <= i < |sizes| ==> targetSz[i] == Target(sizes, i, baseLevelSize, multiplier)
  {
    var n := |sizes|;
    targetSz, baseLevel := seq(n, _ => 0), 0;
    var dbSize, i := sizes[n - 1], n - 1;
    while i > 0
      invariant 0 <= i < n && |targetSz| == n
      invariant forall k :: i < k < n ==> targetSz[k] == Target(sizes, k, baseLevelSize, multiplier)
      invariant dbSize == Share(sizes, i, multiplier)
      invariant baseLevel > i || baseLevel == 0
      invariant BySize(sizes[n - 1], n - 1, baseLevelSize, multiplier) ==
                if baseLevel > 0 then baseLevel else BySize(dbSize, i, baseLevelSize, multiplier)
    {
      var ltarget := if dbSize < baseLevelSize then baseLevelSize else dbSize;
      targetSz := targetSz[i := ltarget];
      if baseLevel == 0 && ltarget <= baseLevelSize {
        baseLevel := i;
      }
      dbSize := dbSize / multiplier;
      i := i - 1;
    }
  }

  /** The size of tables at level `i`: that of a memtable at level 0, and below the level chosen by size
      a multiple more per level. */
  function FileSize(i: nat, chosen: nat, memTable: nat, baseTable: nat, multiplier: nat): nat {
    if i == 0 then memTable else baseTable * Power(multiplier, if i <= chosen then 0 else i - chosen)
  }

  lemma FileSizeIs(i: nat, chosen: nat, memTable: nat, baseTable: nat, multiplier: nat)
    ensures var size := FileSize(i, chosen, memTable, baseTable, multiplier);
            && (i == 0 ==> size == memTable)
            && (1 <= i <= chosen ==> size == baseTable)
            && (i == 1 && chosen == 0 ==> size == baseTable * multiplier)
            && (i >= 2 && i > chosen ==> size == FileSize(i - 1, chosen, memTable, baseTable, multiplier) * multiplier)
  {
    if i > chosen {
      Times(baseTable, multiplier, i - 1 - chosen);
      assert Power(multiplier, 0) == 1;
    }
  }

  lemma TargetIs(sizes: seq<nat>, i: nat, base: nat, multiplier: nat)
    requires i < |sizes| && multiplier >= 1
    ensures Target(sizes, i, base, multiplier) ==
            var share := sizes[|sizes| - 1] / Power(multiplier, |sizes| - 1 - i);
            if share < base then base else share
  {
    ShareIs(sizes, i, multiplier);
    hide Share, Power;
  }

  /** The second loop. */
  method FileSizes(n: nat, chosen: nat, memTable: nat, baseTable: nat, multiplier: nat) returns (fileSz: seq<nat>)
    ensures |fileSz| == n && forall i :: 0 <= i < n ==> fileSz[i] == FileSize(i, chosen, memTable, baseTable, multiplier)
  {
    fileSz := [];
    var tsz := baseTable;
    for i := 0 to n
      invariant |fileSz| == i && forall k :: 0 <= k < i ==> fileSz[k] == FileSize(k, chosen, memTable, baseTable, multiplier)
      invariant tsz == baseTable * Power(multiplier, if i <= chosen + 1 then 0 else i - 1 - chosen)
    {
      if i == 0 {
        fileSz := fileSz + [memTable];
      } else if i <= chosen {
        fileSz := fileSz + [tsz];
      } else {
        Times(baseTable, multiplier, i - 1 - chosen);
        tsz := tsz * multiplier;
        fileSz := fileSz + [tsz];
      }
    }
  }

  lemma Times(a: nat, m: nat, n: nat)
    ensures a * Power(m, n) * m == a * Power(m, n + 1)
  {
  }

  /** The loop that goes on to the last empty level. */
  method BringDown(sizes: seq<nat>, b: nat) returns (baseLevel: nat)
    requires b < |sizes|
    ensures baseLevel == BroughtDown(sizes, b)
  {
    baseLevel := b;
    var i := baseLevel + 1;
    while i < |sizes| - 1
      invariant i == baseLevel + 1 && baseLevel < |sizes|
      invariant BroughtDown(sizes, baseLevel) == BroughtDown(sizes, b)
      decreases |sizes| - i
    {
      if sizes[i] > 0 {
        break;
      }
      baseLevel := i;
      i := i + 1;
    }
  }

  /** levelTargets. */
  method LevelTargets(sizes: seq<nat>, baseLevelSize: nat, multiplier: nat, memTable: nat, baseTable: nat, tableMultiplier: nat)
    returns (targetSz: seq<nat>, fileSz: seq<nat>, baseLevel: nat)
    requires |sizes| >= 2 && multiplier >= 1
    ensures baseLevel == Base(sizes, baseLevelSize, multiplier)
    ensures |targetSz| == |sizes| && forall i :: 1 <= i < |sizes| ==> targetSz[i] == Target(sizes, i, baseLevelSize, multiplier)
    ensures var chosen := BySize(sizes[|sizes| - 1], |sizes| - 1, baseLevelSize, multiplier);
            && |fileSz| == |sizes|
            && (forall i :: 0 <= i < |sizes| ==> fileSz[i] == FileSize(i, chosen, memTable, baseTable, tableMultiplier))
            && fileSz[0] == memTable
            && (forall i :: 1 <= i < |sizes| && i <= chosen ==> fileSz[i] == baseTable)
            && (forall i :: 2 <= i < |sizes| && i > chosen ==> fileSz[i] == fileSz[i - 1] * tableMultiplier)
            && (chosen == 0 ==> fileSz[1] == baseTable * tableMultiplier)
    ensures forall i :: 1 <= i < |sizes| ==>
              var share := sizes[|sizes| - 1] / Power(multiplier, |sizes| - 1 - i);
              targetSz[i] == if share < baseLevelSize then baseLevelSize else share
  {
    hide Target, BySize, BroughtDown, FileSize;
    targetSz, baseLevel := TargetsBySize(sizes, baseLevelSize, multiplier);
    fileSz := FileSizes(|sizes|, baseLevel, memTable, baseTable, tableMultiplier);
    baseLevel := BringDown(sizes, baseLevel);
    var b := baseLevel;
    if b < |sizes| - 1 && sizes[b] == 0 && sizes[b + 1] < targetSz[b + 1] {
      baseLevel := baseLevel + 1;
    }
    if baseLevel == 0 {
      baseLevel := 1;
    }
    forall i | 1 <= i < |sizes|
      ensures targetSz[i] == var share := sizes[|sizes| - 1] / Power(multiplier, |sizes| - 1 - i);
                             if share < baseLevelSize then baseLevelSize else share
    {
      TargetIs(sizes, i, baseLevelSize, multiplier);
    }
    ghost var chosen := BySize(sizes[|sizes| - 1], |sizes| - 1, baseLevelSize, multiplier);
    forall i | 0 <= i < |sizes|
      ensures i == 0 ==> fileSz[i] == memTable
      ensures 1 <= i <= chosen ==> fileSz[i] == baseTable
      ensures i == 1 && chosen == 0 ==> fileSz[i] == baseTable * tableMultiplier
      ensures i >= 2 && i > chosen ==> fileSz[i] == fileSz[i - 1] * tableMultiplier
    {
      FileSizeIs(i, chosen, memTable, baseTable, tableMultiplier);
    }
  }

  /** Levels 1 to `b` - 1 are empty. */
  predicate EmptyAbove(sizes: seq<nat>, b: nat) {
    forall k :: 1 <= k < b && k < |sizes| ==> sizes[k] == 0
  }

  /** Exactly when every level above the base level is empty: those above the level chosen by size are,
      and that one is empty itself or not followed by an empty level above the last. */
  lemma NothingPassedIff(sizes: seq<nat>, base: nat, multiplier: nat)
    requires |sizes| >= 2 && multiplier >= 1
    ensures var d := BySize(sizes[|sizes| - 1], |sizes| - 1, base, multiplier);
            EmptyAbove(sizes, Base(sizes, base, multiplier)) <==>
            EmptyAbove(sizes, d) && (d == 0 || sizes[d] == 0 || d + 1 >= |sizes| - 1 || sizes[d + 1] > 0)
  {
    hide Target, BySize;
    var d := BySize(sizes[|sizes| - 1], |sizes| - 1, base, multiplier);
    var r := BroughtDown(sizes, d);
    if d > 0 && sizes[d] > 0 && d + 1 < |sizes| - 1 && sizes[d + 1] == 0 {
      assert d < r <= Base(sizes, base, multiplier);
    }
  }

  /** The last level is small and the one above it is not empty: level 0 is compacted past it. */
  lemma PastFullLevel()
    ensures Base([1, 0, 0, 0, 0, 5, 3], 10, 10) == 6 && Base([1, 1, 0], 10, 10) == 2
  {
  }
}
