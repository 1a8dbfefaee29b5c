/** Splitting one compaction into several that run side by side (levels.go, addSplits). */
module Splits {
  import opened Wrappers
  import opened Arithmetic
  import opened Entries
  import opened Compactions

  /** Consecutive ranges from `left` on, the last one open; every cut is after all versions of some
      user key (version 0 sorts last). */
  ghost predicate Chained(splits: seq<KeyRange>, left: Option<Key>) {
    && splits != [] && splits[0].left == left && splits[|splits| - 1].right == None
    && (forall k :: 0 < k < |splits| ==> splits[k].left == splits[k - 1].right)
    && (forall k :: 0 <= k < |splits| - 1 ==> splits[k].right.Some? && splits[k].right.value.ts == 0)
    && (forall j, k :: 0 <= j < k < |splits| - 1 ==> splits[j].right.value.user <= splits[k].right.value.user)
  }

  /** A fifth of the tables, rounded up, but at least three. */
  function Width(n: nat): (w: nat)
    ensures w >= 3 && 5 * w >= n && (w > 3 ==> 5 * (w - 1) < n)
  {
    if n <= 15 then 3 else (n + 4) / 5
  }

  /** `range` ends after all versions of the greatest user key of table `q`. */
  predicate EndsAfter(biggest: seq<Key>, range: KeyRange, q: int) {
    0 <= q < |biggest| && range.right == Some(Key(biggest[q].user, 0))
  }

  /** `biggest` are the greatest keys of the tables of the lower level, `left` the left end of the
      whole compaction. There are at most five ranges; every third table, or as many more as that takes,
      ends one. */
  method AddSplits(biggest: seq<Key>, left: Option<Key>) returns (splits: seq<KeyRange>)
    requires forall i, j :: 0 <= i < j < |biggest| ==> biggest[i].user <= biggest[j].user
    ensures biggest == [] ==> splits == []
    ensures biggest != [] ==> Chained(splits, left)
    ensures |splits| <= 5
    ensures biggest != [] ==> |splits| == (|biggest| - 1) / Width(|biggest|) + 1
    ensures forall k :: 0 <= k < |splits| - 1 ==> EndsAfter(biggest, splits[k], (k + 1) * Width(|biggest|) - 1)
  {
    splits := [];
    var width := (|biggest| + 4) / 5;
    if width < 3 {
      width := 3;
    }
    hide EndsAfter, Chained;
    var at := left;
    for i := 0 to |biggest|
      invariant if splits == [] then at == left else splits[0].left == left && at == splits[|splits| - 1].right
      invariant forall k :: 0 < k < |splits| ==> splits[k].left == splits[k - 1].right
      invariant forall k :: 0 <= k < |splits| ==> EndsAfter(biggest, splits[k], (k + 1) * width - 1)
      invariant |splits| == i / width
      invariant i == |biggest| ==> i == 0
    {
      NextQuotient(i, width);
      if i == |biggest| - 1 {
        splits := splits + [KeyRange(at, None, false)];
        AtMostFive(|biggest|);
        CutsChain(biggest, splits, left, width);
        return;
      }
      if i % width == width - 1 {
        var cut := Some(Key(biggest[i].user, 0));
        splits := splits + [KeyRange(at, cut, false)];
        EndsAfterIs(biggest, splits[|splits| - 1], i);
        at := cut;
      }
    }
  }

  lemma EndsAfterIs(biggest: seq<Key>, range: KeyRange, q: nat)
    requires q < |biggest| && range.right == Some(Key(biggest[q].user, 0))
    ensures EndsAfter(biggest, range, q)
  {
  }

  lemma AtMostFive(n: nat)
    requires n > 0
    ensures (n - 1) / Width(n) <= 4
  {
    if (n - 1) / Width(n) >= 5 { MulLe(Width(n), 5, (n - 1) / Width(n)); }
  }

  lemma CutsChain(biggest: seq<Key>, splits: seq<KeyRange>, left: Option<Key>, w: nat)
    requires forall i, j :: 0 <= i < j < |biggest| ==> biggest[i].user <= biggest[j].user
    requires splits != [] && splits[0].left == left && splits[|splits| - 1].right == None
    requires forall k :: 0 < k < |splits| ==> splits[k].left == splits[k - 1].right
    requires forall k :: 0 <= k < |splits| - 1 ==> EndsAfter(biggest, splits[k], (k + 1) * w - 1)
    ensures Chained(splits, left)
  {
    forall j, k | 0 <= j < k < |splits| - 1
      ensures splits[j].right.Some? && splits[k].right.Some? && splits[j].right.value.user <= splits[k].right.value.user
    {
      MulLe(w, j + 1, k + 1);
      assert EndsAfter(biggest, splits[j], (j + 1) * w - 1) && EndsAfter(biggest, splits[k], (k + 1) * w - 1);
    }
  }

  /** A cut at version 0 falls between two user keys. */
  lemma CutIsBoundary(es: seq<Entry>, user: int)
    requires Sorted(es) && forall e :: e in es ==> e.key.ts >= 1
    ensures Boundary(es, SeekIndex(es, Key(user, 0)))
  {
  }

  lemma SeekMonotone(es: seq<Entry>, a: Key, b: Key)
    requires Sorted(es) && LessEq(a, b)
    ensures SeekIndex(es, a) <= SeekIndex(es, b)
  {
  }

  /** What the sub-compactions write, one after the other. */
  ghost function SplitOutput(c: Config, es: seq<Entry>, splits: seq<KeyRange>): seq<Entry>
    requires forall k :: 0 <= k < |splits| ==> StartIndex(es, splits[k].left) <= EndIndex(es, splits[k].right)
  {
    if splits == [] then []
    else
      var last := splits[|splits| - 1];
      SplitOutput(c, es, splits[..|splits| - 1]) + Kept(c, es, StartIndex(es, last.left), EndIndex(es, last.right))
  }

  /** Every range of a chain is a legal sub-compaction; together they write what one unsplit
      compaction writes, and each user key with all its versions falls in exactly one of them. */
  lemma SplittingIsTransparent(c: Config, es: seq<Entry>, splits: seq<KeyRange>, left: Option<Key>)
    requires Sorted(es) && forall e :: e in es ==> e.key.ts >= 1
    requires Chained(splits, left) && (left.Some? ==> forall e :: e in es ==> LessEq(left.value, e.key))
    ensures Pieces(es, splits)
    ensures SplitOutput(c, es, splits) == Kept(c, es, 0, |es|)
    ensures forall i :: 0 <= i < |es| ==> InOneRange(es, i, splits)
  {
    ChainIsPieces(es, splits, left);
    OutputSoFar(c, es, splits, |splits|);
    assert splits[..|splits|] == splits;
    forall i | 0 <= i < |es| ensures InOneRange(es, i, splits) {
      var k := RangeOf(es, splits, i, |splits|);
      Owns(es, splits, i, k);
    }
  }

  /** The same with a configuration for each: every sub-compaction asks for a discard timestamp of its
      own. */
  ghost function EachOutput(cs: seq<Config>, es: seq<Entry>, splits: seq<KeyRange>): seq<Entry>
    requires |cs| == |splits|
    requires forall k :: 0 <= k < |splits| ==> StartIndex(es, splits[k].left) <= EndIndex(es, splits[k].right)
  {
    if splits == [] then []
    else
      var n := |splits| - 1;
      EachOutput(cs[..n], es, splits[..n]) + Kept(cs[n], es, StartIndex(es, splits[n].left), EndIndex(es, splits[n].right))
  }

  /** Whatever the sub-compactions' configurations are, a read at or above all their discard timestamps
      is unaffected, when newer places hold only newer versions. */
  lemma SplitsPreserveSnapshots(cs: seq<Config>, above: seq<Entry>, es: seq<Entry>, lower: seq<Entry>,
                                splits: seq<KeyRange>, left: Option<Key>, user: int, t: nat, now: nat)
    requires Sorted(es) && forall e :: e in es ==> e.key.ts >= 1
    requires Chained(splits, left) && (left.Some? ==> forall e :: e in es ==> LessEq(left.value, e.key))
    requires |cs| == |splits| && forall k :: 0 <= k < |cs| ==> t >= cs[k].discardTs && now >= cs[k].now
    requires forall k :: 0 <= k < |cs| && !cs[k].hasOverlap && (exists e :: e in es && e.key.user == user) ==>
               forall e :: e in lower ==> e.key.user != user
    requires forall a, e :: a in above && e in es && a.key.user == user == e.key.user ==> a.key.ts > e.key.ts
    ensures Pieces(es, splits)
    ensures Visible(above + EachOutput(cs, es, splits) + lower, user, t, now) == Visible(above + es + lower, user, t, now)
  {
    ChainIsPieces(es, splits, left);
    var out := EachOutput(cs, es, splits);
    if i :| 0 <= i < |es| && es[i].key.user == user {
      var k := RangeOf(es, splits, i, |splits|);
      Owns(es, splits, i, k);
      EachBest(cs, es, splits, user, t, i, k);
      hide EachOutput, Chained, Visible, Kept, Best, Pieces, OwnedBy;
      CompactionPreservesSnapshots(cs[k], above, es, lower, user, t, now);
      SameBest(above, out, Kept(cs[k], es, 0, |es|), lower, user, t, now);
    } else {
      EachMember(cs, es, splits, user);
      BestIsGreatest(out, user, t);
      BestIsGreatest(es, user, t);
      hide EachOutput, Chained, Visible, Kept, Best, Pieces;
      SameBest(above, out, es, lower, user, t, now);
    }
  }

  lemma SameBest(above: seq<Entry>, x: seq<Entry>, y: seq<Entry>, lower: seq<Entry>, user: int, t: nat, now: nat)
    requires Best(x, user, t) == Best(y, user, t)
    ensures Visible(above + x + lower, user, t, now) == Visible(above + y + lower, user, t, now)
  {
    ThreePlaces(above, x, lower, user, t);
    ThreePlaces(above, y, lower, user, t);
    hide Best;
  }

  /** Nothing comes out that did not go in. */
  lemma {:induction false} EachMember(cs: seq<Config>, es: seq<Entry>, splits: seq<KeyRange>, user: int)
    requires |cs| == |splits| && (forall i :: 0 <= i < |es| ==> es[i].key.user != user)
    requires forall k :: 0 <= k < |splits| ==> StartIndex(es, splits[k].left) <= EndIndex(es, splits[k].right)
    ensures forall e :: e in EachOutput(cs, es, splits) ==> e.key.user != user
  {
    if splits != [] {
      var n := |splits| - 1;
      EachMember(cs[..n], es, splits[..n], user);
      forall e | e in Kept(cs[n], es, StartIndex(es, splits[n].left), EndIndex(es, splits[n].right)) ensures e.key.user != user {
        KeptMembers(cs[n], es, StartIndex(es, splits[n].left), EndIndex(es, splits[n].right), e);
      }
    }
  }

  /** A part of the output that has nothing of a key. */
  lemma NothingOf(c: Config, es: seq<Entry>, lo: nat, hi: nat, user: int, t: nat)
    requires lo <= hi <= |es| && forall j :: lo <= j < hi ==> es[j].key.user != user
    ensures Best(Kept(c, es, lo, hi), user, t) == None
  {
    forall e | e in Kept(c, es, lo, hi) ensures e.key.user != user {
      KeptMembers(c, es, lo, hi, e);
    }
    BestIsGreatest(Kept(c, es, lo, hi), user, t);
  }

  /** All that is kept of a key is kept by the one range that has it. */
  lemma KeptWhole(c: Config, es: seq<Entry>, lo: nat, hi: nat, user: int, t: nat)
    requires lo <= hi <= |es| && forall j :: 0 <= j < |es| && es[j].key.user == user ==> lo <= j < hi
    ensures Best(Kept(c, es, lo, hi), user, t) == Best(Kept(c, es, 0, |es|), user, t)
  {
    KeptJoins(c, es, 0, lo, |es|);
    KeptJoins(c, es, lo, hi, |es|);
    NothingOf(c, es, 0, lo, user, t);
    NothingOf(c, es, hi, |es|, user, t);
    BestConcat(Kept(c, es, 0, lo), Kept(c, es, lo, |es|), user, t);
    BestConcat(Kept(c, es, lo, hi), Kept(c, es, hi, |es|), user, t);
    hide Kept, Best;
  }

  lemma EachBest(cs: seq<Config>, es: seq<Entry>, splits: seq<KeyRange>, user: int, t: nat, i: nat, k: nat)
    requires Pieces(es, splits) && |cs| == |splits| && i < |es| && es[i].key.user == user && k < |splits|
    requires OwnedBy(es, i, splits, k)
    ensures Best(EachOutput(cs, es, splits), user, t) == Best(Kept(cs[k], es, 0, |es|), user, t)
  {
    var s, e := StartIndex(es, splits[k].left), EndIndex(es, splits[k].right);
    forall j | 0 <= j < |es| && es[j].key.user == user ensures InRange(es, j, splits[k]) {
    }
    EachUpTo(cs, es, splits, user, t, i, k, |splits|);
    assert cs[..|splits|] == cs && splits[..|splits|] == splits;
    KeptWhole(cs[k], es, s, e, user, t);
  }

  lemma {:induction false} EachUpTo(cs: seq<Config>, es: seq<Entry>, splits: seq<KeyRange>, user: int, t: nat, i: nat, k: nat, n: nat)
    requires Pieces(es, splits) && |cs| == |splits| && i < |es| && es[i].key.user == user && k < |splits| && n <= |splits|
    requires OwnedBy(es, i, splits, k)
    ensures Best(EachOutput(cs[..n], es, splits[..n]), user, t) ==
            if n <= k then None
            else Best(Kept(cs[k], es, StartIndex(es, splits[k].left), EndIndex(es, splits[k].right)), user, t)
  {
    if n > 0 {
      var m := n - 1;
      EachUpTo(cs, es, splits, user, t, i, k, m);
      EachStep(cs, es, splits, m);
      if m != k { OthersHaveNone(cs, es, splits, user, t, i, k, m); }
      hide *;
      BestConcat(EachOutput(cs[..m], es, splits[..m]), Kept(cs[m], es, StartIndex(es, splits[m].left), EndIndex(es, splits[m].right)), user, t);
    }
  }

  lemma OthersHaveNone(cs: seq<Config>, es: seq<Entry>, splits: seq<KeyRange>, user: int, t: nat, i: nat, k: nat, m: nat)
    requires Pieces(es, splits) && |cs| == |splits| && i < |es| && es[i].key.user == user && k < |splits| && m < |splits| && m != k
    requires OwnedBy(es, i, splits, k)
    ensures Best(Kept(cs[m], es, StartIndex(es, splits[m].left), EndIndex(es, splits[m].right)), user, t) == None
  {
    hide Kept, Best;
    var s, e := StartIndex(es, splits[m].left), EndIndex(es, splits[m].right);
    forall j | s <= j < e ensures es[j].key.user != user {
      assert InRange(es, j, splits[m]);
    }
    NothingOf(cs[m], es, s, e, user, t);
  }

  lemma EachStep(cs: seq<Config>, es: seq<Entry>, splits: seq<KeyRange>, m: nat)
    requires |cs| == |splits| && m < |splits|
    requires forall k :: 0 <= k < |splits| ==> StartIndex(es, splits[k].left) <= EndIndex(es, splits[k].right)
    ensures EachOutput(cs[..m + 1], es, splits[..m + 1]) ==
            EachOutput(cs[..m], es, splits[..m]) + Kept(cs[m], es, StartIndex(es, splits[m].left), EndIndex(es, splits[m].right))
  {
    assert cs[..m + 1][..m] == cs[..m] && splits[..m + 1][..m] == splits[..m];
  }

  /** All versions of es[i]'s key fall in range `k` and in no other. */
  ghost predicate OwnedBy(es: seq<Entry>, i: nat, splits: seq<KeyRange>, k: nat)
    requires i < |es|
  {
    forall j, q :: 0 <= j < |es| && 0 <= q < |splits| && es[j].key.user == es[i].key.user ==>
      (InRange(es, j, splits[q]) <==> q == k)
  }

  ghost predicate InOneRange(es: seq<Entry>, i: nat, splits: seq<KeyRange>)
    requires i < |es|
  {
    exists k :: 0 <= k < |splits| && OwnedBy(es, i, splits, k)
  }

  lemma Owns(es: seq<Entry>, splits: seq<KeyRange>, i: nat, k: nat)
    requires Sorted(es) && Pieces(es, splits) && i < |es| && k < |splits| && InRange(es, i, splits[k])
    ensures OwnedBy(es, i, splits, k)
  {
    forall j, q | 0 <= j < |es| && 0 <= q < |splits| && es[j].key.user == es[i].key.user
      ensures InRange(es, j, splits[q]) <==> q == k
    {
      SameRange(es, splits[k], i, j);
      DisjointRanges(es, splits, k, q, j);
    }
  }

  lemma ChainIsPieces(es: seq<Entry>, splits: seq<KeyRange>, left: Option<Key>)
    requires Sorted(es) && forall e :: e in es ==> e.key.ts >= 1
    requires Chained(splits, left) && (left.Some? ==> forall e :: e in es ==> LessEq(left.value, e.key))
    ensures Pieces(es, splits)
  {
    forall k | 0 <= k < |splits|
      ensures StartIndex(es, splits[k].left) <= EndIndex(es, splits[k].right)
      ensures Boundary(es, StartIndex(es, splits[k].left)) && Boundary(es, EndIndex(es, splits[k].right))
      ensures k == 0 ==> StartIndex(es, splits[k].left) == 0
    {
      ChainPiece(es, splits, left, k);
    }
    forall k | 0 < k < |splits| ensures splits[k].left == splits[k - 1].right && splits[k].left.Some? {
      assert splits[k - 1].right.Some?;
    }
  }

  ghost predicate InRange(es: seq<Entry>, i: int, r: KeyRange) {
    StartIndex(es, r.left) <= i < EndIndex(es, r.right)
  }

  lemma ChainPiece(es: seq<Entry>, splits: seq<KeyRange>, left: Option<Key>, k: nat)
    requires Sorted(es) && forall e :: e in es ==> e.key.ts >= 1
    requires Chained(splits, left) && (left.Some? ==> forall e :: e in es ==> LessEq(left.value, e.key))
    requires k < |splits|
    ensures StartIndex(es, splits[k].left) <= EndIndex(es, splits[k].right)
    ensures Boundary(es, StartIndex(es, splits[k].left)) && Boundary(es, EndIndex(es, splits[k].right))
    ensures k == 0 ==> StartIndex(es, splits[k].left) == 0
  {
    if k > 0 {
      CutIsBoundary(es, splits[k - 1].right.value.user);
      if k < |splits| - 1 { SeekMonotone(es, splits[k - 1].right.value, splits[k].right.value); }
    } else if left.Some? {
      SeekIndexIs(es, left.value, 0);
    }
    if k < |splits| - 1 { CutIsBoundary(es, splits[k].right.value.user); }
  }

  /** The ranges are legal sub-compactions that cover the input end to end. */
  ghost predicate Pieces(es: seq<Entry>, splits: seq<KeyRange>) {
    && (forall k :: 0 <= k < |splits| ==>
          && StartIndex(es, splits[k].left) <= EndIndex(es, splits[k].right)
          && Boundary(es, StartIndex(es, splits[k].left)) && Boundary(es, EndIndex(es, splits[k].right)))
    && (forall k :: 0 < k < |splits| ==> splits[k].left == splits[k - 1].right && splits[k].left.Some?)
    && (splits != [] ==> StartIndex(es, splits[0].left) == 0 && EndIndex(es, splits[|splits| - 1].right) == |es|)
  }

  lemma {:induction false} OutputSoFar(c: Config, es: seq<Entry>, splits: seq<KeyRange>, n: nat)
    requires Pieces(es, splits) && n <= |splits|
    ensures SplitOutput(c, es, splits[..n]) == Kept(c, es, 0, if n == 0 then 0 else EndIndex(es, splits[n - 1].right))
  {
    if n > 0 {
      OutputSoFar(c, es, splits, n - 1);
      assert splits[..n][..n - 1] == splits[..n - 1];
      KeptJoins(c, es, 0, StartIndex(es, splits[n - 1].left), EndIndex(es, splits[n - 1].right));
    }
  }

  lemma {:induction false} RangeOf(es: seq<Entry>, splits: seq<KeyRange>, i: nat, n: nat) returns (k: nat)
    requires Pieces(es, splits) && 0 < n <= |splits| && i < EndIndex(es, splits[n - 1].right)
    ensures k < n && InRange(es, i, splits[k])
  {
    if StartIndex(es, splits[n - 1].left) <= i {
      k := n - 1;
    } else {
      k := RangeOf(es, splits, i, n - 1);
    }
  }

  lemma SameRange(es: seq<Entry>, r: KeyRange, i: nat, j: nat)
    requires Sorted(es) && i < |es| && j < |es| && es[i].key.user == es[j].key.user
    requires Boundary(es, StartIndex(es, r.left)) && Boundary(es, EndIndex(es, r.right))
    ensures InRange(es, i, r) <==> InRange(es, j, r)
  {
  }

  lemma {:induction false} StartsIncrease(es: seq<Entry>, splits: seq<KeyRange>, a: nat, b: nat)
    requires Pieces(es, splits) && a < b < |splits|
    ensures EndIndex(es, splits[a].right) <= StartIndex(es, splits[b].left)
  {
    if a + 1 < b { StartsIncrease(es, splits, a, b - 1); }
  }

  lemma DisjointRanges(es: seq<Entry>, splits: seq<KeyRange>, k: nat, q: nat, j: nat)
    requires Pieces(es, splits) && k < |splits| && q < |splits| && InRange(es, j, splits[k])
    ensures InRange(es, j, splits[q]) <==> q == k
  {
    if q < k { StartsIncrease(es, splits, q, k); }
    if k < q { StartsIncrease(es, splits, k, q); }
  }
}
