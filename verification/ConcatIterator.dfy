/** Iterating over the tables of a level one after the other (table/iterator.go, ConcatIterator). */
module ConcatIterators {
  import opened Entries
  import opened MergeIterators

  /** The tables of a level in the order they are iterated over, each in that direction. */
  function Lists(tables: seq<seq<Entry>>, reversed: bool): (l: seq<seq<Entry>>)
    ensures |l| == |tables|
    ensures forall i :: 0 <= i < |l| ==> l[i] == if reversed then Flip(tables[|l| - 1 - i]) else tables[i]
  {
    seq(|tables|, i requires 0 <= i < |tables| => if reversed then Flip(tables[|tables| - 1 - i]) else tables[i])
  }

  lemma FlipJoined(a: seq<Entry>, b: seq<Entry>)
    ensures Flip(a + b) == Flip(b) + Flip(a)
  {
  }

  /** One table after the other backwards is the whole level backwards. */
  lemma {:induction false} ListsJoin(tables: seq<seq<Entry>>, reversed: bool)
    ensures Concat(Lists(tables, reversed)) == if reversed then Flip(Concat(tables)) else Concat(tables)
  {
    var n := |tables|;
    if n == 0 {
      assert Lists(tables, reversed) == [] && Flip([]) == [];
    } else if reversed {
      var front := tables[..n - 1];
      ListsJoin(front, true);
      assert Lists(tables, true) == [Flip(tables[n - 1])] + Lists(front, true);
      ConcatHead(Flip(tables[n - 1]), Lists(front, true));
      FlipJoined(Concat(front), tables[n - 1]);
    } else {
      assert Lists(tables, false) == tables;
    }
  }

  lemma DropHead(l: seq<seq<Entry>>, i: nat)
    requires i < |l|
    ensures Concat(l[i..]) == l[i] + Concat(l[i + 1..])
  {
    assert l[i..] == [l[i]] + l[i + 1..];
    ConcatHead(l[i], l[i + 1..]);
  }

  /** The tables of a level: none empty, keys increasing through all of them. */
  ghost predicate IsLevel(tables: seq<seq<Entry>>) {
    (forall i :: 0 <= i < |tables| ==> tables[i] != []) && Ordered(false, Concat(tables))
  }

  lemma ListsOrdered(tables: seq<seq<Entry>>, reversed: bool)
    requires IsLevel(tables)
    ensures Ordered(reversed, Concat(Lists(tables, reversed)))
  {
    ListsJoin(tables, reversed);
    FlipOrdered(false, Concat(tables));
  }

  lemma {:induction false} ConcatSplits(l: seq<seq<Entry>>, i: nat)
    requires i <= |l|
    ensures Concat(l) == Concat(l[..i]) + Concat(l[i..])
    decreases |l| - i
  {
    if i == |l| {
      assert l[..i] == l && l[i..] == [];
    } else {
      DropHead(l, i);
      ConcatSplits(l, i + 1);
      assert l[..i + 1][..i] == l[..i];
    }
  }

  /** Skipping ahead: lists that end before `k` are passed over as a whole. */
  lemma {:induction false} FromJoined(reversed: bool, a: seq<Entry>, b: seq<Entry>, k: Key)
    ensures (forall i :: 0 <= i < |a| ==> Before(reversed, a[i].key, k)) ==> From(reversed, a + b, k) == From(reversed, b, k)
    ensures (exists i :: 0 <= i < |a| && !Before(reversed, a[i].key, k)) ==> From(reversed, a + b, k) == From(reversed, a, k) + b
  {
    if a == [] {
      assert a + b == b;
    } else {
      assert (a + b)[1..] == a[1..] + b;
      FromJoined(reversed, a[1..], b, k);
    }
  }

  /** What is left to yield at entry `pos` of list `i`, the current entry first. */
  ghost function Left(l: seq<seq<Entry>>, i: int, pos: nat): seq<Entry>
    requires -1 <= i < |l| && (0 <= i ==> pos <= |l[i]|)
  {
    if i >= 0 then l[i][pos..] + Concat(l[i + 1..]) else []
  }

  /** Tables in the order of the iteration: `idx` counts up in both directions, where the code counts
      down when it goes backward. */
  class ConcatIterator {
    const lists: seq<seq<Entry>>
    const reversed: bool
    /** The table at hand and where its own iterator is. */
    var idx: int
    var pos: nat

    constructor (tables: seq<seq<Entry>>, reversed: bool)
      requires IsLevel(tables)
      ensures Valid() && this.reversed == reversed && Rest() == []
      ensures All() == if reversed then Flip(Concat(tables)) else Concat(tables)
    {
      this.lists, this.reversed, idx, pos := Lists(tables, reversed), reversed, -1, 0;
      ListsOrdered(tables, reversed);
      ListsJoin(tables, reversed);
      hide Ordered, Concat, Flip;
    }

    ghost predicate Wired() {
      (forall i :: 0 <= i < |lists| ==> lists[i] != []) && Ordered(reversed, Concat(lists))
    }

    ghost predicate Valid()
      reads this
    {
      Wired() && -1 <= idx < |lists| && (0 <= idx ==> pos <= |lists[idx]|)
    }

    ghost function Rest(): seq<Entry>
      requires Valid()
      reads this
    {
      Left(lists, idx, pos)
    }

    ghost function All(): seq<Entry> {
      Concat(lists)
    }

    method SetIdx(i: int)
      requires Wired()
      modifies this
      ensures Valid() && pos == 0 && idx == if 0 <= i < |lists| then i else -1
    {
      idx, pos := i, 0;
      if idx < 0 || idx >= |lists| {
        idx := -1;
      }
    }

    predicate IsValid()
      reads this
    {
      0 <= idx < |lists| && pos < |lists[idx]|
    }

    method Rewind()
      requires Wired()
      modifies this
      ensures |lists| > 0 ==> Valid() && Rest() == All() && Rest() != [] && IsValid()
      ensures |lists| == 0 ==> unchanged(this) && All() == []
    {
      if |lists| == 0 {
        return;
      }
      hide Ordered, Concat;
      SetIdx(0);
      DropHead(lists, 0);
      assert lists[0..] == lists && lists[0][0..] == lists[0];
      StepIn(lists, 0, 0);
    }

    method Next()
      requires Valid() && IsValid()
      modifies this
      ensures Valid() && old(Rest()) != [] && Rest() == old(Rest())[1..] && (IsValid() <==> Rest() != [])
    {
      StepIn(lists, idx, pos);
      hide Ordered, Concat, Left;
      pos := pos + 1;
      if pos < |lists[idx]| {
        return;
      }
      NextTable(Rest());
    }

    /** The table at hand is used up; the next one that is not empty follows. */
    method NextTable(ghost rest: seq<Entry>)
      requires Valid() && 0 <= idx && pos == |lists[idx]| && Rest() == rest
      modifies this
      ensures Valid() && Rest() == rest && (IsValid() <==> Rest() != [])
    {
      UsedUp(lists, idx);
      hide Ordered, Concat, Left;
      var more := true;
      while more
        invariant Valid()
        invariant if more then idx == old(idx) && pos == old(pos) else Rest() == rest && (IsValid() <==> rest != [])
        decreases more
      {
        SetIdx(idx + 1);
        if idx == -1 || IsValid() {
          more := false;
        }
      }
    }

    /** Goes to the first table that reaches `k`, and on to the entry. */
    method Seek(k: Key)
      requires Wired()
      modifies this
      ensures Valid() && Rest() == From(reversed, All(), k) && (IsValid() <==> Rest() != [])
    {
      hide Ordered, Concat, From, Wired;
      var i, rest := FindTable(k);
      SetIdx(i);
      if i < |lists| {
        SeekInTable(k, rest);
      }
    }

    /** sort.Search over the tables: by Biggest going forward, by Smallest going backward. */
    method FindTable(k: Key) returns (i: nat, ghost rest: seq<Entry>)
      requires Wired()
      ensures i <= |lists| && rest == From(reversed, All(), k)
      ensures if i == |lists| then rest == [] else rest == From(reversed, lists[i], k) + Concat(lists[i + 1..])
      ensures i < |lists| ==> !Before(reversed, Last(lists, i), k)
    {
      hide Ordered, Concat, From, Before;
      var lo, hi := 0, |lists|;
      while lo < hi
        invariant 0 <= lo <= hi <= |lists|
        invariant forall n :: 0 <= n < lo ==> Before(reversed, Last(lists, n), k)
        invariant forall n :: hi <= n < |lists| ==> !Before(reversed, Last(lists, n), k)
      {
        var mid := (lo + hi) / 2;
        LastsIncrease(lists, reversed, mid, k);
        if Before(reversed, Last(lists, mid), k) {
          lo := mid + 1;
        } else {
          hi := mid;
        }
      }
      i := lo;
      PassTables(lists, i, reversed, k);
      StopAt(lists, i, reversed, k);
      rest := From(reversed, Concat(lists), k);
    }

    method SeekInTable(k: Key, ghost rest: seq<Entry>)
      requires Valid() && 0 <= idx && pos == 0 && rest == From(reversed, lists[idx], k) + Concat(lists[idx + 1..])
      requires !Before(reversed, Last(lists, idx), k)
      modifies `pos
      ensures Valid() && Rest() == rest && rest != [] && IsValid()
    {
      hide Ordered, Concat;
      ghost var es := lists[idx];
      assert es[0..] == es;
      while pos < |lists[idx]| && Before(reversed, lists[idx][pos].key, k)
        invariant Valid() && pos < |es|
        invariant From(reversed, es, k) == From(reversed, es[pos..], k)
      {
        assert es[pos..][1..] == es[pos + 1..];
        pos := pos + 1;
      }
      StepIn(lists, idx, pos);
    }
  }

  lemma StepIn(l: seq<seq<Entry>>, i: nat, pos: nat)
    requires i < |l| && pos < |l[i]|
    ensures Left(l, i, pos) != [] && Left(l, i, pos)[1..] == Left(l, i, pos + 1)
    ensures pos + 1 < |l[i]| ==> Left(l, i, pos + 1) != []
  {
  }

  lemma UsedUp(l: seq<seq<Entry>>, i: nat)
    requires i < |l|
    ensures Left(l, i, |l[i]|) == if i + 1 < |l| then Left(l, i + 1, 0) else []
    ensures i + 1 < |l| && l[i + 1] != [] ==> Left(l, i + 1, 0) != []
  {
    assert l[i][|l[i]|..] == [];
    if i + 1 < |l| {
      DropHead(l, i + 1);
      assert l[i + 1][0..] == l[i + 1];
    } else {
      assert l[i + 1..] == [];
    }
    hide Concat;
  }

  lemma PassTable(l: seq<seq<Entry>>, i: nat, reversed: bool, k: Key)
    requires i < |l| && l[i] != [] && Ordered(reversed, Concat(l)) && Before(reversed, Last(l, i), k)
    ensures From(reversed, Concat(l[i..]), k) == From(reversed, Concat(l[i + 1..]), k)
  {
    ListIsOrdered(l, i, reversed);
    AllBefore(reversed, l[i], k);
    DropHead(l, i);
    FromJoined(reversed, l[i], Concat(l[i + 1..]), k);
  }

  /** All tables that end before `k`. */
  lemma {:induction false} PassTables(l: seq<seq<Entry>>, i: nat, reversed: bool, k: Key)
    requires i <= |l| && (forall n :: 0 <= n < |l| ==> l[n] != []) && Ordered(reversed, Concat(l))
    requires forall n :: 0 <= n < i ==> Before(reversed, Last(l, n), k)
    ensures From(reversed, Concat(l), k) == From(reversed, Concat(l[i..]), k)
  {
    hide Ordered, Concat, From;
    if i == 0 {
      assert l[0..] == l;
    } else {
      PassTables(l, i - 1, reversed, k);
      PassTable(l, i - 1, reversed, k);
    }
  }

  /** The tables' ends are in order, so a binary search among them is right. */
  lemma LastsIncrease(l: seq<seq<Entry>>, reversed: bool, mid: nat, k: Key)
    requires mid < |l| && (forall n :: 0 <= n < |l| ==> l[n] != []) && Ordered(reversed, Concat(l))
    ensures Before(reversed, Last(l, mid), k) ==> forall n :: 0 <= n <= mid ==> Before(reversed, Last(l, n), k)
    ensures !Before(reversed, Last(l, mid), k) ==> forall n :: mid <= n < |l| ==> !Before(reversed, Last(l, n), k)
  {
    hide Concat, Ordered, Last, Before;
    forall n | 0 <= n <= mid && Before(reversed, Last(l, mid), k) ensures Before(reversed, Last(l, n), k) {
      if n < mid { EarlierBefore(l, reversed, n, mid, k); }
    }
    forall n | mid <= n < |l| && !Before(reversed, Last(l, mid), k) ensures !Before(reversed, Last(l, n), k) {
      if mid < n && Before(reversed, Last(l, n), k) { EarlierBefore(l, reversed, mid, n, k); }
    }
  }

  lemma EarlierBefore(l: seq<seq<Entry>>, reversed: bool, m: nat, n: nat, k: Key)
    requires m < n < |l| && (forall i :: 0 <= i < |l| ==> l[i] != []) && Ordered(reversed, Concat(l))
    ensures Before(reversed, Last(l, n), k) ==> Before(reversed, Last(l, m), k)
  {
    ConcatSplits(l, n);
    DropHead(l, n);
    ConcatMember(l[..n], l[m][|l[m]| - 1]);
    assert l[..n][m] == l[m];
    hide Concat, Before, Ordered;
    EndBefore(reversed, Concat(l[..n]), l[n], Concat(l[n + 1..]), l[m][|l[m]| - 1]);
    BeforeTrans(reversed, Last(l, m), Last(l, n), k);
  }

  lemma EndBefore(reversed: bool, a: seq<Entry>, b: seq<Entry>, c: seq<Entry>, x: Entry)
    requires Ordered(reversed, a + (b + c)) && x in a && b != []
    ensures Before(reversed, x.key, b[|b| - 1].key)
  {
    hide Before;
    var all := a + (b + c);
    var i :| 0 <= i < |a| && a[i] == x;
    assert all[i] == x && all[|a| + |b| - 1] == b[|b| - 1];
  }

  lemma BeforeTrans(reversed: bool, a: Key, b: Key, c: Key)
    requires Before(reversed, a, b)
    ensures Before(reversed, b, c) ==> Before(reversed, a, c)
  {
  }

  lemma StopAt(l: seq<seq<Entry>>, i: nat, reversed: bool, k: Key)
    requires i <= |l| && (i < |l| ==> l[i] != [] && !Before(reversed, Last(l, i), k))
    ensures From(reversed, Concat(l[i..]), k) == if i == |l| then [] else From(reversed, l[i], k) + Concat(l[i + 1..])
  {
    if i == |l| {
      assert l[i..] == [];
    } else {
      DropHead(l, i);
      assert !Before(reversed, l[i][|l[i]| - 1].key, k);
      FromJoined(reversed, l[i], Concat(l[i + 1..]), k);
    }
  }

  /** Biggest of a table going forward, Smallest going backward. */
  function Last(l: seq<seq<Entry>>, i: nat): Key
    requires i < |l| && l[i] != []
  {
    l[i][|l[i]| - 1].key
  }

  lemma ListIsOrdered(l: seq<seq<Entry>>, i: nat, reversed: bool)
    requires i < |l| && Ordered(reversed, Concat(l))
    ensures Ordered(reversed, l[i])
  {
    hide Concat, Before;
    ConcatSplits(l, i);
    DropHead(l, i);
    PartOrdered(reversed, Concat(l[..i]), l[i], Concat(l[i + 1..]));
  }

  lemma PartOrdered(reversed: bool, a: seq<Entry>, b: seq<Entry>, c: seq<Entry>)
    requires Ordered(reversed, a + (b + c))
    ensures Ordered(reversed, b)
  {
    hide Before;
    var all := a + (b + c);
    forall i, j | 0 <= i < j < |b| ensures Before(reversed, b[i].key, b[j].key) {
      assert all[|a| + i] == b[i] && all[|a| + j] == b[j];
    }
  }

  lemma AllBefore(reversed: bool, es: seq<Entry>, k: Key)
    requires es != [] && Ordered(reversed, es) && Before(reversed, es[|es| - 1].key, k)
    ensures forall i :: 0 <= i < |es| ==> Before(reversed, es[i].key, k)
  {
  }
}
