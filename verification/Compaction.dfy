/** The compaction loop (levels.go, subcompact and addKeys) and the splitting of one compaction
    into several (addSplits).

    `Dropped` says which entries disappear without following the loop: an entry goes if a newer
    version of its key ended the key, or if it is itself a deleted version that ended the key and
    nothing lies below. The loop is proved to keep exactly the others; what that means for readers
    is `PreservedIff` and `CompactionPreservesSnapshots`. */
module Compactions {
  import opened Wrappers
  import opened Entries

  datatype Config = Config(discardTs: nat, hasOverlap: bool, numVersionsToKeep: int, now: nat)

  predicate Counted(c: Config, e: Entry) {
    e.key.ts <= c.discardTs && !e.vs.meta.merge
  }

  /** How many versions of es[i]'s key, down to es[i] itself, count towards NumVersionsToKeep. */
  function VersionCount(c: Config, es: seq<Entry>, i: nat): nat
    requires i < |es|
  {
    (if i > 0 && es[i - 1].key.user == es[i].key.user then VersionCount(c, es, i - 1) else 0)
    + if Counted(c, es[i]) then 1 else 0
  }

  /** es[i] is the last version of its key that needs to be looked at. */
  predicate Ends(c: Config, es: seq<Entry>, i: nat)
    requires i < |es|
  {
    Counted(c, es[i]) &&
    (|| IsDeletedOrExpired(es[i].vs, c.now)
     || es[i].vs.meta.discardEarlier
     || VersionCount(c, es, i) == c.numVersionsToKeep)
  }

  predicate EndedBy(c: Config, es: seq<Entry>, i: nat, j: nat)
    requires i < |es| && j < |es|
  {
    es[j].key.user == es[i].key.user && Ends(c, es, j)
  }

  predicate Shadowed(c: Config, es: seq<Entry>, i: nat)
    requires i < |es|
  {
    exists j :: 0 <= j < i && EndedBy(c, es, i, j)
  }

  predicate Dropped(c: Config, es: seq<Entry>, i: nat)
    requires i < |es|
  {
    Shadowed(c, es, i) || (Ends(c, es, i) && IsDeletedOrExpired(es[i].vs, c.now) && !c.hasOverlap)
  }

  /** The entries of es[lo..hi] that compaction keeps. */
  function Kept(c: Config, es: seq<Entry>, lo: nat, hi: nat): seq<Entry>
    requires lo <= hi <= |es|
  {
    if lo == hi then [] else Kept(c, es, lo, hi - 1) + if Dropped(c, es, hi - 1) then [] else [es[hi - 1]]
  }

  lemma {:induction false} KeptMembers(c: Config, es: seq<Entry>, lo: nat, hi: nat, e: Entry)
    requires lo <= hi <= |es|
    ensures e in Kept(c, es, lo, hi) <==> exists i :: lo <= i < hi && es[i] == e && !Dropped(c, es, i)
  {
    if lo < hi { KeptMembers(c, es, lo, hi - 1, e); }
  }

  lemma {:induction false} KeptSorted(c: Config, es: seq<Entry>, lo: nat, hi: nat)
    requires Sorted(es) && lo <= hi <= |es|
    ensures Sorted(Kept(c, es, lo, hi))
    ensures forall e :: e in Kept(c, es, lo, hi) ==> e in es && (hi < |es| ==> Less(e.key, es[hi].key))
  {
    if lo < hi { KeptSorted(c, es, lo, hi - 1); }
  }

  lemma {:induction false} KeptJoins(c: Config, es: seq<Entry>, lo: nat, mid: nat, hi: nat)
    requires lo <= mid <= hi <= |es|
    ensures Kept(c, es, lo, mid) + Kept(c, es, mid, hi) == Kept(c, es, lo, hi)
  {
    if mid < hi {
      KeptJoins(c, es, lo, mid, hi - 1);
    }
  }

  // ---------------------------------------------------------------- which versions come through

  /** The versions of e's key from the newest down to `e` that count: at or below the discard timestamp
      and not written by a merge operator. */
  function CountedDownTo(c: Config, es: seq<Entry>, e: Entry): set<Entry> {
    set x | x in es && x.key.user == e.key.user && e.key.ts <= x.key.ts <= c.discardTs && !x.vs.meta.merge
  }

  lemma {:induction false} CountIsSize(c: Config, es: seq<Entry>, i: nat)
    requires Sorted(es) && i < |es|
    ensures VersionCount(c, es, i) == |CountedDownTo(c, es, es[i])|
  {
    if i > 0 && es[i - 1].key.user == es[i].key.user {
      CountIsSize(c, es, i - 1);
      CountStep(c, es, i);
    } else {
      CountFirst(c, es, i);
    }
  }

  lemma CountStep(c: Config, es: seq<Entry>, i: nat)
    requires Sorted(es) && 0 < i < |es| && es[i - 1].key.user == es[i].key.user
    ensures |CountedDownTo(c, es, es[i])| == |CountedDownTo(c, es, es[i - 1])| + if Counted(c, es[i]) then 1 else 0
  {
    var now, before := CountedDownTo(c, es, es[i]), CountedDownTo(c, es, es[i - 1]);
    forall x | x in es && x.key.user == es[i].key.user && x != es[i] ensures es[i].key.ts <= x.key.ts <==> es[i - 1].key.ts <= x.key.ts {
      NextOlder(es, i, x);
    }
    assert Less(es[i - 1].key, es[i].key);
    assert es[i] !in before;
    assert now == if Counted(c, es[i]) then before + {es[i]} else before;
  }

  /** Nothing lies between two neighbours. */
  lemma NextOlder(es: seq<Entry>, i: nat, x: Entry)
    requires Sorted(es) && 0 < i < |es| && es[i - 1].key.user == es[i].key.user == x.key.user && x in es && x != es[i]
    ensures es[i].key.ts <= x.key.ts <==> es[i - 1].key.ts <= x.key.ts
  {
    var j :| 0 <= j < |es| && es[j] == x;
    assert j < i ==> j == i - 1 || Less(es[j].key, es[i - 1].key);
    assert j > i ==> Less(es[i].key, es[j].key);
    assert Less(es[i - 1].key, es[i].key);
  }

  lemma CountFirst(c: Config, es: seq<Entry>, i: nat)
    requires Sorted(es) && i < |es| && (i > 0 ==> es[i - 1].key.user != es[i].key.user)
    ensures |CountedDownTo(c, es, es[i])| == if Counted(c, es[i]) then 1 else 0
  {
    forall j | 0 <= j < i ensures es[j].key.user != es[i].key.user {
      assert Less(es[i - 1].key, es[i].key) && (j < i - 1 ==> Less(es[j].key, es[i - 1].key));
    }
    forall x | x in es && x.key.user == es[i].key.user && x != es[i] ensures x.key.ts < es[i].key.ts {
      var j :| 0 <= j < |es| && es[j] == x;
      assert Less(es[i].key, es[j].key);
    }
    assert CountedDownTo(c, es, es[i]) == if Counted(c, es[i]) then {es[i]} else {};
  }

  /** A version after which nothing of its key is kept: it counts, and it is deleted, expired, marked to
      discard earlier versions, or the last of those to keep. */
  predicate Last(c: Config, es: seq<Entry>, x: Entry) {
    && x.key.ts <= c.discardTs && !x.vs.meta.merge
    && (|| x.vs.meta.delete || (x.vs.expiresAt != 0 && x.vs.expiresAt <= c.now)
        || x.vs.meta.discardEarlier || |CountedDownTo(c, es, x)| == c.numVersionsToKeep)
  }

  lemma EndsIsLast(c: Config, es: seq<Entry>, i: nat)
    requires Sorted(es) && i < |es|
    ensures Ends(c, es, i) <==> Last(c, es, es[i])
  {
    CountIsSize(c, es, i);
    hide VersionCount, CountedDownTo, Sorted;
  }

  /** The input's entry is kept unless a newer version of its key is the last one, or it is itself one
      that counts and is deleted or expired, with nothing that overlaps below. */
  lemma KeptIff(c: Config, es: seq<Entry>, e: Entry)
    requires Sorted(es) && e in es
    ensures e in Kept(c, es, 0, |es|) <==>
              && (forall x :: x in es && x.key.user == e.key.user && x.key.ts > e.key.ts ==> !Last(c, es, x))
              && !(e.key.ts <= c.discardTs && !e.vs.meta.merge && (e.vs.meta.delete || (e.vs.expiresAt != 0 && e.vs.expiresAt <= c.now))
                   && !c.hasOverlap)
  {
    var i :| 0 <= i < |es| && es[i] == e;
    KeptMembers(c, es, 0, |es|, e);
    forall j | 0 <= j < |es| && es[j] == e ensures j == i {
      OnlyOnce(es, i, j);
    }
    ShadowedIff(c, es, i);
    EndsIsLast(c, es, i);
    hide Kept, Ends, Shadowed, CountedDownTo, Sorted;
  }

  lemma OnlyOnce(es: seq<Entry>, i: nat, j: nat)
    requires Sorted(es) && i < |es| && j < |es| && es[i] == es[j]
    ensures i == j
  {
  }

  lemma NewerIsBefore(es: seq<Entry>, j: nat, i: nat)
    requires Sorted(es) && i < |es| && j < |es| && es[j].key.user == es[i].key.user && es[j].key.ts > es[i].key.ts
    ensures j < i
  {
  }

  lemma ShadowedIff(c: Config, es: seq<Entry>, i: nat)
    requires Sorted(es) && i < |es|
    ensures Shadowed(c, es, i) <==>
            exists x :: x in es && x.key.user == es[i].key.user && x.key.ts > es[i].key.ts && Last(c, es, x)
  {
    hide VersionCount, CountedDownTo, Ends, Last;
    if Shadowed(c, es, i) {
      var j :| 0 <= j < i && EndedBy(c, es, i, j);
      EndsIsLast(c, es, j);
      assert Less(es[j].key, es[i].key) && es[j] in es;
    }
    if x :| x in es && x.key.user == es[i].key.user && x.key.ts > es[i].key.ts && Last(c, es, x) {
      var j :| 0 <= j < |es| && es[j] == x;
      EndsIsLast(c, es, j);
      NewerIsBefore(es, j, i);
      assert EndedBy(c, es, i, j);
    }
  }

  /** Any number of versions are kept, up to the number asked for, as long as none is deleted, expired or
      marked to discard earlier ones. */
  lemma VersionsKept(c: Config, es: seq<Entry>, e: Entry)
    requires Sorted(es) && e in es
    requires forall x :: x in es && x.key.user == e.key.user && x.key.ts >= e.key.ts ==>
               !x.vs.meta.delete && (x.vs.expiresAt == 0 || x.vs.expiresAt > c.now) && !x.vs.meta.discardEarlier
    requires forall x :: x in es && x.key.user == e.key.user && x.key.ts > e.key.ts ==> |CountedDownTo(c, es, x)| < c.numVersionsToKeep
    ensures e in Kept(c, es, 0, |es|)
  {
    KeptIff(c, es, e);
    hide CountedDownTo, Kept;
  }

  /** And no more: a version older than that many that count is gone. */
  lemma NoMoreKept(c: Config, es: seq<Entry>, e: Entry, x: Entry)
    requires Sorted(es) && e in es && x in es && x.key.user == e.key.user && x.key.ts > e.key.ts
    requires 1 <= c.numVersionsToKeep <= |CountedDownTo(c, es, x)|
    ensures e !in Kept(c, es, 0, |es|)
  {
    var i :| 0 <= i < |es| && es[i] == x;
    CountIsSize(c, es, i);
    var j := ReachesCount(c, es, i);
    CountIsSize(c, es, j);
    KeptIff(c, es, e);
    hide CountedDownTo, Kept, VersionCount;
    assert j < i ==> Less(es[j].key, es[i].key);
    assert Last(c, es, es[j]);
  }

  lemma {:induction false} ReachesCount(c: Config, es: seq<Entry>, i: nat) returns (j: nat)
    requires i < |es| && 1 <= c.numVersionsToKeep <= VersionCount(c, es, i)
    ensures j <= i && es[j].key.user == es[i].key.user && Counted(c, es[j]) && VersionCount(c, es, j) == c.numVersionsToKeep
  {
    if Counted(c, es[i]) && VersionCount(c, es, i) == c.numVersionsToKeep {
      j := i;
    } else {
      j := ReachesCount(c, es, i - 1);
    }
  }

  /** Two versions of a key where two are to be kept. */
  lemma BothKept()
    ensures
      var v := ValueStruct(Meta(false, false, false, false), 0, []);
      var es := [Entry(Key(1, 5), v), Entry(Key(1, 4), v)];
      Kept(Config(9, true, 2, 0), es, 0, 2) == es
  {
    var v := ValueStruct(Meta(false, false, false, false), 0, []);
    var c, es := Config(9, true, 2, 0), [Entry(Key(1, 5), v), Entry(Key(1, 4), v)];
    assert VersionCount(c, es, 0) == 1;
    assert !Ends(c, es, 0) && !Dropped(c, es, 0) && !Dropped(c, es, 1);
    assert Kept(c, es, 0, 1) == [es[0]];
  }

  // ---------------------------------------------------------------- what readers see

  /** No version above the one a reader finds can end the search for it. */
  lemma NewestNotShadowed(c: Config, es: seq<Entry>, user: int, t: nat, i: nat)
    requires Sorted(es) && t >= c.discardTs && i < |es| && Best(es, user, t) == Some(es[i])
    ensures !Shadowed(c, es, i)
  {
    BestIsGreatest(es, user, t);
    hide Best, VersionCount;
    forall j | 0 <= j < i && es[j].key.user == user ensures es[j].key.ts > t {
      assert Less(es[j].key, es[i].key) && (es[j].key.ts <= t ==> Matches(es[j], user, t));
    }
  }

  /** If that one ends the search and is dropped, so is everything older. */
  lemma OlderDropped(c: Config, es: seq<Entry>, user: int, t: nat, i: nat)
    requires Sorted(es) && i < |es| && Best(es, user, t) == Some(es[i]) && Ends(c, es, i) && Dropped(c, es, i)
    ensures forall k :: 0 <= k < |es| && Matches(es[k], user, t) ==> Dropped(c, es, k)
  {
    BestIsGreatest(es, user, t);
    hide Best, VersionCount, Ends;
    forall k | 0 <= k < |es| && Matches(es[k], user, t) ensures Dropped(c, es, k) {
      if k != i { assert i < k && EndedBy(c, es, k, i); }
    }
  }

  /** When the version a reader finds is dropped. */
  lemma NewestDropped(c: Config, es: seq<Entry>, user: int, t: nat, i: nat)
    requires Sorted(es) && t >= c.discardTs && i < |es| && Best(es, user, t) == Some(es[i])
    ensures Dropped(c, es, i) ==> IsDeletedOrExpired(es[i].vs, c.now) && !c.hasOverlap
    ensures Dropped(c, es, i) ==> forall k :: 0 <= k < |es| && Matches(es[k], user, t) ==> Dropped(c, es, k)
  {
    NewestNotShadowed(c, es, user, t, i);
    hide Shadowed, Best, Ends, VersionCount;
    if Dropped(c, es, i) { OlderDropped(c, es, user, t, i); }
  }

  /** What one input contributes to a read: its own newest entry, unless that was a deleted version
      dropped because nothing lies below, and then nothing at all. */
  lemma KeptBest(c: Config, es: seq<Entry>, user: int, t: nat)
    requires Sorted(es) && t >= c.discardTs
    ensures var all, kept := Best(es, user, t), Best(Kept(c, es, 0, |es|), user, t);
            || kept == all
            || (kept == None && all.Some? && IsDeletedOrExpired(all.value.vs, c.now) && !c.hasOverlap)
  {
    var out, all := Kept(c, es, 0, |es|), Best(es, user, t);
    hide Kept, Best, VersionCount, Ends, Shadowed, Dropped, Sorted;
    BestIsGreatest(es, user, t);
    forall e | e in out ensures e in es { KeptMembers(c, es, 0, |es|, e); }
    if all.Some? {
      var i :| 0 <= i < |es| && es[i] == all.value;
      if Dropped(c, es, i) {
        NewestDropped(c, es, user, t, i);
        NoneKept(c, es, user, t);
      } else {
        KeptMembers(c, es, 0, |es|, es[i]);
        StillBest(es, out, user, t, es[i]);
      }
    } else {
      BestIsGreatest(out, user, t);
    }
  }

  /** Nothing that a read could find comes out. */
  lemma NoneKept(c: Config, es: seq<Entry>, user: int, t: nat)
    requires forall k :: 0 <= k < |es| && Matches(es[k], user, t) ==> Dropped(c, es, k)
    ensures Best(Kept(c, es, 0, |es|), user, t) == None
  {
    var out := Kept(c, es, 0, |es|);
    hide Kept, Best, Dropped;
    forall e | e in out ensures !Matches(e, user, t) { KeptMembers(c, es, 0, |es|, e); }
    BestIsGreatest(out, user, t);
  }

  lemma StillBest(es: seq<Entry>, out: seq<Entry>, user: int, t: nat, w: Entry)
    requires Sorted(es) && Best(es, user, t) == Some(w) && w in out && forall e :: e in out ==> e in es
    ensures Best(out, user, t) == Some(w)
  {
    BestIsGreatest(es, user, t);
    hide Best, Sorted;
    forall x | x in out && Matches(x, user, t) && x != w ensures x.key.ts < w.key.ts {
      SameKeySameEntry(es, x, w);
    }
    BestIs(out, user, t, w);
  }

  /** A deleted version that no open transaction needs and nothing below the next level overlaps. */
  predicate DropsTombstone(c: Config, e: Entry) {
    Counted(c, e) && IsDeletedOrExpired(e.vs, c.now) && !c.hasOverlap
  }

  /** Which of the two it is shows on the version itself. */
  lemma KeptNothing(c: Config, es: seq<Entry>, user: int, t: nat)
    requires Sorted(es) && t >= c.discardTs && Best(es, user, t).Some?
    ensures Best(Kept(c, es, 0, |es|), user, t) == None <==> DropsTombstone(c, Best(es, user, t).value)
  {
    var out, found := Kept(c, es, 0, |es|), Best(es, user, t).value;
    BestIsGreatest(es, user, t);
    BestIsGreatest(out, user, t);
    var i :| 0 <= i < |es| && es[i] == found;
    NewestNotShadowed(c, es, user, t, i);
    NewestDropped(c, es, user, t, i);
    KeptMembers(c, es, 0, |es|, found);
    KeptBest(c, es, user, t);
    hide Kept, Best, VersionCount, Shadowed;
    if Dropped(c, es, i) {
      forall e | e in out ensures !Matches(e, user, t) {
        hide Ends, Dropped;
        KeptMembers(c, es, 0, |es|, e);
      }
    }
  }

  /** The read would find `found` in the compaction's input, which drops it, and then finds the older
      live version `hidden` somewhere that was not part of the compaction. */
  predicate Revives(c: Config, found: Option<Entry>, hidden: Option<Entry>, now: nat) {
    && found.Some? && DropsTombstone(c, found.value)
    && hidden.Some? && hidden.value.key.ts < found.value.key.ts && !IsDeletedOrExpired(hidden.value.vs, now)
  }

  /** Exactly when a read at or above the discard timestamp is unaffected: it changes just when the
      deleted version it finds in the input is one that is dropped, while a place that was not part of
      the compaction still holds an older version that is alive. */
  lemma PreservedIff(c: Config, above: seq<Entry>, es: seq<Entry>, lower: seq<Entry>, user: int, t: nat, now: nat)
    requires Sorted(es) && t >= c.discardTs && now >= c.now
    requires !c.hasOverlap && (exists e :: e in es && e.key.user == user) ==> forall e :: e in lower ==> e.key.user != user
    ensures Visible(above + Kept(c, es, 0, |es|) + lower, user, t, now) == Visible(above + es + lower, user, t, now)
            <==> !Revives(c, Best(es, user, t), Best(above, user, t), now)
  {
    var out := Kept(c, es, 0, |es|);
    KeptBest(c, es, user, t);
    if Best(es, user, t).Some? { KeptNothing(c, es, user, t); }
    ThreePlaces(above, es, lower, user, t);
    ThreePlaces(above, out, lower, user, t);
    hide Kept, Counted;
    if Best(out, user, t) != Best(es, user, t) {
      BestIsGreatest(es, user, t);
      BestIsGreatest(lower, user, t);
      assert Best(lower, user, t) == None;
    }
  }

  lemma ThreePlaces(a: seq<Entry>, b: seq<Entry>, d: seq<Entry>, user: int, t: nat)
    ensures Best(a + b + d, user, t) == Newer(Newer(Best(a, user, t), Best(b, user, t)), Best(d, user, t))
  {
    BestConcat(a, b, user, t);
    BestConcat(a + b, d, user, t);
  }

  /** Compaction never changes a snapshot that can still be read, for any number of versions to
      keep and any delete, discard, merge and expiry settings of the entries, when levels above
      hold only newer versions of the keys involved. */
  lemma CompactionPreservesSnapshots(c: Config, above: seq<Entry>, es: seq<Entry>, lower: seq<Entry>, user: int, t: nat, now: nat)
    requires Sorted(es) && t >= c.discardTs && now >= c.now
    requires !c.hasOverlap && (exists e :: e in es && e.key.user == user) ==> forall e :: e in lower ==> e.key.user != user
    requires forall a, e :: a in above && e in es && a.key.user == user == e.key.user ==> a.key.ts > e.key.ts
    ensures Visible(above + Kept(c, es, 0, |es|) + lower, user, t, now) == Visible(above + es + lower, user, t, now)
  {
    PreservedIff(c, above, es, lower, user, t, now);
    BestIsGreatest(above, user, t);
    BestIsGreatest(es, user, t);
  }

  /** Rewriting a value log file puts old versions back on top (`ValueLogs`), so that newer places no
      longer hold only newer versions. With `back` put back, a compaction changes a read exactly when
      the only place above that answers it is `back`, with an older live version than the deleted one
      that is dropped. */
  lemma PutBackIff(c: Config, back: seq<Entry>, above: seq<Entry>, es: seq<Entry>, lower: seq<Entry>, user: int, t: nat, now: nat)
    requires Sorted(es) && t >= c.discardTs && now >= c.now
    requires !c.hasOverlap && (exists e :: e in es && e.key.user == user) ==> forall e :: e in lower ==> e.key.user != user
    requires forall a, e :: a in above && e in es && a.key.user == user == e.key.user ==> a.key.ts > e.key.ts
    ensures Visible((back + above) + Kept(c, es, 0, |es|) + lower, user, t, now) == Visible((back + above) + es + lower, user, t, now)
            <==> !(Best(above, user, t) == None && Revives(c, Best(es, user, t), Best(back, user, t), now))
  {
    PreservedIff(c, back + above, es, lower, user, t, now);
    BestConcat(back, above, user, t);
    BestIsGreatest(above, user, t);
    BestIsGreatest(es, user, t);
    hide Kept, Best, DropsTombstone;
  }

  /** It happens: the value of a version under a tombstone is moved to a new file and its copy lands in
      the memtable; a compaction then drops the tombstone with the old copy, and the new one shows. */
  lemma PutBackRevives()
    ensures
      var live := ValueStruct(Meta(false, false, false, false), 0, [7]);
      var tomb := ValueStruct(Meta(true, false, false, false), 0, []);
      var back := [Entry(Key(1, 3), live)];
      var es := [Entry(Key(1, 5), tomb), Entry(Key(1, 3), live)];
      var c := Config(9, false, 1, 0);
      Visible(back + es, 1, 9, 0) == None && Visible(back + Kept(c, es, 0, 2), 1, 9, 0) == Some(live)
  {
    var live := ValueStruct(Meta(false, false, false, false), 0, [7]);
    var tomb := ValueStruct(Meta(true, false, false, false), 0, []);
    var back := [Entry(Key(1, 3), live)];
    var es := [Entry(Key(1, 5), tomb), Entry(Key(1, 3), live)];
    var c := Config(9, false, 1, 0);
    assert Dropped(c, es, 0) && EndedBy(c, es, 1, 0) && Dropped(c, es, 1);
    assert Kept(c, es, 0, 1) == [];
    assert Kept(c, es, 0, 2) == Kept(c, es, 0, 1) == [];
    assert back + [] == back;
    BestIs(back + es, 1, 9, es[0]);
    BestIs(back, 1, 9, back[0]);
  }

  // ---------------------------------------------------------------- the loop

  /** A user key ends at index `i`: all its versions are before it or all after it. */
  predicate Boundary(es: seq<Entry>, i: nat)
    requires i <= |es|
  {
    0 < i < |es| ==> es[i - 1].key.user != es[i].key.user
  }

  ghost function EndIndex(es: seq<Entry>, right: Option<Key>): (r: nat)
    ensures r <= |es|
  {
    if right.None? then |es| else SeekIndex(es, right.value)
  }

  ghost function StartIndex(es: seq<Entry>, left: Option<Key>): (r: nat)
    ensures r <= |es|
  {
    if left.None? then 0 else SeekIndex(es, left.value)
  }

  lemma ShadowStep(c: Config, es: seq<Entry>, i: nat)
    requires Sorted(es) && i + 1 < |es|
    ensures Shadowed(c, es, i + 1) <==>
              es[i].key.user == es[i + 1].key.user && (Shadowed(c, es, i) || Ends(c, es, i))
  {
    if es[i].key.user == es[i + 1].key.user {
      if Ends(c, es, i) { assert EndedBy(c, es, i + 1, i); }
      if Shadowed(c, es, i) {
        var j :| 0 <= j < i && EndedBy(c, es, i, j);
        assert EndedBy(c, es, i + 1, j);
      }
      if Shadowed(c, es, i + 1) {
        var j :| 0 <= j < i + 1 && EndedBy(c, es, i + 1, j);
        assert j < i ==> EndedBy(c, es, i, j);
      }
    } else {
      forall j | 0 <= j <= i ensures es[j].key.user != es[i + 1].key.user {
        assert Less(es[j].key, es[i + 1].key) && (j < i ==> Less(es[j].key, es[i].key));
      }
    }
  }

  /** No user key is in two of the tables, and they are in key order. */
  ghost predicate Separate(tables: seq<seq<Entry>>) {
    forall a, b, x, y :: 0 <= a < b < |tables| && x in tables[a] && y in tables[b] ==> x.key.user < y.key.user
  }

  ghost predicate Below(tables: seq<seq<Entry>>, user: int) {
    forall k, x :: 0 <= k < |tables| && x in tables[k] ==> x.key.user < user
  }

  /** The user key at `pos`, or one beyond the last. */
  function NextUser(es: seq<Entry>, pos: nat): int
    requires es != [] && pos <= |es|
  {
    if pos < |es| then es[pos].key.user else es[|es| - 1].key.user + 1
  }

  lemma KeptUsers(c: Config, es: seq<Entry>, from: nat, pos: nat)
    requires Sorted(es) && from < pos <= |es| && Boundary(es, pos)
    ensures forall x :: x in Kept(c, es, from, pos) ==> es[from].key.user <= x.key.user < NextUser(es, pos)
    ensures es[from].key.user < NextUser(es, pos)
  {
    assert es[from].key.user <= es[|es| - 1].key.user;
    if pos < |es| { BoundarySplits(es, pos, from, pos); }
    forall x | x in Kept(c, es, from, pos)
      ensures es[from].key.user <= x.key.user < NextUser(es, pos)
    {
      KeptMembers(c, es, from, pos, x);
      var i :| from <= i < pos && es[i] == x;
      assert from < i ==> Less(es[from].key, es[i].key);
      if pos < |es| { BoundarySplits(es, pos, i, pos); }
      assert i < |es| - 1 ==> Less(es[i].key, es[|es| - 1].key);
    }
  }

  ghost predicate NonEmpty(tables: seq<seq<Entry>>) {
    forall k :: 0 <= k < |tables| ==> tables[k] != []
  }

  /** Every table is sorted and holds only entries of the input. */
  ghost predicate SubTables(tables: seq<seq<Entry>>, es: seq<Entry>) {
    forall k :: 0 <= k < |tables| ==> Sorted(tables[k]) && forall e :: e in tables[k] ==> e in es
  }

  ghost predicate Built(tables: seq<seq<Entry>>, es: seq<Entry>, next: int) {
    Separate(tables) && Below(tables, next) && NonEmpty(tables) && SubTables(tables, es)
  }

  lemma BuiltAppend(es: seq<Entry>, tables: seq<seq<Entry>>, builder: seq<Entry>, user: int, next: int)
    requires Built(tables, es, user) && builder != [] && Sorted(builder) && forall e :: e in builder ==> e in es
    requires user <= next && forall x :: x in builder ==> user <= x.key.user < next
    ensures Built(tables + [builder], es, next)
    ensures Concat(tables + [builder]) == Concat(tables) + builder
  {
  }

  lemma KeptIsBuilt(c: Config, es: seq<Entry>, tables: seq<seq<Entry>>, start: nat, from: nat, pos: nat)
    requires Sorted(es) && start <= from < pos <= |es| && Boundary(es, pos)
    requires Built(tables, es, NextUser(es, from)) && Concat(tables) == Kept(c, es, start, from)
    ensures var builder := Kept(c, es, from, pos);
            var all := if builder == [] then tables else tables + [builder];
            Built(all, es, NextUser(es, pos)) && Concat(all) == Kept(c, es, start, pos)
  {
    var builder := Kept(c, es, from, pos);
    KeptJoins(c, es, start, from, pos);
    KeptUsers(c, es, from, pos);
    KeptSorted(c, es, from, pos);
    if builder != [] {
      BuiltAppend(es, tables, builder, NextUser(es, from), NextUser(es, pos));
    }
  }

  /** One sub-compaction over the merged, strictly sorted input `es`, from index `start` up to the
      right end of its range. The fields are the variables that survive from table to table. */
  class Subcompaction {
    const es: seq<Entry>
    const c: Config
    const right: Option<Key>
    ghost const start: nat

    var pos: nat
    var lastKey: Option<int>
    var skipKey: Option<int>
    var numVersions: nat

    ghost predicate Valid()
      reads this
    {
      && Sorted(es) && start <= pos <= EndIndex(es, right)
      && Boundary(es, start) && Boundary(es, EndIndex(es, right))
      && (pos < |es| ==>
            && (skipKey == Some(es[pos].key.user) <==> Shadowed(c, es, pos))
            && (lastKey.Some? ==> lastKey.value <= es[pos].key.user)
            && (!Shadowed(c, es, pos) ==> Counting()))
    }

    /** The version counter is right for the next entry, and `lastKey` tells whether its key has
        been seen. */
    ghost predicate Counting()
      requires pos < |es|
      reads this
    {
      var seen := pos > 0 && es[pos - 1].key.user == es[pos].key.user;
      && (if lastKey == Some(es[pos].key.user) then numVersions else 0)
         == (if seen then VersionCount(c, es, pos - 1) else 0)
      && (seen ==> lastKey == Some(es[pos].key.user))
      && (lastKey == Some(es[pos].key.user) ==> pos < EndIndex(es, right))
    }

    constructor (es: seq<Entry>, c: Config, left: Option<Key>, right: Option<Key>)
      requires Sorted(es) && StartIndex(es, left) <= EndIndex(es, right)
      requires Boundary(es, StartIndex(es, left)) && Boundary(es, EndIndex(es, right))
      ensures Valid() && pos == StartIndex(es, left)
      ensures this.es == es && this.c == c && this.right == right && start == StartIndex(es, left)
    {
      this.es, this.c, this.right := es, c, right;
      start := StartIndex(es, left);
      pos := if left.None? then 0 else SeekIndex(es, left.value);
      lastKey, skipKey, numVersions := None, None, 0;
      new;
      if start < |es| {
        forall j | 0 <= j < start ensures es[j].key.user != es[start].key.user {
          assert j < start - 1 ==> Less(es[j].key, es[start - 1].key);
          assert Less(es[start - 1].key, es[start].key);
        }
      }
    }

    /** Fills one table. `full` is ReachedCapacity and `wide` exceedsAllowedOverlap: any functions
        do, as long as an empty builder is not full. */
    method AddKeys(full: seq<Entry> -> bool, wide: (Key, Key) -> bool) returns (builder: seq<Entry>)
      requires Valid() && pos < EndIndex(es, right) && Boundary(es, pos) && !full([])
      modifies this
      ensures Valid() && old(pos) < pos && Boundary(es, pos)
      ensures builder == Kept(c, es, old(pos), pos)
      ensures pos < EndIndex(es, right) ==> full(builder) || exists k :: wide(k, es[pos].key)
    {
      hide Dropped, Shadowed, VersionCount, Counting, Sorted, EndIndex;
      builder := [];
      var rangeCheck, tableLeft: Option<Key>, stop := 0, None, false;
      while pos < |es| && !stop
        invariant Valid() && old(pos) <= pos
        invariant builder == Kept(c, es, old(pos), pos)
        invariant pos == old(pos) ==> rangeCheck == 0 && !stop
        invariant stop || EndIndex(es, right) <= pos ==> Boundary(es, pos)
        invariant stop && pos < EndIndex(es, right) ==> full(builder) || exists k :: wide(k, es[pos].key)
        decreases |es| - pos, !stop
      {
        stop, builder, rangeCheck, tableLeft := Step(builder, full(builder), wide, rangeCheck, tableLeft);
      }
    }

    /** One turn of the loop. */
    method Step(builder: seq<Entry>, full: bool, wide: (Key, Key) -> bool, rangeCheck: nat, tableLeft: Option<Key>)
      returns (stop: bool, b: seq<Entry>, checks: nat, leftmost: Option<Key>)
      requires Valid() && pos < |es|
      requires EndIndex(es, right) <= pos ==> Boundary(es, pos)
      modifies this
      ensures Valid() && pos == if stop then old(pos) else old(pos) + 1
      ensures stop ==> b == builder && Boundary(es, pos) && (full || EndIndex(es, right) <= pos || rangeCheck > 0)
      ensures stop && !full && pos < EndIndex(es, right) ==> checks % 5000 == 0 && exists k :: wide(k, es[pos].key)
      ensures !stop ==> b == builder + if Dropped(c, es, old(pos)) then [] else [es[old(pos)]]
      ensures !stop && pos < |es| ==> pos < EndIndex(es, right) || Boundary(es, pos)
    {
      stop, checks, leftmost := Arrive(full, wide, rangeCheck, tableLeft);
      b := builder;
      if !stop {
        b := Take(builder);
      }
    }

    /** Looks at the next entry: is it skipped, is it a new key, does the table stop before it? */
    method Arrive(full: bool, wide: (Key, Key) -> bool, rangeCheck: nat, tableLeft: Option<Key>)
      returns (stop: bool, checks: nat, leftmost: Option<Key>)
      requires Valid() && pos < |es|
      requires EndIndex(es, right) <= pos ==> Boundary(es, pos)
      modifies this`lastKey, this`skipKey, this`numVersions
      ensures Valid()
      ensures stop ==> Boundary(es, pos)
      ensures stop ==> full || EndIndex(es, right) <= pos || rangeCheck > 0
      ensures var key, first := es[pos].key, old(skipKey) != Some(es[pos].key.user) && old(lastKey) != Some(es[pos].key.user);
              if !first || (right.Some? && LessEq(right.value, key)) || full
              then stop == first && checks == rangeCheck && leftmost == tableLeft
              else && checks == rangeCheck + 1 && leftmost == Some(if tableLeft.Some? then tableLeft.value else key)
                   && stop == (checks % 5000 == 0 && wide(leftmost.value, key))
      ensures !stop ==> pos < EndIndex(es, right)
      ensures !stop ==> skipKey == Some(es[pos].key.user) || (skipKey == None && lastKey == Some(es[pos].key.user))
    {
      stop, checks, leftmost := false, rangeCheck, tableLeft;
      var skip := Skipping();
      if skip || lastKey == Some(es[pos].key.user) {
        return;
      }
      stop := OpenKey(full);
      if stop {
        return;
      }
      if leftmost.None? {
        leftmost := Some(es[pos].key);
      }
      checks := checks + 1;
      stop := checks % 5000 == 0 && wide(leftmost.value, es[pos].key);
    }

    /** Skips the entry at hand, or counts it and adds it if it stays. */
    method Take(builder: seq<Entry>) returns (b: seq<Entry>)
      requires Valid() && pos < |es|
      requires if skipKey == Some(es[pos].key.user) then pos < EndIndex(es, right)
               else skipKey == None && lastKey == Some(es[pos].key.user)
      modifies this`pos, this`skipKey, this`numVersions
      ensures Valid() && pos == old(pos) + 1
      ensures pos < |es| ==> pos < EndIndex(es, right) || Boundary(es, pos)
      ensures b == builder + if Dropped(c, es, old(pos)) then [] else [es[old(pos)]]
    {
      b := builder;
      if skipKey != Some(es[pos].key.user) {
        var add := Count();
        if add {
          b := b + [es[pos]];
        }
      }
      Advance();
    }

    /** Whether the entry at hand belongs to the key being skipped; if not, skipping is over. */
    method Skipping() returns (skip: bool)
      requires Valid() && pos < |es|
      modifies this`skipKey
      ensures Valid() && skip == (skipKey == Some(es[pos].key.user)) && (!skip ==> skipKey == None)
      ensures skip ==> pos < EndIndex(es, right)
      ensures !skip && lastKey == Some(es[pos].key.user) ==> pos < EndIndex(es, right)
    {
      skip := skipKey == Some(es[pos].key.user);
      if !skip {
        skipKey := None;
      } else {
        var j :| 0 <= j < pos && EndedBy(c, es, pos, j);
        SameKeyRun(es, j, pos);
      }
    }

    /** The first version of a new key: stop here at the end of the range or of the table. */
    method OpenKey(full: bool) returns (stop: bool)
      requires Valid() && pos < |es| && skipKey == None && lastKey != Some(es[pos].key.user)
      modifies this`lastKey, this`numVersions
      ensures stop <==> (right.Some? && LessEq(right.value, es[pos].key)) || full
      ensures Valid() && Boundary(es, pos)
      ensures !stop ==> lastKey == Some(es[pos].key.user) && pos < EndIndex(es, right)
    {
      if right.Some? && LessEq(right.value, es[pos].key) {
        return true;
      }
      if full {
        return true;
      }
      lastKey := Some(es[pos].key.user);
      numVersions := 0;
      return false;
    }

    /** Counts the entry at hand and decides whether it is added; its key is skipped from here on if
        the entry ends it. */
    method Count() returns (add: bool)
      requires pos < |es| && skipKey == None && lastKey == Some(es[pos].key.user)
      requires !Shadowed(c, es, pos)
      requires numVersions == if pos > 0 && es[pos - 1].key.user == es[pos].key.user then VersionCount(c, es, pos - 1) else 0
      modifies this`numVersions, this`skipKey
      ensures add <==> !Dropped(c, es, pos)
      ensures numVersions == VersionCount(c, es, pos)
      ensures skipKey == if Ends(c, es, pos) then Some(es[pos].key.user) else None
    {
      var e := es[pos];
      var isExpired := IsDeletedOrExpired(e.vs, c.now);
      add := true;
      if e.key.ts <= c.discardTs && !e.vs.meta.merge {
        numVersions := numVersions + 1;
        var lastValidVersion := e.vs.meta.discardEarlier || numVersions == c.numVersionsToKeep;
        if isExpired || lastValidVersion {
          skipKey := Some(e.key.user);
          if !isExpired && lastValidVersion {
          } else if c.hasOverlap {
          } else {
            add := false;
          }
        }
      }
    }

    /** it.Next(), with what must be known of the entry left behind. */
    method Advance()
      requires Sorted(es) && start <= pos < EndIndex(es, right)
      requires Boundary(es, start) && Boundary(es, EndIndex(es, right))
      requires lastKey.Some? ==> lastKey.value <= es[pos].key.user
      requires skipKey == Some(es[pos].key.user) <==> Shadowed(c, es, pos) || Ends(c, es, pos)
      requires skipKey.Some? ==> skipKey == Some(es[pos].key.user)
      requires !Shadowed(c, es, pos) ==> lastKey == Some(es[pos].key.user) && numVersions == VersionCount(c, es, pos)
      modifies this`pos
      ensures Valid() && pos == old(pos) + 1
      ensures pos < |es| ==> pos < EndIndex(es, right) || Boundary(es, pos)
    {
      if pos + 1 < |es| {
        ShadowStep(c, es, pos);
        assert Less(es[pos].key, es[pos + 1].key);
      }
      pos := pos + 1;
    }

    /** Builds tables until the range is exhausted, leaving out empty ones. */
    method Run(full: seq<Entry> -> bool, wide: (Key, Key) -> bool) returns (tables: seq<seq<Entry>>)
      requires Valid() && pos == start && !full([])
      modifies this
      ensures Concat(tables) == Kept(c, es, start, EndIndex(es, right))
      ensures NonEmpty(tables)
      ensures Separate(tables)
      ensures SubTables(tables, es)
    {
      hide Shadowed, VersionCount, Dropped, Kept, Separate, SubTables;
      tables := [];
      NothingYet(c, es, start);
      while pos < |es| && !(right.Some? && LessEq(right.value, es[pos].key))
        invariant Valid() && Boundary(es, pos)
        invariant Concat(tables) == Kept(c, es, start, pos)
        invariant es != [] ==> Built(tables, es, NextUser(es, pos))
        invariant es == [] ==> tables == []
        decreases |es| - pos
      {
        tables := AddTable(tables, full, wide);
      }
      ReachedEnd(es, right, pos);
      assert es == [] ==> Built(tables, es, 0);
    }

    /** One more table, unless it would be empty. */
    method AddTable(tables: seq<seq<Entry>>, full: seq<Entry> -> bool, wide: (Key, Key) -> bool)
      returns (more: seq<seq<Entry>>)
      requires Valid() && pos < EndIndex(es, right) && Boundary(es, pos) && !full([])
      requires Concat(tables) == Kept(c, es, start, pos) && Built(tables, es, NextUser(es, pos))
      modifies this
      ensures Valid() && old(pos) < pos && Boundary(es, pos)
      ensures Concat(more) == Kept(c, es, start, pos) && Built(more, es, NextUser(es, pos))
    {
      ghost var from := pos;
      var builder := AddKeys(full, wide);
      KeptIsBuilt(c, es, tables, start, from, pos);
      more := if builder == [] then tables else tables + [builder];
    }
  }

  lemma NothingYet(c: Config, es: seq<Entry>, i: nat)
    requires i <= |es|
    ensures Concat([]) == Kept(c, es, i, i) && forall next :: Built([], es, next)
  {
  }

  lemma ReachedEnd(es: seq<Entry>, right: Option<Key>, pos: nat)
    requires pos <= EndIndex(es, right)
    requires pos < |es| ==> right.Some? && LessEq(right.value, es[pos].key)
    ensures pos == EndIndex(es, right)
  {
  }

  /** The versions of one user key lie together. */
  lemma SameKeyRun(es: seq<Entry>, j: nat, i: nat)
    requires Sorted(es) && j < i < |es| && es[j].key.user == es[i].key.user
    ensures !Boundary(es, i)
  {
  }

  lemma BoundarySplits(es: seq<Entry>, b: nat, i: nat, j: nat)
    requires Sorted(es) && i < b <= j < |es| && Boundary(es, b)
    ensures es[i].key.user < es[j].key.user
  {
  }
}
