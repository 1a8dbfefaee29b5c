/** The vocabulary shared by the LSM tree, the iterators and the value log (y/y.go, y/iterator.go).

    A user key is an integer: only the order of keys matters in these modules, and any finite set
    of byte strings can be numbered in its own order (`Keys.RankPreservesOrder`). */
module Entries {
  import opened Wrappers

  datatype Key = Key(user: int, ts: nat)

  /** The bits of `meta` that the code looks at. */
  datatype Meta = Meta(delete: bool, pointer: bool, discardEarlier: bool, merge: bool)

  datatype ValueStruct = ValueStruct(meta: Meta, expiresAt: nat, value: seq<int>)

  datatype Entry = Entry(key: Key, vs: ValueStruct)

  /** CompareKeys: user key ascending, then version descending. */
  predicate Less(a: Key, b: Key) {
    a.user < b.user || (a.user == b.user && a.ts > b.ts)
  }

  predicate LessEq(a: Key, b: Key) {
    a == b || Less(a, b)
  }

  ghost predicate Sorted(es: seq<Entry>) {
    forall i, j :: 0 <= i < j < |es| ==> Less(es[i].key, es[j].key)
  }

  predicate IsDeletedOrExpired(vs: ValueStruct, now: nat) {
    vs.meta.delete || (vs.expiresAt != 0 && vs.expiresAt <= now)
  }

  /** The newest of `x` and `y` when `x` comes from the newer place: `x` wins ties. */
  function Newer(x: Option<Entry>, y: Option<Entry>): Option<Entry> {
    if y.None? || (x.Some? && x.value.key.ts >= y.value.key.ts) then x else y
  }

  predicate Matches(e: Entry, user: int, ts: nat) {
    e.key.user == user && e.key.ts <= ts
  }

  /** The entry with the greatest version of `user` at or below `ts`; the first one wins ties. */
  function Best(es: seq<Entry>, user: int, ts: nat): Option<Entry>
  {
    if es == [] then None
    else
      var last := es[|es| - 1];
      Newer(Best(es[..|es| - 1], user, ts), if Matches(last, user, ts) then Some(last) else None)
  }

  lemma {:induction false} BestIsGreatest(es: seq<Entry>, user: int, ts: nat)
    ensures var r := Best(es, user, ts);
            && (r.Some? ==> r.value in es && Matches(r.value, user, ts))
            && forall e :: e in es && Matches(e, user, ts) ==> r.Some? && e.key.ts <= r.value.key.ts
  {
    if es != [] { BestIsGreatest(es[..|es| - 1], user, ts); }
  }

  lemma {:induction false} BestConcat(a: seq<Entry>, b: seq<Entry>, user: int, ts: nat)
    ensures Best(a + b, user, ts) == Newer(Best(a, user, ts), Best(b, user, ts))
  {
    if b == [] {
      assert a + b == a;
    } else {
      assert (a + b)[..|a + b| - 1] == a + b[..|b| - 1];
      BestConcat(a, b[..|b| - 1], user, ts);
    }
  }

  /** In a list without two entries of the same key, the newest entry is the only candidate. */
  lemma BestIs(es: seq<Entry>, user: int, ts: nat, e: Entry)
    requires e in es && Matches(e, user, ts)
    requires forall x :: x in es && Matches(x, user, ts) && x != e ==> x.key.ts < e.key.ts
    ensures Best(es, user, ts) == Some(e)
  {
    BestIsGreatest(es, user, ts);
  }

  /** Entries that cannot match do not matter. */
  lemma BestSame(all: seq<Entry>, part: seq<Entry>, user: int, ts: nat)
    requires Sorted(part)
    requires forall e :: e in part ==> e in all
    requires forall e :: e in all && Matches(e, user, ts) ==> e in part
    ensures Best(all, user, ts) == Best(part, user, ts)
  {
    BestIsGreatest(all, user, ts);
    BestIsGreatest(part, user, ts);
    var b := Best(part, user, ts);
    if b.Some? {
      forall x | x in all && Matches(x, user, ts) && x != b.value ensures x.key.ts < b.value.key.ts {
        SameKeySameEntry(part, x, b.value);
      }
      BestIs(all, user, ts, b.value);
    }
  }

  lemma SameKeySameEntry(es: seq<Entry>, x: Entry, y: Entry)
    requires Sorted(es) && x in es && y in es
    ensures x.key == y.key ==> x == y
  {
  }

  function Alive(b: Option<Entry>, now: nat): Option<ValueStruct> {
    if b.None? || IsDeletedOrExpired(b.value.vs, now) then None else Some(b.value.vs)
  }

  /** What a read of `user` at `ts` returns: nothing for a deleted or expired version. */
  function Visible(es: seq<Entry>, user: int, ts: nat, now: nat): Option<ValueStruct> {
    Alive(Best(es, user, ts), now)
  }

  /** What is read is the newest version, with neither a delete mark nor an expiry that has passed. */
  lemma VisibleIsAlive(es: seq<Entry>, user: int, ts: nat, now: nat)
    requires Visible(es, user, ts, now).Some?
    ensures exists e :: e in es && e.key.user == user && e.key.ts <= ts && Visible(es, user, ts, now) == Some(e.vs)
                     && !e.vs.meta.delete && (e.vs.expiresAt == 0 || e.vs.expiresAt > now)
                     && forall x :: x in es && x.key.user == user && x.key.ts <= ts ==> x.key.ts <= e.key.ts
  {
    BestIsGreatest(es, user, ts);
    assert Best(es, user, ts).value in es;
  }

  /** And conversely: the newest version decides, by its delete mark and its expiry. */
  lemma NewestDecides(es: seq<Entry>, user: int, ts: nat, now: nat, e: Entry)
    requires e in es && e.key.user == user && e.key.ts <= ts
    requires forall x :: x in es && x.key.user == user && x.key.ts <= ts && x != e ==> x.key.ts < e.key.ts
    ensures Visible(es, user, ts, now) ==
            if e.vs.meta.delete || (e.vs.expiresAt > 0 && now >= e.vs.expiresAt) then None else Some(e.vs)
  {
    BestIs(es, user, ts, e);
  }

  /** A version that has expired is not read. */
  lemma ExpiredIsGone()
    ensures
      var es := [Entry(Key(1, 3), ValueStruct(Meta(false, false, false, false), 5, [7]))];
      Visible(es, 1, 3, 100) == None && Visible(es, 1, 3, 4) == Some(es[0].vs)
  {
    var es := [Entry(Key(1, 3), ValueStruct(Meta(false, false, false, false), 5, [7]))];
    NewestDecides(es, 1, 3, 100, es[0]);
    NewestDecides(es, 1, 3, 4, es[0]);
  }

  /** Where a sorted list reaches `k`: everything before is below it, nothing after is. */
  function SeekIndex(es: seq<Entry>, k: Key): (r: nat)
    ensures r <= |es|
    ensures forall i :: 0 <= i < r ==> Less(es[i].key, k)
    ensures r < |es| ==> LessEq(k, es[r].key)
  {
    if es == [] || LessEq(k, es[0].key) then 0 else 1 + SeekIndex(es[1..], k)
  }

  lemma SeekIndexSplits(es: seq<Entry>, k: Key)
    requires Sorted(es)
    ensures forall i :: SeekIndex(es, k) <= i < |es| ==> LessEq(k, es[i].key)
  {
  }

  lemma SeekIndexIs(es: seq<Entry>, k: Key, r: nat)
    requires r <= |es|
    requires forall i :: 0 <= i < r ==> Less(es[i].key, k)
    requires r < |es| ==> LessEq(k, es[r].key)
    ensures SeekIndex(es, k) == r
  {
  }

  /** In a sorted list a read is one seek: the entry found is the newest at or below the version
      asked, or belongs to another key. */
  lemma SeekIsBest(es: seq<Entry>, k: Key)
    requires Sorted(es)
    ensures var i := SeekIndex(es, k);
            Best(es, k.user, k.ts) == if i < |es| && es[i].key.user == k.user then Some(es[i]) else None
  {
    SeekIndexSplits(es, k);
    BestIsGreatest(es, k.user, k.ts);
    var i := SeekIndex(es, k);
    if i < |es| && es[i].key.user == k.user {
      forall x | x in es && Matches(x, k.user, k.ts) && x != es[i] ensures x.key.ts < es[i].key.ts {
        var j :| 0 <= j < |es| && es[j] == x;
        assert i < j;
      }
      BestIs(es, k.user, k.ts, es[i]);
    } else {
      forall x | x in es ensures !Matches(x, k.user, k.ts) {
        var j :| 0 <= j < |es| && es[j] == x;
        if i < j { assert Less(es[i].key, es[j].key); }
      }
    }
  }

  /** Several lists in one, as they come. */
  function Concat(ps: seq<seq<Entry>>): seq<Entry> {
    if ps == [] then [] else Concat(ps[..|ps| - 1]) + ps[|ps| - 1]
  }

  lemma {:induction false} ConcatMember(ps: seq<seq<Entry>>, e: Entry)
    ensures e in Concat(ps) <==> exists i :: 0 <= i < |ps| && e in ps[i]
  {
    if ps != [] { ConcatMember(ps[..|ps| - 1], e); }
  }

  lemma {:induction false} ConcatHead(a: seq<Entry>, rest: seq<seq<Entry>>)
    ensures Concat([a] + rest) == a + Concat(rest)
  {
    if rest == [] {
      assert [a] + rest == [a] && [a][..0] == [] && Concat([]) == [];
      assert Concat([a]) == Concat([]) + a;
    } else {
      assert ([a] + rest)[..|rest|] == [a] + rest[..|rest| - 1];
      ConcatHead(a, rest[..|rest| - 1]);
      assert Concat([a] + rest) == a + Concat(rest[..|rest| - 1]) + rest[|rest| - 1];
    }
  }

  // ---------------------------------------------------------------- key ranges (compaction.go)

  /** Larger than any version. */
  const MAX_TS: nat := 0xFFFF_FFFF_FFFF_FFFF

  datatype KeyRange = KeyRange(left: Option<Key>, right: Option<Key>, inf: bool) {
    predicate IsEmpty() {
      left.None? && right.None? && !inf
    }
  }

  const INF_RANGE := KeyRange(None, None, true)
}
