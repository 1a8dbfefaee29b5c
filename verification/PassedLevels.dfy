/** A compaction from level 0 past a level that is not empty (levels.go levelTargets, checkOverlap,
    runCompactDef), in a state that `Interleavings` allows and with nothing else running. */
module PassedLevels {
  import opened Wrappers
  import opened Entries
  import opened Interleavings
  import Compactions
  import BaseLevels

  /** The base level chosen for these sizes leaves nothing in between exactly under the condition of
      `BaseLevels.NothingPassedIff`. */
  lemma ChoiceIsSafeIff(levels: seq<set<Table>>, sizes: seq<nat>, base: nat, multiplier: nat, j: Job)
    requires |levels| == |sizes| >= 2 && multiplier >= 1 && j.from == 0 && j.to == BaseLevels.Base(sizes, base, multiplier)
    requires forall k :: 0 <= k < |sizes| ==> (sizes[k] == 0 <==> levels[k] == {})
    ensures var d := BaseLevels.BySize(sizes[|sizes| - 1], |sizes| - 1, base, multiplier);
            PassesNothing(levels, j) <==>
            BaseLevels.EmptyAbove(sizes, d) && (d == 0 || sizes[d] == 0 || d + 1 >= |sizes| - 1 || sizes[d + 1] > 0)
  {
    BaseLevels.NothingPassedIff(sizes, base, multiplier);
    hide BaseLevels.Base, BaseLevels.BySize;
  }

  /** The levels once the compaction is installed and its input deleted. */
  ghost function After(levels: seq<set<Table>>, j: Job, out: set<Table>): (r: seq<set<Table>>)
    requires j.from < j.to < |levels|
    ensures |r| == |levels|
  {
    levels[j.to := levels[j.to] - j.bot + out][j.from := levels[j.from] - j.top]
  }

  ghost predicate Stored(s: State, levels: seq<set<Table>>, e: Entry) {
    InMem(s, e) || exists k :: 0 <= k < |levels| && At(levels[k], e)
  }

  /** At a level strictly between. */
  ghost predicate Between(levels: seq<set<Table>>, j: Job, e: Entry) {
    exists k :: j.from < k < j.to && k < |levels| && At(levels[k], e)
  }

  /** What the compaction reads and writes. */
  ghost predicate Io(levels: seq<set<Table>>, j: Job, c: Compactions.Config, es: seq<Entry>, out: set<Table>) {
    && j.from < j.to < |levels| && j.top <= levels[j.from] && j.bot <= levels[j.to] && Sorted(es)
    && (forall e :: e in es <==> At(j.top, e) || At(j.bot, e))
    && forall e :: At(out, e) <==> e in Compactions.Kept(c, es, 0, |es|)
  }

  /** The state is one that a run reaches, and nothing else is being compacted or flushed. */
  ghost predicate Quiet(s: State) {
    Known(s) && MemAbove(s) && LevelOrder(s.levels, map[]) && Shape(s.levels) && !s.flushed
  }

  /** A compaction on its own, after any run. */
  ghost predicate Alone(s: State, j: Job, c: Compactions.Config, es: seq<Entry>, out: set<Table>, span: Range) {
    && Inv(s) && s.jobs == map[] && !s.flushed && Picks(s, j) && Filters(s, j, c, es, out, span)
  }

  lemma AloneIs(s: State, j: Job, c: Compactions.Config, es: seq<Entry>, out: set<Table>, span: Range)
    requires Alone(s, j, c, es, out, span)
    ensures Io(s.levels, j, c, es, out) && Quiet(s) && c.discardTs <= s.discardTs && c.now <= s.now
    ensures Picks(s, j) && Filters(s, j, c, es, out, span)
  {
    hide LevelOrder, Shape, Known, MemOrder, MemAbove, Covered, NothingLost, Placed, ReaderOk, At, Touches, SpanOf, NoShare;
  }

  lemma AtSubset(a: set<Table>, b: set<Table>, e: Entry)
    requires a <= b
    ensures At(a, e) ==> At(b, e)
  {
  }

  // ---------------------------------------------------------------- where versions are afterwards

  lemma AfterSource(levels: seq<set<Table>>, j: Job, out: set<Table>, k: nat, e: Entry)
    requires j.from < j.to < |levels| && k < |levels| && At(After(levels, j, out)[k], e)
    ensures At(levels[k], e) || (k == j.to && At(out, e))
  {
    var t :| t in After(levels, j, out)[k] && e in t.entries;
  }

  lemma AfterOut(levels: seq<set<Table>>, j: Job, out: set<Table>, e: Entry)
    requires j.from < j.to < |levels| && At(out, e)
    ensures At(After(levels, j, out)[j.to], e)
  {
    var t :| t in out && e in t.entries;
    assert t in After(levels, j, out)[j.to];
  }

  lemma AfterStays(levels: seq<set<Table>>, j: Job, out: set<Table>, k: nat, e: Entry)
    requires j.from < j.to < |levels| && k < |levels| && At(levels[k], e) && !At(j.top, e) && !At(j.bot, e)
    ensures At(After(levels, j, out)[k], e)
  {
    var t :| t in levels[k] && e in t.entries;
    assert t !in j.top && t !in j.bot;
    assert t in After(levels, j, out)[k];
  }

  /** The levels passed over are not touched. */
  lemma BetweenStays(s: State, j: Job, out: set<Table>, x: Entry)
    requires j.from < j.to < |s.levels| && Between(s.levels, j, x)
    ensures Stored(s, s.levels, x) && Stored(s, After(s.levels, j, out), x)
  {
    var k :| j.from < k < j.to && At(s.levels[k], x);
    assert After(s.levels, j, out)[k] == s.levels[k];
  }

  lemma InputIsStored(s: State, j: Job, c: Compactions.Config, es: seq<Entry>, out: set<Table>, e: Entry)
    requires Io(s.levels, j, c, es, out) && e in es
    ensures Stored(s, s.levels, e)
  {
    AtSubset(j.top, s.levels[j.from], e);
    AtSubset(j.bot, s.levels[j.to], e);
    hide At, InMem, Compactions.Kept;
  }

  /** Nothing new is stored. */
  lemma NothingNew(s: State, j: Job, c: Compactions.Config, es: seq<Entry>, out: set<Table>, e: Entry)
    requires Io(s.levels, j, c, es, out) && Stored(s, After(s.levels, j, out), e)
    ensures Stored(s, s.levels, e)
  {
    hide At, InMem, Compactions.Kept, After;
    if k :| 0 <= k < |s.levels| && At(After(s.levels, j, out)[k], e) {
      AfterSource(s.levels, j, out, k, e);
      if At(out, e) {
        FilterAdds(c, es, e);
        InputIsStored(s, j, c, es, out, e);
      }
    }
  }

  /** What is kept or not in the input stays. */
  lemma StillStored(s: State, j: Job, c: Compactions.Config, es: seq<Entry>, out: set<Table>, e: Entry)
    requires Io(s.levels, j, c, es, out) && Stored(s, s.levels, e)
    requires e !in es || e in Compactions.Kept(c, es, 0, |es|)
    ensures Stored(s, After(s.levels, j, out), e)
  {
    hide At, InMem, Compactions.Kept, After;
    if e in es {
      AfterOut(s.levels, j, out, e);
    } else if k :| 0 <= k < |s.levels| && At(s.levels[k], e) {
      AfterStays(s.levels, j, out, k, e);
    }
  }

  /** A version is stored once. */
  lemma OneVersion(s: State, x: Entry, y: Entry)
    requires Known(s) && Stored(s, s.levels, x) && Stored(s, s.levels, y) && x.key == y.key
    ensures x == y
  {
  }

  // ---------------------------------------------------------------- where older versions can be

  lemma HigherIsNewer(levels: seq<set<Table>>, k: nat, l: nat, x: Entry, w: Entry)
    requires LevelOrder(levels, map[]) && k < l < |levels| && At(levels[k], x) && At(levels[l], w)
    ensures Above(x, w)
  {
  }

  lemma LeftInLevel(s: State, j: Job, o: Table, x: Entry, w: Entry)
    requires Shape(s.levels) && Picks(s, j) && o in s.levels[j.from] && o !in j.top && x in o.entries && At(j.top, w)
    ensures Above(x, w)
  {
    hide Touches, SpanOf, Disjoint;
    var p :| p in j.top && w in p.entries;
    assert p in s.levels[j.from];
  }

  lemma LeftBelow(levels: seq<set<Table>>, j: Job, o: Table, x: Entry, w: Entry)
    requires j.to < |levels| && NoShare(levels[j.to]) && j.bot <= levels[j.to] && (forall e :: At(j.top, e) ==> In(j.here, e.key.user))
    requires o in levels[j.to] && o !in j.bot && !Touches(o, j.here) && x in o.entries && (At(j.top, w) || At(j.bot, w))
    ensures x.key.user != w.key.user
  {
    if !At(j.top, w) {
      var p :| p in j.bot && w in p.entries;
      assert p in levels[j.to];
    }
  }

  lemma FurtherDown(s: State, j: Job, c: Compactions.Config, es: seq<Entry>, out: set<Table>, span: Range, k: nat, x: Entry, w: Entry)
    requires Filters(s, j, c, es, out, span) && !c.hasOverlap && j.to < k < |s.levels| && At(s.levels[k], x) && w in es
    ensures x.key.user != w.key.user
  {
    hide Compactions.Kept, Sorted, NoShare;
    var o :| o in s.levels[k] && x in o.entries;
    assert !Touches(o, span);
    assert At(j.top + j.bot, w) by {
      var p :| p in j.top + j.bot && w in p.entries;
    }
  }

  lemma MemIsNewer(s: State, l: nat, x: Entry, w: Entry)
    requires MemAbove(s) && !s.flushed && InMem(s, x) && l < |s.levels| && At(s.levels[l], w)
    ensures Above(x, w)
  {
  }

  /** What is still stored afterwards, did not come out of the compaction, and is no newer than a version
      of the same key in its input, is at a level passed over. */
  lemma OlderIsBetween(s: State, j: Job, c: Compactions.Config, es: seq<Entry>, out: set<Table>, span: Range, w: Entry, x: Entry)
    requires Quiet(s) && Picks(s, j) && Filters(s, j, c, es, out, span) && Io(s.levels, j, c, es, out) && w in es && !c.hasOverlap
    requires Stored(s, After(s.levels, j, out), x) && !At(out, x) && x.key.user == w.key.user && x.key.ts <= w.key.ts
    ensures Between(s.levels, j, x)
  {
    var mem := InMem(s, x);
    hide Picks, Filters, Quiet, InMem, Compactions.Kept, Sorted;
    if mem {
      NotInMem(s, j, c, es, out, w, x);
    } else {
      var k, o := AfterTable(s.levels, j, out, x);
      hide At;
      OlderAt(s, j, c, es, out, span, w, x, k, o);
      TableAt(s.levels[k], o, x);
    }
  }

  lemma TableAt(ts: set<Table>, o: Table, x: Entry)
    requires o in ts && x in o.entries
    ensures At(ts, x)
  {
  }

  lemma NotInMem(s: State, j: Job, c: Compactions.Config, es: seq<Entry>, out: set<Table>, w: Entry, x: Entry)
    requires Quiet(s) && Io(s.levels, j, c, es, out) && w in es && InMem(s, x)
    ensures Above(x, w)
  {
    AtSubset(j.top, s.levels[j.from], w);
    AtSubset(j.bot, s.levels[j.to], w);
    var l := if At(j.top, w) then j.from else j.to;
    hide At, InMem, Compactions.Kept, Sorted, MemAbove, LevelOrder, Shape, Known;
    MemIsNewer(s, l, x, w);
  }

  lemma AfterTable(levels: seq<set<Table>>, j: Job, out: set<Table>, x: Entry) returns (k: nat, o: Table)
    requires j.from < j.to < |levels| && !At(out, x) && exists k :: 0 <= k < |levels| && At(After(levels, j, out)[k], x)
    ensures k < |levels| && o in levels[k] && x in o.entries && (k == j.from ==> o !in j.top) && (k == j.to ==> o !in j.bot)
  {
    k :| 0 <= k < |levels| && At(After(levels, j, out)[k], x);
    o :| o in After(levels, j, out)[k] && x in o.entries;
    assert o !in out;
  }

  /** The same for a table `o` of level `k` that is not part of the compaction. */
  lemma OlderAt(s: State, j: Job, c: Compactions.Config, es: seq<Entry>, out: set<Table>, span: Range, w: Entry, x: Entry, k: nat, o: Table)
    requires Quiet(s) && Picks(s, j) && Filters(s, j, c, es, out, span) && Io(s.levels, j, c, es, out) && w in es && !c.hasOverlap
    requires k < |s.levels| && o in s.levels[k] && x in o.entries && (k == j.from ==> o !in j.top) && (k == j.to ==> o !in j.bot)
    requires x.key.user == w.key.user && x.key.ts <= w.key.ts
    ensures j.from < k < j.to
  {
    AtSubset(j.top, s.levels[j.from], w);
    AtSubset(j.bot, s.levels[j.to], w);
    var l := if At(j.top, w) then j.from else j.to;
    assert At(s.levels[k], x) && At(s.levels[l], w);
    hide At, Picks, Filters, MemAbove, LevelOrder, Shape, Known, InMem, Compactions.Kept, Sorted, Touches;
    if k < l {
      HigherIsNewer(s.levels, k, l, x, w);
    } else if k == j.from {
      LeftInLevel(s, j, o, x, w);
    } else if k == j.to {
      PickedBelow(s, j, o);
      LeftBelow(s.levels, j, o, x, w);
    } else if k > j.to {
      FurtherDown(s, j, c, es, out, span, k, x, w);
    }
  }

  lemma PickedBelow(s: State, j: Job, o: Table)
    requires Picks(s, j) && Shape(s.levels) && o in s.levels[j.to] && o !in j.bot
    ensures NoShare(s.levels[j.to]) && (forall e :: At(j.top, e) ==> In(j.here, e.key.user)) && !Touches(o, j.here)
  {
    hide Touches, NoShare, Disjoint, Aged;
  }

  // ---------------------------------------------------------------- what a read finds

  /** The read finds `found` in the input, which is dropped; `hidden`, the newest version at the levels
      passed over, is alive. */
  predicate Revives(c: Compactions.Config, es: seq<Entry>, found: Option<Entry>, hidden: Option<Entry>, now: nat) {
    && found.Some? && found.value in es && Compactions.DropsTombstone(c, found.value)
    && hidden.Some? && !IsDeletedOrExpired(hidden.value.vs, now)
  }

  /** `b` is what a read of `user` at `t` finds among all that is stored. */
  ghost predicate Answer(s: State, levels: seq<set<Table>>, user: int, t: nat, b: Option<Entry>) {
    NewestIn(e => Stored(s, levels, e), user, t, b)
  }

  /** `b` is the newest version at the levels passed over. */
  ghost predicate HiddenIs(levels: seq<set<Table>>, j: Job, user: int, t: nat, b: Option<Entry>) {
    NewestIn(e => Between(levels, j, e), user, t, b)
  }

  lemma HiddenMeans(levels: seq<set<Table>>, j: Job, user: int, t: nat, b: Option<Entry>)
    requires HiddenIs(levels, j, user, t, b)
    ensures b.Some? ==> Between(levels, j, b.value) && Matches(b.value, user, t)
    ensures forall e :: Between(levels, j, e) && Matches(e, user, t) ==> b.Some? && e.key.ts <= b.value.key.ts
  {
    hide Between;
  }

  lemma QuietIs(s: State)
    requires Quiet(s)
    ensures Known(s)
  {
  }

  lemma AnswerIs(s: State, levels: seq<set<Table>>, user: int, t: nat, b: Option<Entry>)
    requires Answer(s, levels, user, t, b)
    ensures b.Some? ==> Stored(s, levels, b.value) && Matches(b.value, user, t)
    ensures forall e :: Stored(s, levels, e) && Matches(e, user, t) ==> b.Some? && e.key.ts <= b.value.key.ts
  {
    hide Stored;
  }

  /** The newest version in the input comes through unless it is a tombstone that is dropped, and then
      nothing older does either. */
  lemma NewestKept(c: Compactions.Config, es: seq<Entry>, w: Entry, t: nat)
    requires Sorted(es) && w in es && w.key.ts <= t && c.discardTs <= t
    requires forall x :: x in es && Matches(x, w.key.user, t) ==> x.key.ts <= w.key.ts
    ensures if Compactions.DropsTombstone(c, w) then forall y :: y in Compactions.Kept(c, es, 0, |es|) ==> !Matches(y, w.key.user, t)
            else w in Compactions.Kept(c, es, 0, |es|)
  {
    var kept := Compactions.Kept(c, es, 0, |es|);
    forall x | x in es && Matches(x, w.key.user, t) && x != w ensures x.key.ts < w.key.ts {
      SameKeySameEntry(es, x, w);
    }
    BestIs(es, w.key.user, t, w);
    Compactions.KeptNothing(c, es, w.key.user, t);
    Compactions.KeptBest(c, es, w.key.user, t);
    BestIsGreatest(kept, w.key.user, t);
    hide Compactions.Kept, Best;
  }

  /** Exactly when the compaction changes a read: the read finds a deleted version that is dropped, over
      a live one at a level passed over. */
  lemma PassingIff(s: State, j: Job, c: Compactions.Config, es: seq<Entry>, out: set<Table>, span: Range, user: int, t: nat,
                   now: nat, before: Option<Entry>, after: Option<Entry>, hidden: Option<Entry>)
    requires Alone(s, j, c, es, out, span) && s.discardTs <= t && s.now <= now && j.from < j.to < |s.levels|
    requires Answer(s, s.levels, user, t, before) && Answer(s, After(s.levels, j, out), user, t, after)
    requires HiddenIs(s.levels, j, user, t, hidden)
    ensures Alive(after, now) == Alive(before, now) <==> !Revives(c, es, before, hidden, now)
  {
    hide Alone, Io, Quiet, Answer, After, Filters, Picks, HiddenIs, Known, Compactions.DropsTombstone;
    AloneIs(s, j, c, es, out, span);
    QuietIs(s);
    if before.None? {
      NothingAfter(s, j, c, es, out, user, t, before, after);
    } else if before.value in es && Compactions.DropsTombstone(c, before.value) {
      DroppedOver(s, j, c, es, out, span, user, t, before, after, hidden);
    } else {
      StaysAfter(s, j, c, es, out, user, t, before, after);
    }
  }

  lemma NothingAfter(s: State, j: Job, c: Compactions.Config, es: seq<Entry>, out: set<Table>, user: int, t: nat,
                     before: Option<Entry>, after: Option<Entry>)
    requires Io(s.levels, j, c, es, out) && before.None?
    requires Answer(s, s.levels, user, t, before) && Answer(s, After(s.levels, j, out), user, t, after)
    ensures after == None
  {
    AnswerIs(s, s.levels, user, t, before);
    AnswerIs(s, After(s.levels, j, out), user, t, after);
    hide Io, Stored, After, Answer;
    if after.Some? { NothingNew(s, j, c, es, out, after.value); }
  }

  lemma StaysAfter(s: State, j: Job, c: Compactions.Config, es: seq<Entry>, out: set<Table>, user: int, t: nat,
                   before: Option<Entry>, after: Option<Entry>)
    requires Io(s.levels, j, c, es, out) && Known(s) && c.discardTs <= t && before.Some?
    requires Answer(s, s.levels, user, t, before) && Answer(s, After(s.levels, j, out), user, t, after)
    requires before.value in es ==> !Compactions.DropsTombstone(c, before.value)
    ensures after == before
  {
    var w := before.value;
    AnswerIs(s, s.levels, user, t, before);
    AnswerIs(s, After(s.levels, j, out), user, t, after);
    hide Stored, After, Answer, At, Known, Compactions.Kept, Sorted;
    if w in es {
      forall x | x in es && Matches(x, user, t) ensures x.key.ts <= w.key.ts { InputIsStored(s, j, c, es, out, x); }
      NewestKept(c, es, w, t);
    }
    StillStored(s, j, c, es, out, w);
    NothingNew(s, j, c, es, out, after.value);
    OneVersion(s, w, after.value);
  }

  /** Where the tombstone is dropped, only levels passed over are left to answer. */
  lemma OnlyBetween(s: State, j: Job, c: Compactions.Config, es: seq<Entry>, out: set<Table>, span: Range, user: int, t: nat,
                    w: Entry, a: Entry)
    requires Quiet(s) && Picks(s, j) && Filters(s, j, c, es, out, span) && Io(s.levels, j, c, es, out) && c.discardTs <= t
    requires w in es && Matches(w, user, t) && Compactions.DropsTombstone(c, w)
    requires forall e :: Stored(s, s.levels, e) && Matches(e, user, t) ==> e.key.ts <= w.key.ts
    requires Stored(s, After(s.levels, j, out), a) && Matches(a, user, t)
    ensures Between(s.levels, j, a)
  {
    NothingNew(s, j, c, es, out, a);
    InputBelow(s, j, c, es, out, user, t, w);
    hide Stored, After, Quiet, Filters, Picks, Between, At, Compactions.Kept;
    NewestKept(c, es, w, t);
    assert !At(out, a);
    hide Io;
    OlderIsBetween(s, j, c, es, out, span, w, a);
  }

  lemma DroppedOver(s: State, j: Job, c: Compactions.Config, es: seq<Entry>, out: set<Table>, span: Range, user: int, t: nat,
                    before: Option<Entry>, after: Option<Entry>, hidden: Option<Entry>)
    requires Quiet(s) && Picks(s, j) && Filters(s, j, c, es, out, span) && Io(s.levels, j, c, es, out) && c.discardTs <= t
    requires before.Some? && before.value in es && Compactions.DropsTombstone(c, before.value)
    requires Answer(s, s.levels, user, t, before) && Answer(s, After(s.levels, j, out), user, t, after)
    requires HiddenIs(s.levels, j, user, t, hidden)
    ensures after == hidden && IsDeletedOrExpired(before.value.vs, c.now)
  {
    AnswerIs(s, s.levels, user, t, before);
    AnswerIs(s, After(s.levels, j, out), user, t, after);
    HiddenMeans(s.levels, j, user, t, hidden);
    QuietIs(s);
    assert IsDeletedOrExpired(before.value.vs, c.now);
    hide Stored, After, Answer, HiddenIs, Quiet, Known, Filters, Picks, Between, Compactions.DropsTombstone, Compactions.Kept, At, Sorted;
    if after.Some? {
      OnlyBetween(s, j, c, es, out, span, user, t, before.value, after.value);
      BetweenStays(s, j, out, after.value);
    }
    if hidden.Some? { BetweenStays(s, j, out, hidden.value); }
    if after.Some? && hidden.Some? { OneVersion(s, after.value, hidden.value); }
  }

  lemma InputBelow(s: State, j: Job, c: Compactions.Config, es: seq<Entry>, out: set<Table>, user: int, t: nat, w: Entry)
    requires Io(s.levels, j, c, es, out)
    requires forall e :: Stored(s, s.levels, e) && Matches(e, user, t) ==> e.key.ts <= w.key.ts
    ensures forall x :: x in es && Matches(x, user, t) ==> x.key.ts <= w.key.ts
  {
    forall x | x in es && Matches(x, user, t) ensures x.key.ts <= w.key.ts {
      InputIsStored(s, j, c, es, out, x);
    }
  }

  // ---------------------------------------------------------------- the order of the levels

  /** No key that comes out of the tables moved down is at a level passed over. */
  ghost predicate NoneShared(levels: seq<set<Table>>, j: Job, c: Compactions.Config, es: seq<Entry>) {
    forall k, x, y :: j.from < k < j.to && k < |levels| && At(levels[k], x) && y in Compactions.Kept(c, es, 0, |es|) && At(j.top, y) ==>
      x.key.user != y.key.user
  }

  /** Exactly when higher levels go on having only newer versions, on which every later compaction
      depends. */
  lemma OrderKeptIff(s: State, j: Job, c: Compactions.Config, es: seq<Entry>, out: set<Table>, span: Range)
    requires Alone(s, j, c, es, out, span) && j.from < j.to < |s.levels|
    ensures LevelOrder(After(s.levels, j, out), map[]) <==> NoneShared(s.levels, j, c, es)
  {
    AloneIs(s, j, c, es, out, span);
    hide Alone, Filters, Known, MemAbove;
    var n := After(s.levels, j, out);
    if LevelOrder(n, map[]) {
      hide Shape, Picks, Sorted, Compactions.Kept;
      forall k, x, y | j.from < k < j.to && At(s.levels[k], x) && y in Compactions.Kept(c, es, 0, |es|) && At(j.top, y)
        ensures x.key.user != y.key.user
      {
        MovedPast(s.levels, j, c, es, out, k, x, y);
      }
    }
    if NoneShared(s.levels, j, c, es) {
      forall p, q, x, y | 0 <= p < q < |n| && At(n[p], x) && At(n[q], y) ensures Above(x, y) {
        hide LevelOrder, Shape, Picks, Sorted, At, Compactions.Kept, After;
        InOrder(s, j, c, es, out, p, q, x, y);
      }
    }
  }

  lemma MovedPast(levels: seq<set<Table>>, j: Job, c: Compactions.Config, es: seq<Entry>, out: set<Table>, k: nat, x: Entry, y: Entry)
    requires Io(levels, j, c, es, out) && LevelOrder(levels, map[]) && LevelOrder(After(levels, j, out), map[])
    requires j.from < k < j.to && At(levels[k], x) && y in Compactions.Kept(c, es, 0, |es|) && At(j.top, y)
    ensures x.key.user != y.key.user
  {
    AtSubset(j.top, levels[j.from], y);
    HigherIsNewer(levels, j.from, k, y, x);
    AfterOut(levels, j, out, y);
    assert After(levels, j, out)[k] == levels[k];
    hide At, Compactions.Kept;
    HigherIsNewer(After(levels, j, out), k, j.to, x, y);
  }

  lemma InOrder(s: State, j: Job, c: Compactions.Config, es: seq<Entry>, out: set<Table>, p: nat, q: nat, x: Entry, y: Entry)
    requires Io(s.levels, j, c, es, out) && Quiet(s) && Picks(s, j) && NoneShared(s.levels, j, c, es)
    requires p < q < |s.levels| && At(After(s.levels, j, out)[p], x) && At(After(s.levels, j, out)[q], y)
    ensures Above(x, y)
  {
    hide At, Compactions.Kept, After, Quiet, Picks, Sorted, NoneShared;
    AfterSource(s.levels, j, out, p, x);
    AfterSource(s.levels, j, out, q, y);
    if At(s.levels[q], y) && At(s.levels[p], x) {
      OldOrder(s, p, q, x, y);
    } else if At(s.levels[q], y) {
      FilterAdds(c, es, x);
      AtSubset(j.top, s.levels[j.from], x);
      AtSubset(j.bot, s.levels[j.to], x);
      OldOrder(s, if At(j.top, x) then j.from else j.to, q, x, y);
    } else {
      FilterAdds(c, es, y);
      AtSubset(j.top, s.levels[j.from], y);
      AtSubset(j.bot, s.levels[j.to], y);
      if p < j.from {
        OldOrder(s, p, j.from, x, y);
      } else if p == j.from {
        LeftAfter(s, j, c, es, out, x, y);
      } else {
        NoneSharedMeans(s.levels, j, c, es, p, x, y);
      }
    }
  }

  lemma OldOrder(s: State, p: nat, q: nat, x: Entry, y: Entry)
    requires Quiet(s) && p < q < |s.levels| && At(s.levels[p], x) && At(s.levels[q], y)
    ensures Above(x, y)
  {
    hide Known, MemAbove, Shape, At;
    HigherIsNewer(s.levels, p, q, x, y);
  }

  lemma LeftAfter(s: State, j: Job, c: Compactions.Config, es: seq<Entry>, out: set<Table>, x: Entry, y: Entry)
    requires Io(s.levels, j, c, es, out) && Quiet(s) && Picks(s, j) && At(After(s.levels, j, out)[j.from], x) && At(j.top, y)
    ensures Above(x, y)
  {
    hide Known, MemAbove, Shape, LevelOrder, Picks, Compactions.Kept, Sorted;
    var o :| o in After(s.levels, j, out)[j.from] && x in o.entries;
    LeftInLevel(s, j, o, x, y);
  }

  lemma NoneSharedMeans(levels: seq<set<Table>>, j: Job, c: Compactions.Config, es: seq<Entry>, p: nat, x: Entry, y: Entry)
    requires NoneShared(levels, j, c, es) && j.from < p < j.to && p < |levels| && At(levels[p], x)
    requires y in Compactions.Kept(c, es, 0, |es|) && At(j.top, y)
    ensures Above(x, y)
  {
  }

  // ---------------------------------------------------------------- the failure

  function Live(): Entry {
    Entry(Key(1, 3), ValueStruct(Meta(false, false, false, false), 0, [7]))
  }

  function Tomb(): Entry {
    Entry(Key(1, 5), ValueStruct(Meta(true, false, false, false), 0, []))
  }

  /** A tombstone in level 0, an older live version in level 1, and an empty last level. */
  function Three(): State {
    State({Live(), Tomb()}, {}, [], false, [{Table(2, {Tomb()})}, {Table(1, {Live()})}, {}], map[], [], 9, 0)
  }

  function ToLast(): Job {
    Job(0, 2, {Table(2, {Tomb()})}, {}, Range(1, 1), Range(1, 1), Picked, Compactions.Config(0, false, 1, 0), [], {})
  }

  /** Level 2 is the base level, checkOverlap looks below it and sees nothing, the tombstone is dropped,
      and the deleted version shows. */
  lemma PassedOverRevives()
    ensures BaseLevels.Base([1, 1, 0], 10, 10) == ToLast().to
    ensures var c := Compactions.Config(9, false, 1, 0);
            && Alone(Three(), ToLast(), c, [Tomb()], {}, Range(1, 1))
            && Answer(Three(), Three().levels, 1, 9, Some(Tomb())) && Alive(Some(Tomb()), 0) == None
            && Answer(Three(), After(Three().levels, ToLast(), {}), 1, 9, Some(Live())) && Alive(Some(Live()), 0) == Some(Live().vs)
  {
    BaseLevels.PastFullLevel();
    ThreeIsOk();
    ThreePicks();
    ThreeFilters();
    ThreeAnswers();
    hide Inv, Picks, Filters, Answer, After, BaseLevels.Base;
  }

  lemma ThreeHas(e: Entry)
    ensures At(Three().levels[0], e) <==> e == Tomb()
    ensures At(Three().levels[1], e) <==> e == Live()
    ensures !At(Three().levels[2], e) && !InMem(Three(), e)
  {
    var s := Three();
    assert Table(2, {Tomb()}) in s.levels[0] && Table(1, {Live()}) in s.levels[1];
  }

  lemma ThreeIsOk()
    ensures Inv(Three())
  {
    var s := Three();
    forall k, e | 0 <= k < 3 && At(s.levels[k], e) ensures (k == 0 && e == Tomb()) || (k == 1 && e == Live()) {
      ThreeHas(e);
    }
    forall e ensures !InMem(s, e) {
      ThreeHas(e);
    }
    ThreeKeeps();
    hide At, InMem, Newest, NothingLost;
  }

  /** Reads from timestamp 9 on want the tombstone, and it is there. */
  lemma ThreeKeeps()
    ensures NothingLost(Three())
  {
    var s := Three();
    forall w, t: nat | Newest(s.written, w, t) && s.discardTs <= t
      ensures MemClear(s, w.key.user, t) && Found(s.levels, s.now, w, t, 0)
    {
      assert Matches(Tomb(), 1, t);
      ThreeHas(w);
      assert At(s.levels[0], w);
      hide At;
      assert Has(s.levels, w, 0);
    }
  }

  lemma ThreePicks()
    ensures Picks(Three(), ToLast())
  {
    var s, j := Three(), ToLast();
    assert Table(2, {Tomb()}) in j.top;
    assert At(j.top, Tomb());
  }

  lemma ThreeFilters()
    ensures Filters(Three(), ToLast(), Compactions.Config(9, false, 1, 0), [Tomb()], {}, Range(1, 1))
  {
    var j := ToLast();
    TombDropped();
    TombOnly();
    assert |Three().levels| == 3;
    hide Compactions.Kept, At, Tomb, Touches, ToLast, SpanOf;
    assert ToLast().to == 2 by { TombOnly(); }
  }

  /** The loop leaves nothing of the tombstone. */
  lemma TombDropped()
    ensures Compactions.Kept(Compactions.Config(9, false, 1, 0), [Tomb()], 0, 1) == []
  {
    var c := Compactions.Config(9, false, 1, 0);
    assert Compactions.Dropped(c, [Tomb()], 0);
  }

  lemma TombOnly()
    ensures var j := ToLast(); j.to == 2 && SpanOf(Range(1, 1), j.top + j.bot)
    ensures forall e :: e in [Tomb()] <==> At(ToLast().top, e) || At(ToLast().bot, e)
    ensures forall e :: !At({}, e)
  {
    var j := ToLast();
    assert Table(2, {Tomb()}) in j.top && Table(2, {Tomb()}) in j.top + j.bot;
    assert At(j.top, Tomb()) && At(j.top + j.bot, Tomb());
  }

  lemma ThreeAnswers()
    ensures Answer(Three(), Three().levels, 1, 9, Some(Tomb()))
    ensures Answer(Three(), After(Three().levels, ToLast(), {}), 1, 9, Some(Live()))
  {
    var s := Three();
    var n := After(s.levels, ToLast(), {});
    assert s.levels[0] - ToLast().top == {} && s.levels[2] - ToLast().bot + {} == {};
    assert n == [{}, s.levels[1], {}];
    forall e ensures (Stored(s, s.levels, e) <==> e == Tomb() || e == Live()) && (Stored(s, n, e) <==> e == Live()) {
      ThreeHas(e);
      assert !At(n[0], e) && (At(n[1], e) <==> e == Live()) && !At(n[2], e);
    }
  }
}
