/** What the machine of `Interleavings` gets done: a lookup can always begin and be finished, and a
    compaction can run from its start to its end (levels.go get, fillTables, runCompactDef). */
module LookupProgress {
  import opened Wrappers
  import opened Entries
  import opened Interleavings
  import Compactions

  // ---------------------------------------------------------------- sets of entries

  /** The newest matching entry of a finite set. */
  lemma {:induction false} Greatest(es: set<Entry>, user: int, ts: nat) returns (b: Option<Entry>)
    ensures b.Some? ==> b.value in es && Matches(b.value, user, ts)
    ensures forall e :: e in es && Matches(e, user, ts) ==> b.Some? && e.key.ts <= b.value.key.ts
    decreases es
  {
    b := None;
    if es != {} {
      var e :| e in es;
      b := Greatest(es - {e}, user, ts);
      if Matches(e, user, ts) && (b.None? || b.value.key.ts < e.key.ts) {
        b := Some(e);
      }
    }
  }

  /** The entries with the smallest and the biggest user key. */
  lemma {:induction false} Ends(es: set<Entry>) returns (a: Entry, b: Entry)
    requires es != {}
    ensures a in es && b in es && forall e :: e in es ==> a.key.user <= e.key.user <= b.key.user
    decreases es
  {
    a :| a in es;
    b := a;
    if es != {a} {
      var e, x, y := a, a, a;
      x, y := Ends(es - {e});
      a := if x.key.user < e.key.user then x else e;
      b := if y.key.user > e.key.user then y else e;
    }
  }

  function EntriesOf(ts: set<Table>): set<Entry> {
    set t, e | t in ts && e in t.entries :: e
  }

  lemma AtIs(ts: set<Table>)
    ensures forall e :: At(ts, e) <==> e in EntriesOf(ts)
  {
  }

  function InMemory(s: State): set<Entry> {
    s.mt + set i, e | 0 <= i < |s.imm| && e in s.imm[i] :: e
  }

  /** The range of a set of tables is there, and there is only one: it ends at their smallest and biggest
      user keys. */
  lemma SpanIs(ts: set<Table>, a: Entry, b: Entry, r: Range)
    requires At(ts, a) && At(ts, b) && forall e :: At(ts, e) ==> a.key.user <= e.key.user <= b.key.user
    ensures SpanOf(r, ts) <==> r == Range(a.key.user, b.key.user)
  {
    hide At;
  }

  /** A table overlaps a range exactly if it ends neither before nor after it. */
  lemma TouchesIff(t: Table, r: Range, a: Entry, b: Entry)
    requires a in t.entries && b in t.entries && forall e :: e in t.entries ==> a.key.user <= e.key.user <= b.key.user
    ensures Touches(t, r) <==> a.key.user <= r.hi && r.lo <= b.key.user
  {
  }

  lemma Span(ts: set<Table>) returns (r: Range)
    requires ts != {} && forall t :: t in ts ==> t.entries != {}
    ensures SpanOf(r, ts)
  {
    var t :| t in ts;
    var e :| e in t.entries;
    assert e in EntriesOf(ts);
    var a, b := Ends(EntriesOf(ts));
    AtIs(ts);
    r := Range(a.key.user, b.key.user);
    SpanIs(ts, a, b, r);
  }

  /** Entries with different keys can be put in order. */
  lemma {:induction false} InOrder(es: set<Entry>) returns (l: seq<Entry>)
    requires forall x, y :: x in es && y in es && x.key == y.key ==> x == y
    ensures Sorted(l) && forall e :: e in l <==> e in es
    decreases es
  {
    l := [];
    if es != {} {
      var e :| e in es;
      var more := InOrder(es - {e});
      l := Insert(more, e);
    }
  }

  lemma Insert(l: seq<Entry>, e: Entry) returns (r: seq<Entry>)
    requires Sorted(l) && forall x :: x in l ==> x.key != e.key
    ensures Sorted(r) && forall x :: x in r <==> x in l || x == e
  {
    hide Less, Sorted;
    var i := 0;
    while i < |l| && Less(l[i].key, e.key)
      invariant 0 <= i <= |l| && forall j :: 0 <= j < i ==> Less(l[j].key, e.key)
    {
      i := i + 1;
    }
    r := l[..i] + [e] + l[i..];
    assert l == l[..i] + l[i..];
    if i < |l| { AfterIs(l, i, e); }
    InsertedAt(l, i, e);
  }

  lemma AfterIs(l: seq<Entry>, i: nat, e: Entry)
    requires Sorted(l) && i < |l| && !Less(l[i].key, e.key) && l[i].key != e.key
    ensures forall j :: i <= j < |l| ==> Less(e.key, l[j].key)
  {
  }

  lemma InsertedAt(l: seq<Entry>, i: nat, e: Entry)
    requires Sorted(l) && i <= |l| && (forall j :: 0 <= j < i ==> Less(l[j].key, e.key))
    requires forall j :: i <= j < |l| ==> Less(e.key, l[j].key)
    ensures Sorted(l[..i] + [e] + l[i..])
  {
    hide Less;
  }

  // ---------------------------------------------------------------- lookups

  /** At any moment of any run a lookup of any key at any timestamp that is not to be discarded can begin. */
  lemma LookupBegins(s: State, user: int, ts: nat)
    requires s.discardTs <= ts
    ensures exists want, best :: Enabled(s, Open(user, ts, want, best))
  {
    var want := Greatest(s.written, user, ts);
    var best := Greatest(InMemory(s), user, ts);
    assert forall e :: InMem(s, e) <==> e in InMemory(s);
    assert Wanted(s.written, user, ts, want);
    assert Enabled(s, Open(user, ts, want, best));
  }

  lemma CanVisit(s: State, r: nat) returns (found: Option<Entry>)
    requires r < |s.readers| && s.readers[r].next < |s.levels|
    ensures Enabled(s, Visit(r, found))
  {
    var d := s.readers[r];
    AtIs(s.levels[d.next]);
    found := Greatest(EntriesOf(s.levels[d.next]), d.user, d.ts);
    hide At, EntriesOf;
  }

  lemma OneMoreStep(p: State, run: seq<Event>, ev: Event, s: State)
    requires Reaches(p, run) && Steps(p, ev, s)
    ensures Reaches(s, run + [ev])
  {
    hide Steps;
    assert (run + [ev])[..|run + [ev]| - 1] == run;
  }

  /** Every lookup can be finished, whatever is under way, and then `EveryLookupIsRight` says what it answers. */
  lemma LookupEnds(s: State, run: seq<Event>, r: nat)
    requires Reaches(s, run) && r < |s.readers|
    ensures exists t, more ::
              && Reaches(t, run + more) && r < |t.readers| && Done(t, t.readers[r])
              && t.readers[r].user == s.readers[r].user && t.readers[r].ts == s.readers[r].ts
              && t.readers[r].want == s.readers[r].want
              && t.written == s.written && t.levels == s.levels && t.jobs == s.jobs && t.now == s.now
  {
    hide Reaches, Enabled;
    var t, more: seq<Event> := s, [];
    assert run + more == run;
    while t.readers[r].next < |t.levels|
      invariant Reaches(t, run + more) && r < |t.readers|
      invariant t.readers[r].user == s.readers[r].user && t.readers[r].ts == s.readers[r].ts
      invariant t.readers[r].want == s.readers[r].want
      invariant t.written == s.written && t.levels == s.levels && t.jobs == s.jobs && t.now == s.now
      decreases |t.levels| - t.readers[r].next
    {
      var found := CanVisit(t, r);
      var u := Apply(t, Visit(r, found));
      OneMoreStep(t, run + more, Visit(r, found), u);
      assert run + (more + [Visit(r, found)]) == run + more + [Visit(r, found)];
      t, more := u, more + [Visit(r, found)];
    }
  }

  /** Any key can be written at a version newer than its own and than all lookups, whatever the versions of
      other keys are; a lookup at that version or later rules it out. */
  lemma WriteIff(s: State, e: Entry, newest: Option<Entry>)
    requires NewestIn(x => x in s.written && x.key.user == e.key.user, e.key.user, e.key.ts, newest)
    requires forall x :: x in s.written && x.key.user == e.key.user ==> x.key.ts <= e.key.ts
    ensures Enabled(s, Write(e)) <==>
            && (newest.Some? ==> newest.value.key.ts < e.key.ts) && forall r :: r in s.readers ==> r.ts < e.key.ts
  {
    if Enabled(s, Write(e)) {
      forall r | r in s.readers ensures r.ts < e.key.ts {
        var i :| 0 <= i < |s.readers| && s.readers[i] == r;
      }
    }
  }

  /** The discard timestamp can be raised to that of the oldest lookup, and no further. */
  lemma RaiseToOldest(s: State, run: seq<Event>, r: nat)
    requires Reaches(s, run) && r < |s.readers|
    requires forall q :: 0 <= q < |s.readers| ==> s.readers[r].ts <= s.readers[q].ts
    ensures Enabled(s, Raise(s.readers[r].ts, s.now))
    ensures forall d, now :: d > s.readers[r].ts ==> !Enabled(s, Raise(d, now))
  {
    ReachesInv(s, run);
    assert ReaderOk(s, s.readers[r]);
    hide Inv, Reaches, Wanted, MemClear, Clear, Found;
  }

  // ---------------------------------------------------------------- flushes

  lemma {:induction false} FreshId(ts: set<Table>) returns (id: nat)
    ensures forall t :: t in ts ==> t.id < id
    decreases ts
  {
    id := 0;
    if ts != {} {
      var t :| t in ts;
      var more := FreshId(ts - {t});
      id := if more > t.id then more else t.id + 1;
    }
  }

  /** A flush has been added to level 0, or can be. */
  lemma CanAdd(s: State, run: seq<Event>) returns (t: State, more: seq<Event>)
    requires Reaches(s, run) && s.imm != [] && s.levels != []
    ensures Reaches(t, run + more) && t.flushed && t == s.(flushed := true, levels := t.levels)
  {
    hide Reaches;
    t, more := s, [];
    assert run + more == run;
    if !s.flushed {
      var id := FreshId(s.levels[0]);
      t, more := Apply(s, FlushAdd(id)), [FlushAdd(id)];
      OneMoreStep(s, run, FlushAdd(id), t);
    }
  }

  /** The oldest memtable can always be flushed: afterwards it is not in memory any more. */
  lemma FlushEnds(s: State, run: seq<Event>)
    requires Reaches(s, run) && s.imm != [] && s.levels != []
    ensures exists t, more ::
              && Reaches(t, run + more) && !t.flushed && t.imm == s.imm[1..]
              && t.mt == s.mt && t.written == s.written && t.readers == s.readers && t.jobs == s.jobs
  {
    hide Reaches;
    var t, more := CanAdd(s, run);
    var u := Apply(t, FlushDrop);
    OneMoreStep(t, run + more, FlushDrop, u);
    assert run + (more + [FlushDrop]) == run + more + [FlushDrop];
  }

  // ---------------------------------------------------------------- compactions

  /** What may be moved down: from level 0 tables with everything older, from other levels one table, over
      empty levels only. */
  ghost predicate MayMove(s: State, from: nat, to: nat, top: set<Table>) {
    && from < to < |s.levels| && top != {} && top <= s.levels[from]
    && (if from == 0 then forall t, o :: t in top && o in s.levels[0] && o.id <= t.id ==> o in top
        else to == from + 1 && exists t :: top == {t})
    && forall k :: from < k < to ==> s.levels[k] == {}
  }

  lemma ReachesShape(s: State, run: seq<Event>)
    requires Reaches(s, run)
    ensures forall k, t :: 0 <= k < |s.levels| && t in s.levels[k] ==> t.entries != {}
    ensures Known(s)
  {
    ReachesInv(s, run);
    assert Shape(s.levels);
    hide Inv, Reaches, Known;
  }

  lemma Ranges(top: set<Table>, next: set<Table>) returns (here: Range, bot: set<Table>, below: Range)
    requires top != {} && (forall t :: t in top ==> t.entries != {}) && forall t :: t in next ==> t.entries != {}
    ensures SpanOf(here, top) && (forall t :: t in bot <==> t in next && Touches(t, here))
    ensures if bot == {} then below == here else SpanOf(below, bot)
  {
    here := Span(top);
    bot := set t | t in next && Touches(t, here);
    below := here;
    if bot != {} { below := Span(bot); }
  }

  lemma CanStart(s: State, run: seq<Event>, from: nat, to: nat, top: set<Table>) returns (j: Job)
    requires Reaches(s, run) && s.jobs == map[] && MayMove(s, from, to, top)
    ensures Enabled(s, Start(0, j)) && j.from == from < to == j.to < |s.levels| && j.top == top && j.phase == Picked
  {
    ReachesShape(s, run);
    hide Reaches, Known, SpanOf, Touches, Inv, Disjoint;
    var here, bot, below := Ranges(top, s.levels[to]);
    j := Job(from, to, top, bot, here, below, Picked, Compactions.Config(0, false, 0, 0), [], {});
    PicksIs(s, j);
  }

  lemma PicksIs(s: State, j: Job)
    requires s.jobs == map[] && j.phase == Picked && MayMove(s, j.from, j.to, j.top) && SpanOf(j.here, j.top)
    requires forall t :: t in j.bot <==> t in s.levels[j.to] && Touches(t, j.here)
    requires if j.bot == {} then j.below == j.here else SpanOf(j.below, j.bot)
    ensures Enabled(s, Start(0, j))
  {
    hide SpanOf, Touches, Disjoint;
  }

  /** The merged input, filtered, in one table if anything is left. */
  lemma CanFilter(s: State, j: Job) returns (c: Compactions.Config, es: seq<Entry>, out: set<Table>, span: Range)
    requires forall x, y :: (At(j.top, x) || At(j.bot, x)) && (At(j.top, y) || At(j.bot, y)) && x.key == y.key ==> x == y
    requires j.top != {} && forall t :: t in j.top || t in j.bot ==> t.entries != {}
    ensures Filters(s, j, c, es, out, span)
  {
    hide *;
    es := Merged(j.top, j.bot);
    span := Span(j.top + j.bot);
    c := Compactions.Config(s.discardTs, exists k, t :: j.to < k < |s.levels| && t in s.levels[k] && Touches(t, span), 1, s.now);
    out := OneTable(Compactions.Kept(c, es, 0, |es|));
    FiltersIs(s, j, c, es, out, span);
  }

  lemma FiltersIs(s: State, j: Job, c: Compactions.Config, es: seq<Entry>, out: set<Table>, span: Range)
    requires c.discardTs <= s.discardTs && c.now <= s.now && Sorted(es) && NoShare(out) && SpanOf(span, j.top + j.bot)
    requires forall e :: e in es <==> At(j.top, e) || At(j.bot, e)
    requires forall e :: At(out, e) <==> e in Compactions.Kept(c, es, 0, |es|)
    requires c.hasOverlap <==> exists k, t :: j.to < k < |s.levels| && t in s.levels[k] && Touches(t, span)
    ensures Filters(s, j, c, es, out, span)
  {
    hide At, SpanOf, Touches, NoShare, Compactions.Kept, Sorted;
  }

  /** What the filter is told of the levels below: nothing overlaps if all levels after the next one are
      empty, and something does if one of them has a key of the input. */
  lemma OverlapBelow(s: State, j: Job, c: Compactions.Config, es: seq<Entry>, out: set<Table>, span: Range)
    requires Filters(s, j, c, es, out, span)
    ensures (forall k :: j.to < k < |s.levels| ==> s.levels[k] == {}) ==> !c.hasOverlap
    ensures forall k, t, e, x :: j.to < k < |s.levels| && t in s.levels[k] && e in t.entries && x in es && x.key.user == e.key.user ==>
              c.hasOverlap
  {
    hide NoShare, Compactions.Kept, Sorted;
    forall k, t, e, x | j.to < k < |s.levels| && t in s.levels[k] && e in t.entries && x in es && x.key.user == e.key.user
      ensures c.hasOverlap
    {
      assert At(j.top + j.bot, x);
      assert Touches(t, span);
    }
  }

  lemma Merged(a: set<Table>, b: set<Table>) returns (es: seq<Entry>)
    requires forall x, y :: (At(a, x) || At(b, x)) && (At(a, y) || At(b, y)) && x.key == y.key ==> x == y
    ensures Sorted(es) && forall e :: e in es <==> At(a, e) || At(b, e)
  {
    AtIs(a);
    AtIs(b);
    hide At, EntriesOf, Sorted;
    es := InOrder(EntriesOf(a) + EntriesOf(b));
  }

  lemma OneTable(kept: seq<Entry>) returns (out: set<Table>)
    ensures NoShare(out) && forall e :: At(out, e) <==> e in kept
  {
    out := {};
    if kept != [] {
      var t := Table(0, set e | e in kept);
      assert kept[0] in t.entries;
      out := {t};
    }
  }

  lemma InputIs(s: State, run: seq<Event>, i: nat)
    requires Reaches(s, run) && i in s.jobs && s.jobs[i].phase == Picked
    ensures var j := s.jobs[i];
            && j.from < j.to < |s.levels| && j.top != {} && (forall t :: t in j.top || t in j.bot ==> t.entries != {})
            && forall x, y :: (At(j.top, x) || At(j.bot, x)) && (At(j.top, y) || At(j.bot, y)) && x.key == y.key ==> x == y
  {
    ReachesInv(s, run);
    ReachesShape(s, run);
    assert Placed(s.levels, s.jobs[i]);
    hide Inv, Reaches;
    FromLevels(s, s.jobs[i]);
  }

  lemma FromLevels(s: State, j: Job)
    requires Known(s) && j.from < |s.levels| && j.to < |s.levels| && j.top <= s.levels[j.from] && j.bot <= s.levels[j.to]
    ensures forall x, y :: (At(j.top, x) || At(j.bot, x)) && (At(j.top, y) || At(j.bot, y)) && x.key == y.key ==> x == y
  {
    forall x | At(j.top, x) ensures x in s.written {
      assert At(s.levels[j.from], x);
    }
    forall x | At(j.bot, x) ensures x in s.written {
      assert At(s.levels[j.to], x);
    }
  }

  /** What starting and building a compaction leave as it was. */
  lemma StartedIs(s: State, j: Job)
    requires Enabled(s, Start(0, j)) && s.jobs == map[]
    ensures Apply(s, Start(0, j)) == s.(jobs := map[0 := j])
  {
    hide Picks, PassesNothing;
  }

  lemma RestOf(s: State, j: Job, c: Compactions.Config, es: seq<Entry>, out: set<Table>, span: Range)
    requires s.jobs == map[0 := j] && Filters(s, j, c, es, out, span) && j.phase == Picked && j.from < j.to < |s.levels|
    ensures Enabled(s, Build(0, c, es, out, span))
    ensures var b := Apply(s, Build(0, c, es, out, span));
            Enabled(b, Install(0)) && Enabled(Apply(b, Install(0)), Finish(0))
    ensures Apply(Apply(Apply(s, Build(0, c, es, out, span)), Install(0)), Finish(0)) ==
            s.(jobs := map[], levels := s.levels[j.to := s.levels[j.to] - j.bot + out][j.from := s.levels[j.from] - j.top])
  {
    hide Filters;
  }

  lemma FourSteps(s: State, run: seq<Event>, j: Job, c: Compactions.Config, es: seq<Entry>, out: set<Table>, span: Range, t: State)
    requires Reaches(s, run) && Steps(s, Start(0, j), s.(jobs := map[0 := j]))
    requires var a := s.(jobs := map[0 := j]);
             && Enabled(a, Build(0, c, es, out, span))
             && var b := Apply(a, Build(0, c, es, out, span));
                Enabled(b, Install(0)) && Steps(Apply(b, Install(0)), Finish(0), t)
    ensures Reaches(t, run + [Start(0, j), Build(0, c, es, out, span), Install(0), Finish(0)])
  {
    hide Reaches, Enabled, Apply;
    var a := s.(jobs := map[0 := j]);
    var x, y := Start(0, j), Build(0, c, es, out, span);
    var b := Apply(a, y);
    OneMoreStep(s, run, x, a);
    OneMoreStep(a, run + [x], y, b);
    OneMoreStep(b, run + [x] + [y], Install(0), Apply(b, Install(0)));
    OneMoreStep(Apply(b, Install(0)), run + [x] + [y] + [Install(0)], Finish(0), t);
    assert run + [x] + [y] + [Install(0)] + [Finish(0)] == run + [x, y, Install(0), Finish(0)];
  }

  /** The tables are gone from their level, no other but the next one has changed, and nothing that was
      written or is being read has. */
  ghost predicate MovedDown(s: State, t: State, from: nat, to: nat, top: set<Table>) {
    && t.jobs == map[] && |t.levels| == |s.levels| && from < |s.levels| && t.levels[from] == s.levels[from] - top
    && (forall k :: 0 <= k < |s.levels| && k != from && k != to ==> t.levels[k] == s.levels[k])
    && t.written == s.written && t.mt == s.mt && t.imm == s.imm && t.readers == s.readers
  }

  lemma MovedDownIs(s: State, from: nat, to: nat, top: set<Table>, next: set<Table>)
    requires from < to < |s.levels|
    ensures MovedDown(s, s.(jobs := map[], levels := s.levels[to := next][from := s.levels[from] - top]), from, to, top)
  {
  }

  lemma RunsOn(s: State, run: seq<Event>, j: Job) returns (t: State, more: seq<Event>, out: set<Table>)
    requires Reaches(s, run) && s.jobs == map[] && Enabled(s, Start(0, j))
    requires j.phase == Picked && j.from < j.to < |s.levels|
    ensures Reaches(t, run + more)
    ensures t == s.(jobs := map[], levels := s.levels[j.to := s.levels[j.to] - j.bot + out][j.from := s.levels[j.from] - j.top])
  {
    hide *;
    var a := s.(jobs := map[0 := j]);
    StartedIs(s, j);
    SoSteps(s, Start(0, j), a);
    OneMoreStep(s, run, Start(0, j), a);
    InputIs(a, run + [Start(0, j)], 0);
    var c, es, o, span := CanFilter(a, j);
    out := o;
    RestOf(a, j, c, es, out, span);
    t := Apply(Apply(Apply(a, Build(0, c, es, out, span)), Install(0)), Finish(0));
    SoSteps(Apply(Apply(a, Build(0, c, es, out, span)), Install(0)), Finish(0), t);
    FourSteps(s, run, j, c, es, out, span, t);
    more := [Start(0, j), Build(0, c, es, out, span), Install(0), Finish(0)];
  }

  /** A compaction of whatever may be moved can run to its end. */
  lemma CompactionEnds(s: State, run: seq<Event>, from: nat, to: nat, top: set<Table>)
    requires Reaches(s, run) && s.jobs == map[] && MayMove(s, from, to, top)
    ensures exists t, more :: Reaches(t, run + more) && MovedDown(s, t, from, to, top)
  {
    hide *;
    var j := CanStart(s, run, from, to, top);
    var t, more, out := RunsOn(s, run, j);
    MovedDownIs(s, from, to, top, s.levels[to] - j.bot + out);
  }

  lemma SoSteps(p: State, ev: Event, s: State)
    requires Enabled(p, ev) && s == Apply(p, ev)
    ensures Steps(p, ev, s)
  {
  }
}
