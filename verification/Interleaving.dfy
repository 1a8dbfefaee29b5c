/** Lookups that interleave with writes, memtable flushes and compactions (db.go getMemTables, get,
    flushMemtable; levels.go get, runCompactDef, fillTables, fillTablesL0ToLbase).

    A reader takes all memtables at once and then visits level 0, 1, 2, ... one at a time, while a
    flush adds to level 0 before it drops the memtable, and a compaction installs its output one
    level down before it deletes its input. `EveryLookupIsRight`: however these steps interleave, a
    finished lookup answers as if it had seen everything ever written, at once. */
module Interleavings {
  import opened Wrappers
  import opened Entries
  import Compactions

  datatype Table = Table(id: nat, entries: set<Entry>)

  datatype Range = Range(lo: int, hi: int)

  datatype Phase = Picked | Built | Installed

  /** A running compaction: from level `from` to level `to`, with the ranges it registers there, the
      merged input `es` and the output `out`. */
  datatype Job = Job(from: nat, to: nat, top: set<Table>, bot: set<Table>, here: Range, below: Range,
                     phase: Phase, c: Compactions.Config, es: seq<Entry>, out: set<Table>)

  /** A lookup of `user` at `ts`: the best entry so far and the level to visit next. `want` is what it
      should find, the newest version at or below `ts` ever written. */
  datatype Reader = Reader(user: int, ts: nat, want: Option<Entry>, best: Option<Entry>, next: nat)

  /** `imm` has the oldest memtable first; `flushed` says that imm[0] is already in level 0. */
  datatype State = State(written: set<Entry>, mt: set<Entry>, imm: seq<set<Entry>>, flushed: bool,
                         levels: seq<set<Table>>, jobs: map<nat, Job>, readers: seq<Reader>,
                         discardTs: nat, now: nat)

  ghost predicate At(ts: set<Table>, e: Entry) {
    exists t :: t in ts && e in t.entries
  }

  predicate InMem(s: State, e: Entry) {
    e in s.mt || exists i :: 0 <= i < |s.imm| && e in s.imm[i]
  }

  predicate In(r: Range, u: int) {
    r.lo <= u <= r.hi
  }

  /** Two ranges that do not overlap. */
  predicate Apart(a: Range, b: Range) {
    a.hi < b.lo || b.hi < a.lo
  }

  /** getKeyRange: the smallest range with all keys of `ts`. */
  ghost predicate SpanOf(r: Range, ts: set<Table>) {
    && (forall e :: At(ts, e) ==> In(r, e.key.user))
    && (exists a, b :: At(ts, a) && At(ts, b) && a.key.user == r.lo && b.key.user == r.hi)
  }

  /** The table's span overlaps `r`. */
  ghost predicate Touches(t: Table, r: Range) {
    exists a, b :: a in t.entries && b in t.entries && a.key.user <= r.hi && r.lo <= b.key.user
  }

  /** `b` is the newest entry of `user` at or below `ts` with the property `has`. */
  ghost predicate NewestIn(has: Entry -> bool, user: int, ts: nat, b: Option<Entry>) {
    && (b.Some? ==> has(b.value) && Matches(b.value, user, ts))
    && forall e :: has(e) && Matches(e, user, ts) ==> b.Some? && e.key.ts <= b.value.key.ts
  }

  /** `w` is the newest version of its key at or below `t`. */
  ghost predicate Newest(written: set<Entry>, w: Entry, t: nat) {
    w in written && w.key.ts <= t && forall x :: x in written && Matches(x, w.key.user, t) ==> x.key.ts <= w.key.ts
  }

  ghost predicate Wanted(written: set<Entry>, user: int, ts: nat, w: Option<Entry>) {
    && (w.Some? ==> w.value.key.user == user && Newest(written, w.value, ts))
    && (w.None? ==> forall x :: x in written ==> !Matches(x, user, ts))
  }

  // ---------------------------------------------------------------- the steps

  datatype Event =
    | Write(e: Entry)
    | Rotate
    | FlushAdd(id: nat)
    | FlushDrop
    | Start(i: nat, j: Job)
    | Build(i: nat, c: Compactions.Config, es: seq<Entry>, out: set<Table>, span: Range)
    | Install(i: nat)
    | Finish(i: nat)
    | Open(user: int, ts: nat, want: Option<Entry>, best: Option<Entry>)
    | Visit(r: nat, found: Option<Entry>)
    | Close(r: nat)
    | Raise(discardTs: nat, now: nat)

  /** What fillTables and fillTablesL0ToLbase pick, and compareAndAdd accepts. From level 0 a run of
      the oldest tables, to whatever level levelTargets chose; from other levels one table, to the next
      level; below, every table the range overlaps. */
  ghost predicate Picks(s: State, j: Job) {
    && j.phase == Picked && j.from < j.to < |s.levels|
    && j.top != {} && j.top <= s.levels[j.from] && SpanOf(j.here, j.top)
    && (if j.from == 0 then forall t, o :: t in j.top && o in s.levels[0] && o.id <= t.id ==> o in j.top
        else j.to == j.from + 1 && exists t :: j.top == {t})
    && (forall t :: t in j.bot <==> t in s.levels[j.to] && Touches(t, j.here))
    && (if j.bot == {} then j.below == j.here else SpanOf(j.below, j.bot))
    && forall i :: i in s.jobs ==> Disjoint(j, s.jobs[i])
  }

  /** The levels between the two are empty. The program does not see to it: `BaseLevels` says when the
      choice of the base level does, and `PassedLevels` what happens when it does not. */
  ghost predicate PassesNothing(levels: seq<set<Table>>, j: Job) {
    forall k :: j.from < k < j.to && k < |levels| ==> levels[k] == {}
  }

  /** No registered range of `b` overlaps one of `a` at the same level. */
  predicate Disjoint(a: Job, b: Job) {
    && (a.from == b.from ==> Apart(a.here, b.here))
    && (a.to == b.to ==> Apart(a.below, b.below))
    && (a.from == b.to ==> Apart(a.here, b.below))
    && (a.to == b.from ==> Apart(a.below, b.here))
  }

  /** The compaction loop ran over the merged input of job `j`; checkOverlap looked for tables below
      the next level that overlap the input. */
  ghost predicate Filters(s: State, j: Job, c: Compactions.Config, es: seq<Entry>, out: set<Table>, span: Range) {
    && c.discardTs <= s.discardTs && c.now <= s.now
    && Sorted(es) && (forall e :: e in es <==> At(j.top, e) || At(j.bot, e))
    && (forall e :: At(out, e) <==> e in Compactions.Kept(c, es, 0, |es|))
    && NoShare(out) && SpanOf(span, j.top + j.bot)
    && (c.hasOverlap <==> exists k, t :: j.to < k < |s.levels| && t in s.levels[k] && Touches(t, span))
  }

  ghost predicate Enabled(s: State, ev: Event) {
    match ev
    case Write(e) =>
      && (forall x :: x in s.written && x.key.user == e.key.user ==> x.key.ts < e.key.ts)
      && forall r :: 0 <= r < |s.readers| ==> s.readers[r].ts < e.key.ts
    case Rotate => true
    case FlushAdd(id) => s.imm != [] && !s.flushed && s.levels != [] && forall t :: t in s.levels[0] ==> t.id < id
    case FlushDrop => s.imm != [] && s.flushed
    case Start(i, j) => i !in s.jobs && Picks(s, j) && PassesNothing(s.levels, j)
    case Build(i, c, es, out, span) => i in s.jobs && s.jobs[i].phase == Picked && Filters(s, s.jobs[i], c, es, out, span)
    case Install(i) => i in s.jobs && s.jobs[i].phase == Built && s.jobs[i].to < |s.levels|
    case Finish(i) => i in s.jobs && s.jobs[i].phase == Installed && s.jobs[i].from < |s.levels|
    case Open(user, ts, want, best) =>
      && s.discardTs <= ts
      && Wanted(s.written, user, ts, want)
      && NewestIn(e => InMem(s, e), user, ts, best)
    case Visit(r, found) =>
      && r < |s.readers| && s.readers[r].next < |s.levels|
      && NewestIn(e => At(s.levels[s.readers[r].next], e), s.readers[r].user, s.readers[r].ts, found)
    case Close(r) => r < |s.readers|
    case Raise(d, now) =>
      && s.discardTs <= d && s.now <= now
      && forall r :: 0 <= r < |s.readers| ==> d <= s.readers[r].ts
  }

  ghost function Apply(s: State, ev: Event): State
    requires Enabled(s, ev)
  {
    match ev
    case Write(e) => s.(written := s.written + {e}, mt := s.mt + {e})
    case Rotate => s.(imm := s.imm + [s.mt], mt := {})
    case FlushAdd(id) =>
      var t := Table(id, s.imm[0]);
      s.(flushed := true, levels := if t.entries == {} then s.levels else s.levels[0 := s.levels[0] + {t}])
    case FlushDrop => s.(flushed := false, imm := s.imm[1..])
    case Start(i, j) => s.(jobs := s.jobs[i := j])
    case Build(i, c, es, out, _) => s.(jobs := s.jobs[i := s.jobs[i].(phase := Built, c := c, es := es, out := out)])
    case Install(i) =>
      var j := s.jobs[i];
      s.(levels := s.levels[j.to := s.levels[j.to] - j.bot + j.out], jobs := s.jobs[i := j.(phase := Installed)])
    case Finish(i) =>
      var j := s.jobs[i];
      s.(levels := s.levels[j.from := s.levels[j.from] - j.top], jobs := s.jobs - {i})
    case Open(user, ts, want, best) => s.(readers := s.readers + [Reader(user, ts, want, best, 0)])
    case Visit(r, found) =>
      var d := s.readers[r];
      s.(readers := s.readers[r := d.(best := Newer(d.best, found), next := d.next + 1)])
    case Close(r) => s.(readers := s.readers[..r] + s.readers[r + 1..])
    case Raise(d, now) => s.(discardTs := d, now := now)
  }

  predicate Init(s: State) {
    && s.written == {} && s.mt == {} && s.imm == [] && !s.flushed && s.jobs == map[] && s.readers == []
    && forall k :: 0 <= k < |s.levels| ==> s.levels[k] == {}
  }

  ghost predicate Steps(p: State, ev: Event, s: State) {
    Enabled(p, ev) && s == Apply(p, ev)
  }

  /** `s` is reached from an empty database by the steps `run`, in order. */
  ghost predicate Reaches(s: State, run: seq<Event>)
    decreases |run|
  {
    if run == [] then Init(s)
    else
      var before, ev := run[..|run| - 1], run[|run| - 1];
      exists p: State :: Reaches(p, before) && Steps(p, ev, s)
  }

  /** A lookup returns once it has found the very version asked for, or has seen every level. */
  predicate Done(s: State, r: Reader) {
    r.next >= |s.levels| || (r.best.Some? && r.best.value.key.ts == r.ts)
  }

  // ---------------------------------------------------------------- the invariant

  ghost predicate NoShare(ts: set<Table>) {
    && (forall t :: t in ts ==> t.entries != {})
    && forall t, o, x, y :: t in ts && o in ts && x in t.entries && y in o.entries && x.key.user == y.key.user ==> t == o
  }

  /** Everything stored was written, and a version is written once. */
  ghost predicate Known(s: State) {
    && (forall e :: InMem(s, e) ==> e in s.written)
    && (forall k, e :: 0 <= k < |s.levels| && At(s.levels[k], e) ==> e in s.written)
    && forall x, y :: x in s.written && y in s.written && x.key == y.key ==> x == y
  }

  ghost predicate Above(x: Entry, y: Entry) {
    x.key.user == y.key.user ==> x.key.ts > y.key.ts
  }

  ghost predicate MemOrder(mt: set<Entry>, imm: seq<set<Entry>>) {
    && (forall i, x, y :: 0 <= i < |imm| && x in mt && y in imm[i] ==> Above(x, y))
    && forall i, k, x, y :: 0 <= i < k < |imm| && x in imm[k] && y in imm[i] ==> Above(x, y)
  }

  /** An older version is never above a newer one, except in a memtable being dropped. */
  ghost predicate MemAbove(s: State) {
    && (s.flushed ==> s.imm != [])
    && forall k, x, y :: 0 <= k < |s.levels| && InMem(s, x) && At(s.levels[k], y) ==>
         Above(x, y) || (s.flushed && y in s.imm[0])
  }

  /** `e` is in a table of level `k` that is about to be deleted. */
  ghost predicate Dying(jobs: map<nat, Job>, k: nat, e: Entry) {
    exists i :: i in jobs && jobs[i].phase == Installed && jobs[i].from == k && At(jobs[i].top, e)
  }

  /** The same between two levels, except in the tables being deleted. */
  ghost predicate LevelOrder(levels: seq<set<Table>>, jobs: map<nat, Job>) {
    forall k, l, x, y :: 0 <= k < l < |levels| && At(levels[k], x) && At(levels[l], y) ==> Above(x, y) || Dying(jobs, k, y)
  }

  ghost predicate Aged(ts: set<Table>) {
    && (forall t :: t in ts ==> t.entries != {})
    && forall t, o, x, y :: t in ts && o in ts && t.id < o.id && x in o.entries && y in t.entries ==> Above(x, y)
  }

  ghost predicate Shape(levels: seq<set<Table>>) {
    && (levels != [] ==> Aged(levels[0]))
    && (levels != [] ==> forall t, o :: t in levels[0] && o in levels[0] && t.id == o.id ==> t == o)
    && forall k :: 1 <= k < |levels| ==> NoShare(levels[k])
  }

  /** The tables of a job are where they were found, and nothing has come into its range. */
  ghost predicate Placed(levels: seq<set<Table>>, j: Job) {
    && j.from < j.to < |levels|
    && j.top != {} && j.top <= levels[j.from] && (forall e :: At(j.top, e) ==> In(j.here, e.key.user))
    && (j.from == 0 ==> forall t, o :: t in j.top && o in levels[0] && o.id <= t.id ==> o in j.top)
    && (j.from > 0 ==> j.to == j.from + 1)
    && (j.phase != Installed ==>
          && j.bot <= levels[j.to] && (forall e :: At(j.bot, e) ==> In(j.below, e.key.user))
          && (forall t, e :: t in levels[j.to] && t !in j.bot && e in t.entries ==> !In(j.here, e.key.user)))
    && forall k :: j.from < k < j.to ==> levels[k] == {}
  }

  ghost predicate Filtered(levels: seq<set<Table>>, discardTs: nat, now: nat, j: Job) {
    j.phase == Built ==>
      && j.c.discardTs <= discardTs && j.c.now <= now
      && Sorted(j.es) && (forall e :: e in j.es <==> At(j.top, e) || At(j.bot, e))
      && (forall e :: At(j.out, e) <==> e in Compactions.Kept(j.c, j.es, 0, |j.es|))
      && NoShare(j.out)
      && (!j.c.hasOverlap ==> forall k, x, y :: j.to < k < |levels| && At(levels[k], x) && y in j.es ==> x.key.user != y.key.user)
  }

  ghost predicate AllPlaced(levels: seq<set<Table>>, jobs: map<nat, Job>) {
    (forall i :: i in jobs ==> Placed(levels, jobs[i])) && Exclusive(jobs)
  }

  ghost predicate Exclusive(jobs: map<nat, Job>) {
    forall i, k :: i in jobs && k in jobs && i != k ==> Disjoint(jobs[i], jobs[k])
  }

  ghost predicate AllFiltered(levels: seq<set<Table>>, discardTs: nat, now: nat, jobs: map<nat, Job>) {
    forall i :: i in jobs ==> Filtered(levels, discardTs, now, jobs[i])
  }

  ghost predicate Clear(levels: seq<set<Table>>, user: int, t: nat, lo: nat, hi: nat) {
    forall k, y :: lo <= k < hi && k < |levels| && At(levels[k], y) ==> !Matches(y, user, t)
  }

  ghost predicate Has(levels: seq<set<Table>>, w: Entry, n: nat) {
    exists k :: n <= k < |levels| && At(levels[k], w)
  }

  /** From level `n` on `w` can be found; or it is dead, and nothing older can be found instead. */
  ghost predicate Found(levels: seq<set<Table>>, now: nat, w: Entry, t: nat, n: nat) {
    Has(levels, w, n) || (IsDeletedOrExpired(w.vs, now) && Clear(levels, w.key.user, t, n, |levels|))
  }

  /** A table being deleted has nothing that is not accounted for further down. */
  ghost predicate Covered(s: State) {
    forall i, w, t: nat ::
      (i in s.jobs && s.jobs[i].phase == Installed && At(s.jobs[i].top, w) && Newest(s.written, w, t) && s.discardTs <= t)
      ==> Found(s.levels, s.now, w, t, s.jobs[i].from + 1)
  }

  ghost predicate MemClear(s: State, user: int, t: nat) {
    forall y :: InMem(s, y) ==> !Matches(y, user, t)
  }

  /** Nothing that can still be read is lost. */
  ghost predicate NothingLost(s: State) {
    && (forall w, t: nat :: Newest(s.written, w, t) && s.discardTs <= t ==>
          InMem(s, w) || (MemClear(s, w.key.user, t) && Found(s.levels, s.now, w, t, 0)))
    && (s.flushed ==> forall w, t: nat :: s.imm != [] && w in s.imm[0] && Newest(s.written, w, t) && s.discardTs <= t ==>
          Found(s.levels, s.now, w, t, 0))
  }

  ghost predicate ReaderOk(s: State, r: Reader) {
    && s.discardTs <= r.ts
    && Wanted(s.written, r.user, r.ts, r.want)
    && (|| r.best == r.want
        || (&& r.best.None? && r.want.Some?
            && MemClear(s, r.user, r.ts) && Clear(s.levels, r.user, r.ts, 0, r.next)
            && Found(s.levels, s.now, r.want.value, r.ts, r.next)))
  }

  ghost predicate Inv(s: State) {
    && Known(s) && MemOrder(s.mt, s.imm) && MemAbove(s) && LevelOrder(s.levels, s.jobs) && Shape(s.levels)
    && AllPlaced(s.levels, s.jobs) && AllFiltered(s.levels, s.discardTs, s.now, s.jobs) && Covered(s) && NothingLost(s)
    && forall r :: 0 <= r < |s.readers| ==> ReaderOk(s, s.readers[r])
  }

  // ---------------------------------------------------------------- what a compaction does to a version

  /** The newest version at or below `t` comes through the filter, or it is dead, nothing lies
      below, and no older version comes through either. */
  lemma FilterKeeps(c: Compactions.Config, es: seq<Entry>, w: Entry, t: nat)
    requires Sorted(es) && w in es && w.key.ts <= t && c.discardTs <= t
    requires forall x :: x in es && Matches(x, w.key.user, t) ==> x.key.ts <= w.key.ts
    ensures var kept := Compactions.Kept(c, es, 0, |es|);
            w in kept || (IsDeletedOrExpired(w.vs, c.now) && !c.hasOverlap && forall y :: y in kept ==> !Matches(y, w.key.user, t))
  {
    forall x | x in es && Matches(x, w.key.user, t) && x != w ensures x.key.ts < w.key.ts {
      SameKeySameEntry(es, x, w);
    }
    BestIs(es, w.key.user, t, w);
    Compactions.KeptBest(c, es, w.key.user, t);
    BestIsGreatest(Compactions.Kept(c, es, 0, |es|), w.key.user, t);
  }

  lemma FilterAdds(c: Compactions.Config, es: seq<Entry>, y: Entry)
    requires y in Compactions.Kept(c, es, 0, |es|)
    ensures y in es
  {
    Compactions.KeptMembers(c, es, 0, |es|, y);
  }

  /** Where an entry at the next level comes from once a job has installed its output. */
  lemma Source(levels: seq<set<Table>>, discardTs: nat, now: nat, j: Job, k: nat, y: Entry)
    requires Placed(levels, j) && Filtered(levels, discardTs, now, j) && j.phase == Built
    requires k < |levels| && At(levels[j.to := levels[j.to] - j.bot + j.out][k], y)
    ensures At(levels[k], y) || (k == j.to && At(j.out, y) && y in j.es && At(j.top, y))
  {
    if k == j.to {
      var t :| t in levels[j.to] - j.bot + j.out && y in t.entries;
      if t in j.out {
        assert At(j.out, y);
        FilterAdds(j.c, j.es, y);
        if !At(j.top, y) {
          var o :| o in j.bot && y in o.entries;
          assert o in levels[k];
        }
      } else {
        assert t in levels[k];
      }
    }
  }

  lemma Stays(levels: seq<set<Table>>, j: Job, k: nat, w: Entry)
    requires k < |levels| && j.to < |levels| && At(levels[k], w) && (k == j.to ==> !At(j.bot, w))
    ensures At(levels[j.to := levels[j.to] - j.bot + j.out][k], w)
  {
  }

  ghost function Swapped(levels: seq<set<Table>>, j: Job): seq<set<Table>>
    requires j.to < |levels|
  {
    levels[j.to := levels[j.to] - j.bot + j.out]
  }

  /** Everything written at or below `t` for the key of `w` is no newer than `w`. */
  ghost predicate NoneNewer(levels: seq<set<Table>>, w: Entry, t: nat) {
    forall k, y :: 0 <= k < |levels| && At(levels[k], y) && Matches(y, w.key.user, t) ==> y.key.ts <= w.key.ts
  }

  /** What sits above a level with `w`: newer versions only, or `w` itself. */
  lemma AboveHas(levels: seq<set<Table>>, jobs: map<nat, Job>, k: nat, l: nat, y: Entry, w: Entry, t: nat)
    requires LevelOrder(levels, jobs) && NoneNewer(levels, w, t) && DyingThere(levels, jobs)
    requires k < l < |levels| && At(levels[k], y) && At(levels[l], w) && Matches(y, w.key.user, t)
    ensures At(levels[k], w)
  {
    assert !Above(y, w);
    assert Dying(jobs, k, w);
    var i :| i in jobs && jobs[i].phase == Installed && jobs[i].from == k && At(jobs[i].top, w);
    var o :| o in jobs[i].top && w in o.entries;
    assert o in levels[k];
  }

  /** Tables being deleted are still in their level. */
  ghost predicate DyingThere(levels: seq<set<Table>>, jobs: map<nat, Job>) {
    forall i :: i in jobs ==> jobs[i].from < |levels| && jobs[i].top <= levels[jobs[i].from]
  }

  /** Installing a job's output keeps a version that can be found from level `n` on, when nothing
      older comes down from above level `n`. */
  lemma FoundInstall(levels: seq<set<Table>>, jobs: map<nat, Job>, discardTs: nat, now: nat, j: Job, w: Entry, t: nat, n: nat)
    requires LevelOrder(levels, jobs) && DyingThere(levels, jobs) && Shape(levels)
    requires Placed(levels, j) && Filtered(levels, discardTs, now, j) && j.phase == Built
    requires NoneNewer(levels, w, t) && w.key.ts <= t && discardTs <= t && Found(levels, now, w, t, n)
    requires j.from < n <= j.to && !Has(levels, w, n) ==> forall y :: At(j.top, y) ==> !Matches(y, w.key.user, t)
    ensures Found(Swapped(levels, j), now, w, t, n)
  {
    if Has(levels, w, n) {
      var k :| n <= k < |levels| && At(levels[k], w);
      if k == j.to && At(j.bot, w) {
        FoundReplaced(levels, jobs, discardTs, now, j, w, t, n);
      } else {
        Stays(levels, j, k, w);
      }
    } else {
      forall k, y | n <= k < |levels| && At(Swapped(levels, j)[k], y) ensures !Matches(y, w.key.user, t) {
        Source(levels, discardTs, now, j, k, y);
        if At(j.top, y) && n <= j.from {
          var o :| o in j.top && y in o.entries;
          assert At(levels[j.from], y);
        }
      }
    }
  }

  /** The case that `w` is in a table replaced. */
  lemma FoundReplaced(levels: seq<set<Table>>, jobs: map<nat, Job>, discardTs: nat, now: nat, j: Job, w: Entry, t: nat, n: nat)
    requires LevelOrder(levels, jobs) && DyingThere(levels, jobs) && Shape(levels)
    requires Placed(levels, j) && Filtered(levels, discardTs, now, j) && j.phase == Built
    requires NoneNewer(levels, w, t) && w.key.ts <= t && discardTs <= t && n <= j.to && At(j.bot, w)
    ensures Found(Swapped(levels, j), now, w, t, n)
  {
    InputNoneNewer(levels, j, w, t);
    FilterKeeps(j.c, j.es, w, t);
    if At(j.out, w) {
      OutThere(levels, j, w);
    } else if !Has(Swapped(levels, j), w, n) {
      forall k, y | n <= k < |levels| && At(Swapped(levels, j)[k], y) ensures !Matches(y, w.key.user, t) {
        NotRevived(levels, jobs, discardTs, now, j, w, t, k, y);
      }
    }
  }

  lemma InputNoneNewer(levels: seq<set<Table>>, j: Job, w: Entry, t: nat)
    requires Placed(levels, j) && j.phase == Built && NoneNewer(levels, w, t)
    requires forall e :: e in j.es <==> At(j.top, e) || At(j.bot, e)
    ensures forall x :: x in j.es && Matches(x, w.key.user, t) ==> x.key.ts <= w.key.ts
  {
    forall x | x in j.es && Matches(x, w.key.user, t) ensures x.key.ts <= w.key.ts {
      if At(j.top, x) {
        var o :| o in j.top && x in o.entries;
        assert At(levels[j.from], x);
      } else {
        var o :| o in j.bot && x in o.entries;
        assert At(levels[j.to], x);
      }
    }
  }

  lemma OutThere(levels: seq<set<Table>>, j: Job, w: Entry)
    requires j.to < |levels| && At(j.out, w)
    ensures At(Swapped(levels, j)[j.to], w)
  {
    var o :| o in j.out && w in o.entries;
    assert o in Swapped(levels, j)[j.to];
  }

  /** When `w` in a replaced table was dropped, nothing older is left where it could be found. */
  lemma NotRevived(levels: seq<set<Table>>, jobs: map<nat, Job>, discardTs: nat, now: nat, j: Job, w: Entry, t: nat, k: nat, y: Entry)
    requires LevelOrder(levels, jobs) && DyingThere(levels, jobs) && Shape(levels)
    requires Placed(levels, j) && Filtered(levels, discardTs, now, j) && j.phase == Built
    requires NoneNewer(levels, w, t) && At(j.bot, w) && w in j.es && !j.c.hasOverlap
    requires forall x :: At(j.out, x) ==> !Matches(x, w.key.user, t)
    requires k < |levels| && At(Swapped(levels, j)[k], y)
    requires k < j.to ==> !At(levels[k], w)
    ensures !Matches(y, w.key.user, t)
  {
    var o :| o in j.bot && w in o.entries;
    assert At(levels[j.to], w);
    if k == j.to {
      var p :| p in Swapped(levels, j)[k] && y in p.entries;
      assert p in j.out ==> At(j.out, y);
      assert p !in j.out ==> p != o || o in j.out;
    } else if k < j.to && Matches(y, w.key.user, t) {
      AboveHas(levels, jobs, k, j.to, y, w, t);
      assert false;
    }
  }

  /** Right after a job installs its output, its input is accounted for from the next level on. */
  lemma FoundBelow(levels: seq<set<Table>>, discardTs: nat, now: nat, j: Job, w: Entry, t: nat)
    requires Placed(levels, j) && Filtered(levels, discardTs, now, j) && j.phase == Built
    requires NoneNewer(levels, w, t) && w.key.ts <= t && discardTs <= t && At(j.top, w)
    ensures Found(Swapped(levels, j), now, w, t, j.from + 1)
  {
    InputNoneNewer(levels, j, w, t);
    FilterKeeps(j.c, j.es, w, t);
    if At(j.out, w) {
      OutThere(levels, j, w);
    } else {
      forall k, y | j.from < k < |levels| && At(Swapped(levels, j)[k], y) ensures !Matches(y, w.key.user, t) {
        if k == j.to {
          var p :| p in Swapped(levels, j)[k] && y in p.entries;
          assert p in j.out ==> At(j.out, y);
        } else {
          assert At(levels[k], y);
        }
      }
    }
  }

  // ---------------------------------------------------------------- deleting the input

  ghost function Deleted(levels: seq<set<Table>>, j: Job): seq<set<Table>>
    requires j.from < |levels|
  {
    levels[j.from := levels[j.from] - j.top]
  }

  /** What a job leaves behind in its level is newer than what it takes. */
  lemma LeftIsNewer(levels: seq<set<Table>>, j: Job, x: Entry, y: Entry)
    requires Shape(levels) && Placed(levels, j) && At(levels[j.from] - j.top, x) && At(j.top, y)
    ensures Above(x, y)
  {
    var o :| o in levels[j.from] - j.top && x in o.entries;
    var p :| p in j.top && y in p.entries;
    assert o in levels[j.from] && p in levels[j.from];
  }

  lemma FoundFinish(levels: seq<set<Table>>, jobs: map<nat, Job>, now: nat, j: Job, w: Entry, t: nat, n: nat)
    requires LevelOrder(levels, jobs) && DyingThere(levels, jobs) && Shape(levels) && Placed(levels, j)
    requires NoneNewer(levels, w, t) && w.key.ts <= t && Found(levels, now, w, t, n)
    requires At(j.top, w) ==> Found(levels, now, w, t, j.from + 1)
    ensures Found(Deleted(levels, j), now, w, t, n)
  {
    if Has(levels, w, n) {
      var k :| n <= k < |levels| && At(levels[k], w);
      if k != j.from {
        assert At(Deleted(levels, j)[k], w);
      } else {
        var o :| o in levels[k] && w in o.entries;
        if o !in j.top {
          assert o in Deleted(levels, j)[k];
          assert At(Deleted(levels, j)[k], w);
        } else if Has(levels, w, j.from + 1) {
          var l :| j.from < l < |levels| && At(levels[l], w);
          assert At(Deleted(levels, j)[l], w);
        } else if !Has(Deleted(levels, j), w, n) {
          forall l, y | n <= l < |levels| && At(Deleted(levels, j)[l], y) ensures !Matches(y, w.key.user, t) {
            OldGone(levels, jobs, j, w, t, l, y);
          }
        }
      }
    } else {
      forall l, y | n <= l < |levels| && At(Deleted(levels, j)[l], y) ensures At(levels[l], y) {
        var o :| o in Deleted(levels, j)[l] && y in o.entries;
        assert o in levels[l];
      }
    }
  }

  /** When the last copy of a dead version is deleted, nothing older is left. */
  lemma OldGone(levels: seq<set<Table>>, jobs: map<nat, Job>, j: Job, w: Entry, t: nat, l: nat, y: Entry)
    requires LevelOrder(levels, jobs) && DyingThere(levels, jobs) && Shape(levels) && Placed(levels, j)
    requires NoneNewer(levels, w, t) && At(j.top, w) && Clear(levels, w.key.user, t, j.from + 1, |levels|)
    requires l < |levels| && At(Deleted(levels, j)[l], y) && (l < j.from ==> !At(levels[l], w))
    ensures !Matches(y, w.key.user, t)
  {
    var o :| o in j.top && w in o.entries;
    assert At(levels[j.from], w);
    var p :| p in Deleted(levels, j)[l] && y in p.entries;
    assert p in levels[l];
    assert At(levels[l], y);
    if Matches(y, w.key.user, t) {
      if l < j.from {
        AboveHas(levels, jobs, l, j.from, y, w, t);
        assert false;
      } else if l == j.from {
        LeftIsNewer(levels, j, y, w);
        assert false;
      } else {
        assert false;
      }
    }
  }

  // ---------------------------------------------------------------- Install keeps the invariant

  ghost function Done1(jobs: map<nat, Job>, i: nat): map<nat, Job>
    requires i in jobs
  {
    jobs[i := jobs[i].(phase := Installed)]
  }

  /** Level-0 compactions exclude each other: both would take the oldest table. */
  lemma OneFromZero(levels: seq<set<Table>>, a: Job, b: Job)
    requires Shape(levels) && Placed(levels, a) && Placed(levels, b) && a.from == b.from == 0
    ensures !Apart(a.here, b.here)
  {
    var t :| t in a.top;
    var o :| o in b.top;
    assert t in b.top || o in a.top;
    var p := if t in b.top then t else o;
    assert p in levels[0] && p.entries != {};
    var e :| e in p.entries;
    assert At(a.top, e) && At(b.top, e);
  }

  /** No job starts from, ends at, or passes over a level that another one passes over. */
  lemma NotOver(levels: seq<set<Table>>, a: Job, b: Job)
    requires Shape(levels) && Placed(levels, a) && Placed(levels, b) && Disjoint(a, b)
    ensures !(a.from < b.from < a.to) && !(a.from < b.to < a.to)
  {
    if a.from < b.to < a.to && b.from == 0 {
      OneFromZero(levels, a, b);
      assert false;
    }
  }

  lemma NotBoth(levels: seq<set<Table>>, ts: set<Table>, os: set<Table>, a: Range, b: Range, k: nat)
    requires Shape(levels) && k < |levels| && ts <= levels[k] && Apart(a, b)
    requires forall e :: At(ts, e) ==> In(a, e.key.user)
    requires forall e :: At(os, e) ==> In(b, e.key.user)
    ensures ts !! os
  {
    forall t | t in ts ensures t !in os {
      assert t.entries != {};
      var e :| e in t.entries;
      assert At(ts, e);
      if t in os { assert At(os, e); }
    }
  }

  lemma LevelOrderInstall(levels: seq<set<Table>>, jobs: map<nat, Job>, discardTs: nat, now: nat, i: nat)
    requires LevelOrder(levels, jobs) && AllPlaced(levels, jobs)
    requires i in jobs && jobs[i].phase == Built && Filtered(levels, discardTs, now, jobs[i])
    ensures LevelOrder(Swapped(levels, jobs[i]), Done1(jobs, i))
  {
    var j := jobs[i];
    forall k, l, x, y | 0 <= k < l < |levels| && At(Swapped(levels, j)[k], x) && At(Swapped(levels, j)[l], y)
      ensures Above(x, y) || Dying(Done1(jobs, i), k, y)
    {
      Source(levels, discardTs, now, j, k, x);
      Source(levels, discardTs, now, j, l, y);
      OrderInstall(levels, jobs, i, k, l, x, y);
    }
  }

  lemma OrderInstall(levels: seq<set<Table>>, jobs: map<nat, Job>, i: nat, k: nat, l: nat, x: Entry, y: Entry)
    requires LevelOrder(levels, jobs) && AllPlaced(levels, jobs) && i in jobs && jobs[i].phase == Built
    requires k < l < |levels|
    requires At(levels[k], x) || (k == jobs[i].to && At(jobs[i].top, x))
    requires At(levels[l], y) || (l == jobs[i].to && At(jobs[i].top, y))
    ensures Above(x, y) || Dying(Done1(jobs, i), k, y)
  {
    var j := jobs[i];
    StillDying(jobs, i, k, y);
    if !At(levels[l], y) {
      TopThere(levels, j, y);
      if k == j.from {
        assert Done1(jobs, i)[i].phase == Installed;
        assert Dying(Done1(jobs, i), k, y);
      } else if k < j.from {
        assert Above(x, y) || Dying(jobs, k, y);
      }
    } else if !At(levels[k], x) {
      TopThere(levels, j, x);
      assert Above(x, y) || Dying(jobs, j.from, y);
      if Dying(jobs, j.from, y) {
        var b :| b in jobs && jobs[b].phase == Installed && jobs[b].from == j.from && At(jobs[b].top, y);
        assert Disjoint(j, jobs[b]);
      }
    }
  }

  lemma StillDying(jobs: map<nat, Job>, i: nat, k: nat, y: Entry)
    requires i in jobs && jobs[i].phase == Built
    ensures Dying(jobs, k, y) ==> Dying(Done1(jobs, i), k, y)
  {
    if Dying(jobs, k, y) {
      var b :| b in jobs && jobs[b].phase == Installed && jobs[b].from == k && At(jobs[b].top, y);
      assert Done1(jobs, i)[b] == jobs[b];
    }
  }

  lemma TopThere(levels: seq<set<Table>>, j: Job, y: Entry)
    requires j.from < |levels| && j.top <= levels[j.from] && At(j.top, y)
    ensures At(levels[j.from], y)
  {
    var o :| o in j.top && y in o.entries;
    assert o in levels[j.from];
  }

  lemma ShapeInstall(levels: seq<set<Table>>, discardTs: nat, now: nat, j: Job)
    requires Shape(levels) && Placed(levels, j) && Filtered(levels, discardTs, now, j) && j.phase == Built
    ensures Shape(Swapped(levels, j))
  {
    var lv := levels[j.to];
    forall t, o, x, y | t in j.out && o in lv - j.bot && x in t.entries && y in o.entries
      ensures x.key.user != y.key.user
    {
      assert At(j.out, x);
      FilterAdds(j.c, j.es, x);
      if At(j.bot, x) {
        var p :| p in j.bot && x in p.entries;
        assert p in lv;
      }
    }
  }

  lemma PlacedInstall(levels: seq<set<Table>>, discardTs: nat, now: nat, j: Job, b: Job)
    requires Shape(levels) && Placed(levels, j) && Filtered(levels, discardTs, now, j) && j.phase == Built
    requires Placed(levels, b) && Disjoint(j, b)
    ensures Placed(Swapped(levels, j), b)
  {
    NotOver(levels, b, j);
    NotOver(levels, j, b);
    if b.from == j.to { NotBoth(levels, j.bot, b.top, j.below, b.here, j.to); }
    if b.phase != Installed && b.to == j.to {
      NotBoth(levels, j.bot, b.bot, j.below, b.below, j.to);
      forall t, e | t in j.out && e in t.entries ensures !In(b.here, e.key.user) {
        assert At(j.out, e);
        FilterAdds(j.c, j.es, e);
        if At(j.bot, e) {
          var o :| o in j.bot && e in o.entries;
          assert o in levels[b.to] && o !in b.bot;
        }
      }
    }
  }

  lemma FilteredInstall(levels: seq<set<Table>>, discardTs: nat, now: nat, j: Job, b: Job)
    requires Shape(levels) && Placed(levels, j) && Filtered(levels, discardTs, now, j) && j.phase == Built
    requires Placed(levels, b) && Disjoint(j, b) && Filtered(levels, discardTs, now, b)
    ensures Filtered(Swapped(levels, j), discardTs, now, b)
  {
    if b.phase == Built && !b.c.hasOverlap {
      forall k, x, y | b.to < k < |levels| && At(Swapped(levels, j)[k], x) && y in b.es ensures x.key.user != y.key.user {
        Source(levels, discardTs, now, j, k, x);
        if !At(levels[k], x) {
          NoneBrought(levels, j, b, x, y);
        }
      }
    }
  }

  lemma NoneBrought(levels: seq<set<Table>>, j: Job, b: Job, x: Entry, y: Entry)
    requires Shape(levels) && Placed(levels, j) && Placed(levels, b) && Disjoint(j, b) && b.phase == Built
    requires b.to < j.to && At(j.top, x) && (At(b.top, y) || At(b.bot, y))
    requires forall k, e :: b.to < k < |levels| && At(levels[k], e) ==> e.key.user != y.key.user
    ensures x.key.user != y.key.user
  {
    TopThere(levels, j, x);
    NotOver(levels, j, b);
    if j.from == b.to {
      var o :| o in j.top && x in o.entries;
      if o in b.bot { assert At(b.bot, x); }
    }
  }

  lemma InstallKeepsCovered(s: State, i: nat, b: nat, w: Entry, t: nat)
    requires Known(s) && LevelOrder(s.levels, s.jobs) && Shape(s.levels) && AllPlaced(s.levels, s.jobs)
    requires i in s.jobs && s.jobs[i].phase == Built && Filtered(s.levels, s.discardTs, s.now, s.jobs[i])
    requires b in s.jobs && At(s.jobs[b].top, w) && Newest(s.written, w, t) && s.discardTs <= t
    requires b != i ==> Found(s.levels, s.now, w, t, s.jobs[b].from + 1)
    ensures Found(Swapped(s.levels, s.jobs[i]), s.now, w, t, s.jobs[b].from + 1)
  {
    hide LevelOrder, Shape, Filtered, Placed, Found, Known, DyingThere, NoneNewer;
    NewestIsMax(s, w, t);
    if b == i {
      FoundBelow(s.levels, s.discardTs, s.now, s.jobs[i], w, t);
    } else {
      if s.jobs[i].from <= s.jobs[b].from < s.jobs[i].to {
        NotFromAbove(s.levels, s.jobs[i], s.jobs[b], w, t);
      }
      AllThere(s.levels, s.jobs);
      FoundInstall(s.levels, s.jobs, s.discardTs, s.now, s.jobs[i], w, t, s.jobs[b].from + 1);
    }
  }

  lemma NewestIsMax(s: State, w: Entry, t: nat)
    requires Known(s) && Newest(s.written, w, t)
    ensures NoneNewer(s.levels, w, t)
  {
  }

  lemma AllThere(levels: seq<set<Table>>, jobs: map<nat, Job>)
    requires AllPlaced(levels, jobs)
    ensures DyingThere(levels, jobs)
  {
  }

  lemma NotFromAbove(levels: seq<set<Table>>, j: Job, b: Job, w: Entry, t: nat)
    requires Shape(levels) && Placed(levels, j) && Placed(levels, b) && Disjoint(j, b) && At(b.top, w)
    requires j.from <= b.from < j.to
    ensures forall y :: At(j.top, y) ==> !Matches(y, w.key.user, t)
  {
    NotOver(levels, j, b);
  }

  lemma InstallKeepsFound(s: State, i: nat, w: Entry, t: nat)
    requires Known(s) && LevelOrder(s.levels, s.jobs) && Shape(s.levels) && AllPlaced(s.levels, s.jobs)
    requires i in s.jobs && s.jobs[i].phase == Built && Filtered(s.levels, s.discardTs, s.now, s.jobs[i])
    requires Newest(s.written, w, t) && s.discardTs <= t && Found(s.levels, s.now, w, t, 0)
    ensures Found(Swapped(s.levels, s.jobs[i]), s.now, w, t, 0)
  {
    NewestIsMax(s, w, t);
    AllThere(s.levels, s.jobs);
    FoundInstall(s.levels, s.jobs, s.discardTs, s.now, s.jobs[i], w, t, 0);
  }

  lemma InstallKeepsRest(s: State, n: State, i: nat)
    requires Known(s) && LevelOrder(s.levels, s.jobs) && Shape(s.levels) && AllPlaced(s.levels, s.jobs) && NothingLost(s)
    requires i in s.jobs && s.jobs[i].phase == Built && Filtered(s.levels, s.discardTs, s.now, s.jobs[i])
    requires n == s.(levels := Swapped(s.levels, s.jobs[i]), jobs := n.jobs)
    ensures NothingLost(n)
  {
    hide LevelOrder, Shape, AllPlaced, Filtered, Found, Newest, Known;
    SameMem(s, n);
    forall w, t: nat | Newest(s.written, w, t) && s.discardTs <= t && Found(s.levels, s.now, w, t, 0)
      ensures Found(n.levels, s.now, w, t, 0)
    {
      InstallKeepsFound(s, i, w, t);
    }
  }

  lemma ClearInstall(levels: seq<set<Table>>, discardTs: nat, now: nat, j: Job, user: int, t: nat, n: nat)
    requires Placed(levels, j) && Filtered(levels, discardTs, now, j) && j.phase == Built && Clear(levels, user, t, 0, n)
    ensures Clear(Swapped(levels, j), user, t, 0, n)
  {
    forall k, y | 0 <= k < n && k < |levels| && At(Swapped(levels, j)[k], y) ensures !Matches(y, user, t) {
      Source(levels, discardTs, now, j, k, y);
      if !At(levels[k], y) { TopThere(levels, j, y); }
    }
  }

  lemma InstallKeepsReader(s: State, i: nat, r: Reader)
    requires Inv(s) && Enabled(s, Install(i)) && ReaderOk(s, r)
    ensures ReaderOk(Apply(s, Install(i)), r)
  {
    hide LevelOrder, Shape, Filtered, Found, Known, MemOrder, MemAbove, Covered, NothingLost;
    if r.best != r.want {
      var j, w := s.jobs[i], r.want.value;
      NewestIsMax(s, w, r.ts);
      AllThere(s.levels, s.jobs);
      forall y | At(j.top, y) && j.from < r.next ensures !Matches(y, r.user, r.ts) {
        TopThere(s.levels, j, y);
      }
      FoundInstall(s.levels, s.jobs, s.discardTs, s.now, j, w, r.ts, r.next);
      ClearInstall(s.levels, s.discardTs, s.now, j, r.user, r.ts, r.next);
    }
  }

  lemma KnownInstall(s: State, j: Job, k: nat, y: Entry)
    requires Placed(s.levels, j) && Filtered(s.levels, s.discardTs, s.now, j) && j.phase == Built
    requires k < |s.levels| && At(Swapped(s.levels, j)[k], y)
    ensures exists l :: 0 <= l < |s.levels| && At(s.levels[l], y)
  {
    Source(s.levels, s.discardTs, s.now, j, k, y);
    if !At(s.levels[k], y) { TopThere(s.levels, j, y); }
  }

  lemma InstallKeepsOrder(s: State, n: State, j: Job)
    requires Known(s) && MemAbove(s)
    requires Placed(s.levels, j) && Filtered(s.levels, s.discardTs, s.now, j) && j.phase == Built
    requires n == s.(levels := Swapped(s.levels, j), jobs := n.jobs)
    ensures Known(n) && MemAbove(n)
  {
    forall k, y | 0 <= k < |n.levels| && At(n.levels[k], y)
      ensures exists l :: 0 <= l < |s.levels| && At(s.levels[l], y)
    {
      KnownInstall(s, j, k, y);
    }
    forall e | InMem(n, e) ensures InMem(s, e) {
    }
  }

  lemma InstallKeepsJobs(levels: seq<set<Table>>, jobs: map<nat, Job>, discardTs: nat, now: nat, i: nat)
    requires Shape(levels) && AllPlaced(levels, jobs) && AllFiltered(levels, discardTs, now, jobs)
    requires i in jobs && jobs[i].phase == Built && jobs[i].to < |levels|
    ensures AllPlaced(Swapped(levels, jobs[i]), Done1(jobs, i))
    ensures AllFiltered(Swapped(levels, jobs[i]), discardTs, now, Done1(jobs, i))
  {
    hide Shape, Placed;
    forall b | b in jobs && b != i
      ensures Placed(Swapped(levels, jobs[i]), jobs[b]) && Filtered(Swapped(levels, jobs[i]), discardTs, now, jobs[b])
    {
      PlacedInstall(levels, discardTs, now, jobs[i], jobs[b]);
      FilteredInstall(levels, discardTs, now, jobs[i], jobs[b]);
    }
    assert Placed(levels, jobs[i]);
    PlacedSelf(levels, jobs[i]);
    SameRanges(jobs, i, jobs[i].(phase := Installed));
  }

  lemma SameRanges(jobs: map<nat, Job>, i: nat, j: Job)
    requires Exclusive(jobs) && i in jobs
    requires j.from == jobs[i].from && j.to == jobs[i].to && j.here == jobs[i].here && j.below == jobs[i].below
    ensures Exclusive(jobs[i := j])
  {
    forall b, k | b in jobs && k in jobs && b != k ensures Disjoint(jobs[i := j][b], jobs[i := j][k]) {
      assert Disjoint(jobs[b], jobs[k]);
    }
  }

  lemma PlacedSelf(levels: seq<set<Table>>, j: Job)
    requires Placed(levels, j)
    ensures Placed(Swapped(levels, j), j.(phase := Installed))
  {
  }

  lemma InstallKeeps(s: State, i: nat)
    requires Inv(s) && Enabled(s, Install(i))
    ensures Inv(Apply(s, Install(i)))
  {
    hide LevelOrder, Shape, Filtered, Known, MemOrder, MemAbove, Covered, NothingLost, Placed, ReaderOk;
    var n, j := Apply(s, Install(i)), s.jobs[i];
    InstallKeepsOrder(s, n, j);
    InstallKeepsJobs(s.levels, s.jobs, s.discardTs, s.now, i);
    InstallKeepsRest(s, n, i);
    LevelOrderInstall(s.levels, s.jobs, s.discardTs, s.now, i);
    ShapeInstall(s.levels, s.discardTs, s.now, j);
    InstallCovers(s, n, i);
    forall r | 0 <= r < |s.readers| ensures ReaderOk(n, s.readers[r]) {
      InstallKeepsReader(s, i, s.readers[r]);
    }
  }

  lemma InstallCovers(s: State, n: State, i: nat)
    requires Known(s) && LevelOrder(s.levels, s.jobs) && Shape(s.levels) && AllPlaced(s.levels, s.jobs) && Covered(s)
    requires i in s.jobs && s.jobs[i].phase == Built && Filtered(s.levels, s.discardTs, s.now, s.jobs[i])
    requires n == s.(levels := Swapped(s.levels, s.jobs[i]), jobs := Done1(s.jobs, i))
    ensures Covered(n)
  {
    hide LevelOrder, Shape, AllPlaced, Filtered, Known, Found, Newest;
    forall b, w, t: nat | b in s.jobs && (b == i || s.jobs[b].phase == Installed) && At(s.jobs[b].top, w)
                       && Newest(s.written, w, t) && s.discardTs <= t
      ensures Found(n.levels, s.now, w, t, s.jobs[b].from + 1)
    {
      InstallKeepsCovered(s, i, b, w, t);
    }
    SameTops(s.jobs, i);
  }

  lemma SameTops(jobs: map<nat, Job>, i: nat)
    requires i in jobs
    ensures forall b :: b in jobs ==> Done1(jobs, i)[b].top == jobs[b].top && Done1(jobs, i)[b].from == jobs[b].from
  {
  }

  // ---------------------------------------------------------------- Finish keeps the invariant

  lemma StillThere(levels: seq<set<Table>>, j: Job, k: nat, y: Entry)
    requires j.from < |levels| && k < |levels| && At(Deleted(levels, j)[k], y)
    ensures At(levels[k], y)
  {
    var o :| o in Deleted(levels, j)[k] && y in o.entries;
    assert o in levels[k];
  }

  lemma LevelOrderFinish(levels: seq<set<Table>>, jobs: map<nat, Job>, i: nat)
    requires LevelOrder(levels, jobs) && Shape(levels) && i in jobs && Placed(levels, jobs[i])
    ensures LevelOrder(Deleted(levels, jobs[i]), jobs - {i})
  {
    hide Above, Shape;
    forall k, l, x, y | 0 <= k < l < |levels| && At(Deleted(levels, jobs[i])[k], x) && At(Deleted(levels, jobs[i])[l], y)
      ensures Above(x, y) || Dying(jobs - {i}, k, y)
    {
      StillThere(levels, jobs[i], k, x);
      StillThere(levels, jobs[i], l, y);
      assert Above(x, y) || Dying(jobs, k, y);
      if !Above(x, y) {
        var b :| b in jobs && jobs[b].phase == Installed && jobs[b].from == k && At(jobs[b].top, y);
        if b == i {
          LeftIsNewer(levels, jobs[i], x, y);
        } else {
          assert b in jobs - {i} && (jobs - {i})[b] == jobs[b];
        }
      }
    }
  }

  lemma PlacedFinish(levels: seq<set<Table>>, j: Job, b: Job)
    requires Shape(levels) && Placed(levels, j) && Placed(levels, b) && Disjoint(j, b)
    ensures Placed(Deleted(levels, j), b)
  {
    if b.from == j.from { NotBoth(levels, j.top, b.top, j.here, b.here, j.from); }
    if b.phase != Installed && b.to == j.from { NotBoth(levels, j.top, b.bot, j.here, b.below, j.from); }
  }

  lemma FilteredFinish(levels: seq<set<Table>>, discardTs: nat, now: nat, j: Job, b: Job)
    requires j.from < |levels| && Filtered(levels, discardTs, now, b)
    ensures Filtered(Deleted(levels, j), discardTs, now, b)
  {
    forall k, x | 0 <= k < |levels| && At(Deleted(levels, j)[k], x) ensures At(levels[k], x) {
      StillThere(levels, j, k, x);
    }
  }

  lemma FinishKeepsJobs(levels: seq<set<Table>>, jobs: map<nat, Job>, discardTs: nat, now: nat, i: nat)
    requires Shape(levels) && AllPlaced(levels, jobs) && AllFiltered(levels, discardTs, now, jobs) && i in jobs
    ensures AllPlaced(Deleted(levels, jobs[i]), jobs - {i})
    ensures AllFiltered(Deleted(levels, jobs[i]), discardTs, now, jobs - {i})
  {
    hide Shape, Filtered;
    forall b | b in jobs && b != i
      ensures Placed(Deleted(levels, jobs[i]), jobs[b]) && Filtered(Deleted(levels, jobs[i]), discardTs, now, jobs[b])
    {
      PlacedFinish(levels, jobs[i], jobs[b]);
      FilteredFinish(levels, discardTs, now, jobs[i], jobs[b]);
    }
  }

  /** What Finish needs to know of one version, and what it keeps of it. */
  lemma FinishKeepsFound(s: State, i: nat, w: Entry, t: nat, n: nat)
    requires Known(s) && LevelOrder(s.levels, s.jobs) && AllPlaced(s.levels, s.jobs) && Shape(s.levels) && Covered(s)
    requires i in s.jobs && s.jobs[i].phase == Installed
    requires Newest(s.written, w, t) && s.discardTs <= t && Found(s.levels, s.now, w, t, n)
    ensures Found(Deleted(s.levels, s.jobs[i]), s.now, w, t, n)
  {
    NewestIsMax(s, w, t);
    AllThere(s.levels, s.jobs);
    FoundFinish(s.levels, s.jobs, s.now, s.jobs[i], w, t, n);
  }

  lemma FinishKeepsVersions(s: State, n: State, i: nat)
    requires Known(s) && LevelOrder(s.levels, s.jobs) && AllPlaced(s.levels, s.jobs) && Shape(s.levels)
    requires Covered(s) && NothingLost(s)
    requires i in s.jobs && s.jobs[i].phase == Installed
    requires n == s.(levels := Deleted(s.levels, s.jobs[i]), jobs := s.jobs - {i})
    ensures Covered(n) && NothingLost(n)
  {
    hide LevelOrder, Shape, AllPlaced, Found, Newest, Known;
    forall w, t: nat, lo: nat | Newest(s.written, w, t) && s.discardTs <= t && Found(s.levels, s.now, w, t, lo)
      ensures Found(n.levels, s.now, w, t, lo)
    {
      FinishKeepsFound(s, i, w, t, lo);
    }
    SameMem(s, n);
  }

  lemma SameMem(s: State, n: State)
    requires n.mt == s.mt && n.imm == s.imm
    ensures forall e :: InMem(n, e) <==> InMem(s, e)
    ensures forall u, t: nat :: MemClear(s, u, t) <==> MemClear(n, u, t)
  {
    forall e ensures InMem(n, e) <==> InMem(s, e) {
    }
  }

  lemma FinishKeepsReader(s: State, n: State, i: nat, r: Reader)
    requires Known(s) && LevelOrder(s.levels, s.jobs) && AllPlaced(s.levels, s.jobs) && Shape(s.levels) && Covered(s)
    requires i in s.jobs && s.jobs[i].phase == Installed && ReaderOk(s, r)
    requires n == s.(levels := Deleted(s.levels, s.jobs[i]), jobs := s.jobs - {i})
    ensures ReaderOk(n, r)
  {
    hide Known, LevelOrder, Shape, Covered;
    if r.best != r.want {
      FinishKeepsFound(s, i, r.want.value, r.ts, r.next);
      SameMem(s, n);
      forall k, y | 0 <= k < r.next && k < |n.levels| && At(n.levels[k], y) ensures !Matches(y, r.user, r.ts) {
        StillThere(s.levels, s.jobs[i], k, y);
      }
    }
  }

  lemma FinishKeepsOrder(s: State, n: State, j: Job)
    requires Known(s) && MemAbove(s) && Shape(s.levels) && j.from < |s.levels|
    requires n == s.(levels := Deleted(s.levels, j), jobs := n.jobs)
    ensures Known(n) && MemAbove(n) && Shape(n.levels)
  {
    SameMem(s, n);
    forall k, y | 0 <= k < |n.levels| && At(n.levels[k], y) ensures At(s.levels[k], y) {
      StillThere(s.levels, j, k, y);
    }
  }

  lemma FinishKeeps(s: State, i: nat)
    requires Inv(s) && Enabled(s, Finish(i))
    ensures Inv(Apply(s, Finish(i)))
  {
    hide LevelOrder, Shape, Filtered, Known, MemOrder, MemAbove, Covered, NothingLost, Placed, ReaderOk;
    var n := Apply(s, Finish(i));
    FinishKeepsOrder(s, n, s.jobs[i]);
    LevelOrderFinish(s.levels, s.jobs, i);
    FinishKeepsJobs(s.levels, s.jobs, s.discardTs, s.now, i);
    FinishKeepsVersions(s, n, i);
    forall r | 0 <= r < |s.readers| ensures ReaderOk(n, s.readers[r]) {
      FinishKeepsReader(s, n, i, s.readers[r]);
    }
  }

  // ---------------------------------------------------------------- Start and Build

  lemma PlacedStart(s: State, j: Job)
    requires Picks(s, j) && PassesNothing(s.levels, j)
    ensures Placed(s.levels, j)
  {
    Untouched(s.levels[j.to], j.bot, j.here);
    hide Touches, Disjoint;
  }

  lemma Untouched(lv: set<Table>, bot: set<Table>, r: Range)
    requires forall t :: t in bot <==> t in lv && Touches(t, r)
    ensures forall t, e :: t in lv && t !in bot && e in t.entries ==> !In(r, e.key.user)
  {
    forall t, e | t in lv && t !in bot && e in t.entries ensures !In(r, e.key.user) {
      assert !Touches(t, r);
    }
  }

  lemma ExclusiveStart(jobs: map<nat, Job>, i: nat, j: Job)
    requires Exclusive(jobs) && i !in jobs && forall b :: b in jobs ==> Disjoint(j, jobs[b])
    ensures Exclusive(jobs[i := j])
  {
    var more := jobs[i := j];
    forall b, k | b in more && k in more && b != k ensures Disjoint(more[b], more[k]) {
      if b == i {
        assert Disjoint(j, jobs[k]);
      } else if k == i {
        assert Disjoint(j, jobs[b]);
      } else {
        assert Disjoint(jobs[b], jobs[k]);
      }
    }
  }

  lemma BuildIsFiltered(s: State, j: Job, c: Compactions.Config, es: seq<Entry>, out: set<Table>, span: Range)
    requires j.phase == Picked && Filters(s, j, c, es, out, span)
    ensures Filtered(s.levels, s.discardTs, s.now, j.(phase := Built, c := c, es := es, out := out))
  {
    if !c.hasOverlap {
      forall k, x, y | j.to < k < |s.levels| && At(s.levels[k], x) && y in es ensures x.key.user != y.key.user {
        var o :| o in s.levels[k] && x in o.entries;
        assert !Touches(o, span);
        assert At(j.top + j.bot, y) by {
          var p :| p in j.top + j.bot && y in p.entries;
        }
      }
    }
  }

  /** Starting or building a job changes nothing that readers or other jobs depend on. */
  lemma JobChange(s: State, n: State, i: nat)
    requires Inv(s) && n == s.(jobs := n.jobs) && i in n.jobs && n.jobs[i].phase != Installed
    requires n.jobs == s.jobs[i := n.jobs[i]] && (i in s.jobs ==> s.jobs[i].phase != Installed)
    requires Placed(n.levels, n.jobs[i]) && Exclusive(n.jobs) && Filtered(n.levels, n.discardTs, n.now, n.jobs[i])
    ensures Inv(n)
  {
    hide LevelOrder, Shape, Known, MemOrder, MemAbove, Covered, NothingLost, Placed, Filtered, ReaderOk, Disjoint;
    SameReads(s, n);
    SameDying(s.levels, s.jobs, n.jobs, i);
    SameCovered(s, n, i);
  }

  lemma SameReads(s: State, n: State)
    requires n == s.(jobs := n.jobs) && Known(s) && MemAbove(s) && NothingLost(s)
    ensures Known(n) && MemAbove(n) && NothingLost(n)
    ensures forall r :: ReaderOk(s, r) ==> ReaderOk(n, r)
  {
    SameMem(s, n);
  }

  lemma SameDying(levels: seq<set<Table>>, jobs: map<nat, Job>, more: map<nat, Job>, i: nat)
    requires LevelOrder(levels, jobs) && i in more && more == jobs[i := more[i]] && (i in jobs ==> jobs[i].phase != Installed)
    ensures LevelOrder(levels, more)
  {
    forall k, y | Dying(jobs, k, y) ensures Dying(more, k, y) {
      var b :| b in jobs && jobs[b].phase == Installed && jobs[b].from == k && At(jobs[b].top, y);
      assert more[b] == jobs[b];
    }
  }

  lemma SameCovered(s: State, n: State, i: nat)
    requires n == s.(jobs := n.jobs) && i in n.jobs && n.jobs == s.jobs[i := n.jobs[i]] && n.jobs[i].phase != Installed
    requires Covered(s)
    ensures Covered(n)
  {
  }

  lemma StartKeeps(s: State, i: nat, j: Job)
    requires Inv(s) && Enabled(s, Start(i, j))
    ensures Inv(Apply(s, Start(i, j)))
  {
    hide LevelOrder, Shape, Known, MemOrder, MemAbove, Covered, NothingLost, Placed, ReaderOk;
    PlacedStart(s, j);
    ExclusiveStart(s.jobs, i, j);
    JobChange(s, Apply(s, Start(i, j)), i);
  }

  lemma BuildKeeps(s: State, ev: Event)
    requires Inv(s) && ev.Build? && Enabled(s, ev)
    ensures Inv(Apply(s, ev))
  {
    hide LevelOrder, Shape, Filtered, Known, MemOrder, MemAbove, Covered, NothingLost, Placed, ReaderOk;
    var n, j := Apply(s, ev), s.jobs[ev.i];
    BuildIsFiltered(s, j, ev.c, ev.es, ev.out, ev.span);
    SameRanges(s.jobs, ev.i, n.jobs[ev.i]);
    PlacedBuild(s.levels, j, n.jobs[ev.i]);
    JobChange(s, n, ev.i);
  }

  lemma PlacedBuild(levels: seq<set<Table>>, j: Job, b: Job)
    requires Placed(levels, j) && j.phase == Picked && b == j.(phase := Built, c := b.c, es := b.es, out := b.out)
    ensures Placed(levels, b)
  {
  }

  // ---------------------------------------------------------------- memtables

  lemma WriteKeeps(s: State, e: Entry)
    requires Inv(s) && Enabled(s, Write(e))
    ensures Inv(Apply(s, Write(e)))
  {
    hide LevelOrder, Shape, Covered, NothingLost, AllPlaced, AllFiltered, ReaderOk;
    var n := Apply(s, Write(e));
    assert e !in s.written;
    WriteMem(s, e);
    WriteOrder(s, n, e);
    WriteVersions(s, n, e);
    forall r | 0 <= r < |s.readers| ensures ReaderOk(n, s.readers[r]) {
      WriteReader(s, n, e, s.readers[r]);
    }
  }

  lemma WriteMem(s: State, e: Entry)
    ensures forall x :: InMem(s.(written := s.written + {e}, mt := s.mt + {e}), x) <==> InMem(s, x) || x == e
  {
    var n := s.(written := s.written + {e}, mt := s.mt + {e});
    forall x ensures InMem(n, x) <==> InMem(s, x) || x == e {
    }
  }

  ghost predicate NewerThanAll(written: set<Entry>, e: Entry) {
    forall x :: x in written && x.key.user == e.key.user ==> x.key.ts < e.key.ts
  }

  lemma WriteOrder(s: State, n: State, e: Entry)
    requires Known(s) && MemOrder(s.mt, s.imm) && MemAbove(s) && NewerThanAll(s.written, e)
    requires n == s.(written := s.written + {e}, mt := s.mt + {e})
    ensures Known(n) && MemOrder(n.mt, n.imm) && MemAbove(n)
  {
    WriteMem(s, e);
    forall i, y | 0 <= i < |s.imm| && y in s.imm[i] ensures InMem(s, y) {
    }
  }

  /** A newer version changes nothing for the reads that cannot see it. */
  lemma WriteNewest(written: set<Entry>, e: Entry, w: Entry, t: nat)
    requires NewerThanAll(written, e) && Newest(written + {e}, w, t) && w != e
    ensures Newest(written, w, t) && !Matches(e, w.key.user, t)
  {
    assert e in written + {e};
    forall x | x in written && Matches(x, w.key.user, t) ensures x.key.ts <= w.key.ts {
      assert x in written + {e};
    }
  }

  lemma WriteVersions(s: State, n: State, e: Entry)
    requires Known(s) && Covered(s) && NothingLost(s) && NewerThanAll(s.written, e)
    requires AllPlaced(s.levels, s.jobs) && (s.flushed ==> s.imm != [])
    requires n == s.(written := s.written + {e}, mt := s.mt + {e})
    ensures Covered(n) && NothingLost(n)
  {
    WriteMem(s, e);
    forall w, t: nat | w != e && Newest(n.written, w, t) ensures Newest(s.written, w, t) && !Matches(e, w.key.user, t) {
      WriteNewest(s.written, e, w, t);
    }
    forall i | i in s.jobs ensures !At(s.jobs[i].top, e) {
      assert Placed(s.levels, s.jobs[i]);
      if At(s.jobs[i].top, e) { TopThere(s.levels, s.jobs[i], e); }
    }
    assert s.flushed ==> e !in s.imm[0] by {
      assert s.flushed && e in s.imm[0] ==> InMem(s, e);
    }
  }

  lemma WriteReader(s: State, n: State, e: Entry, r: Reader)
    requires ReaderOk(s, r) && r.ts < e.key.ts
    requires n == s.(written := s.written + {e}, mt := s.mt + {e})
    ensures ReaderOk(n, r)
  {
    WriteMem(s, e);
    assert !Matches(e, r.user, r.ts);
  }

  lemma RotateKeeps(s: State)
    requires Inv(s)
    ensures Inv(Apply(s, Rotate))
  {
    hide LevelOrder, Shape, Covered, NothingLost, AllPlaced, AllFiltered, MemOrder, Known, ReaderOk;
    var n := Apply(s, Rotate);
    RotateMem(s);
    SameMemReads(s, n);
  }

  lemma RotateMem(s: State)
    ensures forall x :: InMem(s.(imm := s.imm + [s.mt], mt := {}), x) <==> InMem(s, x)
    ensures MemOrder(s.mt, s.imm) ==> MemOrder({}, s.imm + [s.mt])
  {
    var n := s.(imm := s.imm + [s.mt], mt := {});
    forall x ensures InMem(n, x) <==> InMem(s, x) {
      if x in s.mt { assert n.imm[|s.imm|] == s.mt; }
      if i :| 0 <= i < |s.imm| && x in s.imm[i] { assert n.imm[i] == s.imm[i]; }
    }
  }

  lemma SameMemReads(s: State, n: State)
    requires n == s.(mt := n.mt, imm := n.imm) && forall x :: InMem(n, x) <==> InMem(s, x)
    requires s.flushed ==> s.imm != [] && n.imm != [] && n.imm[0] == s.imm[0]
    requires Known(s) && MemAbove(s) && Covered(s) && NothingLost(s)
    ensures Known(n) && MemAbove(n) && Covered(n) && NothingLost(n)
    ensures forall r :: ReaderOk(s, r) ==> ReaderOk(n, r)
  {
    forall u, t: nat ensures MemClear(s, u, t) <==> MemClear(n, u, t) {
    }
  }

  // ---------------------------------------------------------------- flushes

  ghost function Grown(levels: seq<set<Table>>, t: Table): seq<set<Table>>
    requires levels != []
  {
    if t.entries == {} then levels else levels[0 := levels[0] + {t}]
  }

  lemma GrownAt(levels: seq<set<Table>>, t: Table, k: nat, y: Entry)
    requires levels != [] && k < |levels|
    ensures At(Grown(levels, t)[k], y) <==> At(levels[k], y) || (k == 0 && y in t.entries)
  {
    if At(Grown(levels, t)[k], y) {
      var o :| o in Grown(levels, t)[k] && y in o.entries;
      assert o != t ==> o in levels[k];
    }
    if o :| o in levels[k] && y in o.entries { assert o in Grown(levels, t)[k]; }
    if k == 0 && y in t.entries { assert t in Grown(levels, t)[0]; }
  }

  lemma FlushJobs(levels: seq<set<Table>>, jobs: map<nat, Job>, discardTs: nat, now: nat, t: Table)
    requires levels != [] && AllPlaced(levels, jobs) && AllFiltered(levels, discardTs, now, jobs)
    requires forall o :: o in levels[0] ==> o.id < t.id
    ensures AllPlaced(Grown(levels, t), jobs) && AllFiltered(Grown(levels, t), discardTs, now, jobs)
  {
    forall i | i in jobs ensures Placed(Grown(levels, t), jobs[i]) && Filtered(Grown(levels, t), discardTs, now, jobs[i]) {
      FlushPlaced(levels, t, jobs[i]);
      assert forall k :: 1 <= k < |levels| ==> Grown(levels, t)[k] == levels[k];
    }
  }

  lemma FlushPlaced(levels: seq<set<Table>>, t: Table, j: Job)
    requires levels != [] && Placed(levels, j) && forall o :: o in levels[0] ==> o.id < t.id
    ensures Placed(Grown(levels, t), j)
  {
    assert forall k :: 1 <= k < |levels| ==> Grown(levels, t)[k] == levels[k];
  }

  lemma FlushShape(levels: seq<set<Table>>, t: Table)
    requires Shape(levels) && levels != [] && forall o :: o in levels[0] ==> o.id < t.id
    requires forall o, x, y :: o in levels[0] && x in t.entries && y in o.entries ==> Above(x, y)
    ensures Shape(Grown(levels, t))
  {
  }

  lemma FlushLevels(levels: seq<set<Table>>, jobs: map<nat, Job>, t: Table)
    requires LevelOrder(levels, jobs) && levels != []
    requires forall k, x, y :: 1 <= k < |levels| && x in t.entries && At(levels[k], y) ==> Above(x, y)
    ensures LevelOrder(Grown(levels, t), jobs)
  {
    forall k, l, x, y | 0 <= k < l < |levels| && At(Grown(levels, t)[k], x) && At(Grown(levels, t)[l], y)
      ensures Above(x, y) || Dying(jobs, k, y)
    {
      GrownAt(levels, t, k, x);
      GrownAt(levels, t, l, y);
    }
  }

  lemma FlushMem(s: State, n: State, t: Table)
    requires Known(s) && MemAbove(s) && s.imm != [] && !s.flushed && s.levels != [] && t.entries == s.imm[0]
    requires n == s.(flushed := true, levels := Grown(s.levels, t))
    ensures Known(n) && MemAbove(n)
    ensures forall k, x, y :: 0 <= k < |s.levels| && x in t.entries && At(s.levels[k], y) ==> Above(x, y)
  {
    SameMem(s, n);
    forall x | x in t.entries ensures InMem(s, x) {
    }
    forall k, y | 0 <= k < |s.levels| ensures At(n.levels[k], y) <==> At(s.levels[k], y) || (k == 0 && y in t.entries) {
      GrownAt(s.levels, t, k, y);
    }
  }

  lemma FlushOrder(s: State, n: State, t: Table)
    requires Known(s) && MemAbove(s) && LevelOrder(s.levels, s.jobs) && Shape(s.levels)
    requires s.imm != [] && !s.flushed && s.levels != [] && t.entries == s.imm[0]
    requires forall o :: o in s.levels[0] ==> o.id < t.id
    requires n == s.(flushed := true, levels := Grown(s.levels, t))
    ensures Known(n) && MemAbove(n) && LevelOrder(n.levels, n.jobs) && Shape(n.levels)
  {
    FlushMem(s, n, t);
    FlushLevels(s.levels, s.jobs, t);
    forall o, y | o in s.levels[0] && y in o.entries ensures At(s.levels[0], y) {
    }
    FlushShape(s.levels, t);
  }

  lemma FlushFound(s: State, t: Table, w: Entry, ts: nat, lo: nat)
    requires s.levels != [] && s.imm != [] && t.entries == s.imm[0]
    requires Found(s.levels, s.now, w, ts, lo) && (lo == 0 && !Has(s.levels, w, 0) ==> MemClear(s, w.key.user, ts))
    ensures Found(Grown(s.levels, t), s.now, w, ts, lo)
  {
    if Has(s.levels, w, lo) {
      var k :| lo <= k < |s.levels| && At(s.levels[k], w);
      GrownAt(s.levels, t, k, w);
    } else {
      forall k, y | lo <= k < |s.levels| && At(Grown(s.levels, t)[k], y) ensures !Matches(y, w.key.user, ts) {
        GrownAt(s.levels, t, k, y);
        assert y in s.imm[0] ==> InMem(s, y);
      }
    }
  }

  lemma FlushVersions(s: State, n: State, t: Table)
    requires Known(s) && Covered(s) && NothingLost(s)
    requires s.imm != [] && !s.flushed && s.levels != [] && t.entries == s.imm[0]
    requires n == s.(flushed := true, levels := Grown(s.levels, t))
    ensures Covered(n) && NothingLost(n)
  {
    SameMem(s, n);
    forall w, ts: nat, lo: nat | Found(s.levels, s.now, w, ts, lo) && (lo > 0 || MemClear(s, w.key.user, ts))
      ensures Found(n.levels, s.now, w, ts, lo)
    {
      FlushFound(s, t, w, ts, lo);
    }
    forall w | w in s.imm[0] ensures Has(n.levels, w, 0) {
      GrownAt(s.levels, t, 0, w);
    }
  }

  lemma FlushReader(s: State, n: State, t: Table, r: Reader)
    requires s.imm != [] && s.levels != [] && t.entries == s.imm[0] && ReaderOk(s, r)
    requires n == s.(flushed := true, levels := Grown(s.levels, t))
    ensures ReaderOk(n, r)
  {
    if r.best != r.want {
      SameMem(s, n);
      FlushFound(s, t, r.want.value, r.ts, r.next);
      forall k, y | 0 <= k < r.next && k < |s.levels| && At(n.levels[k], y) ensures !Matches(y, r.user, r.ts) {
        GrownAt(s.levels, t, k, y);
        assert y in s.imm[0] ==> InMem(s, y);
      }
    }
  }

  lemma FlushAddKeeps(s: State, id: nat)
    requires Inv(s) && Enabled(s, FlushAdd(id))
    ensures Inv(Apply(s, FlushAdd(id)))
  {
    hide LevelOrder, Shape, Covered, NothingLost, AllPlaced, AllFiltered, MemOrder, MemAbove, Known, ReaderOk;
    var n, t := Apply(s, FlushAdd(id)), Table(id, s.imm[0]);
    FlushOrder(s, n, t);
    FlushJobs(s.levels, s.jobs, s.discardTs, s.now, t);
    FlushVersions(s, n, t);
    forall r | 0 <= r < |s.readers| ensures ReaderOk(n, s.readers[r]) {
      FlushReader(s, n, t, s.readers[r]);
    }
  }

  lemma DropMem(s: State, n: State)
    requires s.imm != [] && n == s.(flushed := false, imm := s.imm[1..])
    ensures forall x :: InMem(n, x) ==> InMem(s, x)
    ensures forall x :: InMem(s, x) ==> InMem(n, x) || x in s.imm[0]
    ensures MemOrder(s.mt, s.imm) ==> MemOrder(n.mt, n.imm) && forall x, y :: InMem(n, x) && y in s.imm[0] ==> Above(x, y)
  {
    forall x | InMem(n, x) ensures InMem(s, x) {
      if i :| 0 <= i < |n.imm| && x in n.imm[i] { assert x in s.imm[i + 1]; }
    }
    forall x | InMem(s, x) ensures InMem(n, x) || x in s.imm[0] {
      if i :| 0 <= i < |s.imm| && x in s.imm[i] { assert i > 0 ==> x in n.imm[i - 1]; }
    }
    if MemOrder(s.mt, s.imm) {
      forall x, y | InMem(n, x) && y in s.imm[0] ensures Above(x, y) {
        if i :| 0 <= i < |n.imm| && x in n.imm[i] { assert x in s.imm[i + 1]; }
      }
    }
  }

  lemma DropVersions(s: State, n: State)
    requires Known(s) && MemOrder(s.mt, s.imm) && MemAbove(s) && Covered(s) && NothingLost(s)
    requires s.imm != [] && s.flushed && n == s.(flushed := false, imm := s.imm[1..])
    ensures Known(n) && MemAbove(n) && Covered(n) && NothingLost(n)
  {
    DropMem(s, n);
    forall w, t: nat | Newest(s.written, w, t) && s.discardTs <= t
      ensures InMem(n, w) || (MemClear(n, w.key.user, t) && Found(n.levels, n.now, w, t, 0))
    {
    }
  }

  lemma DropReader(s: State, n: State, r: Reader)
    requires s.imm != [] && n == s.(flushed := false, imm := s.imm[1..]) && ReaderOk(s, r)
    ensures ReaderOk(n, r)
  {
    DropMem(s, n);
  }

  lemma FlushDropKeeps(s: State)
    requires Inv(s) && Enabled(s, FlushDrop)
    ensures Inv(Apply(s, FlushDrop))
  {
    hide LevelOrder, Shape, Covered, NothingLost, AllPlaced, AllFiltered, MemOrder, MemAbove, Known, ReaderOk;
    var n := Apply(s, FlushDrop);
    DropMem(s, n);
    DropVersions(s, n);
    forall r | 0 <= r < |s.readers| ensures ReaderOk(n, s.readers[r]) {
      DropReader(s, n, s.readers[r]);
    }
  }

  // ---------------------------------------------------------------- readers

  lemma OpenOk(s: State, ts: nat, user: int, want: Option<Entry>, best: Option<Entry>)
    requires Known(s) && NothingLost(s) && s.discardTs <= ts
    requires Wanted(s.written, user, ts, want) && NewestIn(e => InMem(s, e), user, ts, best)
    ensures ReaderOk(s, Reader(user, ts, want, best, 0))
  {
    assert best.Some? ==> InMem(s, best.value);
    if want.Some? && InMem(s, want.value) {
      assert Matches(want.value, user, ts);
      assert best.Some? && want.value.key.ts <= best.value.key.ts;
    }
  }

  /** One level further: the reader finds what it wants, or it is still ahead. */
  lemma VisitOk(s: State, r: Reader, found: Option<Entry>)
    requires Known(s) && LevelOrder(s.levels, s.jobs) && DyingThere(s.levels, s.jobs) && ReaderOk(s, r)
    requires r.next < |s.levels| && NewestIn(e => At(s.levels[r.next], e), r.user, r.ts, found)
    ensures ReaderOk(s, r.(best := Newer(r.best, found), next := r.next + 1))
  {
    assert found.Some? ==> At(s.levels[r.next], found.value) && Matches(found.value, r.user, r.ts);
    if r.best == r.want {
      assert found.Some? && r.want.Some? ==> found.value.key.ts <= r.want.value.key.ts;
    } else {
      VisitAhead(s, r, found);
    }
  }

  lemma VisitAhead(s: State, r: Reader, found: Option<Entry>)
    requires Known(s) && LevelOrder(s.levels, s.jobs) && DyingThere(s.levels, s.jobs) && ReaderOk(s, r)
    requires r.best != r.want && r.next < |s.levels|
    requires NewestIn(e => At(s.levels[r.next], e), r.user, r.ts, found)
    ensures found == r.want
         || (&& found == None && Clear(s.levels, r.user, r.ts, 0, r.next + 1)
             && Found(s.levels, s.now, r.want.value, r.ts, r.next + 1))
  {
    var w := r.want.value;
    if At(s.levels[r.next], w) {
      assert Matches(w, r.user, r.ts);
      assert found.Some? && w.key.ts <= found.value.key.ts && At(s.levels[r.next], found.value);
    } else if Has(s.levels, w, r.next) {
      NewestIsMax(s, w, r.ts);
      var l :| r.next <= l < |s.levels| && At(s.levels[l], w);
      if found.Some? { AboveHas(s.levels, s.jobs, r.next, l, found.value, w, r.ts); }
      assert Has(s.levels, w, r.next + 1);
    }
  }

  lemma OpenKeeps(s: State, ev: Event)
    requires Inv(s) && ev.Open? && Enabled(s, ev)
    ensures Inv(Apply(s, ev))
  {
    hide LevelOrder, Shape, Covered, NothingLost, AllFiltered, MemOrder, MemAbove, Known, ReaderOk;
    OpenOk(s, ev.ts, ev.user, ev.want, ev.best);
    SameButReaders(s, Apply(s, ev));
  }

  lemma SameButReaders(s: State, n: State)
    requires n == s.(readers := n.readers) && Known(s) && MemAbove(s) && Covered(s) && NothingLost(s)
    ensures Known(n) && MemAbove(n) && Covered(n) && NothingLost(n)
    ensures forall r :: ReaderOk(s, r) ==> ReaderOk(n, r)
  {
    SameMem(s, n);
  }

  lemma VisitKeeps(s: State, ev: Event)
    requires Inv(s) && ev.Visit? && Enabled(s, ev)
    ensures Inv(Apply(s, ev))
  {
    hide LevelOrder, Shape, Covered, NothingLost, AllFiltered, MemOrder, MemAbove, Known, ReaderOk;
    AllThere(s.levels, s.jobs);
    VisitOk(s, s.readers[ev.r], ev.found);
    SameButReaders(s, Apply(s, ev));
  }

  lemma CloseKeeps(s: State, ev: Event)
    requires Inv(s) && ev.Close? && Enabled(s, ev)
    ensures Inv(Apply(s, ev))
  {
    hide LevelOrder, Shape, Covered, NothingLost, AllFiltered, MemOrder, MemAbove, Known, ReaderOk;
    var n := Apply(s, ev);
    SameButReaders(s, n);
    forall r | 0 <= r < |n.readers| ensures ReaderOk(n, n.readers[r]) {
      assert n.readers[r] == s.readers[if r < ev.r then r else r + 1];
    }
  }

  lemma RaiseKeeps(s: State, d: nat, now: nat)
    requires Inv(s) && Enabled(s, Raise(d, now))
    ensures Inv(Apply(s, Raise(d, now)))
  {
    hide LevelOrder, Shape, Covered, NothingLost, AllPlaced, AllFiltered, MemOrder, MemAbove, Known;
    var n := Apply(s, Raise(d, now));
    RaiseJobs(s.levels, s.discardTs, s.now, s.jobs, d, now);
    RaiseVersions(s, n);
    forall r | 0 <= r < |s.readers| ensures ReaderOk(n, s.readers[r]) {
      SameMem(s, n);
    }
  }

  lemma RaiseJobs(levels: seq<set<Table>>, discardTs: nat, now: nat, jobs: map<nat, Job>, d: nat, later: nat)
    requires AllFiltered(levels, discardTs, now, jobs) && discardTs <= d && now <= later
    ensures AllFiltered(levels, d, later, jobs)
  {
    forall i | i in jobs ensures Filtered(levels, d, later, jobs[i]) {
      assert Filtered(levels, discardTs, now, jobs[i]);
    }
  }

  lemma RaiseVersions(s: State, n: State)
    requires Known(s) && MemAbove(s) && Covered(s) && NothingLost(s)
    requires n == s.(discardTs := n.discardTs, now := n.now) && s.discardTs <= n.discardTs && s.now <= n.now
    ensures Known(n) && MemAbove(n) && Covered(n) && NothingLost(n)
  {
    SameMem(s, n);
    RaiseFound(s.levels, s.now, n.now);
  }

  lemma RaiseFound(levels: seq<set<Table>>, now: nat, later: nat)
    requires now <= later
    ensures forall w, t: nat, n: nat :: Found(levels, now, w, t, n) ==> Found(levels, later, w, t, n)
  {
  }

  // ---------------------------------------------------------------- every run

  lemma InitInv(s: State)
    requires Init(s)
    ensures Inv(s)
  {
  }

  lemma StepKeeps(s: State, ev: Event)
    requires Inv(s) && Enabled(s, ev)
    ensures Inv(Apply(s, ev))
  {
    hide Inv;
    match ev
    case Write(e) => WriteKeeps(s, e);
    case Rotate => RotateKeeps(s);
    case FlushAdd(id) => FlushAddKeeps(s, id);
    case FlushDrop => FlushDropKeeps(s);
    case Start(i, j) => StartKeeps(s, i, j);
    case Build(_, _, _, _, _) => BuildKeeps(s, ev);
    case Install(i) => InstallKeeps(s, i);
    case Finish(i) => FinishKeeps(s, i);
    case Open(_, _, _, _) => OpenKeeps(s, ev);
    case Visit(_, _) => VisitKeeps(s, ev);
    case Close(_) => CloseKeeps(s, ev);
    case Raise(d, now) => RaiseKeeps(s, d, now);
  }

  lemma {:induction false} ReachesInv(s: State, run: seq<Event>)
    requires Reaches(s, run)
    ensures Inv(s)
    decreases |run|
  {
    if run == [] {
      InitInv(s);
    } else {
      var before, ev := run[..|run| - 1], run[|run| - 1];
      var p: State :| Reaches(p, before) && Steps(p, ev, s);
      ReachesInv(p, before);
      StepKeeps(p, ev);
    }
  }

  /** However lookups interleave with writes, flushes and compactions, a lookup that is done answers
      with the newest version at or below its timestamp ever written, or with nothing if that version
      is deleted or expired or if there is none. */
  lemma EveryLookupIsRight(s: State, run: seq<Event>, r: nat)
    requires Reaches(s, run) && r < |s.readers| && Done(s, s.readers[r])
    ensures var d := s.readers[r];
            && Wanted(s.written, d.user, d.ts, d.want)
            && Alive(d.best, s.now) ==
               (if d.want.Some? && !d.want.value.vs.meta.delete && (d.want.value.vs.expiresAt == 0 || d.want.value.vs.expiresAt > s.now)
                then Some(d.want.value.vs) else None)
  {
    ReachesInv(s, run);
    assert ReaderOk(s, s.readers[r]);
  }
}
