/** Watermarks (y/watermark.go): the smallest unfinished index, computed by one goroutine from a
    FIFO channel of begin and done marks.

    `State`/`Step`/`Run` say what the mark processor computes from a log of marks; the class
    `WaterMark` is the processor itself. The lemmas are about logs in which begins never decrease
    and every done follows its own begin, whatever part of the log has been processed so far. */
module Watermarks {

  /** One message of the channel. `owner` only names who sent it, so that a done can be matched
      with its begin; the processor never looks at it. */
  datatype Mark = Mark(index: nat, done: bool, owner: nat)

  datatype State = State(doneUntil: nat, pending: map<nat, int>)

  // ---------------------------------------------------------------- what one mark does

  function Least(s: set<nat>): (m: nat)
    requires s != {}
    ensures m in s && forall i :: i in s ==> m <= i
  {
    LeastExists(s);
    var m :| m in s && forall i :: i in s ==> m <= i;
    m
  }

  lemma LeastExists(s: set<nat>)
    requires s != {}
    ensures exists m :: m in s && forall i :: i in s ==> m <= i
  {
    var x :| x in s;
    LeastBelow(s, x);
  }

  lemma {:induction false} LeastBelow(s: set<nat>, n: nat)
    requires n in s
    ensures exists m :: m in s && forall i :: i in s ==> m <= i
  {
    if m :| m in s && m < n {
      LeastBelow(s, m);
    } else {
      assert n in s && forall i :: i in s ==> n <= i;
    }
  }

  /** Pops finished indices in increasing order, stopping at the first unfinished one. */
  function Drain(s: State): State
    decreases |s.pending|
  {
    if s.pending == map[] then s
    else
      var m := Least(s.pending.Keys);
      if s.pending[m] > 0 then s
      else
        assert (s.pending - {m}).Keys == s.pending.Keys - {m};
        Drain(State(m, s.pending - {m}))
  }

  function Count(s: State, index: nat): int {
    if index in s.pending then s.pending[index] else 0
  }

  function Bump(s: State, m: Mark): State {
    s.(pending := s.pending[m.index := Count(s, m.index) + if m.done then -1 else 1])
  }

  function Step(s: State, m: Mark): State {
    Drain(Bump(s, m))
  }

  /** The state once the processor has taken every mark of `log`, starting at watermark `start`. */
  function Run(start: nat, log: seq<Mark>): State {
    if log == [] then State(start, map[]) else Step(Run(start, log[..|log| - 1]), log[|log| - 1])
  }

  /** What `DoneUntil()` returns when `seen` marks of `log` have been processed. */
  function DoneUntil(start: nat, log: seq<Mark>, seen: nat): nat
    requires seen <= |log|
  {
    Run(start, log[..seen]).doneUntil
  }

  // ---------------------------------------------------------------- well-behaved senders

  /** Owners that have sent a begin for `index` and not yet its done. */
  function Open(log: seq<Mark>, index: nat): set<nat> {
    if log == [] then {}
    else
      var rest := Open(log[..|log| - 1], index);
      var m := log[|log| - 1];
      if m.index != index then rest else if m.done then rest - {m.owner} else rest + {m.owner}
  }

  function LastBegun(start: nat, log: seq<Mark>): nat {
    if log == [] then start
    else
      var m := log[|log| - 1];
      if m.done then LastBegun(start, log[..|log| - 1]) else m.index
  }

  /** Begins never decrease (and strictly increase if `strict`); each done closes an open begin. */
  predicate Disciplined(start: nat, log: seq<Mark>, strict: bool) {
    log == [] ||
    var before := log[..|log| - 1];
    var m := log[|log| - 1];
    && Disciplined(start, before, strict)
    && (if m.done then m.owner in Open(before, m.index)
        else
          && m.owner !in Open(before, m.index)
          && (if strict then LastBegun(start, before) < m.index else LastBegun(start, before) <= m.index))
  }

  /** Sending one more mark: what it opens or closes, and that nothing already processed changes. */
  lemma Append(start: nat, log: seq<Mark>, m: Mark)
    ensures forall i: nat :: Open(log + [m], i) ==
              if m.index != i then Open(log, i)
              else if m.done then Open(log, i) - {m.owner} else Open(log, i) + {m.owner}
    ensures LastBegun(start, log + [m]) == if m.done then LastBegun(start, log) else m.index
    ensures forall seen :: 0 <= seen <= |log| ==> DoneUntil(start, log + [m], seen) == DoneUntil(start, log, seen)
    ensures forall strict :: Disciplined(start, log + [m], strict) <==>
              && Disciplined(start, log, strict)
              && (if m.done then m.owner in Open(log, m.index)
                  else
                    && m.owner !in Open(log, m.index)
                    && (if strict then LastBegun(start, log) < m.index else LastBegun(start, log) <= m.index))
  {
    assert (log + [m])[..|log|] == log;
    forall seen | 0 <= seen <= |log|
      ensures DoneUntil(start, log + [m], seen) == DoneUntil(start, log, seen)
    {
      assert (log + [m])[..seen] == log[..seen];
    }
  }

  // ---------------------------------------------------------------- the processor's invariant

  /** What processing a disciplined log has established: a heap entry counts exactly the open
      owners of its index, every open index is in the heap, and the mark is at or below them all. */
  ghost predicate Reflects(s: State, start: nat, log: seq<Mark>, strict: bool) {
    && (forall i :: i in s.pending ==> s.pending[i] == |Open(log, i)|)
    && (forall i :: Open(log, i) != {} ==> i in s.pending)
    && (forall i :: i in s.pending ==> s.doneUntil <= i <= LastBegun(start, log))
    && (strict ==> forall i :: i in s.pending ==> s.doneUntil < i)
    && start <= s.doneUntil <= LastBegun(start, log)
  }

  /** Draining keeps counts and open indices, moves the mark up only, and leaves the heap either
      empty or with an unfinished index on top. */
  lemma {:induction false} DrainKeeps(s: State, start: nat, log: seq<Mark>, strict: bool)
    requires Reflects(s, start, log, strict)
    ensures Reflects(Drain(s), start, log, strict)
    ensures s.doneUntil <= Drain(s).doneUntil
    ensures Drain(s).pending != map[] ==> Drain(s).pending[Least(Drain(s).pending.Keys)] > 0
    ensures Drain(s).pending == map[] && s.pending != map[] ==> Drain(s).doneUntil in s.pending
    ensures Drain(s).doneUntil == s.doneUntil || Drain(s).doneUntil in s.pending
    ensures forall i :: i in s.pending && i !in Drain(s).pending ==> i <= Drain(s).doneUntil
    decreases |s.pending|
  {
    if s.pending != map[] {
      var m := Least(s.pending.Keys);
      if s.pending[m] <= 0 {
        var t := State(m, s.pending - {m});
        assert t.pending.Keys == s.pending.Keys - {m};
        assert Open(log, m) == {};
        DrainKeeps(t, start, log, strict);
      }
    }
  }

  lemma OpenAfter(log: seq<Mark>, m: Mark)
    requires if m.done then m.owner in Open(log, m.index) else m.owner !in Open(log, m.index)
    ensures |Open(log + [m], m.index)| == |Open(log, m.index)| + if m.done then -1 else 1
    ensures forall i :: i != m.index ==> Open(log + [m], i) == Open(log, i)
  {
    assert (log + [m])[..|log|] == log;
    if m.done { assert Open(log, m.index) == Open(log + [m], m.index) + {m.owner}; }
  }

  lemma BumpReflects(s: State, start: nat, log: seq<Mark>, m: Mark, strict: bool)
    requires Reflects(s, start, log, strict) && Disciplined(start, log + [m], strict)
    ensures Reflects(Bump(s, m), start, log + [m], strict)
    ensures s.doneUntil <= m.index
  {
    assert (log + [m])[..|log|] == log;
    OpenAfter(log, m);
    if m.index !in s.pending { assert Open(log, m.index) == {}; }
  }

  lemma {:induction false} RunReflects(start: nat, log: seq<Mark>, strict: bool)
    requires Disciplined(start, log, strict)
    ensures Reflects(Run(start, log), start, log, strict)
    ensures Run(start, log).pending != map[] ==>
              var p := Run(start, log).pending; p[Least(p.Keys)] > 0
    ensures log != [] ==> Run(start, log[..|log| - 1]).doneUntil <= Run(start, log).doneUntil
  {
    if log != [] {
      var before, m := log[..|log| - 1], log[|log| - 1];
      assert log == before + [m];
      RunReflects(start, before, strict);
      BumpReflects(Run(start, before), start, before, m, strict);
      DrainKeeps(Bump(Run(start, before), m), start, log, strict);
    }
  }

  // ---------------------------------------------------------------- what readers rely on

  lemma {:induction false} DisciplinedPrefix(start: nat, log: seq<Mark>, strict: bool, seen: nat)
    requires Disciplined(start, log, strict) && seen <= |log|
    ensures Disciplined(start, log[..seen], strict)
    ensures LastBegun(start, log[..seen]) <= LastBegun(start, log)
  {
    if seen < |log| {
      DisciplinedPrefix(start, log[..|log| - 1], strict, seen);
      assert log[..|log| - 1][..seen] == log[..seen];
    } else {
      assert log[..seen] == log;
    }
  }

  /** An index still open at the end of the log was open already, or was begun later and so is
      not below anything begun before. */
  lemma {:induction false} OpenSince(start: nat, log: seq<Mark>, strict: bool, seen: nat, index: nat)
    requires Disciplined(start, log, strict) && seen <= |log|
    requires Open(log, index) != {}
    ensures || Open(log[..seen], index) != {}
            || (if strict then LastBegun(start, log[..seen]) < index else LastBegun(start, log[..seen]) <= index)
  {
    if seen == |log| {
      assert log[..seen] == log;
    } else {
      var before := log[..|log| - 1];
      assert before[..seen] == log[..seen];
      if Open(before, index) != {} {
        OpenSince(start, before, strict, seen, index);
      } else {
        DisciplinedPrefix(start, before, strict, seen);
      }
    }
  }

  /** The safety property: the watermark never passes an index that is unfinished anywhere in the
      log, processed or not; with strictly increasing begins it stays strictly below. */
  lemma NeverPassesUnfinished(start: nat, log: seq<Mark>, strict: bool, seen: nat, index: nat)
    requires Disciplined(start, log, strict) && seen <= |log|
    requires Open(log, index) != {}
    ensures DoneUntil(start, log, seen) <= index
    ensures strict ==> DoneUntil(start, log, seen) < index
  {
    DisciplinedPrefix(start, log, strict, seen);
    RunReflects(start, log[..seen], strict);
    OpenSince(start, log, strict, seen, index);
  }

  lemma {:induction false} NeverDecreases(start: nat, log: seq<Mark>, strict: bool, seen: nat, later: nat)
    requires Disciplined(start, log, strict) && seen <= later <= |log|
    ensures DoneUntil(start, log, seen) <= DoneUntil(start, log, later) <= LastBegun(start, log)
    decreases later
  {
    DisciplinedPrefix(start, log, strict, later);
    RunReflects(start, log[..later], strict);
    if seen < later {
      assert log[..later][..later - 1] == log[..later - 1];
      NeverDecreases(start, log, strict, seen, later - 1);
    }
  }

  /** The check `doneUntil > index` in processOne, which would kill the process, never fires. */
  lemma FatalCheckNeverFires(start: nat, log: seq<Mark>, strict: bool, seen: nat)
    requires Disciplined(start, log, strict) && seen < |log|
    ensures DoneUntil(start, log, seen) <= log[seen].index
  {
    DisciplinedPrefix(start, log, strict, seen + 1);
    assert log[..seen + 1][..seen] == log[..seen];
    RunReflects(start, log[..seen], strict);
  }

  /** Progress: once every begin has its done and all marks are processed, the heap is empty and
      the watermark is the last index begun. */
  lemma {:induction false} CatchesUp(start: nat, log: seq<Mark>, strict: bool)
    requires Disciplined(start, log, strict)
    requires forall i :: Open(log, i) == {}
    ensures Run(start, log) == State(LastBegun(start, log), map[])
  {
    RunReflects(start, log, strict);
    var s := Run(start, log);
    if s.pending != map[] {
      assert false;
    }
    LastBegunIsFinished(start, log, strict);
  }

  /** The last index begun is in the heap or at or below the mark. */
  lemma {:induction false} LastBegunIsFinished(start: nat, log: seq<Mark>, strict: bool)
    requires Disciplined(start, log, strict)
    ensures LastBegun(start, log) in Run(start, log).pending || LastBegun(start, log) <= Run(start, log).doneUntil
  {
    if log != [] {
      var before, m := log[..|log| - 1], log[|log| - 1];
      RunReflects(start, log, strict);
      RunReflects(start, before, strict);
      if m.done { LastBegunIsFinished(start, before, strict); }
      var s := Run(start, before);
      assert log == before + [m];
      BumpReflects(s, start, before, m, strict);
      DrainShrinks(Bump(s, m));
    }
  }

  lemma {:induction false} DrainShrinks(s: State)
    requires forall i :: i in s.pending ==> s.doneUntil <= i
    ensures s.doneUntil <= Drain(s).doneUntil
    ensures forall i :: i in s.pending && i !in Drain(s).pending ==> i <= Drain(s).doneUntil
    decreases |s.pending|
  {
    if s.pending != map[] {
      var m := Least(s.pending.Keys);
      if s.pending[m] <= 0 {
        assert (s.pending - {m}).Keys == s.pending.Keys - {m};
        DrainShrinks(State(m, s.pending - {m}));
      }
    }
  }

  // ---------------------------------------------------------------- the processor itself

  /** Keeping a strictly increasing sequence is what container/heap is used for here. */
  ghost predicate Increasing(h: seq<nat>) {
    forall i, j :: 0 <= i < j < |h| ==> h[i] < h[j]
  }

  ghost predicate IsHeapOf(h: seq<nat>, s: set<nat>) {
    Increasing(h) && forall i :: i in h <==> i in s
  }

  method Push(h: seq<nat>, x: nat) returns (r: seq<nat>)
    requires Increasing(h) && x !in h
    ensures Increasing(r) && forall i :: i in r <==> i in h || i == x
  {
    var k := 0;
    while k < |h| && h[k] < x
      invariant k <= |h| && forall j :: 0 <= j < k ==> h[j] < x
    {
      k := k + 1;
    }
    r := h[..k] + [x] + h[k..];
    assert forall i :: i in h <==> i in h[..k] || i in h[k..] by { assert h == h[..k] + h[k..]; }
  }

  lemma HeapTop(h: seq<nat>, s: set<nat>)
    requires IsHeapOf(h, s) && h != []
    ensures s != {} && h[0] == Least(s)
    ensures IsHeapOf(h[1..], s - {h[0]})
  {
    assert h[0] in h;
    var l := Least(s);
    assert l in h;
    forall i ensures i in h[1..] <==> i in s - {h[0]} {
      assert i in h <==> i == h[0] || i in h[1..] by { assert h == [h[0]] + h[1..]; }
    }
  }

  /** Goes through the indices in order, removing those that are done. */
  method PopFinished(doneUntil: nat, indices: seq<nat>, pending: map<nat, int>)
    returns (until: nat, heap: seq<nat>, left: map<nat, int>)
    requires IsHeapOf(indices, pending.Keys)
    requires forall i :: i in pending ==> doneUntil <= i
    ensures IsHeapOf(heap, left.Keys) && State(until, left) == Drain(State(doneUntil, pending))
    ensures doneUntil <= until && forall i :: i in left ==> until <= i
  {
    until, heap, left := doneUntil, indices, pending;
    while |heap| > 0 && left[heap[0]] <= 0
      invariant IsHeapOf(heap, left.Keys)
      invariant Drain(State(until, left)) == Drain(State(doneUntil, pending))
      invariant doneUntil <= until && forall i :: i in left ==> until <= i
      decreases |heap|
    {
      HeapTop(heap, left.Keys);
      var min := heap[0];
      assert (left - {min}).Keys == left.Keys - {min};
      heap, left, until := heap[1..], left - {min}, min;
    }
    if |heap| > 0 {
      HeapTop(heap, left.Keys);
    } else {
      assert left.Keys == {};
    }
  }

  /** Exactly the channels waiting at or below the mark have been closed and forgotten. */
  ghost predicate Woken(before: map<nat, seq<nat>>, closedBefore: set<nat>, mark: nat,
                        after: map<nat, seq<nat>>, closed: set<nat>)
  {
    && after == (map i | i in before && i > mark :: before[i])
    && forall c :: c in closed <==>
         c in closedBefore || exists i :: i in before && i <= mark && c in before[i]
  }

  class WaterMark {
    var doneUntil: nat
    var pending: map<nat, int>
    var indices: seq<nat>              // the heap
    var waiters: map<nat, seq<nat>>    // channels waiting for an index
    var closed: set<nat>               // channels closed so far

    ghost predicate Valid()
      reads this
    {
      IsHeapOf(indices, pending.Keys) && forall i :: i in waiters ==> doneUntil < i
    }

    function Value(): State
      reads this
    {
      State(doneUntil, pending)
    }

    constructor (start: nat)
      ensures Valid() && Value() == Run(start, []) && waiters == map[] && closed == {}
    {
      doneUntil, pending, indices, waiters, closed := start, map[], [], map[], {};
    }

    /** Counts the mark, pushing its index if it is not in the heap. */
    method Record(m: Mark)
      requires IsHeapOf(indices, pending.Keys)
      modifies this`indices, this`pending
      ensures IsHeapOf(indices, pending.Keys) && Value() == Bump(old(Value()), m)
    {
      if m.index !in pending {
        indices := Push(indices, m.index);
      }
      var prev := if m.index in pending then pending[m.index] else 0;
      pending := pending[m.index := prev + if m.done then -1 else 1];
    }

    /** One begin or done mark. The result is false when the fatal check fires. Otherwise exactly
        the waiters at or below the new mark are woken. */
    method ProcessOne(m: Mark) returns (ok: bool)
      requires Valid()
      requires forall i :: i in pending ==> doneUntil <= i
      modifies this
      ensures ok == (old(doneUntil) <= m.index)
      ensures ok ==> Valid() && Value() == Step(old(Value()), m)
      ensures ok ==> Woken(old(waiters), old(closed), doneUntil, waiters, closed)
    {
      Record(m);
      if doneUntil > m.index {
        return false;
      }
      var until, heap, left := PopFinished(doneUntil, indices, pending);
      indices, pending := heap, left;
      var was := doneUntil;
      doneUntil := until;
      if until - was <= |waiters| {
        NotifyByIndex(was);
      } else {
        NotifyByWaiter();
      }
      return true;
    }

    /** Closes the channels waiting for `idx` and forgets them. */
    method NotifyAndRemove(idx: nat)
      requires idx in waiters
      modifies this`waiters, this`closed
      ensures waiters == old(waiters) - {idx}
      ensures forall c :: c in closed <==> c in old(closed) || c in old(waiters)[idx]
    {
      var toNotify := waiters[idx];
      for k := 0 to |toNotify|
        invariant waiters == old(waiters)
        invariant forall c :: c in closed <==> c in old(closed) || c in toNotify[..k]
      {
        assert toNotify[..k + 1] == toNotify[..k] + [toNotify[k]];
        closed := closed + {toNotify[k]};
      }
      assert toNotify[..|toNotify|] == toNotify;
      waiters := waiters - {idx};
    }

    /** The path taken when the mark moved little: one lookup for every index passed. */
    method NotifyByIndex(was: nat)
      requires was <= doneUntil
      requires forall i :: i in waiters ==> was < i
      modifies this`waiters, this`closed
      ensures Woken(old(waiters), old(closed), doneUntil, waiters, closed)
    {
      for idx := was + 1 to doneUntil + 1
        invariant waiters == map i | i in old(waiters) && i >= idx :: old(waiters)[i]
        invariant forall c :: c in closed <==>
                    || c in old(closed)
                    || exists i :: i in old(waiters) && i < idx && c in old(waiters)[i]
      {
        if idx in waiters {
          NotifyAndRemove(idx);
        }
      }
    }

    /** The path taken when the mark jumped: one pass over the waiters. */
    method NotifyByWaiter()
      modifies this`waiters, this`closed
      ensures Woken(old(waiters), old(closed), doneUntil, waiters, closed)
    {
      var todo := waiters.Keys;
      while todo != {}
        invariant todo <= old(waiters).Keys
        invariant waiters == map i | i in old(waiters) && (i in todo || i > doneUntil) :: old(waiters)[i]
        invariant forall c :: c in closed <==>
                    || c in old(closed)
                    || exists i :: i in old(waiters) && i !in todo && i <= doneUntil && c in old(waiters)[i]
        decreases todo
      {
        var idx :| idx in todo;
        todo := todo - {idx};
        if idx <= doneUntil {
          NotifyAndRemove(idx);
        }
      }
    }

    /** A waiter's message: woken at once if the mark is already there, else remembered. */
    method ProcessWaiter(index: nat, channel: nat)
      requires Valid()
      modifies this
      ensures Valid() && Value() == old(Value())
      ensures doneUntil >= index ==> closed == old(closed) + {channel} && waiters == old(waiters)
      ensures doneUntil < index ==> closed == old(closed)
      ensures doneUntil < index ==>
                waiters == old(waiters)[index := if index in old(waiters) then old(waiters)[index] + [channel] else [channel]]
    {
      if doneUntil >= index {
        closed := closed + {channel};
      } else if index !in waiters {
        waiters := waiters[index := [channel]];
      } else {
        waiters := waiters[index := waiters[index] + [channel]];
      }
    }
  }

  /** The processor over a whole disciplined log: it never dies and computes `Run`. */
  method ProcessAll(start: nat, log: seq<Mark>, ghost strict: bool) returns (w: WaterMark)
    requires Disciplined(start, log, strict)
    ensures w.Value() == Run(start, log)
  {
    w := new WaterMark(start);
    for k := 0 to |log|
      invariant fresh(w) && w.Valid() && w.Value() == Run(start, log[..k])
    {
      DisciplinedPrefix(start, log, strict, k);
      DisciplinedPrefix(start, log, strict, k + 1);
      RunReflects(start, log[..k], strict);
      FatalCheckNeverFires(start, log, strict, k);
      assert log[..k + 1][..k] == log[..k];
      var ok := w.ProcessOne(log[k]);
    }
    assert log[..|log|] == log;
  }
}
