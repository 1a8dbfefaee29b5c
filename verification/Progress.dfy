/** What the transaction machine gets done (txn.go): no transaction waits for ever for its read timestamp,
    the read watermark catches up, and a commit is refused only for a reason. */
module Progress {
  import opened Wrappers
  import opened Watermarks
  import opened Transactions
  import opened Serializability

  // ---------------------------------------------------------------- what is in flight can be written

  /** Whatever is in flight is from a commit of the history. */
  ghost predicate Sent(s: Db) {
    forall ts :: ts in s.inFlight ==> exists c :: From(s, c, ts)
  }

  ghost predicate From(s: Db, c: Commit, ts: nat) {
    c in s.history && c.ts == ts && ts in s.inFlight && s.inFlight[ts] <= c.writes.Keys
  }

  lemma StepSent(s: Db, fp: Fingerprint, e: Event)
    requires Can(s, e) && Sent(s)
    ensures Sent(Apply(s, fp, e))
  {
    var t := Apply(s, fp, e);
    StepKeepsHistory(s, fp, e);
    hide Apply, Can;
    forall ts | ts in t.inFlight ensures exists c :: From(t, c, ts) {
      if ts in s.inFlight {
        var c :| From(s, c, ts);
        if t.inFlight[ts] <= s.inFlight[ts] {
          assert From(t, c, ts);
        } else {
          var d :| d in t.history && d.ts == ts && t.inFlight[ts] == d.writes.Keys;
          assert From(t, d, ts);
        }
      } else {
        var c :| c in t.history && c.ts == ts && t.inFlight[ts] == c.writes.Keys;
        assert From(t, c, ts);
      }
    }
  }

  /** A commit stays in the history while it is in flight, and what is newly in flight is there. */
  lemma StepKeepsHistory(s: Db, fp: Fingerprint, e: Event)
    requires Can(s, e)
    ensures var t := Apply(s, fp, e);
            && (forall c :: c in s.history && c.ts in t.inFlight ==> c in t.history)
            && (forall ts :: ts in t.inFlight && ts in s.inFlight ==>
                  t.inFlight[ts] <= s.inFlight[ts] || exists c :: c in t.history && c.ts == ts && t.inFlight[ts] == c.writes.Keys)
            && (forall ts :: ts in t.inFlight && ts !in s.inFlight ==>
                  exists c :: c in t.history && c.ts == ts && t.inFlight[ts] == c.writes.Keys)
  {
    hide Lookup, WriteOf, DoneUntil, HasConflict, Cleaned, Without;
    var t := Apply(s, fp, e);
    if e.FailCommit? { WithoutMembers(s.history, e.ts); }
    if e.CommitTxn? && e.sent {
      var c := t.history[|s.history|];
      assert c in t.history && c.ts == s.oracle.nextTxnTs && t.inFlight[c.ts] == c.writes.Keys;
    }
  }

  lemma {:induction false} ReachesSent(s: Db, fp: Fingerprint, run: seq<Event>)
    requires Reaches(s, fp, run)
    ensures Sent(s)
    decreases |run|
  {
    hide Sent, Enabled, Apply;
    if run == [] {
      NoneSent(s);
    } else {
      var p: Db :| Reaches(p, fp, run[..|run| - 1])
                && p.oracle.txnSeen <= |p.oracle.txnLog| && Enabled(p, run[|run| - 1])
                && s == Apply(p, fp, run[|run| - 1]);
      ReachesSent(p, fp, run[..|run| - 1]);
      StepSent(p, fp, run[|run| - 1]);
    }
  }

  lemma NoneSent(s: Db)
    requires Init(s)
    ensures Sent(s)
  {
  }

  /** Somewhere on the way from `s`, which was reached by `before`. */
  ghost predicate OnTheWay(s: Db, t: Db, fp: Fingerprint, before: seq<Event>, run: seq<Event>) {
    && Reaches(s, fp, before) && Leads(s, t, fp, run)
    && t.txns == s.txns && t.history == s.history && t.start == s.start
  }

  lemma WayInv(s: Db, t: Db, fp: Fingerprint, before: seq<Event>, run: seq<Event>)
    requires OnTheWay(s, t, fp, before, run)
    ensures Reaches(t, fp, before + run) && Inv(t, fp) && Sent(t)
  {
    LeadsReaches(s, t, fp, before, run);
    ReachesInv(t, fp, before + run);
    ReachesSent(t, fp, before + run);
    hide *;
  }

  lemma Further(s: Db, t: Db, fp: Fingerprint, before: seq<Event>, run: seq<Event>, e: Event) returns (u: Db)
    requires OnTheWay(s, t, fp, before, run) && Can(t, e)
    requires e.WriteEntry? || e.DoneCommit? || e.ProcessReadMark? || e.ProcessTxnMark?
    ensures u == Apply(t, fp, e) && OnTheWay(s, u, fp, before, run + [e])
  {
    u := Apply(t, fp, e);
    hide Enabled, Reaches, WriteOf;
    assert (run + [e])[..|run + [e]| - 1] == run;
  }

  /** All that is left of the commit at `ts` can be written. */
  lemma WriteRest(s: Db, p: Db, fp: Fingerprint, before: seq<Event>, run0: seq<Event>, ts: nat) returns (t: Db, run: seq<Event>)
    requires OnTheWay(s, p, fp, before, run0) && ts in p.inFlight
    ensures OnTheWay(s, t, fp, before, run) && t.inFlight.Keys == p.inFlight.Keys && ts in t.inFlight && t.inFlight[ts] == {}
  {
    hide OnTheWay, Inv, WriteOf, Sent;
    t, run := p, run0;
    while t.inFlight[ts] != {}
      invariant OnTheWay(s, t, fp, before, run) && t.inFlight.Keys == p.inFlight.Keys && ts in t.inFlight
      decreases t.inFlight[ts]
    {
      WayInv(s, t, fp, before, run);
      var key := CanWrite(t, fp, ts);
      var u := Further(s, t, fp, before, run, WriteEntry(ts, key));
      t, run := u, run + [WriteEntry(ts, key)];
    }
  }

  lemma CanWrite(t: Db, fp: Fingerprint, ts: nat) returns (key: Key)
    requires Inv(t, fp) && Sent(t) && ts in t.inFlight && t.inFlight[ts] != {}
    ensures key in t.inFlight[ts] && Can(t, WriteEntry(ts, key))
  {
    assert TxnMarkOk(t);
    hide Inv, TxnMarkOk;
    key :| key in t.inFlight[ts];
    var c :| From(t, c, ts);
    var i :| 0 <= i < |t.history| && t.history[i] == c;
  }

  lemma NoStepYet(s: Db, fp: Fingerprint, before: seq<Event>)
    requires Reaches(s, fp, before)
    ensures OnTheWay(s, s, fp, before, [])
  {
    hide Reaches;
  }

  lemma MarksInStep(t: Db, fp: Fingerprint)
    requires Inv(t, fp)
    ensures t.oracle.txnSeen <= |t.oracle.txnLog| && t.oracle.readSeen <= |t.oracle.readLog|
  {
    assert TxnMarkOk(t) && ReadMarkOk(t);
    hide Inv;
  }

  /** Everything in flight can be written and acknowledged. */
  lemma WriteAll(s: Db, fp: Fingerprint, before: seq<Event>) returns (t: Db, run: seq<Event>)
    requires Reaches(s, fp, before)
    ensures OnTheWay(s, t, fp, before, run) && t.inFlight == map[]
  {
    hide Inv, WriteOf, Sent, OnTheWay, Reaches;
    t, run := s, [];
    NoStepYet(s, fp, before);
    while t.inFlight != map[]
      invariant OnTheWay(s, t, fp, before, run)
      decreases t.inFlight.Keys
    {
      var ts :| ts in t.inFlight;
      var w, run' := WriteRest(s, t, fp, before, run, ts);
      WayInv(s, w, fp, before, run');
      MarksInStep(w, fp);
      var u := Further(s, w, fp, before, run', DoneCommit(ts));
      assert u.inFlight.Keys == t.inFlight.Keys - {ts};
      t, run := u, run' + [DoneCommit(ts)];
    }
  }

  /** And all marks can be processed. */
  lemma ProcessMarks(s: Db, fp: Fingerprint, before: seq<Event>) returns (t: Db, run: seq<Event>)
    requires Reaches(s, fp, before)
    ensures OnTheWay(s, t, fp, before, run) && t.inFlight == map[]
    ensures t.oracle.txnSeen == |t.oracle.txnLog| && t.oracle.readSeen == |t.oracle.readLog|
  {
    hide Inv, WriteOf, Sent, OnTheWay, Reaches;
    t, run := WriteAll(s, fp, before);
    WayInv(s, t, fp, before, run);
    MarksInStep(t, fp);
    while t.oracle.txnSeen < |t.oracle.txnLog| || t.oracle.readSeen < |t.oracle.readLog|
      invariant OnTheWay(s, t, fp, before, run) && t.inFlight == map[]
      invariant t.oracle.txnSeen <= |t.oracle.txnLog| && t.oracle.readSeen <= |t.oracle.readLog|
      decreases |t.oracle.txnLog| - t.oracle.txnSeen + |t.oracle.readLog| - t.oracle.readSeen
    {
      var e := if t.oracle.txnSeen < |t.oracle.txnLog| then ProcessTxnMark else ProcessReadMark;
      var u := Further(s, t, fp, before, run, e);
      t, run := u, run + [e];
    }
  }

  /** With nothing in flight and every mark processed, no transaction has to wait. */
  lemma NoWait(t: Db, fp: Fingerprint, id: nat)
    requires Inv(t, fp) && Is(t, id, Waiting) && t.inFlight == map[] && t.oracle.txnSeen == |t.oracle.txnLog|
    ensures Can(t, Ready(id))
  {
    assert TxnStands(t.txns[id], t.start, t.oracle.nextTxnTs, t.inFlight.Keys) && TxnMarkOk(t);
    hide Inv;
    CatchesUp(t.start, t.oracle.txnLog, true);
    assert t.oracle.txnLog[..t.oracle.txnSeen] == t.oracle.txnLog;
  }

  /** No transaction waits for ever: at any moment of any run, what is in flight can be written, the marks
      processed, and then every transaction still waiting for its read timestamp can go on. */
  lemma WaitingEnds(s: Db, fp: Fingerprint, before: seq<Event>)
    requires Reaches(s, fp, before)
    ensures exists t, run ::
              && Leads(s, t, fp, run) && t.txns == s.txns && t.history == s.history
              && forall id :: Is(s, id, Waiting) ==> Can(t, Ready(id))
  {
    var t, run := ProcessMarks(s, fp, before);
    WayInv(s, t, fp, before, run);
    hide Inv, Can, Reaches, Leads;
    forall id | Is(s, id, Waiting) ensures Can(t, Ready(id)) {
      NoWait(t, fp, id);
    }
    assert Leads(s, t, fp, run);
  }

  /** Once all transactions are done reading and their marks processed, the read watermark, below which
      versions may be discarded, is at the last read timestamp handed out. */
  lemma ReadMarkCatchesUp(s: Db, fp: Fingerprint, run: seq<Event>)
    requires Reaches(s, fp, run) && (forall id :: id in s.txns ==> s.txns[id].doneRead)
    requires s.oracle.readSeen == |s.oracle.readLog|
    ensures DoneUntil(s.start, s.oracle.readLog, s.oracle.readSeen) == LastBegun(s.start, s.oracle.readLog)
  {
    ReachesInv(s, fp, run);
    assert ReadMarkOk(s);
    hide Inv, Reaches, ReadLogOk;
    AllRead(s.start, s.oracle.readLog, s.oracle.nextTxnTs, s.txns);
    assert s.oracle.readLog[..s.oracle.readSeen] == s.oracle.readLog;
  }

  lemma AllRead(start: nat, log: seq<Mark>, next: nat, txns: map<nat, Txn>)
    requires ReadLogOk(start, log, next, txns) && forall id :: id in txns ==> txns[id].doneRead
    ensures Run(start, log).doneUntil == LastBegun(start, log)
  {
    hide Disciplined, LastBegun, Run;
    var reading := set id | id in txns && !txns[id].doneRead;
    assert reading == {};
    forall r: nat ensures Open(log, r) == {} {
      assert Open(log, r) <= reading;
    }
    CatchesUp(start, log, false);
  }

  // ---------------------------------------------------------------- what can be done when

  /** Any database can be opened. */
  lemma CanOpen(start: nat, base: Store)
    requires forall p :: p in base ==> p.1 <= start
    ensures Init(Db(start, base, Oracle(start + 1, [], 0, [], 0, [], 0), map[], map[], base, []))
  {
  }

  /** A transaction can begin at any time. */
  lemma BeginIff(s: Db, fp: Fingerprint, run: seq<Event>, id: nat, update: bool)
    requires Reaches(s, fp, run)
    ensures Can(s, Begin(id, update)) <==> id !in s.txns
  {
    ReachesInv(s, fp, run);
    assert HistoryOk(s) && TxnMarkOk(s);
    hide Inv, Reaches, TxnLogOk;
  }

  /** It can commit exactly if it is running, has written something and no commit after its read timestamp
      wrote what it read, however far the processor of marks gets meanwhile. */
  lemma CommitIff(s: Db, fp: Fingerprint, run: seq<Event>, id: nat, sent: bool, seen: nat)
    requires Reaches(s, fp, run)
    ensures Can(s, CommitTxn(id, sent, seen)) <==>
              && Is(s, id, Running) && s.txns[id].pendingWrites != map[]
              && (forall c, r :: c in s.oracle.committedTxns && r in s.txns[id].readKeys && c.ts > s.txns[id].readTs ==>
                    r !in c.conflictKeys)
              && s.oracle.readSeen <= seen <= |s.oracle.readLog| + 1
  {
    ReachesInv(s, fp, run);
    assert TxnMarkOk(s);
    hide Reaches, HasConflict, TxnLogOk;
    if Is(s, id, Running) {
      assert TxnStands(s.txns[id], s.start, s.oracle.nextTxnTs, s.inFlight.Keys);
      hide Inv;
      ConflictIs(s.oracle.committedTxns, s.txns[id].readTs, s.txns[id].readKeys);
    }
    hide Inv;
  }

  /** And a request can fail without a trace exactly if nothing of it was written. */
  lemma FailIff(s: Db, fp: Fingerprint, run: seq<Event>, ts: nat)
    requires Reaches(s, fp, run)
    ensures Can(s, FailCommit(ts)) <==>
              ts in s.inFlight && exists c :: c in s.history && c.ts == ts && s.inFlight[ts] == c.writes.Keys
  {
    ReachesInv(s, fp, run);
    assert TxnMarkOk(s);
    hide Inv, Reaches, TxnLogOk;
    if ts in s.inFlight { FailsIff(s, ts); }
  }

  lemma FailsIff(s: Db, ts: nat)
    requires s.oracle.txnSeen <= |s.oracle.txnLog| && ts in s.inFlight
    ensures Enabled(s, FailCommit(ts)) <==> exists c :: c in s.history && c.ts == ts && s.inFlight[ts] == c.writes.Keys
  {
    if c :| c in s.history && c.ts == ts && s.inFlight[ts] == c.writes.Keys {
      var i :| 0 <= i < |s.history| && s.history[i] == c;
    }
  }

  // ---------------------------------------------------------------- conflicts are real

  ghost predicate ReadFromDb(ops: seq<Op>, fp: Fingerprint, r: nat) {
    exists i :: 0 <= i < |ops| && FromDb(ops, i) && fp(ops[i].key) == r
  }

  /** A transaction is held responsible for no fingerprints but those of what it read from the database
      and of what it wrote. */
  ghost predicate Exact(t: Txn, fp: Fingerprint) {
    && (forall r :: r in t.readKeys ==> t.update && ReadFromDb(t.ops, fp, r))
    && (forall r :: r in t.conflictKeys ==> exists k :: k in t.pendingWrites && fp(k) == r)
  }

  /** What is remembered of a commit are the fingerprints of a transaction that is past newCommitTs. */
  ghost predicate WrittenBy(s: Db, c: CommittedTxn, id: nat) {
    id in s.txns && s.txns[id].phase == Finished && c.conflictKeys == s.txns[id].conflictKeys
  }

  ghost predicate AllExact(s: Db, fp: Fingerprint) {
    && (forall id :: id in s.txns ==> Exact(s.txns[id], fp))
    && (forall c :: c in s.oracle.committedTxns ==> exists id :: WrittenBy(s, c, id))
  }

  lemma GotExact(t: Txn, fp: Fingerprint, key: Key, found: Option<Write>)
    requires Exact(t, fp) && t.pendingWrites == Overlay(t.ops)
    ensures Exact(Got(t, fp, key, found), fp)
  {
    var n := Got(t, fp, key, found);
    forall i | 0 <= i < |t.ops| ensures n.ops[i] == t.ops[i] && n.ops[..i] == t.ops[..i] {
    }
    assert n.ops[..|t.ops|] == t.ops;
    forall r | r in n.readKeys ensures n.update && ReadFromDb(n.ops, fp, r) {
      if r in t.readKeys {
        var i :| 0 <= i < |t.ops| && FromDb(t.ops, i) && fp(t.ops[i].key) == r;
        assert FromDb(n.ops, i);
      } else {
        assert FromDb(n.ops, |t.ops|);
      }
    }
  }

  lemma ModifiedExact(t: Txn, fp: Fingerprint, key: Key, w: Write)
    requires Exact(t, fp)
    ensures Exact(Modified(t, fp, key, w), fp)
  {
    var n := Modified(t, fp, key, w);
    forall i | 0 <= i < |t.ops| ensures n.ops[i] == t.ops[i] && n.ops[..i] == t.ops[..i] {
    }
    forall r | r in n.readKeys ensures n.update && ReadFromDb(n.ops, fp, r) {
      var i :| 0 <= i < |t.ops| && FromDb(t.ops, i) && fp(t.ops[i].key) == r;
      assert FromDb(n.ops, i);
    }
    forall r | r in n.conflictKeys ensures exists k :: k in n.pendingWrites && fp(k) == r {
      if r in t.conflictKeys {
        var k :| k in t.pendingWrites && fp(k) == r;
        assert k in n.pendingWrites;
      } else {
        assert key in n.pendingWrites;
      }
    }
  }

  lemma StepExact(s: Db, fp: Fingerprint, e: Event)
    requires Inv(s, fp) && Can(s, e) && AllExact(s, fp)
    ensures AllExact(Apply(s, fp, e), fp)
  {
    var t := Apply(s, fp, e);
    StepTxns(s, fp, e);
    hide Inv, Apply, Can, Exact;
    forall c | c in t.oracle.committedTxns ensures exists id :: WrittenBy(t, c, id) {
      if c in s.oracle.committedTxns {
        var id :| WrittenBy(s, c, id);
        assert WrittenBy(t, c, id);
      } else {
        var id :| WrittenBy(t, c, id);
      }
    }
  }

  /** What a step does to the transactions and to what the oracle remembers of them. */
  lemma StepTxns(s: Db, fp: Fingerprint, e: Event)
    requires Inv(s, fp) && Can(s, e) && forall id :: id in s.txns ==> Exact(s.txns[id], fp)
    ensures var t := Apply(s, fp, e);
            && (forall id :: id in t.txns ==> Exact(t.txns[id], fp))
            && (forall id :: Is(s, id, Finished) ==> Is(t, id, Finished) && t.txns[id].conflictKeys == s.txns[id].conflictKeys)
            && (forall c :: c in t.oracle.committedTxns && c !in s.oracle.committedTxns ==> exists id :: WrittenBy(t, c, id))
  {
    hide Lookup, WriteOf, DoneUntil, HasConflict, Cleaned, Without, Inv, FromDb, Overlay, Got, Modified;
    var t := Apply(s, fp, e);
    match e
    case Get(id, key) =>
      OpsAre(s, fp, id);
      GotExact(s.txns[id], fp, key, Lookup(s.store, key, s.txns[id].readTs));
    case Modify(id, key, w) => ModifiedExact(s.txns[id], fp, key, w);
    case CommitTxn(id, sent, seen) =>
      forall c | c in t.oracle.committedTxns && c !in s.oracle.committedTxns ensures WrittenBy(t, c, id) {
      }
    case _ =>
  }

  lemma OpsAre(s: Db, fp: Fingerprint, id: nat)
    requires Inv(s, fp) && id in s.txns
    ensures s.txns[id].pendingWrites == Overlay(s.txns[id].ops)
  {
    assert TxnReads(s.txns[id], fp, s.base, s.start, s.history);
  }

  lemma {:induction false} ReachesExact(s: Db, fp: Fingerprint, run: seq<Event>)
    requires Reaches(s, fp, run)
    ensures AllExact(s, fp)
    decreases |run|
  {
    hide AllExact, Inv, Enabled, Apply;
    if run == [] {
      NoneExact(s, fp);
    } else {
      var p: Db :| Reaches(p, fp, run[..|run| - 1])
                && p.oracle.txnSeen <= |p.oracle.txnLog| && Enabled(p, run[|run| - 1])
                && s == Apply(p, fp, run[|run| - 1]);
      ReachesExact(p, fp, run[..|run| - 1]);
      ReachesInv(p, fp, run[..|run| - 1]);
      StepExact(p, fp, run[|run| - 1]);
    }
  }

  lemma NoneExact(s: Db, fp: Fingerprint)
    requires Init(s)
    ensures AllExact(s, fp)
  {
  }

  /** A commit is refused only if the transaction read a key from the database that has the fingerprint of
      a key another one wrote, and that one got its commit timestamp after the read timestamp. */
  lemma ConflictIsReal(s: Db, fp: Fingerprint, run: seq<Event>, id: nat)
    requires Reaches(s, fp, run) && Is(s, id, Running)
    requires HasConflict(s.oracle.committedTxns, s.txns[id].readTs, s.txns[id].readKeys)
    ensures s.txns[id].update
    ensures exists i, other, k, c ::
              && 0 <= i < |s.txns[id].ops| && FromDb(s.txns[id].ops, i)
              && Is(s, other, Finished) && k in s.txns[other].pendingWrites && fp(k) == fp(s.txns[id].ops[i].key)
              && c in s.oracle.committedTxns && c.ts > s.txns[id].readTs && c.conflictKeys == s.txns[other].conflictKeys
  {
    ReachesExact(s, fp, run);
    hide Reaches, FromDb, Exact;
    var t, cs := s.txns[id], s.oracle.committedTxns;
    var a, j :| 0 <= a < |cs| && 0 <= j < |t.readKeys| && cs[a].ts > t.readTs && t.readKeys[j] in cs[a].conflictKeys;
    assert t.readKeys[j] in t.readKeys && cs[a] in cs;
    var i := WhichRead(t, fp, t.readKeys[j]);
    var other :| WrittenBy(s, cs[a], other);
    var k := WhichKey(s.txns[other], fp, t.readKeys[j]);
  }

  lemma WhichRead(t: Txn, fp: Fingerprint, r: nat) returns (i: nat)
    requires Exact(t, fp) && r in t.readKeys
    ensures t.update && i < |t.ops| && FromDb(t.ops, i) && fp(t.ops[i].key) == r
  {
    hide FromDb;
    i :| 0 <= i < |t.ops| && FromDb(t.ops, i) && fp(t.ops[i].key) == r;
  }

  lemma WhichKey(t: Txn, fp: Fingerprint, r: nat) returns (k: Key)
    requires Exact(t, fp) && r in t.conflictKeys
    ensures k in t.pendingWrites && fp(k) == r
  {
    hide ReadFromDb;
    k :| k in t.pendingWrites && fp(k) == r;
  }

  // ---------------------------------------------------------------- lookups

  /** A lookup finds the newest version at or below the timestamp, and nothing only if there is none. */
  lemma {:induction false} LookupIsNewest(store: Store, k: Key, ts: nat)
    ensures match Lookup(store, k, ts)
            case Some(w) =>
              exists v: nat :: v <= ts && (k, v) in store && store[(k, v)] == w
                               && forall u: nat :: v < u <= ts ==> (k, u) !in store
            case None => forall u: nat :: u <= ts ==> (k, u) !in store
    decreases ts
  {
    if (k, ts) !in store && ts > 0 { LookupIsNewest(store, k, ts - 1); }
  }
}
