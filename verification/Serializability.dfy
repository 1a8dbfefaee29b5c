/** The invariant of the transaction machine and its consequences: serializability of update
    transactions over every run, and snapshot reads for every transaction. */
module Serializability {
  import opened Wrappers
  import opened Watermarks
  import opened Transactions

  // ---------------------------------------------------------------- the invariant

  ghost predicate HistoryOk(s: Db) {
    && s.start < s.oracle.nextTxnTs
    && (forall i :: 0 <= i < |s.history| ==> s.start < s.history[i].ts < s.oracle.nextTxnTs)
    && (forall i, j :: 0 <= i < j < |s.history| ==> s.history[i].ts < s.history[j].ts)
  }

  ghost predicate Wrote(h: seq<Commit>, i: int, k: Key, ts: nat) {
    0 <= i < |h| && h[i].ts == ts && k in h[i].writes
  }

  ghost predicate Pending(inFlight: map<nat, set<Key>>, k: Key, ts: nat) {
    ts in inFlight && k in inFlight[ts]
  }

  ghost predicate StoreOk(s: Db) {
    && (forall k, ts :: (k, ts) in s.base ==> ts <= s.start && (k, ts) in s.store && s.store[(k, ts)] == s.base[(k, ts)])
    && (forall k, ts :: (k, ts) in s.store && ts <= s.start ==> (k, ts) in s.base)
    && (forall k, ts :: (k, ts) in s.store && ts > s.start ==>
          exists i :: Wrote(s.history, i, k, ts) && s.store[(k, ts)] == s.history[i].writes[k])
    && (forall i, k, ts: nat :: Wrote(s.history, i, k, ts) ==> (k, ts) in s.store || Pending(s.inFlight, k, ts))
  }

  ghost predicate FlightOk(s: Db) {
    && (forall ts :: ts in s.inFlight ==> s.start < ts < s.oracle.nextTxnTs)
    && (forall k, ts: nat :: Pending(s.inFlight, k, ts) ==> (k, ts) !in s.store)
    && forall i :: 0 <= i < |s.history| && s.history[i].ts in s.inFlight ==> s.inFlight[s.history[i].ts] <= s.history[i].writes.Keys
  }

  /** No commit read what an earlier one wrote that is still in flight. */
  ghost predicate UnreadOk(h: seq<Commit>, inFlight: set<nat>) {
    forall i, j :: 0 <= i < j < |h| && h[i].ts in inFlight ==> Apart(h[j].ops, h[i].writes)
  }

  /** Nothing that was read from the database is written by `writes`. */
  ghost predicate Apart(ops: seq<Op>, writes: map<Key, Write>) {
    forall p :: 0 <= p < |ops| && FromDb(ops, p) ==> ops[p].key !in writes
  }

  /** The reads that are open in the log are those of the transactions not yet done reading. */
  ghost predicate ReadLogOk(start: nat, log: seq<Mark>, nextTxnTs: nat, txns: map<nat, Txn>) {
    && Disciplined(start, log, false)
    && LastBegun(start, log) < nextTxnTs
    && (forall r, id :: id in Open(log, r) <==> id in txns && !txns[id].doneRead && txns[id].readTs == r)
  }

  /** The commits that are open in the log are those being written. */
  ghost predicate TxnLogOk(start: nat, log: seq<Mark>, nextTxnTs: nat, inFlight: set<nat>) {
    && Disciplined(start, log, true)
    && LastBegun(start, log) == nextTxnTs - 1
    && (forall ts: nat :: Open(log, ts) == if ts in inFlight then {ts} else {})
  }

  ghost predicate ReadMarkOk(s: Db) {
    && s.oracle.readSeen <= |s.oracle.readLog|
    && ReadLogOk(s.start, s.oracle.readLog, s.oracle.nextTxnTs, s.txns)
  }

  ghost predicate TxnMarkOk(s: Db) {
    && s.oracle.txnSeen <= |s.oracle.txnLog|
    && TxnLogOk(s.start, s.oracle.txnLog, s.oracle.nextTxnTs, s.inFlight.Keys)
  }

  ghost predicate Remembered(committed: seq<CommittedTxn>, fp: Fingerprint, c: Commit) {
    exists j :: 0 <= j < |committed| && committed[j].ts == c.ts
             && forall k :: k in c.writes ==> fp(k) in committed[j].conflictKeys
  }

  ghost predicate CleanupOk(s: Db, fp: Fingerprint)
    requires s.oracle.readSeen <= |s.oracle.readLog|
  {
    var o := s.oracle;
    && o.lastCleanupTs <= DoneUntil(s.start, o.readLog, o.readSeen)
    && forall i :: 0 <= i < |s.history| && s.history[i].ts > o.lastCleanupTs ==>
         Remembered(o.committedTxns, fp, s.history[i])
  }

  ghost predicate CommittedOk(o: Oracle) {
    forall c :: c in o.committedTxns ==> o.lastCleanupTs < c.ts < o.nextTxnTs
  }

  /** What a transaction has done so far fits the snapshot at its read timestamp. */
  ghost predicate TxnReads(t: Txn, fp: Fingerprint, base: Store, start: nat, h: seq<Commit>) {
    && Agrees(t.ops, base, start, UpTo(h, t.readTs))
    && t.pendingWrites == Overlay(t.ops)
    && (forall k :: k in t.pendingWrites ==> fp(k) in t.conflictKeys)
    && (!t.update ==> t.pendingWrites == map[])
    && (t.update ==> forall i :: 0 <= i < |t.ops| && FromDb(t.ops, i) ==> fp(t.ops[i].key) in t.readKeys)
  }

  ghost predicate TxnStands(t: Txn, start: nat, nextTxnTs: nat, inFlight: set<nat>) {
    && start <= t.readTs < nextTxnTs
    && (t.phase != Finished ==> !t.doneRead)
    && (if t.phase == Waiting then t.ops == [] else forall ts :: ts in inFlight ==> ts > t.readTs)
  }

  ghost predicate TxnsOk(s: Db, fp: Fingerprint) {
    forall id :: id in s.txns ==>
      && TxnStands(s.txns[id], s.start, s.oracle.nextTxnTs, s.inFlight.Keys)
      && TxnReads(s.txns[id], fp, s.base, s.start, s.history)
  }

  ghost predicate SerialOk(base: Store, start: nat, h: seq<Commit>) {
    forall i :: 0 <= i < |h| ==> Agrees(h[i].ops, base, start, h[..i]) && h[i].writes == Overlay(h[i].ops)
  }

  ghost predicate Inv(s: Db, fp: Fingerprint) {
    && HistoryOk(s) && StoreOk(s) && FlightOk(s) && ReadMarkOk(s) && TxnMarkOk(s) && CleanupOk(s, fp)
    && SerialOk(s.base, s.start, s.history) && TxnsOk(s, fp) && UnreadOk(s.history, s.inFlight.Keys)
    && CommittedOk(s.oracle)
  }

  // ---------------------------------------------------------------- snapshots

  ghost predicate Ordered(h: seq<Commit>) {
    forall i, j :: 0 <= i < j < |h| ==> h[i].ts < h[j].ts
  }

  /** `UpTo` cuts an ordered history at the first later commit. */
  lemma {:induction false} UpToCuts(h: seq<Commit>, ts: nat)
    requires Ordered(h)
    ensures UpTo(h, ts) <= h
    ensures forall i :: 0 <= i < |UpTo(h, ts)| ==> h[i].ts <= ts
    ensures forall i :: |UpTo(h, ts)| <= i < |h| ==> h[i].ts > ts
  {
    if h != [] && h[|h| - 1].ts > ts {
      UpToCuts(h[..|h| - 1], ts);
    }
  }

  lemma {:induction false} LookupBase(s: Db, k: Key, r: nat)
    requires StoreOk(s) && r <= s.start
    ensures Lookup(s.store, k, r) == Lookup(s.base, k, r)
  {
    if (k, r) !in s.store && r > 0 { LookupBase(s, k, r - 1); }
  }

  /** A finished timestamp holds exactly what its commit wrote, if it was one. */
  lemma StoreAt(s: Db, k: Key, i: nat)
    requires HistoryOk(s) && StoreOk(s) && i < |s.history| && s.history[i].ts !in s.inFlight
    ensures (k, s.history[i].ts) in s.store <==> k in s.history[i].writes
    ensures k in s.history[i].writes ==> s.store[(k, s.history[i].ts)] == s.history[i].writes[k]
  {
    var ts := s.history[i].ts;
    if (k, ts) in s.store {
      var j :| Wrote(s.history, j, k, ts) && s.store[(k, ts)] == s.history[j].writes[k];
      assert i == j;
    } else {
      assert !Pending(s.inFlight, k, ts) && !Wrote(s.history, i, k, ts);
    }
  }

  lemma {:induction false} SnapshotAt(s: Db, k: Key, r: nat, n: nat)
    requires HistoryOk(s) && StoreOk(s) && s.start <= r && n <= |s.history|
    requires forall ts :: ts in s.inFlight ==> ts > r
    requires forall i :: 0 <= i < n ==> s.history[i].ts <= r
    requires forall i :: n <= i < |s.history| ==> s.history[i].ts > r
    ensures Value(Lookup(s.store, k, r)) == Serial(s.base, s.start, s.history[..n], k)
    decreases r
  {
    var h := s.history;
    if r == s.start {
      LookupBase(s, k, r);
    } else if n > 0 && h[n - 1].ts == r {
      StoreAt(s, k, n - 1);
      assert h[..n][..n - 1] == h[..n - 1];
      SnapshotAt(s, k, r - 1, n - 1);
    } else {
      assert forall i :: 0 <= i < |h| ==> h[i].ts != r;
      assert forall i :: !Wrote(s.history, i, k, r);
      assert (k, r) !in s.store;
      SnapshotAt(s, k, r - 1, n);
    }
  }

  /** A read at a timestamp whose commits have all been written sees exactly the commits up to
      it, run one at a time: no more and no less, whatever else is in flight. */
  lemma SnapshotIsReplay(s: Db, k: Key, r: nat)
    requires HistoryOk(s) && StoreOk(s) && s.start <= r
    requires forall ts :: ts in s.inFlight ==> ts > r
    ensures Value(Lookup(s.store, k, r)) == Serial(s.base, s.start, UpTo(s.history, r), k)
  {
    UpToCuts(s.history, r);
    assert UpTo(s.history, r) == s.history[..|UpTo(s.history, r)|];
    SnapshotAt(s, k, r, |UpTo(s.history, r)|);
  }

  // ---------------------------------------------------------------- from snapshot to serial

  /** The oracle never forgets a commit that a live transaction could conflict with. */
  lemma CleanupNeverLosesConflicts(s: Db, fp: Fingerprint, id: nat)
    requires Inv(s, fp) && id in s.txns && !s.txns[id].doneRead
    ensures s.oracle.lastCleanupTs <= s.txns[id].readTs
    ensures forall i :: 0 <= i < |s.history| && s.history[i].ts > s.txns[id].readTs ==>
              Remembered(s.oracle.committedTxns, fp, s.history[i])
  {
    assert id in Open(s.oracle.readLog, s.txns[id].readTs);
    NeverPassesUnfinished(s.start, s.oracle.readLog, false, s.oracle.readSeen, s.txns[id].readTs);
  }

  /** The heart of serializability: a transaction that passes the conflict check read nothing
      that a commit after its read timestamp wrote, so its reads are those of the whole history. */
  lemma NoConflictMeansCurrent(s: Db, fp: Fingerprint, id: nat)
    requires Inv(s, fp) && Is(s, id, Running) && s.txns[id].update
    requires !HasConflict(s.oracle.committedTxns, s.txns[id].readTs, s.txns[id].readKeys)
    ensures Agrees(s.txns[id].ops, s.base, s.start, s.history)
  {
    var t := s.txns[id];
    CleanupNeverLosesConflicts(s, fp, id);
    forall i | 0 <= i < |t.ops| && FromDb(t.ops, i)
      ensures Serial(s.base, s.start, UpTo(s.history, t.readTs), t.ops[i].key) == Serial(s.base, s.start, s.history, t.ops[i].key)
    {
      CurrentRead(s.oracle, fp, t, s.base, s.start, s.history, t.ops[i].key);
    }
    AgreesTransfers(t.ops, s.base, s.start, UpTo(s.history, t.readTs), s.history);
  }

  /** Every commit after the transaction's read timestamp is remembered by the oracle, so if one had
      written `k` the fingerprints would have shown a conflict. */
  lemma CurrentRead(o: Oracle, fp: Fingerprint, t: Txn, base: Store, start: nat, h: seq<Commit>, k: Key)
    requires !HasConflict(o.committedTxns, t.readTs, t.readKeys)
    requires Ordered(h) && fp(k) in t.readKeys
    requires forall i :: 0 <= i < |h| && h[i].ts > t.readTs ==> Remembered(o.committedTxns, fp, h[i])
    ensures Serial(base, start, UpTo(h, t.readTs), k) == Serial(base, start, h, k)
  {
  }

  lemma AgreesTransfers(ops: seq<Op>, base: Store, start: nat, h: seq<Commit>, g: seq<Commit>)
    requires Agrees(ops, base, start, h)
    requires forall i :: 0 <= i < |ops| && FromDb(ops, i) ==>
               Serial(base, start, h, ops[i].key) == Serial(base, start, g, ops[i].key)
    ensures Agrees(ops, base, start, g)
  {
  }

  // ---------------------------------------------------------------- every step keeps the invariant

  lemma InitKeeps(s: Db, fp: Fingerprint)
    requires Init(s)
    ensures Inv(s, fp)
  {
  }

  /** Steps that leave the data alone. */
  lemma SameData(s: Db, s': Db)
    requires HistoryOk(s) && StoreOk(s) && FlightOk(s)
    requires s'.start == s.start && s'.base == s.base && s'.store == s.store && s'.history == s.history
    requires s'.inFlight == s.inFlight && s'.oracle.nextTxnTs == s.oracle.nextTxnTs
    ensures HistoryOk(s') && StoreOk(s') && FlightOk(s')
  {
  }

  lemma SameTxns(s: Db, s': Db, fp: Fingerprint)
    requires TxnsOk(s, fp) && s'.txns == s.txns && s'.start == s.start && s'.base == s.base && s'.history == s.history
    requires s'.oracle.nextTxnTs == s.oracle.nextTxnTs && s'.inFlight.Keys <= s.inFlight.Keys
    ensures TxnsOk(s', fp)
  {
    hide TxnReads;
  }

  lemma SameReadMark(s: Db, s': Db, fp: Fingerprint)
    requires ReadMarkOk(s) && CleanupOk(s, fp) && s'.start == s.start && s'.txns == s.txns
    requires s'.oracle == s.oracle.(txnLog := s'.oracle.txnLog)
    requires forall c :: c in s'.history ==> c in s.history
    ensures ReadMarkOk(s') && CleanupOk(s', fp)
  {
    hide ReadLogOk, DoneUntil, Remembered;
    forall i | 0 <= i < |s'.history| ensures s'.history[i] in s.history {
    }
  }

  lemma SameUnread(h: seq<Commit>, inFlight: set<nat>, more: set<nat>)
    requires UnreadOk(h, more) && inFlight <= more
    ensures UnreadOk(h, inFlight)
  {
    hide Apart;
  }

  /** One more done in the log of commits. */
  lemma DoneMark(s: Db, s': Db, ts: nat)
    requires TxnMarkOk(s) && ts in s.inFlight && s'.start == s.start && s'.inFlight == s.inFlight - {ts}
    requires s'.oracle == s.oracle.(txnLog := s.oracle.txnLog + [Mark(ts, true, ts)])
    ensures TxnMarkOk(s')
  {
    assert Open(s.oracle.txnLog, ts) == {ts};
    Append(s.start, s.oracle.txnLog, Mark(ts, true, ts));
  }

  lemma HistoryOrdered(s: Db)
    requires HistoryOk(s)
    ensures Ordered(s.history)
  {
  }

  lemma NoOps(t: Txn, fp: Fingerprint, base: Store, start: nat, h: seq<Commit>)
    requires t.ops == [] && t.pendingWrites == map[]
    ensures TxnReads(t, fp, base, start, h)
  {
  }

  lemma BeginKeeps(s: Db, fp: Fingerprint, id: nat, update: bool)
    requires Inv(s, fp) && Enabled(s, Begin(id, update))
    ensures Inv(Apply(s, fp, Begin(id, update)), fp)
  {
    hide StoreOk, FlightOk, TxnLogOk, SerialOk, Remembered, Serial, UpTo;
    var o := s.oracle;
    Append(s.start, o.readLog, Mark(o.nextTxnTs - 1, false, id));
    var s' := Apply(s, fp, Begin(id, update));
    assert ReadMarkOk(s');
    SameData(s, s');
    NoOps(s'.txns[id], fp, s.base, s.start, s.history);
  }

  lemma ReadyKeeps(s: Db, fp: Fingerprint, id: nat)
    requires Inv(s, fp) && Enabled(s, Ready(id))
    ensures Inv(Apply(s, fp, Ready(id)), fp)
  {
    WaitEndsWhenDone(s, fp, id);
    ReplaceTxn(s, fp, id, s.txns[id].(phase := Running));
  }

  /** readTs hands out r only when every commit up to r has been written. */
  lemma WaitEndsWhenDone(s: Db, fp: Fingerprint, id: nat)
    requires Inv(s, fp) && Enabled(s, Ready(id))
    ensures forall ts :: ts in s.inFlight ==> s.txns[id].readTs < ts
  {
    forall ts | ts in s.inFlight ensures s.txns[id].readTs < ts {
      assert Open(s.oracle.txnLog, ts) == {ts};
      NeverPassesUnfinished(s.start, s.oracle.txnLog, true, s.oracle.txnSeen, ts);
    }
  }

  lemma AgreesAppend(ops: seq<Op>, op: Op, base: Store, start: nat, h: seq<Commit>)
    requires Agrees(ops, base, start, h)
    requires op.Read? && op.key in Overlay(ops) ==> op.result == Value(Some(Overlay(ops)[op.key]))
    requires op.Read? && op.key !in Overlay(ops) ==> op.result == Serial(base, start, h, op.key)
    ensures Agrees(ops + [op], base, start, h)
    ensures forall i :: 0 <= i < |ops| ==> FromDb(ops + [op], i) == FromDb(ops, i)
    ensures FromDb(ops + [op], |ops|) <==> op.Read? && op.key !in Overlay(ops)
    ensures Overlay(ops + [op]) == if op.Update? then Overlay(ops)[op.key := op.write] else Overlay(ops)
  {
    var all := ops + [op];
    assert all[..|ops|] == ops;
    forall i | 0 <= i < |ops| ensures all[..i] == ops[..i] && all[i] == ops[i] {
    }
  }

  lemma GetKeeps(s: Db, fp: Fingerprint, id: nat, key: Key)
    requires Inv(s, fp) && Enabled(s, Get(id, key))
    ensures Inv(Apply(s, fp, Get(id, key)), fp)
  {
    var t := s.txns[id];
    SnapshotIsReplay(s, key, t.readTs);
    GotReads(t, fp, key, Lookup(s.store, key, t.readTs), s.base, s.start, s.history);
    ReplaceTxn(s, fp, id, Got(t, fp, key, Lookup(s.store, key, t.readTs)));
  }

  lemma GotReads(t: Txn, fp: Fingerprint, key: Key, found: Option<Write>, base: Store, start: nat, h: seq<Commit>)
    requires TxnReads(t, fp, base, start, h)
    requires Value(found) == Serial(base, start, UpTo(h, t.readTs), key)
    ensures TxnReads(Got(t, fp, key, found), fp, base, start, h)
  {
    var t' := Got(t, fp, key, found);
    AgreesAppend(t.ops, t'.ops[|t.ops|], base, start, UpTo(h, t.readTs));
    assert forall r :: r in t.readKeys ==> r in t'.readKeys;
    forall i | t.update && 0 <= i < |t'.ops| && FromDb(t'.ops, i)
      ensures fp(t'.ops[i].key) in t'.readKeys
    {
      if i < |t.ops| { assert FromDb(t.ops, i); }
    }
  }

  lemma ModifyKeeps(s: Db, fp: Fingerprint, id: nat, key: Key, w: Write)
    requires Inv(s, fp) && Enabled(s, Modify(id, key, w))
    ensures Inv(Apply(s, fp, Modify(id, key, w)), fp)
  {
    var t := s.txns[id];
    AgreesAppend(t.ops, Update(key, w), s.base, s.start, UpTo(s.history, t.readTs));
    ReplaceTxn(s, fp, id, Modified(t, fp, key, w));
  }

  lemma ReplaceTxn(s: Db, fp: Fingerprint, id: nat, t: Txn)
    requires Inv(s, fp) && id in s.txns
    requires TxnStands(t, s.start, s.oracle.nextTxnTs, s.inFlight.Keys)
    requires TxnReads(t, fp, s.base, s.start, s.history)
    requires t.doneRead == s.txns[id].doneRead && t.readTs == s.txns[id].readTs
    ensures Inv(s.(txns := s.txns[id := t]), fp)
  {
    hide StoreOk, HistoryOk, FlightOk, TxnLogOk, TxnReads, TxnStands, SerialOk, Remembered, Disciplined, LastBegun, DoneUntil;
    SameData(s, s.(txns := s.txns[id := t]));
  }

  lemma SameReads(t: Txn, t': Txn, fp: Fingerprint, base: Store, start: nat, h: seq<Commit>)
    requires TxnReads(t, fp, base, start, h) && t' == t.(phase := t'.phase, doneRead := t'.doneRead)
    ensures TxnReads(t', fp, base, start, h)
  {
  }

  lemma DiscardKeeps(s: Db, fp: Fingerprint, id: nat)
    requires Inv(s, fp) && Enabled(s, Discard(id))
    ensures Inv(Apply(s, fp, Discard(id)), fp)
  {
    hide TxnReads, StoreOk, FlightOk, TxnLogOk, SerialOk, Remembered, Serial, UpTo, HistoryOk;
    var t := s.txns[id];
    SameData(s, Apply(s, fp, Discard(id)));
    SameReads(t, Apply(s, fp, Discard(id)).txns[id], fp, s.base, s.start, s.history);
    if t.doneRead {
      ReplaceTxn(s, fp, id, t.(phase := Finished));
    } else {
      assert id in Open(s.oracle.readLog, t.readTs);
      Append(s.start, s.oracle.readLog, Mark(t.readTs, true, id));
      assert ReadMarkOk(Apply(s, fp, Discard(id)));
    }
  }

  lemma ProcessKeeps(s: Db, fp: Fingerprint, e: Event)
    requires Inv(s, fp) && (e.ProcessReadMark? || e.ProcessTxnMark?) && Enabled(s, e)
    ensures Inv(Apply(s, fp, e), fp)
  {
    hide HistoryOk, StoreOk, FlightOk, SerialOk, Remembered, TxnReads, TxnStands, DoneUntil, TxnLogOk, Disciplined;
    var o := s.oracle;
    SameData(s, Apply(s, fp, e));
    if e.ProcessReadMark? { NeverDecreases(s.start, o.readLog, false, o.readSeen, o.readSeen + 1); }
  }

  lemma DoneCommitKeeps(s: Db, fp: Fingerprint, ts: nat)
    requires Inv(s, fp) && Enabled(s, DoneCommit(ts))
    ensures Inv(Apply(s, fp, DoneCommit(ts)), fp)
  {
    var s' := Apply(s, fp, DoneCommit(ts));
    hide HistoryOk, StoreOk, FlightOk, ReadMarkOk, TxnMarkOk, CleanupOk, SerialOk, TxnsOk, UnreadOk;
    DoneMark(s, s', ts);
    DoneData(s, s', ts);
    SameTxns(s, s', fp);
    SameReadMark(s, s', fp);
    SameUnread(s.history, s'.inFlight.Keys, s.inFlight.Keys);
  }

  lemma DoneData(s: Db, s': Db, ts: nat)
    requires HistoryOk(s) && StoreOk(s) && FlightOk(s) && ts in s.inFlight && s.inFlight[ts] == {}
    requires s' == s.(oracle := s.oracle.(txnLog := s'.oracle.txnLog), inFlight := s.inFlight - {ts})
    ensures HistoryOk(s') && StoreOk(s') && FlightOk(s')
  {
    assert forall k, t: nat :: Pending(s.inFlight, k, t) <==> Pending(s'.inFlight, k, t);
  }

  lemma {:induction false} WriteOfIs(h: seq<Commit>, i: nat, k: Key, ts: nat)
    requires Ordered(h) && Wrote(h, i, k, ts)
    ensures WriteOf(h, ts, k) == h[i].writes[k]
  {
    var n := |h| - 1;
    if i < n {
      assert h[..n][i] == h[i];
      WriteOfIs(h[..n], i, k, ts);
    }
  }

  lemma WriteEntryStore(s: Db, s': Db, i: nat, ts: nat, key: Key)
    requires HistoryOk(s) && StoreOk(s) && Wrote(s.history, i, key, ts) && ts in s.inFlight
    requires s' == s.(store := s.store[(key, ts) := s.history[i].writes[key]],
                      inFlight := s.inFlight[ts := s.inFlight[ts] - {key}])
    ensures StoreOk(s')
  {
  }

  lemma WriteEntryFlight(s: Db, s': Db, ts: nat, key: Key, w: Write)
    requires FlightOk(s) && ts in s.inFlight
    requires s' == s.(store := s.store[(key, ts) := w], inFlight := s.inFlight[ts := s.inFlight[ts] - {key}])
    ensures FlightOk(s')
  {
    forall k, t: nat | Pending(s'.inFlight, k, t) ensures Pending(s.inFlight, k, t) && (k, t) != (key, ts) {
    }
  }

  lemma WriteEntryKeeps(s: Db, fp: Fingerprint, ts: nat, key: Key)
    requires Inv(s, fp) && Enabled(s, WriteEntry(ts, key))
    ensures Inv(Apply(s, fp, WriteEntry(ts, key)), fp)
  {
    var i :| 0 <= i < |s.history| && s.history[i].ts == ts && key in s.history[i].writes;
    var s' := Apply(s, fp, WriteEntry(ts, key));
    HistoryOrdered(s);
    hide HistoryOk, StoreOk, FlightOk, ReadMarkOk, TxnMarkOk, CleanupOk, SerialOk, TxnsOk, UnreadOk, Ordered;
    WriteOfIs(s.history, i, key, ts);
    assert s'.inFlight.Keys == s.inFlight.Keys;
    WriteEntryStore(s, s', i, ts, key);
    WriteEntryFlight(s, s', ts, key, s.history[i].writes[key]);
    WriteEntryMarks(s, s');
    SameTxns(s, s', fp);
    SameReadMark(s, s', fp);
  }

  lemma WriteEntryMarks(s: Db, s': Db)
    requires HistoryOk(s) && TxnMarkOk(s) && s'.oracle == s.oracle && s'.start == s.start && s'.history == s.history
    requires s'.inFlight.Keys == s.inFlight.Keys
    ensures HistoryOk(s') && TxnMarkOk(s')
  {
    hide TxnLogOk;
  }

  // The commit step, one part of the invariant at a time.

  lemma EndRead(start: nat, log: seq<Mark>, seen: nat, next: nat, txns: map<nat, Txn>, id: nat, t: Txn, seen': nat)
    requires ReadLogOk(start, log, next, txns) && id in txns && !txns[id].doneRead && t.doneRead
    requires seen <= seen' <= |log| + 1 && seen <= |log|
    ensures var log' := log + [Mark(txns[id].readTs, true, id)];
            && ReadLogOk(start, log', next + 1, txns[id := t])
            && DoneUntil(start, log, seen) <= DoneUntil(start, log', seen')
  {
    var m := Mark(txns[id].readTs, true, id);
    assert id in Open(log, txns[id].readTs);
    Append(start, log, m);
    NeverDecreases(start, log + [m], false, seen, seen');
  }

  lemma BeginCommit(start: nat, log: seq<Mark>, ts: nat, inFlight: set<nat>, sent: bool)
    requires TxnLogOk(start, log, ts, inFlight) && ts !in inFlight
    ensures TxnLogOk(start, log + [Mark(ts, false, ts)] + (if sent then [] else [Mark(ts, true, ts)]), ts + 1,
                     if sent then inFlight + {ts} else inFlight)
  {
    Append(start, log, Mark(ts, false, ts));
    if sent {
      assert log + [Mark(ts, false, ts)] + [] == log + [Mark(ts, false, ts)];
    } else {
      Append(start, log + [Mark(ts, false, ts)], Mark(ts, true, ts));
    }
  }

  lemma NewCommitRemembers(o: Oracle, fp: Fingerprint, start: nat, id: nat, t: Txn, sent: bool, seen: nat, c: Commit)
    requires seen <= |DoneRead(o, id, t).readLog|
    requires var o' := NewCommitTs(o, start, id, t, sent, seen);
             || (c.ts > o'.lastCleanupTs && Remembered(o.committedTxns, fp, c))
             || (c.ts == o.nextTxnTs && forall k :: k in c.writes ==> fp(k) in t.conflictKeys)
    ensures Remembered(NewCommitTs(o, start, id, t, sent, seen).committedTxns, fp, c)
  {
    var committed' := NewCommitTs(o, start, id, t, sent, seen).committedTxns;
    if c.ts == o.nextTxnTs && forall k :: k in c.writes ==> fp(k) in t.conflictKeys {
      assert committed'[|committed'| - 1] == CommittedTxn(o.nextTxnTs, t.conflictKeys);
    } else {
      var j :| 0 <= j < |o.committedTxns| && o.committedTxns[j].ts == c.ts
             && forall k :: k in c.writes ==> fp(k) in o.committedTxns[j].conflictKeys;
      assert o.committedTxns[j] in committed';
    }
  }

  /** What is remembered once a commit got its timestamp: itself, and of the others those above the mark. */
  lemma NewCommitCleans(o: Oracle, start: nat, id: nat, t: Txn, sent: bool, seen: nat)
    requires seen <= |DoneRead(o, id, t).readLog| && forall c :: c in o.committedTxns ==> o.lastCleanupTs < c.ts < o.nextTxnTs
    ensures var n := NewCommitTs(o, start, id, t, sent, seen);
            && n.readLog == DoneRead(o, id, t).readLog && n.nextTxnTs == o.nextTxnTs + 1
            && n.lastCleanupTs == DoneUntil(start, n.readLog, seen)
            && forall c :: c in n.committedTxns <==>
                 (c in o.committedTxns && c.ts > n.lastCleanupTs) || c == CommittedTxn(o.nextTxnTs, t.conflictKeys)
  {
    hide DoneUntil, Cleaned;
  }

  lemma CommitCleanup(s: Db, fp: Fingerprint, id: nat, sent: bool, seen: nat)
    requires Inv(s, fp) && Enabled(s, CommitTxn(id, sent, seen))
    ensures ReadMarkOk(Apply(s, fp, CommitTxn(id, sent, seen)))
    ensures CleanupOk(Apply(s, fp, CommitTxn(id, sent, seen)), fp)
  {
    hide StoreOk, TxnLogOk, SerialOk, FlightOk, DoneUntil, Remembered, Agrees, UnreadOk, CommittedOk;
    var s' := Apply(s, fp, CommitTxn(id, sent, seen));
    EndRead(s.start, s.oracle.readLog, s.oracle.readSeen, s.oracle.nextTxnTs, s.txns, id, s'.txns[id], seen);
    forall i | 0 <= i < |s'.history| && s'.history[i].ts > s'.oracle.lastCleanupTs
      ensures Remembered(s'.oracle.committedTxns, fp, s'.history[i])
    {
      NewCommitRemembers(s.oracle, fp, s.start, id, s.txns[id], sent, seen, s'.history[i]);
    }
  }

  lemma CommitCommitted(s: Db, fp: Fingerprint, id: nat, sent: bool, seen: nat)
    requires Inv(s, fp) && Enabled(s, CommitTxn(id, sent, seen))
    ensures CommittedOk(Apply(s, fp, CommitTxn(id, sent, seen)).oracle)
  {
    var t := s.txns[id];
    assert TxnStands(t, s.start, s.oracle.nextTxnTs, s.inFlight.Keys) && ReadMarkOk(s) && CommittedOk(s.oracle);
    hide Inv, HasConflict, NewCommitTs, ReadMarkOk, DoneUntil, CommittedOk;
    MarkBelow(s, id, seen);
    CommittedMore(s.oracle, s.start, id, t, sent, seen);
  }

  /** The read mark is below the next timestamp, also once the transaction is done reading. */
  lemma MarkBelow(s: Db, id: nat, seen: nat)
    requires ReadMarkOk(s) && id in s.txns && !s.txns[id].doneRead && seen <= |s.oracle.readLog| + 1
    ensures DoneUntil(s.start, DoneRead(s.oracle, id, s.txns[id]).readLog, seen) < s.oracle.nextTxnTs
  {
    var m := Mark(s.txns[id].readTs, true, id);
    assert id in Open(s.oracle.readLog, s.txns[id].readTs);
    Append(s.start, s.oracle.readLog, m);
    NeverDecreases(s.start, s.oracle.readLog + [m], false, seen, seen);
  }

  lemma CommittedMore(o: Oracle, start: nat, id: nat, t: Txn, sent: bool, seen: nat)
    requires CommittedOk(o) && seen <= |DoneRead(o, id, t).readLog| && DoneUntil(start, DoneRead(o, id, t).readLog, seen) < o.nextTxnTs
    ensures CommittedOk(NewCommitTs(o, start, id, t, sent, seen))
  {
    NewCommitCleans(o, start, id, t, sent, seen);
    hide NewCommitTs, DoneRead, DoneUntil;
  }

  lemma CommitMarks(s: Db, fp: Fingerprint, id: nat, sent: bool, seen: nat)
    requires Inv(s, fp) && Enabled(s, CommitTxn(id, sent, seen))
    ensures TxnMarkOk(Apply(s, fp, CommitTxn(id, sent, seen)))
  {
    hide StoreOk, ReadLogOk, TxnReads, TxnStands, SerialOk, CleanupOk, DoneUntil, Disciplined, LastBegun, Open, TxnLogOk, HistoryOk;
    var ts := s.oracle.nextTxnTs;
    BeginCommit(s.start, s.oracle.txnLog, ts, s.inFlight.Keys, sent);
    assert Apply(s, fp, CommitTxn(id, sent, seen)).inFlight.Keys == if sent then s.inFlight.Keys + {ts} else s.inFlight.Keys;
  }

  lemma CommitStore(s: Db, fp: Fingerprint, id: nat, sent: bool, seen: nat)
    requires Inv(s, fp) && Enabled(s, CommitTxn(id, sent, seen))
    ensures StoreOk(Apply(s, fp, CommitTxn(id, sent, seen)))
  {
    hide ReadLogOk, TxnLogOk, TxnReads, TxnStands, SerialOk, CleanupOk, DoneUntil, Overlay, HistoryOk;
    var s' := Apply(s, fp, CommitTxn(id, sent, seen));
    assert forall k, t :: Pending(s.inFlight, k, t) ==> Pending(s'.inFlight, k, t);
    assert forall i, k, t: nat :: Wrote(s.history, i, k, t) ==> Wrote(s'.history, i, k, t) && s'.history[i] == s.history[i];
    assert forall i, k, t: nat :: Wrote(s'.history, i, k, t) ==> Wrote(s.history, i, k, t) || Pending(s'.inFlight, k, t);
  }

  lemma CommitSerial(s: Db, fp: Fingerprint, id: nat, sent: bool, seen: nat)
    requires Inv(s, fp) && Enabled(s, CommitTxn(id, sent, seen))
    ensures var s' := Apply(s, fp, CommitTxn(id, sent, seen)); SerialOk(s'.base, s'.start, s'.history)
  {
    if sent {
      NoConflictMeansCurrent(s, fp, id);
      var h' := Apply(s, fp, CommitTxn(id, sent, seen)).history;
      assert forall i :: 0 <= i <= |s.history| ==> h'[..i] == s.history[..i];
      assert s.history[..|s.history|] == s.history;
    }
  }

  lemma CommitTxns(s: Db, fp: Fingerprint, id: nat, sent: bool, seen: nat)
    requires Inv(s, fp) && Enabled(s, CommitTxn(id, sent, seen))
    ensures TxnsOk(Apply(s, fp, CommitTxn(id, sent, seen)), fp)
  {
    hide StoreOk, ReadLogOk, TxnLogOk, SerialOk, CleanupOk, DoneUntil, Overlay;
    var s' := Apply(s, fp, CommitTxn(id, sent, seen));
    forall i | i in s'.txns
      ensures TxnStands(s'.txns[i], s'.start, s'.oracle.nextTxnTs, s'.inFlight.Keys)
      ensures TxnReads(s'.txns[i], fp, s'.base, s'.start, s'.history)
    {
      if sent {
        assert s'.history[..|s.history|] == s.history;
        assert UpTo(s'.history, s.txns[i].readTs) == UpTo(s.history, s.txns[i].readTs);
      }
    }
  }

  lemma CommitHistory(s: Db, fp: Fingerprint, id: nat, sent: bool, seen: nat)
    requires Inv(s, fp) && Enabled(s, CommitTxn(id, sent, seen))
    ensures HistoryOk(Apply(s, fp, CommitTxn(id, sent, seen))) && FlightOk(Apply(s, fp, CommitTxn(id, sent, seen)))
  {
    var s' := Apply(s, fp, CommitTxn(id, sent, seen));
    hide StoreOk, ReadLogOk, TxnLogOk, TxnReads, TxnStands, SerialOk, CleanupOk, DoneUntil, Overlay, HistoryOk, FlightOk, UnreadOk;
    if sent { FlightMore(s, s', s'.history[|s.history|]); } else { FlightSame(s, s'); }
  }

  lemma FlightMore(s: Db, s': Db, c: Commit)
    requires HistoryOk(s) && StoreOk(s) && FlightOk(s) && c.ts == s.oracle.nextTxnTs && s'.oracle.nextTxnTs == c.ts + 1
    requires s'.start == s.start && s'.store == s.store
    requires s'.inFlight == s.inFlight[c.ts := c.writes.Keys] && s'.history == s.history + [c]
    ensures HistoryOk(s') && FlightOk(s')
  {
    NothingYet(s);
    hide StoreOk;
    forall i | 0 <= i < |s.history| ensures s'.history[i] == s.history[i] {
    }
    forall k, ts: nat | Pending(s'.inFlight, k, ts) ensures ts == c.ts || Pending(s.inFlight, k, ts) {
    }
  }

  lemma FlightSame(s: Db, s': Db)
    requires HistoryOk(s) && FlightOk(s) && s'.oracle.nextTxnTs == s.oracle.nextTxnTs + 1
    requires s'.start == s.start && s'.store == s.store && s'.inFlight == s.inFlight && s'.history == s.history
    ensures HistoryOk(s') && FlightOk(s')
  {
  }

  lemma NothingYet(s: Db)
    requires HistoryOk(s) && StoreOk(s)
    ensures forall k, ts: nat :: ts >= s.oracle.nextTxnTs ==> (k, ts) !in s.store
  {
    forall k, ts: nat | (k, ts) in s.store ensures ts < s.oracle.nextTxnTs {
      if ts > s.start {
        var i :| Wrote(s.history, i, k, ts) && s.store[(k, ts)] == s.history[i].writes[k];
      }
    }
  }

  lemma CommitKeeps(s: Db, fp: Fingerprint, id: nat, sent: bool, seen: nat)
    requires Inv(s, fp) && Enabled(s, CommitTxn(id, sent, seen))
    ensures Inv(Apply(s, fp, CommitTxn(id, sent, seen)), fp)
  {
    CommitHistory(s, fp, id, sent, seen);
    CommitCleanup(s, fp, id, sent, seen);
    CommitMarks(s, fp, id, sent, seen);
    CommitStore(s, fp, id, sent, seen);
    CommitSerial(s, fp, id, sent, seen);
    CommitTxns(s, fp, id, sent, seen);
    CommitUnread(s, fp, id, sent, seen);
    CommitCommitted(s, fp, id, sent, seen);
  }

  /** The new commit passed the conflict check, and what is in flight is after its read timestamp. */
  lemma CommitUnread(s: Db, fp: Fingerprint, id: nat, sent: bool, seen: nat)
    requires Inv(s, fp) && Enabled(s, CommitTxn(id, sent, seen))
    ensures var s' := Apply(s, fp, CommitTxn(id, sent, seen)); UnreadOk(s'.history, s'.inFlight.Keys)
  {
    var s', t, n := Apply(s, fp, CommitTxn(id, sent, seen)), s.txns[id], |s.history|;
    CleanupNeverLosesConflicts(s, fp, id);
    assert TxnStands(t, s.start, s.oracle.nextTxnTs, s.inFlight.Keys) && TxnReads(t, fp, s.base, s.start, s.history);
    hide Inv, StoreOk, ReadLogOk, TxnLogOk, SerialOk, DoneUntil, Overlay, Agrees, FromDb, Remembered, Apart;
    forall i, j | 0 <= i < j < |s'.history| && s'.history[i].ts in s'.inFlight
      ensures Apart(s'.history[j].ops, s'.history[i].writes)
    {
      assert s.history[i].ts in s.inFlight;
      if j == n { NotRead(s.oracle, fp, t, s.history[i]); }
    }
  }

  lemma NotRead(o: Oracle, fp: Fingerprint, t: Txn, c: Commit)
    requires !HasConflict(o.committedTxns, t.readTs, t.readKeys) && c.ts > t.readTs && Remembered(o.committedTxns, fp, c)
    requires forall i :: 0 <= i < |t.ops| && FromDb(t.ops, i) ==> fp(t.ops[i].key) in t.readKeys
    ensures Apart(t.ops, c.writes)
  {
    hide FromDb;
  }

  // A commit that fails, one part of the invariant at a time.

  lemma {:induction false} WithoutIs(h: seq<Commit>, i: nat)
    requires Ordered(h) && i < |h|
    ensures Without(h, h[i].ts) == h[..i] + h[i + 1..]
  {
    var n := |h| - 1;
    if i < n {
      WithoutIs(h[..n], i);
      assert h[..n][..i] + h[..n][i + 1..] + [h[n]] == h[..i] + h[i + 1..];
    } else {
      NoneWithout(h[..n], h[i].ts);
      assert h[..i] + h[i + 1..] == h[..n];
    }
  }

  lemma {:induction false} NoneWithout(h: seq<Commit>, ts: nat)
    requires forall i :: 0 <= i < |h| ==> h[i].ts != ts
    ensures Without(h, ts) == h
  {
    if h != [] { NoneWithout(h[..|h| - 1], ts); }
  }

  /** Leaving out a commit changes nothing for keys it does not write. */
  lemma {:induction false} SerialSkips(base: Store, start: nat, h: seq<Commit>, i: nat, j: nat, k: Key)
    requires i < j <= |h| && k !in h[i].writes
    ensures Serial(base, start, h[..j], k) == Serial(base, start, h[..i] + h[i + 1..j], k)
  {
    hide Serial;
    SerialLast(base, start, h, j, k);
    if j == i + 1 {
      assert h[..i] + h[i + 1..j] == h[..i];
    } else {
      SerialSkips(base, start, h, i, j - 1, k);
      SerialAppend(base, start, h[..i] + h[i + 1..j - 1], h[j - 1], k);
      assert h[..i] + h[i + 1..j] == h[..i] + h[i + 1..j - 1] + [h[j - 1]];
    }
  }

  lemma SerialLast(base: Store, start: nat, h: seq<Commit>, j: nat, k: Key)
    requires 0 < j <= |h|
    ensures Serial(base, start, h[..j], k) == if k in h[j - 1].writes then Value(Some(h[j - 1].writes[k])) else Serial(base, start, h[..j - 1], k)
  {
    assert h[..j][..j - 1] == h[..j - 1];
  }

  lemma SerialAppend(base: Store, start: nat, h: seq<Commit>, c: Commit, k: Key)
    ensures Serial(base, start, h + [c], k) == if k in c.writes then Value(Some(c.writes[k])) else Serial(base, start, h, k)
  {
    assert (h + [c])[..|h|] == h;
  }

  lemma FailSerial(base: Store, start: nat, h: seq<Commit>, i: nat, inFlight: set<nat>)
    requires SerialOk(base, start, h) && UnreadOk(h, inFlight) && i < |h| && h[i].ts in inFlight
    ensures SerialOk(base, start, h[..i] + h[i + 1..])
  {
    var g := h[..i] + h[i + 1..];
    forall j | 0 <= j < |g| ensures Agrees(g[j].ops, base, start, g[..j]) && g[j].writes == Overlay(g[j].ops) {
      if j < i {
        assert g[j] == h[j] && g[..j] == h[..j];
      } else {
        assert g[j] == h[j + 1] && g[..j] == h[..i] + h[i + 1..j + 1];
        hide Agrees, FromDb, Serial;
        FailAgrees(base, start, h, i, j + 1);
      }
    }
  }

  lemma FailAgrees(base: Store, start: nat, h: seq<Commit>, i: nat, j: nat)
    requires i < j < |h| && Agrees(h[j].ops, base, start, h[..j]) && Apart(h[j].ops, h[i].writes)
    ensures Agrees(h[j].ops, base, start, h[..i] + h[i + 1..j])
  {
    var ops := h[j].ops;
    hide Agrees, Serial, FromDb;
    forall p | 0 <= p < |ops| && FromDb(ops, p)
      ensures Serial(base, start, h[..j], ops[p].key) == Serial(base, start, h[..i] + h[i + 1..j], ops[p].key)
    {
      SerialSkips(base, start, h, i, j, ops[p].key);
    }
    AgreesTransfers(ops, base, start, h[..j], h[..i] + h[i + 1..j]);
  }

  lemma FailUnread(h: seq<Commit>, i: nat, inFlight: set<nat>)
    requires UnreadOk(h, inFlight) && i < |h|
    ensures UnreadOk(h[..i] + h[i + 1..], inFlight - {h[i].ts})
  {
    hide Apart;
    var g := h[..i] + h[i + 1..];
    forall a, b | 0 <= a < b < |g| && g[a].ts in inFlight - {h[i].ts} ensures Apart(g[b].ops, g[a].writes) {
      assert g[a] == h[if a < i then a else a + 1] && g[b] == h[if b < i then b else b + 1];
    }
  }

  /** A read timestamp before the commit does not see it. */
  lemma FailUpTo(h: seq<Commit>, i: nat, r: nat)
    requires Ordered(h) && i < |h| && r < h[i].ts
    ensures UpTo(h[..i] + h[i + 1..], r) == UpTo(h, r)
  {
    UpToCuts(h, r);
    var g, n := h[..i] + h[i + 1..], |UpTo(h, r)|;
    assert n <= i && g[..n] == h[..n];
    forall a | n <= a < |g| ensures g[a].ts > r {
      assert g[a] == h[if a < i then a else a + 1];
    }
    CutIs(g, r, n);
  }

  lemma {:induction false} CutIs(h: seq<Commit>, r: nat, n: nat)
    requires n <= |h| && (forall i :: 0 <= i < n ==> h[i].ts <= r) && forall i :: n <= i < |h| ==> h[i].ts > r
    ensures UpTo(h, r) == h[..n]
  {
    if n < |h| {
      CutIs(h[..|h| - 1], r, n);
      assert h[..|h| - 1][..n] == h[..n];
    } else {
      assert h[..n] == h;
    }
  }

  lemma FailTxn(t: Txn, fp: Fingerprint, base: Store, start: nat, next: nat, h: seq<Commit>, i: nat, inFlight: set<nat>)
    requires Ordered(h) && i < |h| && h[i].ts in inFlight
    requires TxnStands(t, start, next, inFlight) && TxnReads(t, fp, base, start, h)
    ensures TxnStands(t, start, next, inFlight - {h[i].ts}) && TxnReads(t, fp, base, start, h[..i] + h[i + 1..])
  {
    if t.phase == Waiting {
      NoOps(t, fp, base, start, h[..i] + h[i + 1..]);
    } else {
      FailUpTo(h, i, t.readTs);
    }
    hide Agrees, Ordered, UpTo, FromDb;
  }

  lemma FailStore(s: Db, s': Db, i: nat)
    requires HistoryOk(s) && StoreOk(s) && FlightOk(s) && i < |s.history| && s.history[i].ts in s.inFlight
    requires s.inFlight[s.history[i].ts] == s.history[i].writes.Keys
    requires s'.start == s.start && s'.base == s.base && s'.store == s.store && s'.inFlight == s.inFlight - {s.history[i].ts}
    requires s'.history == s.history[..i] + s.history[i + 1..] && s'.oracle.nextTxnTs == s.oracle.nextTxnTs
    ensures StoreOk(s') && FlightOk(s') && HistoryOk(s')
  {
    var h, g, ts := s.history, s'.history, s.history[i].ts;
    forall a | 0 <= a < |g| ensures g[a] == h[if a < i then a else a + 1] {
    }
    forall k, t: nat | Pending(s'.inFlight, k, t) ensures Pending(s.inFlight, k, t) {
    }
    FailWrites(s, s', i);
  }

  lemma FailWrites(s: Db, s': Db, i: nat)
    requires HistoryOk(s) && StoreOk(s) && FlightOk(s) && i < |s.history| && s.history[i].ts in s.inFlight
    requires s.inFlight[s.history[i].ts] == s.history[i].writes.Keys
    requires s'.start == s.start && s'.base == s.base && s'.store == s.store && s'.inFlight == s.inFlight - {s.history[i].ts}
    requires s'.history == s.history[..i] + s.history[i + 1..]
    ensures StoreOk(s')
  {
    var h, g, ts := s.history, s'.history, s.history[i].ts;
    forall a | 0 <= a < |h| && a != i ensures h[a] == g[if a < i then a else a - 1] && h[a].ts != ts {
    }
    forall k | k in h[i].writes ensures (k, ts) !in s.store {
      assert Pending(s.inFlight, k, ts);
    }
    hide HistoryOk, FlightOk;
    forall k, t: nat | (k, t) in s.store && t > s.start
      ensures exists a :: Wrote(g, a, k, t) && s.store[(k, t)] == g[a].writes[k]
    {
      var a :| Wrote(h, a, k, t) && s.store[(k, t)] == h[a].writes[k];
      assert a != i;
      assert Wrote(g, if a < i then a else a - 1, k, t);
    }
    forall a, k, t: nat | Wrote(g, a, k, t) ensures (k, t) in s.store || Pending(s'.inFlight, k, t) {
      assert Wrote(h, if a < i then a else a + 1, k, t);
      assert t != ts;
    }
  }

  /** As long as nothing of it was written, a commit that fails was never there. */
  lemma FailCommitKeeps(s: Db, fp: Fingerprint, ts: nat)
    requires Inv(s, fp) && Enabled(s, FailCommit(ts))
    ensures Inv(Apply(s, fp, FailCommit(ts)), fp)
  {
    var i :| 0 <= i < |s.history| && s.history[i].ts == ts && s.inFlight[ts] == s.history[i].writes.Keys;
    HistoryOrdered(s);
    WithoutIs(s.history, i);
    var s' := Apply(s, fp, FailCommit(ts));
    hide Inv, Enabled, Without;
    FailAt(s, s', fp, i);
  }

  lemma FailAt(s: Db, s': Db, fp: Fingerprint, i: nat)
    requires Inv(s, fp) && i < |s.history| && s.history[i].ts in s.inFlight
    requires s.inFlight[s.history[i].ts] == s.history[i].writes.Keys
    requires s' == s.(oracle := s.oracle.(txnLog := s.oracle.txnLog + [Mark(s.history[i].ts, true, s.history[i].ts)]),
                      inFlight := s.inFlight - {s.history[i].ts}, history := s.history[..i] + s.history[i + 1..])
    ensures Inv(s', fp)
  {
    hide HistoryOk, StoreOk, FlightOk, ReadMarkOk, TxnMarkOk, CleanupOk, SerialOk, TxnsOk, UnreadOk, Ordered;
    assert s'.inFlight.Keys == s.inFlight.Keys - {s.history[i].ts};
    HistoryOrdered(s);
    DoneMark(s, s', s.history[i].ts);
    FailStore(s, s', i);
    FailSerial(s.base, s.start, s.history, i, s.inFlight.Keys);
    FailUnread(s.history, i, s.inFlight.Keys);
    FailTxns(s, s', fp, i);
    SameReadMark(s, s', fp);
  }

  lemma FailTxns(s: Db, s': Db, fp: Fingerprint, i: nat)
    requires TxnsOk(s, fp) && Ordered(s.history) && i < |s.history| && s.history[i].ts in s.inFlight
    requires s'.txns == s.txns && s'.start == s.start && s'.base == s.base && s'.oracle.nextTxnTs == s.oracle.nextTxnTs
    requires s'.history == s.history[..i] + s.history[i + 1..] && s'.inFlight.Keys == s.inFlight.Keys - {s.history[i].ts}
    ensures TxnsOk(s', fp)
  {
    hide TxnReads, TxnStands, Ordered;
    forall id | id in s'.txns
      ensures TxnStands(s'.txns[id], s'.start, s'.oracle.nextTxnTs, s'.inFlight.Keys)
      ensures TxnReads(s'.txns[id], fp, s'.base, s'.start, s'.history)
    {
      FailTxn(s.txns[id], fp, s.base, s.start, s.oracle.nextTxnTs, s.history, i, s.inFlight.Keys);
    }
  }

  /** Which commits these are: those of which the store has nothing. */
  lemma NothingWrittenIff(s: Db, fp: Fingerprint, i: nat)
    requires Inv(s, fp) && i < |s.history| && s.history[i].ts in s.inFlight
    ensures s.inFlight[s.history[i].ts] == s.history[i].writes.Keys <==> forall k :: (k, s.history[i].ts) !in s.store
  {
    var h, ts := s.history, s.history[i].ts;
    hide SerialOk, TxnsOk, CleanupOk, ReadMarkOk, TxnMarkOk, UnreadOk;
    forall k | (k, ts) in s.store ensures k in h[i].writes && !Pending(s.inFlight, k, ts) {
      var a :| Wrote(h, a, k, ts) && s.store[(k, ts)] == h[a].writes[k];
      assert a == i;
    }
    forall k | k in h[i].writes && (k, ts) !in s.store ensures k in s.inFlight[ts] {
      assert Wrote(h, i, k, ts);
    }
  }

  /** A commit of two keys that fails after the first was written, and was marked done: the database is
      neither what it was before nor what the commit would have made of it. */
  lemma HalfWritten()
    ensures
      var a, b, c := [0], [1], Commit(1, [], map[[0] := Put([7]), [1] := Put([7])]);
      var store: Store := map[(a, 1) := Put([7])];
      && Value(Lookup(store, a, 1)) != Serial(map[], 0, [], a)
      && Value(Lookup(store, b, 1)) != Serial(map[], 0, [c], b)
  {
    var a, b := [0 as Byte], [1 as Byte];
    var store: Store := map[(a, 1) := Put([7])];
    assert Lookup(store, b, 0) == None && Lookup(map[], a, 0) == None;
  }

  lemma StepKeeps(s: Db, fp: Fingerprint, e: Event)
    requires Inv(s, fp) && Enabled(s, e)
    ensures Inv(Apply(s, fp, e), fp)
  {
    match e
    case Begin(id, update) => BeginKeeps(s, fp, id, update);
    case Ready(id) => ReadyKeeps(s, fp, id);
    case Get(id, key) => GetKeeps(s, fp, id, key);
    case Modify(id, key, w) => ModifyKeeps(s, fp, id, key, w);
    case CommitTxn(id, sent, seen) => CommitKeeps(s, fp, id, sent, seen);
    case WriteEntry(ts, key) => WriteEntryKeeps(s, fp, ts, key);
    case DoneCommit(ts) => DoneCommitKeeps(s, fp, ts);
    case FailCommit(ts) => FailCommitKeeps(s, fp, ts);
    case Discard(id) => DiscardKeeps(s, fp, id);
    case ProcessReadMark => ProcessKeeps(s, fp, e);
    case ProcessTxnMark => ProcessKeeps(s, fp, e);
  }

  lemma {:induction false} ReachesInv(s: Db, fp: Fingerprint, run: seq<Event>)
    requires Reaches(s, fp, run)
    ensures Inv(s, fp)
    decreases |run|
  {
    if run == [] {
      InitKeeps(s, fp);
    } else {
      var p: Db :| Reaches(p, fp, run[..|run| - 1])
                && p.oracle.txnSeen <= |p.oracle.txnLog| && Enabled(p, run[|run| - 1])
                && s == Apply(p, fp, run[|run| - 1]);
      ReachesInv(p, fp, run[..|run| - 1]);
      StepKeeps(p, fp, run[|run| - 1]);
    }
  }

  // ---------------------------------------------------------------- main results

  /** Serializability, over every run and every interleaving: commit timestamps strictly increase,
      and running the committed transactions one at a time in that order gives each of them, Get by
      Get, the results it saw; when nothing is in flight it also gives the same database. */
  lemma Serializable(s: Db, fp: Fingerprint, run: seq<Event>)
    requires Reaches(s, fp, run)
    ensures forall i, j :: 0 <= i < j < |s.history| ==> s.history[i].ts < s.history[j].ts
    ensures forall i :: 0 <= i < |s.history| ==>
              Agrees(s.history[i].ops, s.base, s.start, s.history[..i])
    ensures forall i :: 0 <= i < |s.history| ==> s.history[i].writes == Overlay(s.history[i].ops)
    ensures s.inFlight == map[] ==>
              forall k, ts: nat :: ts >= s.oracle.nextTxnTs - 1 ==>
                Value(Lookup(s.store, k, ts)) == Serial(s.base, s.start, s.history, k)
  {
    ReachesInv(s, fp, run);
    if s.inFlight == map[] {
      forall k, ts: nat | ts >= s.oracle.nextTxnTs - 1
        ensures Value(Lookup(s.store, k, ts)) == Serial(s.base, s.start, s.history, k)
      {
        SnapshotAt(s, k, ts, |s.history|);
        assert s.history[..|s.history|] == s.history;
      }
    }
  }

  /** Every transaction past the wait, committed or not, update or read-only, reads one snapshot:
      all commits up to its read timestamp and nothing else, now and for as long as it lives. */
  lemma ReadsOneSnapshot(s: Db, fp: Fingerprint, run: seq<Event>, id: nat, k: Key)
    requires Reaches(s, fp, run) && Is(s, id, Running)
    ensures Agrees(s.txns[id].ops, s.base, s.start, UpTo(s.history, s.txns[id].readTs))
    ensures Value(Lookup(s.store, k, s.txns[id].readTs)) == Serial(s.base, s.start, UpTo(s.history, s.txns[id].readTs), k)
  {
    ReachesInv(s, fp, run);
    SnapshotIsReplay(s, k, s.txns[id].readTs);
  }

  /** Nothing that no live transaction can conflict with is remembered: after each commit, whatever the read
      watermark has passed is gone. */
  lemma CleanupCleans(s: Db, fp: Fingerprint, run: seq<Event>, id: nat, sent: bool, seen: nat)
    requires Reaches(s, fp, run) && Can(s, CommitTxn(id, sent, seen))
    ensures var o := Apply(s, fp, CommitTxn(id, sent, seen)).oracle;
            && (forall c :: c in o.committedTxns ==> c.ts > DoneUntil(s.start, o.readLog, seen))
            && (forall c :: c in s.oracle.committedTxns && c.ts > DoneUntil(s.start, o.readLog, seen) ==> c in o.committedTxns)
            && CommittedTxn(s.oracle.nextTxnTs, s.txns[id].conflictKeys) in o.committedTxns
  {
    ReachesInv(s, fp, run);
    CommittedIs(s, fp);
    assert TxnStands(s.txns[id], s.start, s.oracle.nextTxnTs, s.inFlight.Keys) && ReadMarkOk(s);
    hide ReadMarkOk;
    MarkBelow(s, id, seen);
    hide Inv, NewCommitTs, HasConflict, DoneUntil, Reaches, CommittedOk;
    NewCommitCleans(s.oracle, s.start, id, s.txns[id], sent, seen);
  }

  lemma CommittedIs(s: Db, fp: Fingerprint)
    requires Inv(s, fp)
    ensures forall c :: c in s.oracle.committedTxns ==> s.oracle.lastCleanupTs < c.ts < s.oracle.nextTxnTs
  {
    hide StoreOk, TxnLogOk, SerialOk, FlightOk, UnreadOk, TxnsOk, HistoryOk, ReadMarkOk, CleanupOk;
  }

  // ---------------------------------------------------------------- which snapshot a transaction gets

  /** What stays true of transaction `id` that began with read timestamp `r` when the history was `h0`
      and the commits `flight0` were in flight. */
  ghost predicate Since(s: Db, id: nat, r: nat, h0: seq<Commit>, flight0: set<nat>) {
    && id in s.txns && s.txns[id].readTs == r && r < s.oracle.nextTxnTs
    && (forall c :: c in h0 ==> c.ts <= r)
    && (forall c :: c in s.history && c.ts <= r ==> c in h0)
    && (forall c :: c in h0 && c.ts !in flight0 ==> c in s.history && c.ts !in s.inFlight)
  }

  lemma WithoutMembers(h: seq<Commit>, ts: nat)
    ensures forall c :: c in Without(h, ts) <==> c in h && c.ts != ts
  {
    if h != [] {
      WithoutMembers(h[..|h| - 1], ts);
      assert forall c :: c in h <==> c in h[..|h| - 1] || c == h[|h| - 1];
    }
  }

  lemma StepSince(s: Db, fp: Fingerprint, e: Event, id: nat, r: nat, h0: seq<Commit>, flight0: set<nat>)
    requires Can(s, e) && Since(s, id, r, h0, flight0)
    ensures Since(Apply(s, fp, e), id, r, h0, flight0)
  {
    hide Lookup, WriteOf, DoneUntil, HasConflict, Cleaned, Without;
    if e.FailCommit? { WithoutMembers(s.history, e.ts); }
  }

  lemma LastStep(p: Db, s: Db, fp: Fingerprint, run: seq<Event>) returns (q: Db)
    requires run != [] && Leads(p, s, fp, run)
    ensures Leads(p, q, fp, run[..|run| - 1]) && Can(q, run[|run| - 1]) && s == Apply(q, fp, run[|run| - 1])
  {
    hide Enabled, Apply;
    q :| && Leads(p, q, fp, run[..|run| - 1])
         && q.oracle.txnSeen <= |q.oracle.txnLog| && Enabled(q, run[|run| - 1])
         && s == Apply(q, fp, run[|run| - 1]);
  }

  lemma {:induction false} RunSince(p: Db, s: Db, fp: Fingerprint, run: seq<Event>, id: nat, r: nat, h0: seq<Commit>, flight0: set<nat>)
    requires Leads(p, s, fp, run) && Since(p, id, r, h0, flight0)
    ensures Since(s, id, r, h0, flight0)
    decreases |run|
  {
    hide Since, Can, Apply;
    if run != [] {
      var q := LastStep(p, s, fp, run);
      RunSince(p, q, fp, run[..|run| - 1], id, r, h0, flight0);
      StepSince(q, fp, run[|run| - 1], id, r, h0, flight0);
    }
  }

  lemma {:induction false} LeadsReaches(p: Db, s: Db, fp: Fingerprint, before: seq<Event>, run: seq<Event>)
    requires Reaches(p, fp, before) && Leads(p, s, fp, run)
    ensures Reaches(s, fp, before + run)
    decreases |run|
  {
    hide *;
    if run == [] {
      NoStep(p, s, fp, run);
      assert before + run == before;
    } else {
      var q := LastStep(p, s, fp, run);
      LeadsReaches(p, q, fp, before, run[..|run| - 1]);
      OneMoreStep(q, s, fp, before + run[..|run| - 1], run[|run| - 1]);
      assert before + run[..|run| - 1] + [run[|run| - 1]] == before + run;
    }
  }

  lemma NoStep(p: Db, s: Db, fp: Fingerprint, run: seq<Event>)
    requires run == [] && Leads(p, s, fp, run)
    ensures s == p
  {
  }

  lemma OneMoreStep(q: Db, s: Db, fp: Fingerprint, run: seq<Event>, e: Event)
    requires Reaches(q, fp, run) && Can(q, e) && s == Apply(q, fp, e)
    ensures Reaches(s, fp, run + [e])
  {
    hide Enabled, Apply, Init;
    assert (run + [e])[..|run + [e]| - 1] == run;
  }

  /** A transaction that begins now gets a read timestamp at or above every commit there is, and before
      every commit there will be. */
  lemma BeginsAfterAll(p: Db, fp: Fingerprint, before: seq<Event>, id: nat, update: bool)
    requires Reaches(p, fp, before) && Can(p, Begin(id, update))
    ensures var q := Apply(p, fp, Begin(id, update));
            && Is(q, id, Waiting) && q.txns[id].readTs == p.oracle.nextTxnTs - 1
            && Since(q, id, q.txns[id].readTs, p.history, p.inFlight.Keys)
  {
    ReachesInv(p, fp, before);
    hide StoreOk, FlightOk, ReadMarkOk, TxnMarkOk, CleanupOk, SerialOk, TxnsOk, UnreadOk;
    InFlightCommits(p);
  }

  lemma InFlightCommits(p: Db)
    requires HistoryOk(p)
    ensures forall c :: c in p.history ==> c.ts <= p.oracle.nextTxnTs - 1
  {
  }

  /** Whatever happens after transaction `id` began, its snapshot has exactly the commits that were
      there when it began, less those that failed since, and all that had been acknowledged by then. Every
      read of it that its own writes do not answer is a read of these, run one at a time. */
  lemma SnapshotOfBegin(p: Db, s: Db, fp: Fingerprint, before: seq<Event>, after: seq<Event>, id: nat, update: bool)
    requires Reaches(p, fp, before) && Can(p, Begin(id, update))
    requires Leads(Apply(p, fp, Begin(id, update)), s, fp, after) && Is(s, id, Running)
    ensures var snapshot := UpTo(s.history, s.txns[id].readTs);
            && (forall c :: c in snapshot <==> c in s.history && c in p.history)
            && (forall c :: c in p.history && c.ts !in p.inFlight ==> c in snapshot)
            && (p.inFlight == map[] ==> snapshot == p.history)
            && Agrees(s.txns[id].ops, s.base, s.start, snapshot)
            && forall k :: Value(Lookup(s.store, k, s.txns[id].readTs)) == Serial(s.base, s.start, snapshot, k)
  {
    var q := Apply(p, fp, Begin(id, update));
    var run := before + [Begin(id, update)] + after;
    BeginsAfterAll(p, fp, before, id, update);
    hide *;
    RunSince(q, s, fp, after, id, q.txns[id].readTs, p.history, p.inFlight.Keys);
    OneMoreStep(p, q, fp, before, Begin(id, update));
    LeadsReaches(q, s, fp, before + [Begin(id, update)], after);
    forall k ensures Value(Lookup(s.store, k, s.txns[id].readTs)) == Serial(s.base, s.start, UpTo(s.history, s.txns[id].readTs), k) {
      ReadsOneSnapshot(s, fp, run, id, k);
    }
    ReadsOneSnapshot(s, fp, run, id, []);
    ReachesOrdered(s, fp, run);
    ReachesOrdered(p, fp, before);
    SinceIs(s, id, q.txns[id].readTs, p.history, p.inFlight.Keys);
    SnapshotMembers(s, id, p.history, p.inFlight.Keys);
    NoneInFlight(p);
  }

  lemma NoneInFlight(p: Db)
    ensures p.inFlight == map[] ==> p.inFlight.Keys == {}
    ensures forall ts :: ts in p.inFlight <==> ts in p.inFlight.Keys
  {
  }

  lemma SinceIs(s: Db, id: nat, r: nat, h0: seq<Commit>, flight0: set<nat>)
    requires Since(s, id, r, h0, flight0)
    ensures id in s.txns && s.txns[id].readTs == r
  {
  }

  lemma ReachesOrdered(s: Db, fp: Fingerprint, run: seq<Event>)
    requires Reaches(s, fp, run)
    ensures Ordered(s.history)
  {
    ReachesInv(s, fp, run);
    hide StoreOk, FlightOk, ReadMarkOk, TxnMarkOk, CleanupOk, SerialOk, TxnsOk, UnreadOk, Reaches;
  }

  lemma SnapshotMembers(s: Db, id: nat, h0: seq<Commit>, flight0: set<nat>)
    requires id in s.txns && Since(s, id, s.txns[id].readTs, h0, flight0) && Ordered(s.history) && Ordered(h0)
    ensures var snapshot := UpTo(s.history, s.txns[id].readTs);
            && (forall c :: c in snapshot <==> c in s.history && c in h0)
            && (forall c :: c in h0 && c.ts !in flight0 ==> c in snapshot)
            && (flight0 == {} ==> snapshot == h0)
  {
    var r := s.txns[id].readTs;
    UpToCuts(s.history, r);
    var n := |UpTo(s.history, r)|;
    forall c ensures c in UpTo(s.history, r) <==> c in s.history && c.ts <= r {
      if c in s.history && c.ts <= r {
        var i :| 0 <= i < |s.history| && s.history[i] == c;
        assert i < n && UpTo(s.history, r)[i] == c;
      }
    }
    if flight0 == {} { SameHistory(UpTo(s.history, r), h0); }
  }

  lemma FirstIn(h: seq<Commit>)
    ensures h == [] || h[0] in h
  {
  }

  lemma {:induction false} SameHistory(a: seq<Commit>, b: seq<Commit>)
    requires Ordered(a) && Ordered(b) && forall c :: c in a <==> c in b
    ensures a == b
  {
    if a == [] {
      FirstIn(b);
    } else {
      var x, n := a[|a| - 1], |b| - 1;
      assert x in b;
      assert b[n] in a;
      var i :| 0 <= i < |a| && a[i] == b[n];
      var j :| 0 <= j < |b| && b[j] == x;
      assert i == |a| - 1 && j == n;
      forall c ensures c in a[..|a| - 1] <==> c in b[..n] {
        LastApart(a, c);
        LastApart(b, c);
      }
      SameHistory(a[..|a| - 1], b[..n]);
      assert a == a[..|a| - 1] + [x] && b == b[..n] + [x];
    }
  }

  lemma LastApart(a: seq<Commit>, c: Commit)
    requires Ordered(a) && a != []
    ensures c in a[..|a| - 1] <==> c in a && c != a[|a| - 1]
  {
    if c in a && c != a[|a| - 1] {
      var i :| 0 <= i < |a| && a[i] == c;
      assert a[..|a| - 1][i] == c;
    }
  }

  /** The assertions of newCommitTs and cleanupCommittedTransactions hold in every run, and no
      version a live transaction may read is below what compaction is told it may discard. */
  lemma OracleAssertionsHold(s: Db, fp: Fingerprint, run: seq<Event>)
    requires Reaches(s, fp, run)
    ensures s.oracle.readSeen <= |s.oracle.readLog|
    ensures s.oracle.lastCleanupTs <= DoneUntil(s.start, s.oracle.readLog, s.oracle.readSeen) < s.oracle.nextTxnTs
    ensures forall id :: id in s.txns && !s.txns[id].doneRead ==>
              DoneUntil(s.start, s.oracle.readLog, s.oracle.readSeen) <= s.txns[id].readTs
  {
    ReachesInv(s, fp, run);
    var o := s.oracle;
    NeverDecreases(s.start, o.readLog, false, o.readSeen, o.readSeen);
    forall id | id in s.txns && !s.txns[id].doneRead
      ensures DoneUntil(s.start, o.readLog, o.readSeen) <= s.txns[id].readTs
    {
      assert id in Open(o.readLog, s.txns[id].readTs);
      NeverPassesUnfinished(s.start, o.readLog, false, o.readSeen, s.txns[id].readTs);
    }
  }
}
