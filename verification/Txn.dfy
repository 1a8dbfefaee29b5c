/** Transactions and the timestamp oracle (txn.go), as a state machine over all interleavings.

    `Apply` is one atomic step of one goroutine; `Reaches` is any sequence of enabled steps by any
    number of transactions. The main results are `Serializable`, `SnapshotIsReplay` and
    `OracleAssertionsHold`. `fp` is the fingerprint hash of keys: nothing is assumed about it. */
module Transactions {
  import opened Wrappers
  import opened Watermarks

  newtype Byte = x: int | 0 <= x < 256
  type Key = seq<Byte>
  type Fingerprint = Key -> nat

  datatype Write = Put(value: seq<Byte>) | Delete

  /** What a transaction did, with what each Get returned. */
  datatype Op = Read(key: Key, result: Option<seq<Byte>>) | Update(key: Key, write: Write)

  /** Waiting: blocked in readTs. Finished: discarded, or past newCommitTs. */
  datatype Phase = Waiting | Running | Finished

  datatype Txn = Txn(readTs: nat, update: bool, phase: Phase, doneRead: bool, readKeys: seq<nat>,
                     conflictKeys: set<nat>, pendingWrites: map<Key, Write>, ops: seq<Op>)

  datatype CommittedTxn = CommittedTxn(ts: nat, conflictKeys: set<nat>)

  /** A commit that was handed to the write channel and has not failed. Not part of the program: it is the history
      the theorems speak of. */
  datatype Commit = Commit(ts: nat, ops: seq<Op>, writes: map<Key, Write>)

  /** The fields of the oracle; each watermark is its log of marks and how many were processed. */
  datatype Oracle = Oracle(nextTxnTs: nat, committedTxns: seq<CommittedTxn>, lastCleanupTs: nat,
                           readLog: seq<Mark>, readSeen: nat, txnLog: seq<Mark>, txnSeen: nat)

  type Store = map<(Key, nat), Write>

  /** `start` is the largest version found by Open and `base` what was then in the database;
      `inFlight` maps the timestamp of each commit being written to its keys not yet written. */
  datatype Db = Db(start: nat, base: Store, oracle: Oracle, txns: map<nat, Txn>,
                   inFlight: map<nat, set<Key>>, store: Store, history: seq<Commit>)

  // ---------------------------------------------------------------- reading

  /** The newest version of `k` at or below `ts`. */
  function Lookup(store: Store, k: Key, ts: nat): Option<Write> {
    if (k, ts) in store then Some(store[(k, ts)])
    else if ts == 0 then None
    else Lookup(store, k, ts - 1)
  }

  function Value(w: Option<Write>): Option<seq<Byte>> {
    if w.Some? && w.value.Put? then Some(w.value.value) else None
  }

  function Overlay(ops: seq<Op>): map<Key, Write> {
    if ops == [] then map[]
    else
      var last := ops[|ops| - 1];
      var before := Overlay(ops[..|ops| - 1]);
      if last.Update? then before[last.key := last.write] else before
  }

  // ---------------------------------------------------------------- the oracle's decisions

  predicate HasConflict(committed: seq<CommittedTxn>, readTs: nat, readKeys: seq<nat>) {
    exists i, j :: 0 <= i < |committed| && 0 <= j < |readKeys|
                && committed[i].ts > readTs && readKeys[j] in committed[i].conflictKeys
  }

  /** Whether a commit after the read timestamp wrote something that was read. */
  lemma ConflictIs(committed: seq<CommittedTxn>, readTs: nat, readKeys: seq<nat>)
    ensures HasConflict(committed, readTs, readKeys) <==>
            exists c, r :: c in committed && r in readKeys && c.ts > readTs && r in c.conflictKeys
  {
    if HasConflict(committed, readTs, readKeys) {
      var i, j :| 0 <= i < |committed| && 0 <= j < |readKeys|
               && committed[i].ts > readTs && readKeys[j] in committed[i].conflictKeys;
      assert committed[i] in committed && readKeys[j] in readKeys;
    }
  }

  function Cleaned(committed: seq<CommittedTxn>, maxReadTs: nat): (r: seq<CommittedTxn>)
    ensures forall c :: c in r <==> c in committed && c.ts > maxReadTs
  {
    if committed == [] then []
    else
      var last := committed[|committed| - 1];
      Cleaned(committed[..|committed| - 1], maxReadTs) + if last.ts <= maxReadTs then [] else [last]
  }

  function Cleanup(o: Oracle, maxReadTs: nat): Oracle {
    if maxReadTs == o.lastCleanupTs then o
    else o.(lastCleanupTs := maxReadTs, committedTxns := Cleaned(o.committedTxns, maxReadTs))
  }

  /** readTs up to the wait: the last timestamp handed out to a commit, and the read is under way. */
  function BeginRead(o: Oracle, id: nat): (Oracle, nat)
    requires o.nextTxnTs > 0
  {
    var readTs := o.nextTxnTs - 1;
    (o.(readLog := o.readLog + [Mark(readTs, false, id)]), readTs)
  }

  function DoneRead(o: Oracle, id: nat, t: Txn): Oracle {
    if t.doneRead then o else o.(readLog := o.readLog + [Mark(t.readTs, true, id)])
  }

  /** newCommitTs after the conflict check: while it runs, the mark processor may get as far as
      `seen`. If the write channel then refuses the request the commit is marked done at once. */
  function NewCommitTs(o: Oracle, start: nat, id: nat, t: Txn, sent: bool, seen: nat): Oracle
    requires seen <= |DoneRead(o, id, t).readLog|
  {
    var o1 := DoneRead(o, id, t).(readSeen := seen);
    var o2 := Cleanup(o1, DoneUntil(start, o1.readLog, seen));
    var ts := o2.nextTxnTs;
    o2.(nextTxnTs := ts + 1,
        txnLog := o2.txnLog + [Mark(ts, false, ts)] + (if sent then [] else [Mark(ts, true, ts)]),
        committedTxns := o2.committedTxns + [CommittedTxn(ts, t.conflictKeys)])
  }

  // ---------------------------------------------------------------- steps

  datatype Event =
    | Begin(id: nat, update: bool)          // NewTransaction, up to the wait in readTs
    | Ready(id: nat)                        // the wait for the commit watermark ends
    | Get(id: nat, key: Key)
    | Modify(id: nat, key: Key, write: Write)
    | CommitTxn(id: nat, sent: bool, seen: nat)
    | WriteEntry(ts: nat, key: Key)         // one entry reaches the memtable
    | DoneCommit(ts: nat)
    | FailCommit(ts: nat)                   // the request fails before any entry reached the memtable
    | Discard(id: nat)
    | ProcessReadMark
    | ProcessTxnMark

  predicate Is(s: Db, id: nat, phase: Phase) {
    id in s.txns && s.txns[id].phase == phase
  }

  predicate Enabled(s: Db, e: Event)
    requires s.oracle.txnSeen <= |s.oracle.txnLog|
  {
    match e
    case Begin(id, _) => id !in s.txns && s.oracle.nextTxnTs > 0
    case Ready(id) => Is(s, id, Waiting) && DoneUntil(s.start, s.oracle.txnLog, s.oracle.txnSeen) >= s.txns[id].readTs
    case Get(id, _) => Is(s, id, Running)
    case Modify(id, _, _) => Is(s, id, Running) && s.txns[id].update
    case CommitTxn(id, _, seen) =>
      && Is(s, id, Running)
      && s.txns[id].pendingWrites != map[]
      && !HasConflict(s.oracle.committedTxns, s.txns[id].readTs, s.txns[id].readKeys)
      && s.oracle.readSeen <= seen <= |DoneRead(s.oracle, id, s.txns[id]).readLog|
    case WriteEntry(ts, key) =>
      && ts in s.inFlight && key in s.inFlight[ts]
      && exists i :: 0 <= i < |s.history| && s.history[i].ts == ts && key in s.history[i].writes
    case DoneCommit(ts) => ts in s.inFlight && s.inFlight[ts] == {}
    case FailCommit(ts) =>
      && ts in s.inFlight
      && exists i :: 0 <= i < |s.history| && s.history[i].ts == ts && s.inFlight[ts] == s.history[i].writes.Keys
    case Discard(id) => id in s.txns && s.txns[id].phase != Waiting
    case ProcessReadMark => s.oracle.readSeen < |s.oracle.readLog|
    case ProcessTxnMark => s.oracle.txnSeen < |s.oracle.txnLog|
  }

  /** A step that can be taken: the processor of commit marks is not ahead of its log. */
  predicate Can(s: Db, e: Event) {
    s.oracle.txnSeen <= |s.oracle.txnLog| && Enabled(s, e)
  }

  /** What a commit writes for `key` at `ts`. */
  function WriteOf(history: seq<Commit>, ts: nat, key: Key): Write
    requires exists i :: 0 <= i < |history| && history[i].ts == ts && key in history[i].writes
  {
    var last := history[|history| - 1];
    if last.ts == ts && key in last.writes then last.writes[key]
    else
      assert history[..|history| - 1] + [last] == history;
      WriteOf(history[..|history| - 1], ts, key)
  }

  /** The history without the commit at `ts`. */
  function Without(h: seq<Commit>, ts: nat): seq<Commit> {
    if h == [] then []
    else
      var last := h[|h| - 1];
      if last.ts == ts then Without(h[..|h| - 1], ts) else Without(h[..|h| - 1], ts) + [last]
  }

  function Got(t: Txn, fp: Fingerprint, key: Key, found: Option<Write>): Txn {
    if t.update && key in t.pendingWrites then
      t.(ops := t.ops + [Read(key, Value(Some(t.pendingWrites[key])))])
    else
      t.(ops := t.ops + [Read(key, Value(found))], readKeys := if t.update then t.readKeys + [fp(key)] else t.readKeys)
  }

  function Modified(t: Txn, fp: Fingerprint, key: Key, w: Write): Txn {
    t.(ops := t.ops + [Update(key, w)], conflictKeys := t.conflictKeys + {fp(key)},
       pendingWrites := t.pendingWrites[key := w])
  }

  function Apply(s: Db, fp: Fingerprint, e: Event): Db
    requires s.oracle.txnSeen <= |s.oracle.txnLog| && Enabled(s, e)
  {
    var o := s.oracle;
    match e
    case Begin(id, update) =>
      var (begun, r) := BeginRead(o, id);
      s.(oracle := begun, txns := s.txns[id := Txn(r, update, Waiting, false, [], {}, map[], [])])
    case Ready(id) => s.(txns := s.txns[id := s.txns[id].(phase := Running)])
    case Get(id, key) =>
      var t := s.txns[id];
      s.(txns := s.txns[id := Got(t, fp, key, Lookup(s.store, key, t.readTs))])
    case Modify(id, key, w) => s.(txns := s.txns[id := Modified(s.txns[id], fp, key, w)])
    case CommitTxn(id, sent, seen) =>
      var t := s.txns[id];
      var ts := o.nextTxnTs;
      s.(oracle := NewCommitTs(o, s.start, id, t, sent, seen),
         txns := s.txns[id := t.(phase := Finished, doneRead := true)],
         inFlight := if sent then s.inFlight[ts := t.pendingWrites.Keys] else s.inFlight,
         history := if sent then s.history + [Commit(ts, t.ops, t.pendingWrites)] else s.history)
    case WriteEntry(ts, key) =>
      s.(store := s.store[(key, ts) := WriteOf(s.history, ts, key)],
         inFlight := s.inFlight[ts := s.inFlight[ts] - {key}])
    case DoneCommit(ts) =>
      s.(oracle := o.(txnLog := o.txnLog + [Mark(ts, true, ts)]), inFlight := s.inFlight - {ts})
    case FailCommit(ts) =>
      s.(oracle := o.(txnLog := o.txnLog + [Mark(ts, true, ts)]), inFlight := s.inFlight - {ts},
         history := Without(s.history, ts))
    case Discard(id) =>
      s.(oracle := DoneRead(o, id, s.txns[id]),
         txns := s.txns[id := s.txns[id].(phase := Finished, doneRead := true)])
    case ProcessReadMark => s.(oracle := o.(readSeen := o.readSeen + 1))
    case ProcessTxnMark => s.(oracle := o.(txnSeen := o.txnSeen + 1))
  }

  /** The database as Open leaves it: both watermarks at the largest version found. */
  predicate Init(s: Db) {
    && s.oracle == Oracle(s.start + 1, [], 0, [], 0, [], 0)
    && s.txns == map[] && s.inFlight == map[] && s.history == [] && s.store == s.base
    && forall p :: p in s.base ==> p.1 <= s.start
  }

  /** `s` is reached from an initial state by the steps `run`, in order. */
  ghost predicate Reaches(s: Db, fp: Fingerprint, run: seq<Event>)
    decreases |run|
  {
    if run == [] then Init(s)
    else exists p: Db ::
        && Reaches(p, fp, run[..|run| - 1])
        && p.oracle.txnSeen <= |p.oracle.txnLog| && Enabled(p, run[|run| - 1])
        && s == Apply(p, fp, run[|run| - 1])
  }

  /** `s` is reached from `p` by the steps `run`, in order. */
  ghost predicate Leads(p: Db, s: Db, fp: Fingerprint, run: seq<Event>)
    decreases |run|
  {
    if run == [] then s == p
    else exists q: Db ::
        && Leads(p, q, fp, run[..|run| - 1])
        && q.oracle.txnSeen <= |q.oracle.txnLog| && Enabled(q, run[|run| - 1])
        && s == Apply(q, fp, run[|run| - 1])
  }

  // ---------------------------------------------------------------- serial execution

  /** The value of `k` after running the commits of `h` one at a time, in order, on `base`. */
  function Serial(base: Store, start: nat, h: seq<Commit>, k: Key): Option<seq<Byte>> {
    if h == [] then Value(Lookup(base, k, start))
    else
      var last := h[|h| - 1];
      if k in last.writes then Value(Some(last.writes[k])) else Serial(base, start, h[..|h| - 1], k)
  }

  /** Whether `k` is answered from the database, not from the transaction's own writes. */
  predicate FromDb(ops: seq<Op>, i: nat)
    requires i < |ops|
  {
    ops[i].Read? && ops[i].key !in Overlay(ops[..i])
  }

  /** Running `ops` alone on the database that `h` leaves gives the recorded results. */
  predicate Agrees(ops: seq<Op>, base: Store, start: nat, h: seq<Commit>) {
    forall i :: 0 <= i < |ops| && ops[i].Read? ==>
      ops[i].result ==
        if FromDb(ops, i) then Serial(base, start, h, ops[i].key)
        else Value(Some(Overlay(ops[..i])[ops[i].key]))
  }

  /** The commits of `h` at or below `ts`. */
  function UpTo(h: seq<Commit>, ts: nat): seq<Commit> {
    if h == [] || h[|h| - 1].ts <= ts then h else UpTo(h[..|h| - 1], ts)
  }
}
