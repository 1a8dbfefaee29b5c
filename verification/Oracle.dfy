/** The oracle and a transaction as the objects txn.go has, each method proved to do to its fields
    what the state machine in `Transactions` says. */
module Oracles {
  import opened Wrappers
  import opened Watermarks
  import opened Transactions

  /** Options and threshold that modify looks at; `banned` stands for the banned namespaces. */
  datatype Limits = Limits(valueLogFileSize: nat, valueThreshold: nat, inMemory: bool, maxBatchCount: nat, maxBatchSize: nat,
                           banned: Key -> bool)

  /** Panic: the message about a long value quotes its first kilobyte, which need not be there. */
  datatype Refusal = ReadOnlyTxn | DiscardedTxn | EmptyKey | InvalidKey | KeyTooLong | ValueTooLong | Banned | TxnTooBig | Panic

  const MAX_KEY_SIZE: nat := 65000
  const QUOTED: nat := 1024

  /** "!badger!" */
  const BADGER_PREFIX: Key := [33, 98, 97, 100, 103, 101, 114, 33]

  function Payload(w: Write): seq<Byte> {
    if w.Put? then w.value else []
  }

  /** estimateSize, and the version in the key. */
  function EntrySize(key: Key, w: Write, threshold: nat): nat {
    (if |Payload(w)| < threshold then |key| + |Payload(w)| + 2 else |key| + 14) + 10
  }

  predicate TooLong(w: Write, l: Limits) {
    |Payload(w)| > l.valueLogFileSize || (l.inMemory && |Payload(w)| > l.valueThreshold)
  }

  /** The size in full: with the value, or with the twelve bytes of a value pointer in its place. */
  lemma EntrySizeIs(key: Key, w: Write, threshold: nat)
    ensures EntrySize(key, w, threshold) ==
            match w
            case Put(value) => if |value| < threshold then |key| + |value| + 12 else |key| + 24
            case Delete => if 0 < threshold then |key| + 12 else |key| + 24
  {
  }

  /** A write is accepted by an open update transaction if key, value and what is left of the batch allow it. */
  predicate Accepts(t: Txn, count: nat, size: nat, key: Key, w: Write, l: Limits) {
    && t.update && t.phase != Finished
    && 0 < |key| <= MAX_KEY_SIZE && !(BADGER_PREFIX <= key) && !l.banned(key)
    && !TooLong(w, l)
    && count + 1 < l.maxBatchCount && size + EntrySize(key, w, l.valueThreshold) < l.maxBatchSize
  }

  class TxnObject {
    var count: nat
    var size: nat
    var readTs: nat
    var update: bool
    var phase: Phase
    var doneRead: bool
    var readKeys: seq<nat>
    var conflictKeys: set<nat>
    var pendingWrites: map<Key, Write>
    ghost var ops: seq<Op>     // what the transaction has done, for the theorems

    ghost function View(): Txn
      reads this
    {
      Txn(readTs, update, phase, doneRead, readKeys, conflictKeys, pendingWrites, ops)
    }

    constructor (ts: nat, update: bool)
      ensures View() == Txn(ts, update, Waiting, false, [], {}, map[], []) && count == 1 && size == 21
    {
      count, size := 1, 21;     // room for the finish marker
      readTs, this.update, phase, doneRead, readKeys, conflictKeys, pendingWrites, ops :=
        ts, update, Waiting, false, [], {}, map[], [];
    }

    /** checkSize. */
    method CheckSize(key: Key, w: Write, l: Limits) returns (ok: bool)
      modifies `count, `size
      ensures ok <==> old(count) + 1 < l.maxBatchCount && old(size) + EntrySize(key, w, l.valueThreshold) < l.maxBatchSize
      ensures count == (if ok then old(count) + 1 else old(count))
      ensures size == (if ok then old(size) + EntrySize(key, w, l.valueThreshold) else old(size))
    {
      var c, s := count + 1, size + EntrySize(key, w, l.valueThreshold);
      if c >= l.maxBatchCount || s >= l.maxBatchSize {
        return false;
      }
      count, size := c, s;
      return true;
    }

    /** modify, which Set and Delete call: recorded with its fingerprint if it is accepted, and else
        refused without any change. `cap` is the capacity of the value's slice. */
    method Modify(fp: Fingerprint, key: Key, w: Write, cap: nat, l: Limits) returns (err: Option<Refusal>)
      requires |Payload(w)| <= cap
      modifies this
      ensures err.None? <==> Accepts(old(View()), old(count), old(size), key, w, l)
      ensures err.None? <==>
                && old(update) && old(phase) != Finished
                && 0 < |key| <= 65000 && !([33, 98, 97, 100, 103, 101, 114, 33] <= key) && !l.banned(key)
                && (w.Put? ==> |w.value| <= l.valueLogFileSize && (l.inMemory ==> |w.value| <= l.valueThreshold))
                && old(count) + 1 < l.maxBatchCount && old(size) + EntrySize(key, w, l.valueThreshold) < l.maxBatchSize
      ensures err.None? ==> pendingWrites == old(pendingWrites)[key := w] && conflictKeys == old(conflictKeys) + {fp(key)}
      ensures View() == if err.None? then Modified(old(View()), fp, key, w) else old(View())
      ensures err.None? ==> count == old(count) + 1 < l.maxBatchCount
      ensures err.None? ==> size == old(size) + EntrySize(key, w, l.valueThreshold) < l.maxBatchSize
      ensures err.Some? ==> count == old(count) && size == old(size)
      ensures err == Some(ReadOnlyTxn) <==> !old(update)
      ensures err == Some(DiscardedTxn) <==> old(update) && old(phase) == Finished
      ensures err == Some(EmptyKey) <==> old(update) && old(phase) != Finished && key == []
      ensures err == Some(ValueTooLong) || err == Some(Panic) <==>
                old(update) && old(phase) != Finished && 0 < |key| <= MAX_KEY_SIZE && !(BADGER_PREFIX <= key) && TooLong(w, l)
      ensures err == Some(Panic) ==> cap < 1024
      ensures err == Some(ValueTooLong) ==> cap >= 1024
      ensures err == Some(InvalidKey) <==>
                old(update) && old(phase) != Finished && [33, 98, 97, 100, 103, 101, 114, 33] <= key
      ensures err == Some(KeyTooLong) <==>
                old(update) && old(phase) != Finished && !([33, 98, 97, 100, 103, 101, 114, 33] <= key) && |key| > 65000
      ensures err == Some(Banned) ==> l.banned(key)
      ensures err == Some(TxnTooBig) ==> old(count) + 1 >= l.maxBatchCount || old(size) + EntrySize(key, w, l.valueThreshold) >= l.maxBatchSize
    {
      if !update {
        return Some(ReadOnlyTxn);
      }
      if phase == Finished {
        return Some(DiscardedTxn);
      }
      if |key| == 0 {
        return Some(EmptyKey);
      }
      if BADGER_PREFIX <= key {
        return Some(InvalidKey);
      }
      if |key| > MAX_KEY_SIZE {
        return Some(KeyTooLong);
      }
      if |Payload(w)| > l.valueLogFileSize || (l.inMemory && |Payload(w)| > l.valueThreshold) {
        return Some(if cap < QUOTED then Panic else ValueTooLong);
      }
      if l.banned(key) {
        return Some(Banned);
      }
      var room := CheckSize(key, w, l);
      if !room {
        return Some(TxnTooBig);
      }
      conflictKeys := conflictKeys + {fp(key)};
      pendingWrites := pendingWrites[key := w];
      ops := ops + [Update(key, w)];
      return None;
    }

    /** Get, with `found` what the database returns for the key at the read timestamp. */
    method Get(fp: Fingerprint, key: Key, found: Option<Write>, banned: Key -> bool)
      returns (result: Option<seq<Byte>>, err: Option<Refusal>)
      modifies this
      ensures err == Some(EmptyKey) <==> key == []
      ensures err == Some(DiscardedTxn) <==> key != [] && old(phase) == Finished
      ensures err == Some(Banned) <==> key != [] && old(phase) != Finished && banned(key)
      ensures err.Some? ==> View() == old(View()) && result == None && err.value in {EmptyKey, DiscardedTxn, Banned}
      ensures err.None? ==> View() == Got(old(View()), fp, key, found) && ops == old(ops) + [Read(key, result)]
      ensures err.None? ==>
                var own := old(update && key in pendingWrites);
                && (own ==> var w := old(pendingWrites)[key]; result == if w.Put? then Some(w.value) else None)
                && (!own ==> result == if found.Some? && found.value.Put? then Some(found.value.value) else None)
                && readKeys == old(readKeys) + (if own || !update then [] else [fp(key)])
                && pendingWrites == old(pendingWrites) && conflictKeys == old(conflictKeys) && readTs == old(readTs)
      ensures count == old(count) && size == old(size)
    {
      result, err := None, None;
      if |key| == 0 {
        return None, Some(EmptyKey);
      }
      if phase == Finished {
        return None, Some(DiscardedTxn);
      }
      if banned(key) {
        return None, Some(Banned);
      }
      if update {
        if key in pendingWrites {
          result := Value(Some(pendingWrites[key]));
          ops := ops + [Read(key, result)];
          return;
        }
        readKeys := readKeys + [fp(key)];
      }
      result := Value(found);
      ops := ops + [Read(key, result)];
    }
  }

  /** A value of eleven bytes where ten are allowed. */
  method ShortValueTooLong(fp: Fingerprint) returns (err: Option<Refusal>)
    ensures err == Some(Panic)
  {
    var t := new TxnObject(0, true);
    var l := Limits(1000000, 10, true, 100, 1000000, _ => false);
    err := t.Modify(fp, [1], Put(seq(11, _ => 0)), 11, l);
  }

  class OracleObject {
    var nextTxnTs: nat
    var committedTxns: seq<CommittedTxn>
    var lastCleanupTs: nat
    var readLog: seq<Mark>     // what has been sent to readMark, and how much it has processed
    var readSeen: nat
    var txnLog: seq<Mark>
    var txnSeen: nat

    function View(): Oracle
      reads this
    {
      Oracle(nextTxnTs, committedTxns, lastCleanupTs, readLog, readSeen, txnLog, txnSeen)
    }

    constructor (start: nat)
      ensures View() == Oracle(start + 1, [], 0, [], 0, [], 0)
    {
      nextTxnTs, committedTxns, lastCleanupTs, readLog, readSeen, txnLog, txnSeen :=
        start + 1, [], 0, [], 0, [], 0;
    }

    /** The part of readTs under the lock. */
    method ReadTs(id: nat) returns (readTs: nat)
      requires nextTxnTs > 0
      modifies this`readLog
      ensures (View(), readTs) == BeginRead(old(View()), id)
    {
      readTs := nextTxnTs - 1;
      readLog := readLog + [Mark(readTs, false, id)];
    }

    method CheckConflict(t: TxnObject) returns (conflict: bool)
      ensures conflict == HasConflict(committedTxns, t.readTs, t.readKeys)
      ensures conflict <==> exists c, r :: c in committedTxns && r in t.readKeys && c.ts > t.readTs && r in c.conflictKeys
    {
      ConflictIs(committedTxns, t.readTs, t.readKeys);
      if |t.readKeys| == 0 {
        return false;
      }
      for i := 0 to |committedTxns|
        invariant !HasConflict(committedTxns[..i], t.readTs, t.readKeys)
      {
        var c := committedTxns[i];
        assert committedTxns[..i + 1] == committedTxns[..i] + [c];
        if c.ts <= t.readTs {
          continue;
        }
        for j := 0 to |t.readKeys|
          invariant forall q :: 0 <= q < j ==> t.readKeys[q] !in c.conflictKeys
        {
          if t.readKeys[j] in c.conflictKeys {
            return true;
          }
        }
      }
      assert committedTxns[..|committedTxns|] == committedTxns;
      return false;
    }

    method EndRead(id: nat, t: TxnObject)
      modifies this`readLog, t`doneRead
      ensures View() == DoneRead(old(View()), id, old(t.View()))
      ensures t.View() == old(t.View()).(doneRead := true)
    {
      if !t.doneRead {
        t.doneRead := true;
        readLog := readLog + [Mark(t.readTs, true, id)];
      }
    }

    /** Forgets the commits no live transaction can conflict with, filtering in place. */
    method CleanupCommittedTransactions(maxReadTs: nat)
      requires maxReadTs >= lastCleanupTs   // asserted by the program
      modifies this`lastCleanupTs, this`committedTxns
      ensures View() == Cleanup(old(View()), maxReadTs)
      ensures lastCleanupTs == maxReadTs
      ensures maxReadTs > old(lastCleanupTs) ==>
                forall c :: c in committedTxns <==> c in old(committedTxns) && c.ts > maxReadTs
    {
      if maxReadTs == lastCleanupTs {
        return;
      }
      lastCleanupTs := maxReadTs;
      var tmp := [];
      for i := 0 to |committedTxns|
        invariant tmp == Cleaned(committedTxns[..i], maxReadTs)
      {
        assert committedTxns[..i + 1][..i] == committedTxns[..i];
        if committedTxns[i].ts <= maxReadTs {
          continue;
        }
        tmp := tmp + [committedTxns[i]];
      }
      assert committedTxns[..|committedTxns|] == committedTxns;
      committedTxns := tmp;
    }

    /** newCommitTs; `seen` is how far the read mark's processor is when it is asked. */
    method NewCommit(start: nat, id: nat, t: TxnObject, seen: nat) returns (ts: nat, conflict: bool)
      requires readSeen <= seen <= |DoneRead(View(), id, t.View()).readLog|
      requires lastCleanupTs <= DoneUntil(start, DoneRead(View(), id, t.View()).readLog, seen)
      modifies this, t`doneRead
      ensures conflict == old(HasConflict(committedTxns, t.readTs, t.readKeys))
      ensures conflict ==> View() == old(View()) && t.View() == old(t.View())
      ensures !conflict ==> ts == old(nextTxnTs)
      ensures !conflict ==> View() == NewCommitTs(old(View()), start, id, old(t.View()), true, seen)
      ensures !conflict ==> t.View() == old(t.View()).(doneRead := true)
    {
      conflict := CheckConflict(t);
      if conflict {
        return 0, true;
      }
      EndRead(id, t);
      readSeen := seen;
      CleanupCommittedTransactions(DoneUntil(start, readLog, seen));
      ts := nextTxnTs;
      nextTxnTs := nextTxnTs + 1;
      txnLog := txnLog + [Mark(ts, false, ts)];
      committedTxns := committedTxns + [CommittedTxn(ts, t.conflictKeys)];
      assert [Mark(ts, false, ts)] + [] == [Mark(ts, false, ts)];
    }

    method EndCommit(ts: nat)
      modifies this`txnLog
      ensures txnLog == old(txnLog) + [Mark(ts, true, ts)]
    {
      txnLog := txnLog + [Mark(ts, true, ts)];
    }

    /** commitAndSend up to the write channel, which takes the request if `accepts`. */
    method CommitAndSend(start: nat, id: nat, t: TxnObject, seen: nat, accepts: bool) returns (ts: nat, sent: bool)
      requires readSeen <= seen <= |DoneRead(View(), id, t.View()).readLog|
      requires lastCleanupTs <= DoneUntil(start, DoneRead(View(), id, t.View()).readLog, seen)
      modifies this, t`doneRead
      ensures sent == (accepts && !old(HasConflict(committedTxns, t.readTs, t.readKeys)))
      ensures old(HasConflict(committedTxns, t.readTs, t.readKeys)) ==> View() == old(View())
      ensures !old(HasConflict(committedTxns, t.readTs, t.readKeys)) ==>
                View() == NewCommitTs(old(View()), start, id, old(t.View()), accepts, seen)
    {
      var conflict;
      ts, conflict := NewCommit(start, id, t, seen);
      if conflict {
        return 0, false;
      }
      if !accepts {
        EndCommit(ts);
        return ts, false;
      }
      return ts, true;
    }
  }
}
