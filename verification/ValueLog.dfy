/** Garbage collection of the value log (value.go rewrite, discardEntry).

    `lsm` is what reading an exact version returns, `files` the value log; an offset is the position
    of an entry in its file. Rewriting a file moves the values that are still pointed to; the main
    result is the contract of `Rewrite`. Nothing else writes or compacts meanwhile; what the versions put
    back do to later compactions is the matter of `Compactions.PutBackIff`. */
module ValueLogs {
  import opened Wrappers
  import Entries

  type Key = Entries.Key

  /** The bits of an entry: those of `Entries.Meta`, and the two that mark transactions in a log. */
  datatype Bits = Bits(delete: bool, pointer: bool, discardEarlier: bool, merge: bool, txn: bool, fin: bool)

  datatype Place = Here(value: seq<int>) | There(fid: nat, offset: nat)

  /** What the LSM tree has for a version: the value, or where it is in the value log. */
  datatype Stored = Stored(meta: Bits, expiresAt: nat, place: Place)

  datatype Entry = Entry(key: Key, value: seq<int>, meta: Bits, expiresAt: nat)

  datatype Outcome = Done | NoRewrite | Failed

  /** How a batch ends: written, refused as too big, or broken off by an error of the file system. */
  datatype BatchResult = Ok | TooBig | Broken

  type Files = map<nat, seq<Entry>>
  type Lsm = map<Key, Stored>

  predicate IsDeletedOrExpired(meta: Bits, expiresAt: nat, now: nat) {
    meta.delete || (expiresAt != 0 && expiresAt <= now)
  }

  /** Whether the version found by a read of e's key is not one that still needs the file. */
  predicate DiscardEntry(e: Entry, found: map<Key, Stored>) {
    e.key !in found || !found[e.key].meta.pointer || found[e.key].meta.fin
  }

  /** The entry that `k`'s pointer leads to. */
  predicate Leads(files: Files, k: Key, fid: nat, offset: nat) {
    fid in files && offset < |files[fid]| && files[fid][offset].key == k
  }

  /** The value of a version, if it can be read. */
  function Value(files: Files, lsm: Lsm, k: Key): (v: seq<int>)
    requires k in lsm && (lsm[k].place.There? ==> Leads(files, k, lsm[k].place.fid, lsm[k].place.offset))
  {
    match lsm[k].place
    case Here(v) => v
    case There(fid, offset) => files[fid][offset].value
  }

  /** Every pointer leads to an entry of its own key with the same expiry; the pointer bit is right. */
  predicate WellPointed(files: Files, lsm: Lsm, k: Key) {
    k in lsm ==>
      var s := lsm[k];
      && s.meta.pointer == s.place.There? && !s.meta.fin
      && (s.place.There? ==>
            && Leads(files, k, s.place.fid, s.place.offset)
            && var e := files[s.place.fid][s.place.offset];
               e.meta == s.meta.(pointer := false, txn := false) && e.expiresAt == s.expiresAt)
  }

  ghost predicate Sound(files: Files, lsm: Lsm, maxFid: nat) {
    && maxFid in files
    && (forall fid :: fid in files ==> fid <= maxFid)
    && forall k :: k in lsm ==> WellPointed(files, lsm, k)
  }

  /** Files only grow. */
  ghost predicate Grows(files: Files, more: Files) {
    forall fid :: fid in files ==> fid in more && files[fid] <= more[fid]
  }

  /** What a rewritten entry keeps: only the marks of pointers and transactions go. */
  function Stripped(m: Bits): Bits {
    m.(pointer := false, txn := false, fin := false)
  }

  /** `e` is the entry in the log that `k`'s pointer into file `f` leads to, ready to be inserted again. */
  ghost predicate Moved(files: Files, lsm: Lsm, f: nat, e: Entry) {
    && e.key in lsm && lsm[e.key].place.There? && lsm[e.key].place.fid == f
    && Leads(files, e.key, f, lsm[e.key].place.offset)
    && var was := files[f][lsm[e.key].place.offset];
       e == Entry(e.key, was.value, Stripped(was.meta), was.expiresAt)
  }

  /** `k` reads as it did, without file `f`. */
  ghost predicate Rehomed(files: Files, lsm: Lsm, more: Files, now: Lsm, k: Key, f: nat) {
    && k in lsm && k in now && WellPointed(files, lsm, k) && WellPointed(more, now, k)
    && !(now[k].place.There? && now[k].place.fid == f)
    && Value(more, now, k) == Value(files, lsm, k)
    && now[k].expiresAt == lsm[k].expiresAt && Stripped(now[k].meta) == Stripped(lsm[k].meta)
  }

  /** Where `after` is in a file it is not in `f`, and its value, its expiry and its bits are those of `was`. */
  ghost predicate ReadsSame(files0: Files, was: Stored, files: Files, after: Stored, k: Key, f: nat) {
    && (after.place.There? ==>
          && after.place.fid != f && after.place.fid in files && after.place.offset < |files[after.place.fid]|
          && files[after.place.fid][after.place.offset].key == k)
    && (was.place.There? ==> was.place.fid in files0 && was.place.offset < |files0[was.place.fid]|)
    && (if after.place.Here? then after.place.value else files[after.place.fid][after.place.offset].value) ==
       (if was.place.Here? then was.place.value else files0[was.place.fid][was.place.offset].value)
    && after.expiresAt == was.expiresAt && after.meta.delete == was.meta.delete && after.meta.merge == was.meta.merge
    && after.meta.discardEarlier == was.meta.discardEarlier && after.meta.pointer == after.place.There?
  }

  /** Deleted or past its expiry, or not in file `f`. */
  predicate Untouched(s: Stored, f: nat, now: nat) {
    s.meta.delete || (s.expiresAt != 0 && s.expiresAt <= now) || s.place.Here? || s.place.fid != f
  }

  /** `e`'s version has what `e` says, not in a file before `fid`. */
  ghost predicate Has(files: Files, lsm: Lsm, fid: nat, e: Entry) {
    && e.key in lsm && WellPointed(files, lsm, e.key)
    && (lsm[e.key].place.There? ==> lsm[e.key].place.fid >= fid)
    && Value(files, lsm, e.key) == e.value && lsm[e.key].expiresAt == e.expiresAt && Stripped(lsm[e.key].meta) == Stripped(e.meta)
  }

  ghost predicate Inserted(wb: seq<Entry>, files: Files, lsm: Lsm, fid: nat, k: Key) {
    exists e :: e in wb && e.key == k && Has(files, lsm, fid, e)
  }

  /** A batch was written: its versions are inserted, all others are as they were. */
  ghost predicate Batch(wb: seq<Entry>, files: Files, lsm: Lsm, fid: nat, more: Files, now: Lsm) {
    && Grows(files, more)
    && (forall f :: f in files && f < fid ==> more[f] == files[f])
    && (forall k :: k in lsm ==> k in now)
    && (forall k :: k in now ==> Inserted(wb, more, now, fid, k) || (k in lsm && now[k] == lsm[k]))
    && forall e :: e in wb ==> Inserted(wb, more, now, fid, e.key)
  }

  lemma HasGrows(files: Files, lsm: Lsm, more: Files, now: Lsm, fid: nat, e: Entry)
    requires Has(files, lsm, fid, e) && Grows(files, more) && e.key in now && now[e.key] == lsm[e.key]
    ensures Has(more, now, fid, e)
  {
  }

  lemma BatchStep(wb: seq<Entry>, e: Entry, files: Files, lsm: Lsm, fid: nat, mid: Files, was: Lsm, more: Files, now: Lsm)
    requires Batch(wb, files, lsm, fid, mid, was) && Grows(mid, more)
    requires forall f :: f in mid && f < fid ==> more[f] == mid[f]
    requires e.key in now && now == was[e.key := now[e.key]] && Has(more, now, fid, e)
    ensures Batch(wb + [e], files, lsm, fid, more, now)
  {
    forall k | k in now ensures Inserted(wb + [e], more, now, fid, k) || (k in lsm && now[k] == lsm[k]) {
      InsertedStep(wb, e, fid, mid, was, more, now, k);
    }
    forall x | x in wb + [e] ensures Inserted(wb + [e], more, now, fid, x.key) {
      InsertedStep(wb, e, fid, mid, was, more, now, x.key);
    }
    hide Has, Inserted;
    forall f | f in files ensures f in more && files[f] <= more[f] {
      assert files[f] <= mid[f] <= more[f];
    }
  }

  lemma InsertedStep(wb: seq<Entry>, e: Entry, fid: nat, mid: Files, was: Lsm, more: Files, now: Lsm, k: Key)
    requires Grows(mid, more) && e.key in now && now == was[e.key := now[e.key]] && Has(more, now, fid, e)
    ensures k == e.key || Inserted(wb, mid, was, fid, k) ==> Inserted(wb + [e], more, now, fid, k)
  {
  }

  lemma HasKey(files: Files, lsm: Lsm, fid: nat, e: Entry)
    requires Has(files, lsm, fid, e)
    ensures e.key in lsm
  {
  }

  class ValueLog {
    var files: Files
    var lsm: Lsm
    var maxFid: nat
    var iteratorCount: nat
    var filesToBeDeleted: seq<nat>
    const maxBatchCount: nat
    const maxBatchSize: nat

    ghost predicate Valid()
      reads this
    {
      Sound(files, lsm, maxFid)
    }

    /** db.batchSet: refused as a whole if it is too big, or else written entry by entry, in order.
        `small` values stay in the LSM tree, others go to the last file. An error, where `breaks` says,
        leaves the first `n` entries written, and the rest at most in the file. */
    method BatchSet(wb: seq<Entry>, tooBig: seq<Entry> -> bool, breaks: seq<Entry> -> Option<nat>, small: Entry -> bool)
      returns (r: BatchResult, ghost n: nat)
      requires Valid() && forall e :: e in wb ==> e.meta == Stripped(e.meta)
      modifies `files, `lsm, `maxFid
      ensures Valid() && old(maxFid) <= maxFid && n <= |wb| && (r == TooBig <==> tooBig(wb))
      ensures r == Ok <==> !tooBig(wb) && breaks(wb).None?
      ensures r == TooBig ==> files == old(files) && lsm == old(lsm) && maxFid == old(maxFid)
      ensures r != TooBig ==> Batch(wb[..n], old(files), old(lsm), old(maxFid), files, lsm)
      ensures r == Ok ==> n == |wb|
    {
      hide Sound, Batch, Has, Inserted, Stripped;
      n := |wb|;
      if tooBig(wb) {
        return TooBig, n;
      }
      var broken := breaks(wb);
      if broken.Some? {
        var m := if broken.value < |wb| then broken.value else |wb|;
        n := m;
        WriteAll(wb[..m], small);
        LastIsThere();
        Loose(wb[..m], old(files), old(lsm), maxFid, files, lsm, wb[m..]);
        files := files[maxFid := files[maxFid] + wb[m..]];
        return Broken, n;
      }
      WriteAll(wb, small);
      assert wb[..|wb|] == wb;
      if * {
        NewFile(wb, old(files), old(lsm), old(maxFid), files, lsm, maxFid);
        maxFid := maxFid + 1;
        files := files[maxFid := []];
      }
      r := Ok;
    }

    lemma LastIsThere()
      requires Valid()
      ensures maxFid in files
    {
    }

    method WriteAll(wb: seq<Entry>, small: Entry -> bool)
      requires Valid() && forall e :: e in wb ==> e.meta == Stripped(e.meta)
      modifies `files, `lsm
      ensures Valid() && Batch(wb, old(files), old(lsm), maxFid, files, lsm)
    {
      hide Sound, Batch, Has;
      BatchNone(files, lsm, maxFid);
      assert wb[..0] == [] && wb[..|wb|] == wb;
      for n := 0 to |wb|
        invariant Valid() && Batch(wb[..n], old(files), old(lsm), maxFid, files, lsm)
      {
        ghost var mid, was := files, lsm;
        Write(wb[n], small(wb[n]));
        BatchStep(wb[..n], wb[n], old(files), old(lsm), maxFid, mid, was, files, lsm);
        assert wb[..n + 1] == wb[..n] + [wb[n]];
      }
    }

    method Write(e: Entry, small: bool)
      requires Valid() && e.meta == Stripped(e.meta)
      modifies `files, `lsm
      ensures Valid() && Grows(old(files), files)
      ensures e.key in lsm && lsm == old(lsm)[e.key := lsm[e.key]]
      ensures forall fid :: fid in old(files) && fid < maxFid ==> files[fid] == old(files)[fid]
      ensures Has(files, lsm, maxFid, e)
    {
      if small {
        lsm := lsm[e.key := Stored(e.meta, e.expiresAt, Here(e.value))];
      } else {
        var offset := |files[maxFid]|;
        files := files[maxFid := files[maxFid] + [e]];
        lsm := lsm[e.key := Stored(e.meta.(pointer := true), e.expiresAt, There(maxFid, offset))];
      }
    }

    /** Moves what is still needed out of file `f` and removes the file. */
    method Rewrite(f: nat, now: nat, size: Entry -> nat, tooBig: seq<Entry> -> bool, breaks: seq<Entry> -> Option<nat>, small: Entry -> bool)
      returns (r: Outcome)
      requires Valid() && f in files && f < maxFid
      modifies this
      ensures forall k :: k in lsm <==> k in old(lsm)
      ensures forall k :: k in old(lsm) && Untouched(old(lsm)[k], f, now) ==> lsm[k] == old(lsm)[k]
      ensures r == Done ==> (if iteratorCount == 0 then f !in files else filesToBeDeleted == old(filesToBeDeleted) + [f])
      ensures r == Done ==> forall k :: k in old(lsm) && !Dead(old(lsm)[k], now) ==> Rehomed(old(files), old(lsm), files, lsm, k, f)
      ensures r == Done ==>
                forall k :: k in old(lsm) && !old(lsm)[k].meta.delete && (old(lsm)[k].expiresAt == 0 || old(lsm)[k].expiresAt > now) ==>
                  ReadsSame(old(files), old(lsm)[k], files, lsm[k], k, f)
      ensures r != Done ==> Valid() && f in files && files[f] == old(files)[f] && filesToBeDeleted == old(filesToBeDeleted)
      ensures r != Done ==> forall k :: k in old(lsm) ==> SameValue(old(files), old(lsm), files, lsm, k)
      ensures forall fid :: fid in old(files) && fid != f ==> fid in files && old(files)[fid] <= files[fid]
      ensures old(f in filesToBeDeleted) ==> r == Failed && files == old(files) && lsm == old(lsm)
      ensures r == NoRewrite ==> exists e :: tooBig([e])
      ensures r == Failed && old(f !in filesToBeDeleted) ==> exists b :: tooBig(b) || breaks(b).Some?
    {
      if f in filesToBeDeleted {
        return Failed;
      }
      ghost var files0, lsm0 := files, lsm;
      hide Progress, Sound, ReadsSame, Rehomed, SameValue, Dead;
      var ok, wb;
      ghost var left, n;
      ok, wb, left, n := ExamineAll(f, now, size, tooBig, breaks, small);
      ProgressIs(files0, lsm0, f, n, now, left, files, lsm);
      if !ok {
        return Failed;
      }
      r, left := WriteRest(f, now, wb, tooBig, breaks, small, files0, lsm0);
      ProgressIs(files0, lsm0, f, n, now, left, files, lsm);
      if r != Done {
        return;
      }
      ProgressEnds(files0, lsm0, f, now, files, lsm);
      if iteratorCount == 0 {
        files := files - {f};
      } else {
        filesToBeDeleted := filesToBeDeleted + [f];
      }
      AliveReads(files0, lsm0, files, lsm, f, now);
    }

    /** The loop over the entries; `left` is what is still waiting after the first `n` of them. */
    method ExamineAll(f: nat, now: nat, size: Entry -> nat, tooBig: seq<Entry> -> bool, breaks: seq<Entry> -> Option<nat>,
                      small: Entry -> bool) returns (ok: bool, wb: seq<Entry>, ghost left: seq<Entry>, ghost n: nat)
      requires Valid() && f in files && f < maxFid
      modifies `files, `lsm, `maxFid
      ensures Valid() && f < maxFid && f in files && files[f] == old(files)[f] && n <= |files[f]|
      ensures Progress(old(files), old(lsm), f, n, now, left, files, lsm)
      ensures ok ==> n == |files[f]| && left == wb
      ensures !ok ==> exists b :: tooBig(b) || breaks(b).Some?
    {
      ghost var files0, lsm0 := files, lsm;
      var batched, i := 0, 0;
      ok, wb, left, n := true, [], [], 0;
      ProgressStarts(files, lsm, maxFid, f, now);
      hide Progress, Sound, SizeOf;
      while i < |files[f]|
        invariant Valid() && f in files && files[f] == files0[f] && f < maxFid && i == n <= |files0[f]|
        invariant left == wb && Progress(files0, lsm0, f, n, now, wb, files, lsm) && batched == SizeOf(wb, size)
      {
        ok, wb, batched, left := Examine(f, i, now, wb, batched, size, tooBig, breaks, small, files0, lsm0);
        if !ok {
          return;
        }
        i, n := i + 1, n + 1;
      }
      ok := true;
    }

    /** One entry of the file: discarded, or put into the batch, which is written when it is full.
        `left` is what is still waiting, also when that fails. */
    method Examine(f: nat, n: nat, now: nat, wb0: seq<Entry>, batched0: nat, size: Entry -> nat, tooBig: seq<Entry> -> bool,
                   breaks: seq<Entry> -> Option<nat>, small: Entry -> bool, ghost files0: Files, ghost lsm0: Lsm)
      returns (ok: bool, wb: seq<Entry>, batched: nat, ghost left: seq<Entry>)
      requires Valid() && f in files && f < maxFid && n < |files[f]| && Progress(files0, lsm0, f, n, now, wb0, files, lsm)
      requires batched0 == SizeOf(wb0, size)
      modifies `files, `lsm, `maxFid
      ensures Valid() && f < maxFid && Progress(files0, lsm0, f, if ok then n + 1 else n, now, left, files, lsm)
      ensures ok ==> left == wb
      ensures f in files && files[f] == old(files)[f]
      ensures ok ==> batched == SizeOf(wb, size)
      ensures ok && wb != wb0 ==> |wb| == 1 || (|wb| < maxBatchCount && batched < maxBatchSize)
      ensures |wb0| + 1 < maxBatchCount
              && batched0 + size(old(files)[f][n].(meta := Stripped(old(files)[f][n].meta))) < maxBatchSize ==>
                ok && files == old(files) && lsm == old(lsm) && wb0 <= wb
      ensures !ok ==> tooBig(wb0) || breaks(wb0).Some?
    {
      ok, wb, batched, left := true, wb0, batched0, wb0;
      var e := files[f][n];
      PassOver(files0, lsm0, f, n, now, wb0, files, lsm);
      hide Progress, Sound, WellPointed, Batch;
      if IsDeletedOrExpired(e.meta, e.expiresAt, now) {
        return;
      }
      if DiscardEntry(e, lsm) {
        return;
      }
      var vp := lsm[e.key].place;
      if vp.Here? || vp.fid > f {
        return;
      }
      if vp.offset > n {
        return;
      }
      if vp.fid == f && vp.offset == n {
        var ne := e.(meta := Stripped(e.meta));
        var es := size(ne);
        if |wb| + 1 >= maxBatchCount || batched + es >= maxBatchSize {
          var r;
          r, left := Flush(f, n, now, wb, [], tooBig, breaks, small, files0, lsm0);
          if r != Ok {
            ok := false;
            return;
          }
          batched := 0;
          wb := [];
        }
        TakeUp(files0, lsm0, f, n, now, wb, files, lsm, ne);
        SizeMore(wb, ne, size);
        wb := wb + [ne];
        left := wb;
        batched := batched + es;
      }
    }

    /** Writes the first part of what is waiting; `left` still is. */
    method Flush(f: nat, n: nat, now: nat, a: seq<Entry>, ghost b: seq<Entry>, tooBig: seq<Entry> -> bool,
                 breaks: seq<Entry> -> Option<nat>, small: Entry -> bool, ghost files0: Files, ghost lsm0: Lsm)
      returns (r: BatchResult, ghost left: seq<Entry>)
      requires Valid() && f < maxFid && Progress(files0, lsm0, f, n, now, a + b, files, lsm)
      modifies `files, `lsm, `maxFid
      ensures Valid() && f < maxFid && Progress(files0, lsm0, f, n, now, left, files, lsm)
      ensures (r == TooBig <==> tooBig(a)) && (r == TooBig ==> left == a + b) && (r == Ok ==> left == b)
      ensures r == Ok <==> !tooBig(a) && breaks(a).None?
      ensures old(f in files) ==> f in files && files[f] == old(files)[f]
      ensures forall k :: k in lsm ==> k in lsm0
    {
      ghost var was, had, fid := files, lsm, maxFid;
      assert forall e :: e in a ==> e in a + b;
      ghost var m;
      r, m := BatchSet(a, tooBig, breaks, small);
      left := a + b;
      if r != TooBig {
        left := a[m..] + b;
        assert a + b == a[..m] + left;
        FlushKeeps(files0, lsm0, f, n, now, a[..m], left, was, had, fid, files, lsm);
        if r == Ok { assert left == b; }
      }
    }

    /** One piece of the batch, from entry `i` on. */
    method PutPiece(f: nat, n: nat, now: nat, wb: seq<Entry>, i: nat, batchSize: nat, tooBig: seq<Entry> -> bool,
                    breaks: seq<Entry> -> Option<nat>, small: Entry -> bool, ghost files0: Files, ghost lsm0: Lsm)
      returns (res: BatchResult, ghost left: seq<Entry>)
      requires Valid() && f < maxFid && i < |wb| && batchSize > 0 && Progress(files0, lsm0, f, n, now, Rest(wb, i), files, lsm)
      modifies `files, `lsm, `maxFid
      ensures Valid() && f < maxFid && Progress(files0, lsm0, f, n, now, left, files, lsm)
      ensures res == TooBig ==> left == Rest(wb, i) && (batchSize == 1 ==> OneTooBig(wb, tooBig))
      ensures res == Ok ==> left == Rest(wb, i + batchSize)
      ensures res == Broken ==> PieceBreaks(wb, breaks)
    {
      hide Progress, Sound, OneTooBig, PieceBreaks, Rest;
      var end := if i + batchSize > |wb| then |wb| else i + batchSize;
      RestIs(wb, i, batchSize, end);
      res, left := Flush(f, n, now, wb[i..end], Rest(wb, i + batchSize), tooBig, breaks, small, files0, lsm0);
      if res == TooBig && batchSize == 1 { SoOneIs(wb, tooBig, i); }
      if res == Broken { SoPieceBreaks(wb, breaks, i, end); }
    }

    /** What is left of the batch, in pieces, each half as long as the one refused. */
    method WriteRest(f: nat, now: nat, wb: seq<Entry>, tooBig: seq<Entry> -> bool, breaks: seq<Entry> -> Option<nat>,
                     small: Entry -> bool, ghost files0: Files, ghost lsm0: Lsm) returns (r: Outcome, ghost rest: seq<Entry>)
      requires Valid() && f in files && f < maxFid && Progress(files0, lsm0, f, |files[f]|, now, wb, files, lsm)
      modifies `files, `lsm, `maxFid
      ensures Valid() && f < maxFid
      ensures Progress(files0, lsm0, f, |old(files)[f]|, now, rest, files, lsm) && (r == Done ==> rest == [])
      ensures r == Failed ==> PieceBreaks(wb, breaks)
      ensures r == NoRewrite ==> OneTooBig(wb, tooBig)
    {
      var batchSize, i := 1024, 0;
      var n := |files[f]|;
      assert Rest(wb, 0) == wb && files[f] == files0[f];
      hide Progress, Sound, OneTooBig, PieceBreaks, Rest;
      while i < |wb|
        invariant Valid() && f < maxFid && 0 <= i && 0 <= batchSize
        invariant Progress(files0, lsm0, f, n, now, Rest(wb, i), files, lsm)
        invariant batchSize == 0 ==> OneTooBig(wb, tooBig)
        decreases |wb| - i, batchSize
      {
        if batchSize == 0 {
          return NoRewrite, Rest(wb, i);
        }
        ghost var left;
        var res;
        res, left := PutPiece(f, n, now, wb, i, batchSize, tooBig, breaks, small, files0, lsm0);
        if res == TooBig {
          batchSize := batchSize / 2;
          continue;
        }
        if res == Broken {
          return Failed, left;
        }
        i := i + batchSize;
      }
      RestIs(wb, i, 0, |wb|);
      return Done, [];
    }
  }

  function SizeOf(wb: seq<Entry>, size: Entry -> nat): nat {
    if wb == [] then 0 else SizeOf(wb[..|wb| - 1], size) + size(wb[|wb| - 1])
  }

  lemma SizeMore(wb: seq<Entry>, e: Entry, size: Entry -> nat)
    ensures SizeOf(wb + [e], size) == SizeOf(wb, size) + size(e)
  {
    assert (wb + [e])[..|wb|] == wb;
  }

  /** What `Rehomed` comes to, field by field. */
  lemma AliveReads(files0: Files, lsm0: Lsm, files: Files, lsm: Lsm, f: nat, now: nat)
    requires forall k :: k in lsm0 && !Dead(lsm0[k], now) ==> Rehomed(files0, lsm0, files, lsm, k, f)
    ensures forall k :: k in lsm0 && !lsm0[k].meta.delete && (lsm0[k].expiresAt == 0 || lsm0[k].expiresAt > now) ==>
              k in lsm && ReadsSame(files0, lsm0[k], files, lsm[k], k, f)
  {
  }

  /** Some entry is too big for a batch of its own. */
  ghost predicate OneTooBig(wb: seq<Entry>, tooBig: seq<Entry> -> bool) {
    exists e :: e in wb && tooBig([e])
  }

  ghost predicate PieceBreaks(wb: seq<Entry>, breaks: seq<Entry> -> Option<nat>) {
    exists i, j :: 0 <= i <= j <= |wb| && breaks(wb[i..j]).Some?
  }

  lemma SoOneIs(wb: seq<Entry>, tooBig: seq<Entry> -> bool, i: nat)
    requires i < |wb| && tooBig(wb[i..i + 1])
    ensures OneTooBig(wb, tooBig)
  {
    assert wb[i..i + 1] == [wb[i]];
  }

  lemma SoPieceBreaks(wb: seq<Entry>, breaks: seq<Entry> -> Option<nat>, i: nat, j: nat)
    requires i <= j <= |wb| && breaks(wb[i..j]).Some?
    ensures PieceBreaks(wb, breaks)
  {
  }

  lemma RestIs(wb: seq<Entry>, i: nat, n: nat, end: nat)
    requires (i < |wb| ==> end == if i + n > |wb| then |wb| else i + n)
    ensures if i < |wb| then i <= end <= |wb| && Rest(wb, i) == wb[i..end] + Rest(wb, i + n) else Rest(wb, i) == []
  {
  }

  /** What is in the file only is not read by anyone. */
  lemma Loose(wb: seq<Entry>, files: Files, lsm: Lsm, fid: nat, more: Files, now: Lsm, loose: seq<Entry>)
    requires Batch(wb, files, lsm, fid, more, now) && Sound(more, now, fid)
    ensures var last := more[fid := more[fid] + loose]; Batch(wb, files, lsm, fid, last, now) && Sound(last, now, fid)
  {
    var last := more[fid := more[fid] + loose];
    forall k | Inserted(wb, more, now, fid, k) ensures Inserted(wb, last, now, fid, k) {
      var e :| e in wb && e.key == k && Has(more, now, fid, e);
      HasGrows(more, now, last, now, fid, e);
    }
    hide Has, Inserted;
    forall k | k in now ensures WellPointed(last, now, k) {
      assert WellPointed(more, now, k);
    }
    forall g | g in files ensures g in last && files[g] <= last[g] {
      assert files[g] <= more[g] <= last[g];
    }
  }

  lemma BatchNone(files: Files, lsm: Lsm, fid: nat)
    ensures Batch([], files, lsm, fid, files, lsm)
  {
  }

  lemma NewFile(wb: seq<Entry>, files: Files, lsm: Lsm, fid: nat, more: Files, now: Lsm, maxFid: nat)
    requires Batch(wb, files, lsm, fid, more, now) && Sound(more, now, maxFid)
    ensures Batch(wb, files, lsm, fid, more[maxFid + 1 := []], now) && Sound(more[maxFid + 1 := []], now, maxFid + 1)
  {
    var last := more[maxFid + 1 := []];
    forall k | Inserted(wb, more, now, fid, k) ensures Inserted(wb, last, now, fid, k) {
      var e :| e in wb && e.key == k && Has(more, now, fid, e);
      HasGrows(more, now, last, now, fid, e);
    }
    hide Has, Inserted;
    forall k | k in now ensures WellPointed(last, now, k) {
      assert WellPointed(more, now, k);
    }
  }

  // ---------------------------------------------------------------- rewriting

  function Rest(wb: seq<Entry>, i: nat): seq<Entry> {
    if i < |wb| then wb[i..] else []
  }

  predicate Dead(s: Stored, now: nat) {
    IsDeletedOrExpired(s.meta, s.expiresAt, now)
  }

  ghost predicate SameValue(files: Files, lsm: Lsm, more: Files, now: Lsm, k: Key) {
    && k in lsm && k in now && WellPointed(files, lsm, k) && WellPointed(more, now, k)
    && Value(more, now, k) == Value(files, lsm, k)
    && now[k].expiresAt == lsm[k].expiresAt && Stripped(now[k].meta) == Stripped(lsm[k].meta)
  }

  /** `k` needs the file: it is alive and points into it. */
  predicate Needs(lsm: Lsm, f: nat, now: nat, k: Key) {
    k in lsm && !Dead(lsm[k], now) && lsm[k].place.There? && lsm[k].place.fid == f
  }

  ghost predicate Waiting(wb: seq<Entry>, k: Key) {
    exists e :: e in wb && e.key == k
  }

  /** Where version `k` stands when the first `n` entries of the file have been looked at. */
  ghost predicate Stands(files0: Files, lsm0: Lsm, f: nat, n: nat, now: nat, wb: seq<Entry>, files: Files, lsm: Lsm, k: Key)
    requires k in lsm0
  {
    k in lsm &&
    if Needs(lsm0, f, now, k) then
      || Rehomed(files0, lsm0, files, lsm, k, f)
      || (lsm[k] == lsm0[k] && (lsm0[k].place.offset < n ==> Waiting(wb, k)))
    else lsm[k] == lsm0[k]
  }

  ghost predicate Progress(files0: Files, lsm0: Lsm, f: nat, n: nat, now: nat, wb: seq<Entry>, files: Files, lsm: Lsm) {
    && Grows(files0, files) && f in files0 && files[f] == files0[f]
    && (forall k :: k in lsm ==> k in lsm0) && (forall k :: k in lsm0 ==> WellPointed(files0, lsm0, k))
    && (forall e :: e in wb ==> Moved(files0, lsm0, f, e) && Needs(lsm0, f, now, e.key))
    && forall k :: k in lsm0 ==> Stands(files0, lsm0, f, n, now, wb, files, lsm, k)
  }

  /** An entry that no version still needs from this file. */
  lemma PassOver(files0: Files, lsm0: Lsm, f: nat, n: nat, now: nat, wb: seq<Entry>, files: Files, lsm: Lsm)
    requires Progress(files0, lsm0, f, n, now, wb, files, lsm) && n < |files0[f]|
    ensures var e := files0[f][n];
            (|| IsDeletedOrExpired(e.meta, e.expiresAt, now) || DiscardEntry(e, lsm)
             || lsm[e.key].place != There(f, n))
            ==> Progress(files0, lsm0, f, n + 1, now, wb, files, lsm)
    ensures var e := files0[f][n];
            (&& !IsDeletedOrExpired(e.meta, e.expiresAt, now) && e.key in lsm && lsm[e.key].place == There(f, n))
            ==> Moved(files0, lsm0, f, e.(meta := Stripped(e.meta))) && Needs(lsm0, f, now, e.key)
  {
  }

  lemma TakeUp(files0: Files, lsm0: Lsm, f: nat, n: nat, now: nat, wb: seq<Entry>, files: Files, lsm: Lsm, ne: Entry)
    requires Progress(files0, lsm0, f, n, now, wb, files, lsm) && n < |files0[f]|
    requires Moved(files0, lsm0, f, ne) && Needs(lsm0, f, now, ne.key) && ne.key == files0[f][n].key
    ensures Progress(files0, lsm0, f, n + 1, now, wb + [ne], files, lsm)
  {
  }

  lemma FlushKeeps(files0: Files, lsm0: Lsm, f: nat, n: nat, now: nat, a: seq<Entry>, b: seq<Entry>,
                   files: Files, lsm: Lsm, fid: nat, more: Files, new1: Lsm)
    requires Progress(files0, lsm0, f, n, now, a + b, files, lsm) && Batch(a, files, lsm, fid, more, new1) && f < fid
    ensures Progress(files0, lsm0, f, n, now, b, more, new1)
  {
    assert forall e :: e in a || e in b ==> e in a + b;
    forall k | k in lsm0 ensures Stands(files0, lsm0, f, n, now, b, more, new1, k) {
      FlushOne(files0, lsm0, f, n, now, a, b, files, lsm, fid, more, new1, k);
    }
    forall k | k in new1 ensures k in lsm0 {
      if Inserted(a, more, new1, fid, k) {
        var e :| e in a && e.key == k && Has(more, new1, fid, e);
        assert e in a + b;
      }
    }
    hide Stands, Inserted;
    GrowsTrans(files0, files, more);
  }

  lemma GrowsTrans(files: Files, mid: Files, more: Files)
    requires Grows(files, mid) && Grows(mid, more)
    ensures Grows(files, more)
  {
  }

  lemma FlushOne(files0: Files, lsm0: Lsm, f: nat, n: nat, now: nat, a: seq<Entry>, b: seq<Entry>,
                 files: Files, lsm: Lsm, fid: nat, more: Files, new1: Lsm, k: Key)
    requires k in lsm0 && Stands(files0, lsm0, f, n, now, a + b, files, lsm, k) && WellPointed(files0, lsm0, k)
    requires forall e :: e in a ==> Moved(files0, lsm0, f, e) && Needs(lsm0, f, now, e.key)
    requires Batch(a, files, lsm, fid, more, new1) && f < fid
    ensures Stands(files0, lsm0, f, n, now, b, more, new1, k)
  {
  }

  lemma ProgressStarts(files: Files, lsm: Lsm, maxFid: nat, f: nat, now: nat)
    requires Sound(files, lsm, maxFid) && f in files
    ensures Progress(files, lsm, f, 0, now, [], files, lsm)
  {
  }

  /** At any moment every version has the value it had. */
  lemma ProgressIs(files0: Files, lsm0: Lsm, f: nat, n: nat, now: nat, wb: seq<Entry>, files: Files, lsm: Lsm)
    requires Progress(files0, lsm0, f, n, now, wb, files, lsm)
    ensures f in files && f in files0 && files[f] == files0[f] && Grows(files0, files)
    ensures forall k :: k in lsm <==> k in lsm0
    ensures forall k :: k in lsm0 ==> SameValue(files0, lsm0, files, lsm, k)
    ensures forall k :: k in lsm0 && Untouched(lsm0[k], f, now) ==> lsm[k] == lsm0[k]
  {
  }

  /** At the end nothing alive needs the file any more. */
  lemma ProgressEnds(files0: Files, lsm0: Lsm, f: nat, now: nat, files: Files, lsm: Lsm)
    requires f in files0 && Progress(files0, lsm0, f, |files0[f]|, now, [], files, lsm)
    ensures forall k :: k in lsm0 && !Dead(lsm0[k], now) ==>
              Rehomed(files0, lsm0, files, lsm, k, f) && Rehomed(files0, lsm0, files - {f}, lsm, k, f)
  {
  }
}
