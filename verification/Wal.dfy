/** Replaying a memtable's log after a crash (memtable.go iterate, Put, UpdateSkipList).

    `Unit`s are what is written as a whole: a lone entry, or the entries of a transaction and its
    finish marker. `ReplayIsAtomic`: however much of the log was written, replay delivers the complete
    units and nothing of the others, and the offset returned is where they end. */
module Wal {
  import opened Wrappers
  import opened Codec
  import opened Keys
  import opened LogFiles
  import opened Sequences

  const VLOG_HEADER_SIZE: nat := 20

  predicate IsTxn(e: LogEntry) {
    (e.meta / 64) % 2 == 1
  }

  predicate IsFin(e: LogEntry) {
    e.meta >= 128
  }

  /** strconv.FormatUint and ParseUint, base 10. */
  function FormatUint(n: nat): Bytes {
    if n < 10 then [48 + n] else FormatUint(n / 10) + [48 + n % 10]
  }

  function Decimal(s: Bytes): Option<nat> {
    if s == [] then Some(0)
    else
      var head, last := Decimal(s[..|s| - 1]), s[|s| - 1];
      if head.Some? && 48 <= last <= 57 then Some(10 * head.value + last - 48) else None
  }

  function ParseUint(s: Bytes): Option<nat> {
    if s == [] then None
    else
      var d := Decimal(s);
      if d.Some? && d.value < U64 then d else None
  }

  lemma {:induction false} FormatRoundTrip(n: nat)
    requires n < U64
    ensures ParseUint(FormatUint(n)) == Some(n)
  {
    if n < 10 {
      assert Decimal([]) == Some(0) && FormatUint(n)[..0] == [];
    } else {
      FormatRoundTrip(n / 10);
      assert FormatUint(n)[..|FormatUint(n)| - 1] == FormatUint(n / 10);
    }
  }

  /** What is parsed are decimal digits, at least one of them, and a number of 64 bits. */
  lemma {:induction false} DecimalIff(s: Bytes)
    ensures Decimal(s).Some? <==> forall i :: 0 <= i < |s| ==> 48 <= s[i] <= 57
  {
    if s != [] { DecimalIff(s[..|s| - 1]); }
  }

  lemma ParseIff(s: Bytes)
    ensures ParseUint(s).Some? <==>
            && s != [] && (forall i :: 0 <= i < |s| ==> 48 <= s[i] <= 57)
            && Decimal(s).Some? && Decimal(s).value < 0x1_0000_0000_0000_0000
  {
    DecimalIff(s);
    hide Decimal;
  }

  // ---------------------------------------------------------------- iterate

  /** The variables of iterate: the transaction at hand and its entries, what was handed on, how far
      was read, and where the last complete unit ended. */
  datatype Scan = Scan(lastCommit: nat, pending: seq<LogEntry>, out: seq<LogEntry>, offset: nat, valid: nat)

  /** One entry read; None is `break loop`. */
  function Advance(s: Scan, e: LogEntry, len: nat): Option<Scan> {
    var offset := s.offset + len;
    if IsTxn(e) then
      var txnTs := ParseTs(e.key);
      if (if s.lastCommit == 0 then txnTs else s.lastCommit) != txnTs then None
      else Some(s.(lastCommit := txnTs, pending := s.pending + [e], offset := offset))
    else if IsFin(e) then
      if ParseUint(e.value) != Some(s.lastCommit) then None
      else Some(Scan(0, [], s.out + s.pending, offset, offset))
    else if s.lastCommit != 0 then None
    else Some(s.(out := s.out + [e], offset := offset, valid := offset))
  }

  /** How iterate ends: with an offset, with an error, or not at all because a slice is out of range. */
  datatype Outcome = Fine | Error | Panicked

  /** The whole loop. */
  function ScanAll(buf: Bytes, crc: Bytes -> Bytes, s: Scan): (Scan, Outcome)
    decreases |buf|
  {
    var r := ReadEntry(buf, crc);
    if r.Fail? then (s, Error)
    else if r.Panic? then (s, Panicked)
    else if r.Stop? || r.e.key == [] then (s, Fine)
    else
      ReadLength(buf, crc);
      var t := Advance(s, r.e, r.len);
      if t.None? then (s, Fine) else ScanAll(buf[r.len..], crc, t.value)
  }

  lemma ReadLength(buf: Bytes, crc: Bytes -> Bytes)
    ensures var r := ReadEntry(buf, crc); r.Got? ==> 0 < r.len <= |buf|
  {
  }

  /** `delivered` are the calls of the function passed to iterate. */
  method Iterate(data: Bytes, offset: nat, crc: Bytes -> Bytes) returns (validEndOffset: nat, end: Outcome, delivered: seq<LogEntry>)
    requires (if offset == 0 then VLOG_HEADER_SIZE else offset) <= |data|
    ensures var start := if offset == 0 then 20 else offset;
            var (s, r) := ScanAll(data[start..], crc, Scan(0, [], [], start, start));
            delivered == s.out && end == r && validEndOffset == if r == Fine then s.valid else 0
  {
    var start := if offset == 0 then VLOG_HEADER_SIZE else offset;
    var s, stop := Scan(0, [], [], start, start), false;
    end := Fine;
    ghost var all := ScanAll(data[start..], crc, s);
    hide ScanAll;
    while !stop
      invariant s.offset <= |data|
      invariant all == if stop then (s, end) else ScanAll(data[s.offset..], crc, s)
      decreases |data| - s.offset, !stop
    {
      stop, end, s := Turn(data, crc, s);
    }
    validEndOffset, delivered := if end == Fine then s.valid else 0, s.out;
  }

  /** One turn of the loop. */
  method Turn(data: Bytes, crc: Bytes -> Bytes, s: Scan) returns (stop: bool, end: Outcome, t: Scan)
    requires s.offset <= |data|
    ensures if stop then t == s else s.offset < t.offset <= |data|
    ensures ScanAll(data[s.offset..], crc, s) == if stop then (t, end) else ScanAll(data[t.offset..], crc, t)
  {
    hide Advance, ReadEntry, ScanAll;
    ScanStep(data, s.offset, crc, s);
    var r := ReadEntry(data[s.offset..], crc);
    if r.Fail? {
      return true, Error, s;
    }
    if r.Panic? {
      return true, Panicked, s;
    }
    if r.Stop? || r.e.key == [] {
      return true, Fine, s;
    }
    AdvanceOffset(s, r.e, r.len);
    stop, t := Take(s, r.e, r.len);
    end := Fine;
  }

  lemma AdvanceOffset(s: Scan, e: LogEntry, len: nat)
    ensures Advance(s, e, len).Some? ==> Advance(s, e, len).value.offset == s.offset + len
  {
  }

  /** What the loop does with an entry. */
  method Take(s: Scan, e: LogEntry, len: nat) returns (stop: bool, t: Scan)
    ensures Advance(s, e, len) == if stop then None else Some(t)
    ensures stop ==> t == s
    ensures stop <==>
              if e.meta / 64 % 2 == 1 then s.lastCommit != 0 && s.lastCommit != ParseTs(e.key)
              else if e.meta >= 128 then ParseUint(e.value) != Some(s.lastCommit) else s.lastCommit != 0
    ensures !stop ==>
              t == if e.meta / 64 % 2 == 1 then Scan(ParseTs(e.key), s.pending + [e], s.out, s.offset + len, s.valid)
                   else if e.meta >= 128 then Scan(0, [], s.out + s.pending, s.offset + len, s.offset + len)
                   else Scan(0, s.pending, s.out + [e], s.offset + len, s.offset + len)
  {
    TxnBits(e);
    hide ParseUint, ParseTs, IsTxn, IsFin;
    var lastCommit, readOffset := s.lastCommit, s.offset + len;
    stop, t := true, s;
    if IsTxn(e) {
      var txnTs := ParseTs(e.key);
      if lastCommit == 0 {
        lastCommit := txnTs;
      }
      if lastCommit != txnTs {
        return;
      }
      t := Scan(lastCommit, s.pending + [e], s.out, readOffset, s.valid);
    } else if IsFin(e) {
      if ParseUint(e.value) != Some(lastCommit) {
        return;
      }
      t := Scan(0, [], s.out + s.pending, readOffset, readOffset);
    } else {
      if lastCommit != 0 {
        return;
      }
      t := Scan(0, s.pending, s.out + [e], readOffset, readOffset);
    }
    stop := false;
  }

  /** The two bits that mark the entries of a transaction and its finish marker. */
  lemma TxnBits(e: LogEntry)
    ensures IsTxn(e) <==> e.meta / 64 % 2 == 1
    ensures IsFin(e) <==> e.meta >= 128
  {
  }

  lemma AdvanceIs(s: Scan, e: LogEntry, len: nat)
    ensures var offset := s.offset + len;
            Advance(s, e, len) ==
              if IsTxn(e) then
                if s.lastCommit != 0 && s.lastCommit != ParseTs(e.key) then None
                else Some(Scan(ParseTs(e.key), s.pending + [e], s.out, offset, s.valid))
              else if IsFin(e) then
                if ParseUint(e.value) != Some(s.lastCommit) then None else Some(Scan(0, [], s.out + s.pending, offset, offset))
              else if s.lastCommit != 0 then None
              else Some(Scan(0, s.pending, s.out + [e], offset, offset))
  {
  }

  lemma ScanStep(data: Bytes, offset: nat, crc: Bytes -> Bytes, s: Scan)
    requires offset <= |data|
    ensures var r := ReadEntry(data[offset..], crc);
            && (r.Got? ==> 0 < r.len <= |data| - offset)
            && ScanAll(data[offset..], crc, s) ==
                 if r.Fail? then (s, Error)
                 else if r.Panic? then (s, Panicked)
                 else if r.Stop? || r.e.key == [] || Advance(s, r.e, r.len).None? then (s, Fine)
                 else ScanAll(data[offset + r.len..], crc, Advance(s, r.e, r.len).value)
  {
    ReadLength(data[offset..], crc);
    var r := ReadEntry(data[offset..], crc);
    if r.Got? { assert data[offset..][r.len..] == data[offset + r.len..]; }
  }

  // ---------------------------------------------------------------- what is written

  datatype Unit = Lone(e: LogEntry) | Txn(ts: nat, es: seq<LogEntry>, fin: LogEntry) {
    ghost predicate Valid() {
      match this
      case Lone(e) => e.Writable() && !IsTxn(e) && !IsFin(e)
      case Txn(ts, es, fin) =>
        && 1 <= ts < U64 && es != []
        && (forall i :: 0 <= i < |es| ==> es[i].Writable() && IsTxn(es[i]) && !IsFin(es[i]) && ParseTs(es[i].key) == ts)
        && fin.Writable() && IsFin(fin) && !IsTxn(fin) && fin.value == FormatUint(ts)
    }

    /** The entries in the log, in order. */
    function Entries(): seq<LogEntry> {
      match this case Lone(e) => [e] case Txn(_, es, fin) => es + [fin]
    }

    /** The entries for the memtable. */
    function Payload(): seq<LogEntry> {
      match this case Lone(e) => [e] case Txn(_, es, _) => es
    }
  }

  function Log(us: seq<Unit>): seq<LogEntry> {
    if us == [] then [] else us[0].Entries() + Log(us[1..])
  }

  function Payloads(us: seq<Unit>): seq<LogEntry> {
    if us == [] then [] else us[0].Payload() + Payloads(us[1..])
  }

  function EncodeAll(es: seq<LogEntry>, crc: Bytes -> Bytes): Bytes {
    if es == [] then [] else EncodeEntry(es[0], crc) + EncodeAll(es[1..], crc)
  }

  ghost predicate AllValid(us: seq<Unit>) {
    forall i :: 0 <= i < |us| ==> us[i].Valid()
  }

  /** How many units are whole within the first `k` entries of the log. */
  function Whole(us: seq<Unit>, k: nat): (m: nat)
    ensures m <= |us|
  {
    if us == [] || k < |us[0].Entries()| then 0 else 1 + Whole(us[1..], k - |us[0].Entries()|)
  }

  lemma ScanOne(e: LogEntry, crc: Bytes -> Bytes, rest: Bytes, s: Scan)
    requires e.Writable() && IsCrc(crc)
    ensures var len := |EncodeEntry(e, crc)|;
            ScanAll(EncodeEntry(e, crc) + rest, crc, s) ==
              if Advance(s, e, len).None? then (s, Fine) else ScanAll(rest, crc, Advance(s, e, len).value)
  {
    hide EncodeEntry, ReadEntry, Advance, ScanAll;
    var enc := EncodeEntry(e, crc);
    ReadWhole(e, crc, rest);
    ScanStep(enc + rest, 0, crc, s);
    assert (enc + rest)[0..] == enc + rest && (enc + rest)[|enc|..] == rest;
  }

  lemma {:induction false} EncodeJoins(a: seq<LogEntry>, b: seq<LogEntry>, crc: Bytes -> Bytes)
    ensures EncodeAll(a + b, crc) == EncodeAll(a, crc) + EncodeAll(b, crc)
  {
    if a == [] {
      assert a + b == b;
    } else {
      assert (a + b)[1..] == a[1..] + b;
      EncodeJoins(a[1..], b, crc);
    }
  }

  /** The entries of one transaction pile up. */
  lemma {:induction false} ScanPart(ts: nat, es: seq<LogEntry>, crc: Bytes -> Bytes, rest: Bytes, s: Scan)
    requires IsCrc(crc) && 1 <= ts && (s.lastCommit == ts || (s.lastCommit == 0 && es != []))
    requires forall i :: 0 <= i < |es| ==> es[i].Writable() && IsTxn(es[i]) && ParseTs(es[i].key) == ts
    ensures ScanAll(EncodeAll(es, crc) + rest, crc, s) ==
            ScanAll(rest, crc, Scan(ts, s.pending + es, s.out, s.offset + |EncodeAll(es, crc)|, s.valid))
  {
    hide EncodeEntry, ScanAll, Advance, ParseUint, ParseTs, IsTxn, IsFin;
    if es == [] {
      assert EncodeAll(es, crc) + rest == rest && s.pending + es == s.pending;
    } else {
      var first, more := EncodeEntry(es[0], crc), EncodeAll(es[1..], crc);
      assert EncodeAll(es, crc) + rest == first + (more + rest);
      ScanOne(es[0], crc, more + rest, s);
      AdvanceIs(s, es[0], |first|);
      assert s.pending + [es[0]] + es[1..] == s.pending + es;
      ScanPart(ts, es[1..], crc, rest, Scan(ts, s.pending + [es[0]], s.out, s.offset + |first|, s.valid));
    }
  }

  function After(u: Unit, crc: Bytes -> Bytes, s: Scan): Scan {
    var end := s.offset + |EncodeAll(u.Entries(), crc)|;
    Scan(0, [], s.out + u.Payload(), end, end)
  }

  /** A complete unit goes through. */
  lemma ScanUnit(u: Unit, crc: Bytes -> Bytes, rest: Bytes, s: Scan)
    requires u.Valid() && IsCrc(crc) && s.lastCommit == 0 && s.pending == []
    ensures ScanAll(EncodeAll(u.Entries(), crc) + rest, crc, s) == ScanAll(rest, crc, After(u, crc, s))
  {
    hide EncodeEntry, ScanAll, Advance, ParseUint, ParseTs, IsTxn, IsFin, FormatUint;
    match u
    case Lone(e) =>
      EncodeOne(e, crc);
      ScanOne(e, crc, rest, s);
      AdvanceIs(s, e, |EncodeEntry(e, crc)|);
    case Txn(ts, es, fin) =>
      var last, parts := EncodeEntry(fin, crc), EncodeAll(es, crc);
      EncodeOne(fin, crc);
      EncodeJoins(es, [fin], crc);
      assert parts + last + rest == parts + (last + rest);
      ScanPart(ts, es, crc, last + rest, s);
      assert [] + es == es;
      var t := Scan(ts, es, s.out, s.offset + |parts|, s.valid);
      ScanOne(fin, crc, rest, t);
      FormatRoundTrip(ts);
      AdvanceIs(t, fin, |last|);
  }

  lemma EncodeOne(e: LogEntry, crc: Bytes -> Bytes)
    ensures EncodeAll([e], crc) == EncodeEntry(e, crc)
  {
  }

  /** How reading ends at bytes where no entry can be read. */
  function Verdict(damage: Bytes): Outcome {
    if BadNumber(damage) then Error else if WrapsAround(damage) then Panicked else Fine
  }

  /** Nothing of an incomplete unit is delivered. */
  lemma ScanIncomplete(u: Unit, k: nat, crc: Bytes -> Bytes, damage: Bytes, s: Scan)
    requires u.Valid() && IsCrc(crc) && s.lastCommit == 0 && s.pending == [] && k < |u.Entries()| && !Readable(damage, crc)
    ensures var (t, end) := ScanAll(EncodeAll(u.Entries()[..k], crc) + damage, crc, s);
            end == Verdict(damage) && t.out == s.out && t.valid == s.valid
  {
    hide EncodeEntry, ScanAll, Advance, ParseUint, ParseTs, IsTxn, IsFin, FormatUint, Readable, Verdict;
    if k == 0 {
      assert u.Entries()[..0] == [] && [] + damage == damage;
      ScanDamage(damage, crc, s);
    } else {
      assert u.Entries()[..k] == u.es[..k];
      ScanPart(u.ts, u.es[..k], crc, damage, s);
      ScanDamage(damage, crc, Scan(u.ts, s.pending + u.es[..k], s.out, s.offset + |EncodeAll(u.es[..k], crc)|, s.valid));
    }
  }

  lemma ScanDamage(damage: Bytes, crc: Bytes -> Bytes, s: Scan)
    requires !Readable(damage, crc)
    ensures ScanAll(damage, crc, s) == (s, Verdict(damage))
  {
    FailsIff(damage, crc);
    hide ReadEntry, BadNumber, WrapsAround;
  }

  /** What replay of the first `k` entries of the log comes to, starting from `s`. */
  ghost predicate Replays(us: seq<Unit>, k: nat, crc: Bytes -> Bytes, damage: Bytes, s: Scan)
    requires k <= |Log(us)|
  {
    var (t, end) := ScanAll(EncodeAll(Log(us)[..k], crc) + damage, crc, s);
    var whole := us[..Whole(us, k)];
    end == Verdict(damage) && t.out == s.out + Payloads(whole) && t.valid == s.offset + |EncodeAll(Log(whole), crc)|
  }

  /** The log, cut after any number of entries and followed by whatever cannot be read. */
  lemma {:induction false} ScanLog(us: seq<Unit>, k: nat, crc: Bytes -> Bytes, damage: Bytes, s: Scan)
    requires AllValid(us) && IsCrc(crc) && k <= |Log(us)| && !Readable(damage, crc)
    requires s.lastCommit == 0 && s.pending == [] && s.valid == s.offset
    ensures Replays(us, k, crc, damage, s)
  {
    hide ScanAll, Readable, Verdict, EncodeEntry, Unit.Valid, IsCrc;
    if us == [] || k < |us[0].Entries()| {
      ScanStart(us, k, crc, damage, s);
    } else {
      hide Replays, Whole;
      var t := After(us[0], crc, s);
      ScanLog(us[1..], k - |us[0].Entries()|, crc, damage, t);
      ScanNext(us, k, crc, damage, s);
    }
  }

  lemma ScanStart(us: seq<Unit>, k: nat, crc: Bytes -> Bytes, damage: Bytes, s: Scan)
    requires AllValid(us) && IsCrc(crc) && k <= |Log(us)| && !Readable(damage, crc)
    requires s.lastCommit == 0 && s.pending == [] && s.valid == s.offset
    requires us == [] || k < |us[0].Entries()|
    ensures Replays(us, k, crc, damage, s)
  {
    hide ScanAll, Readable, Verdict, EncodeEntry;
    EmptyFront(us, damage);
    if us == [] {
      ScanDamage(damage, crc, s);
    } else {
      TakeFirst(us[0].Entries(), Log(us[1..]), k);
      ScanIncomplete(us[0], k, crc, damage, s);
    }
  }

  lemma LogLength(us: seq<Unit>)
    requires us != []
    ensures |Log(us)| == |us[0].Entries()| + |Log(us[1..])|
  {
  }

  lemma ScanNext(us: seq<Unit>, k: nat, crc: Bytes -> Bytes, damage: Bytes, s: Scan)
    requires AllValid(us) && IsCrc(crc) && us != [] && |us[0].Entries()| <= k <= |Log(us)|
    requires s.lastCommit == 0 && s.pending == []
    requires Replays(us[1..], k - |us[0].Entries()|, crc, damage, After(us[0], crc, s))
    ensures Replays(us, k, crc, damage, s)
  {
    hide Log, AllValid, ScanAll, EncodeAll, EncodeEntry, Payloads, Whole, Unit.Valid, Unit.Payload, Unit.Entries, IsCrc, Verdict, ReadEntry, Advance;
    ScanFirst(us, k, crc, damage, s);
    WholeSplits(us, k, crc);
    var rest := us[1..][..Whole(us[1..], k - |us[0].Entries()|)];
    var (t, end) := ScanAll(EncodeAll(Log(us[1..])[..k - |us[0].Entries()|], crc) + damage, crc, After(us[0], crc, s));
    assert t.out == (s.out + us[0].Payload()) + Payloads(rest);
    assert t.valid == s.offset + |EncodeAll(us[0].Entries(), crc)| + |EncodeAll(Log(rest), crc)|;
    hide After;
    Assoc(s.out, us[0].Payload(), Payloads(rest));
  }

  lemma ScanFirst(us: seq<Unit>, k: nat, crc: Bytes -> Bytes, damage: Bytes, s: Scan)
    requires AllValid(us) && IsCrc(crc) && us != [] && |us[0].Entries()| <= k <= |Log(us)|
    requires s.lastCommit == 0 && s.pending == []
    ensures |Log(us)| == |us[0].Entries()| + |Log(us[1..])|
    ensures ScanAll(EncodeAll(Log(us)[..k], crc) + damage, crc, s) ==
            ScanAll(EncodeAll(Log(us[1..])[..k - |us[0].Entries()|], crc) + damage, crc, After(us[0], crc, s))
  {
    assert us[0].Valid();
    hide *;
    LogLength(us);
    LogSplits(us, k, crc, damage);
    ScanUnit(us[0], crc, EncodeAll(Log(us[1..])[..k - |us[0].Entries()|], crc) + damage, s);
  }

  lemma EmptyFront(us: seq<Unit>, damage: Bytes)
    ensures us[..0] == [] && [] + damage == damage
  {
  }

  lemma LogSplits(us: seq<Unit>, k: nat, crc: Bytes -> Bytes, damage: Bytes)
    requires us != [] && |us[0].Entries()| <= k <= |Log(us)|
    ensures var n := |us[0].Entries()|;
            EncodeAll(Log(us)[..k], crc) + damage == EncodeAll(us[0].Entries(), crc) + (EncodeAll(Log(us[1..])[..k - n], crc) + damage)
  {
    hide EncodeEntry, EncodeAll;
    var first, rest := us[0].Entries(), Log(us[1..])[..k - |us[0].Entries()|];
    TakeJoined(first, Log(us[1..]), k);
    hide Log;
    EncodeJoins(first, rest, crc);
    Assoc(EncodeAll(first, crc), EncodeAll(rest, crc), damage);
  }

  lemma WholeSplits(us: seq<Unit>, k: nat, crc: Bytes -> Bytes)
    requires us != [] && |us[0].Entries()| <= k
    ensures var m := Whole(us, k);
            && m == 1 + Whole(us[1..], k - |us[0].Entries()|)
            && Payloads(us[..m]) == us[0].Payload() + Payloads(us[1..][..m - 1])
            && EncodeAll(Log(us[..m]), crc) == EncodeAll(us[0].Entries(), crc) + EncodeAll(Log(us[1..][..m - 1]), crc)
  {
    hide EncodeEntry;
    var m := Whole(us, k);
    assert us[..m][1..] == us[1..][..m - 1] && us[..m][0] == us[0];
    EncodeJoins(us[0].Entries(), Log(us[1..][..m - 1]), crc);
  }

  // ---------------------------------------------------------------- crash and replay

  /** The first `n` bytes of a log: some whole entries, and a torn one that ends the reading. */
  lemma {:induction false} CutAt(es: seq<LogEntry>, crc: Bytes -> Bytes, n: nat) returns (k: nat, torn: Bytes)
    requires IsCrc(crc) && n <= |EncodeAll(es, crc)| && forall i :: 0 <= i < |es| ==> es[i].Writable()
    ensures k <= |es| && EncodeAll(es, crc)[..n] == EncodeAll(es[..k], crc) + torn && Damaged(torn, crc)
  {
    hide EncodeEntry, LogEntry.Writable, ReadEntry, Damaged;
    if es == [] {
      k, torn := 0, [];
      ReadEmpty(crc);
    } else if n < |EncodeEntry(es[0], crc)| {
      k, torn := 0, EncodeEntry(es[0], crc)[..n];
      TornIsDamage(es[0], crc, n);
      TakeFirst(EncodeEntry(es[0], crc), EncodeAll(es[1..], crc), n);
    } else {
      var first, more := EncodeEntry(es[0], crc), EncodeAll(es[1..], crc);
      k, torn := CutAt(es[1..], crc, n - |first|);
      TakeJoined(first, more, n);
      k := k + 1;
      assert es[..k][0] == es[0] && es[..k][1..] == es[1..][..k - 1];
      Assoc(first, EncodeAll(es[1..][..k - 1], crc), torn);
    }
  }

  lemma ReadEmpty(crc: Bytes -> Bytes)
    ensures Damaged([], crc) && Verdict([]) == Fine
  {
  }

  lemma {:induction false} WholeAll(us: seq<Unit>)
    ensures Whole(us, |Log(us)|) == |us|
  {
    if us != [] {
      WholeAll(us[1..]);
      assert |Log(us)| - |us[0].Entries()| == |Log(us[1..])|;
    }
  }

  function Replayed(file: Bytes, crc: Bytes -> Bytes): (Scan, Outcome)
    requires |file| >= VLOG_HEADER_SIZE
  {
    ScanAll(file[VLOG_HEADER_SIZE..], crc, Scan(0, [], [], VLOG_HEADER_SIZE, VLOG_HEADER_SIZE))
  }

  /** A log of whole units, cut after any number of entries, and then any bytes at which no entry can be
      read: replay delivers, in order, the entries of the units that are whole, and nothing else. It
      returns the offset where they end if and only if no number of the header at the damage is too big
      and its two lengths do not wrap around; it fails on the former and panics on the latter. */
  lemma ReplayIsAtomic(head: Bytes, us: seq<Unit>, k: nat, crc: Bytes -> Bytes, damage: Bytes)
    requires |head| == VLOG_HEADER_SIZE && AllValid(us) && IsCrc(crc) && k <= |Log(us)| && !Readable(damage, crc)
    ensures var (t, end) := Replayed(head + (EncodeAll(Log(us)[..k], crc) + damage), crc);
            var whole := us[..Whole(us, k)];
            && t.out == Payloads(whole) && t.valid == |head| + |EncodeAll(Log(whole), crc)|
            && (end == Fine <==> !BadNumber(damage) && !WrapsAround(damage))
            && (end == Error <==> BadNumber(damage))
  {
    NotBoth(damage);
    hide ScanAll, EncodeAll, Log, Payloads, Whole, Readable, AllValid, IsCrc, BadNumber, WrapsAround;
    DropJoined(head, EncodeAll(Log(us)[..k], crc) + damage);
    var s := Scan(0, [], [], VLOG_HEADER_SIZE, VLOG_HEADER_SIZE);
    ScanLog(us, k, crc, damage, s);
    UnitLeft([], Payloads(us[..Whole(us, k)]));
  }

  lemma NotBoth(damage: Bytes)
    ensures !(BadNumber(damage) && WrapsAround(damage))
  {
    FailsIff(damage, b => []);
    hide ReadEntry, BadNumber, WrapsAround;
  }

  /** A log that was synced and then followed by thirteen bytes, two and a number of eleven, cannot be opened any more. */
  lemma OneBadNumber(head: Bytes, us: seq<Unit>, crc: Bytes -> Bytes)
    requires |head| == VLOG_HEADER_SIZE && AllValid(us) && IsCrc(crc)
    ensures Replayed(head + (EncodeAll(Log(us)[..|Log(us)|], crc) + ([0, 0] + seq(10, _ => 255) + [0])), crc).1 == Error
  {
    LongNumberFails(crc);
    ReplayIsAtomic(head, us, |Log(us)|, crc, [0, 0] + seq(10, _ => 255) + [0]);
  }

  /** So an entry that was written whole and has a wrong checksum ends the log, whatever follows it:
      nothing of it and nothing behind it is delivered. */
  lemma CorruptEntryEnds(head: Bytes, us: seq<Unit>, k: nat, crc: Bytes -> Bytes, h: Header, key: Bytes, value: Bytes, sum: Bytes, rest: Bytes)
    requires |head| == VLOG_HEADER_SIZE && AllValid(us) && IsCrc(crc) && k <= |Log(us)|
    requires h.Valid() && h.klen == |key| <= MAX_KEY && h.vlen == |value| && h.klen + h.vlen < U32 && |sum| == CRC_SIZE
    requires sum != crc(Encoded(h) + (key + value))
    ensures var (t, end) := Replayed(head + (EncodeAll(Log(us)[..k], crc) + (Encoded(h) + (key + value) + sum + rest)), crc);
            var whole := us[..Whole(us, k)];
            t.out == Payloads(whole) && t.valid == |head| + |EncodeAll(Log(whole), crc)| && end == Fine
  {
    CorruptIsDamage(h, key, value, sum, crc, rest);
    ReplayIsAtomic(head, us, k, crc, Encoded(h) + (key + value) + sum + rest);
    hide Replayed, EncodeAll, Log, Payloads, Whole, Readable, AllValid, IsCrc, BadNumber, WrapsAround, Encoded;
  }

  /** Replaying again after the truncation that follows gives the same. */
  lemma ReplayAgain(head: Bytes, us: seq<Unit>, k: nat, crc: Bytes -> Bytes, damage: Bytes)
    requires |head| == VLOG_HEADER_SIZE && AllValid(us) && IsCrc(crc) && k <= |Log(us)| && !Readable(damage, crc)
    ensures var file := head + (EncodeAll(Log(us)[..k], crc) + damage);
            var (t, end) := Replayed(file, crc);
            && VLOG_HEADER_SIZE <= t.valid <= |file|
            && var (again, more) := Replayed(file[..t.valid], crc);
               more == Fine && again.out == t.out && again.valid == t.valid
  {
    var file := head + (EncodeAll(Log(us)[..k], crc) + damage);
    var whole := us[..Whole(us, k)];
    ReplayIsAtomic(head, us, k, crc, damage);
    WholeIsPrefix(us, k, crc);
    PrefixJoined(head, EncodeAll(Log(whole), crc), EncodeAll(Log(us)[..k], crc), damage);
    ReadEmpty(crc);
    WholeAll(whole);
    ReplayIsAtomic(head, whole, |Log(whole)|, crc, []);
    hide Replayed, EncodeAll, Log, Payloads, Whole, Readable, IsCrc, BadNumber, WrapsAround;
    AllOf(Log(whole));
    AllOf(whole);
    UnitRight(EncodeAll(Log(whole), crc));
  }

  lemma {:induction false} WholeIsPrefix(us: seq<Unit>, k: nat, crc: Bytes -> Bytes)
    requires k <= |Log(us)|
    ensures EncodeAll(Log(us[..Whole(us, k)]), crc) <= EncodeAll(Log(us)[..k], crc)
  {
    hide EncodeEntry, Unit.Entries;
    if us == [] || k < |us[0].Entries()| {
      assert us[..0] == [];
    } else {
      LogLength(us);
      WholeIsPrefix(us[1..], k - |us[0].Entries()|, crc);
      LogSplits(us, k, crc, []);
      WholeSplits(us, k, crc);
      UnitRight(EncodeAll(Log(us)[..k], crc));
      UnitRight(EncodeAll(Log(us[1..])[..k - |us[0].Entries()|], crc));
      hide EncodeAll, Log, Whole;
    }
  }

  // ---------------------------------------------------------------- the memtable

  /** The skiplist, as the map it implements, and the largest version put into it. */
  datatype Memory = Memory(contents: map<Bytes, LogEntry>, maxVersion: nat)

  function Store(m: Memory, e: LogEntry): Memory {
    Memory(m.contents[e.key := e], if ParseTs(e.key) > m.maxVersion then ParseTs(e.key) else m.maxVersion)
  }

  function StoreAll(m: Memory, es: seq<LogEntry>): Memory {
    if es == [] then m else Store(StoreAll(m, es[..|es| - 1]), es[|es| - 1])
  }

  function PutOne(m: Memory, e: LogEntry): Memory {
    if IsFin(e) then m else Store(m, e)
  }

  function PutAll(m: Memory, es: seq<LogEntry>): Memory {
    if es == [] then m else PutOne(PutAll(m, es[..|es| - 1]), es[|es| - 1])
  }

  class MemTable {
    const crc: Bytes -> Bytes
    var data: Bytes
    var memory: Memory

    constructor (head: Bytes, crc: Bytes -> Bytes)
      ensures this.crc == crc && data == head && memory == Memory(map[], 0)
    {
      this.crc, data, memory := crc, head, Memory(map[], 0);
    }

    /** The log first, then the skiplist; the finish marker goes to the log only. */
    method Put(e: LogEntry)
      modifies this
      ensures data == old(data) + EncodeEntry(e, crc) && memory == PutOne(old(memory), e)
      ensures e.meta >= 128 ==> memory == old(memory)
      ensures e.meta < 128 ==>
                && memory.contents == old(memory.contents)[e.key := e]
                && memory.maxVersion == if ParseTs(e.key) > old(memory.maxVersion) then ParseTs(e.key) else old(memory.maxVersion)
    {
      hide EncodeEntry;
      data := data + EncodeEntry(e, crc);
      if IsFin(e) {
        return;
      }
      var ts := ParseTs(e.key);
      memory := Memory(memory.contents[e.key := e], if ts > memory.maxVersion then ts else memory.maxVersion);
    }

    /** Replays the log into the skiplist and, if that went well, truncates it. */
    method UpdateSkipList() returns (end: Outcome)
      requires |data| >= VLOG_HEADER_SIZE
      modifies this
      ensures end == Replayed(old(data), crc).1
      ensures memory == StoreAll(old(memory), Replayed(old(data), crc).0.out)
      ensures Replayed(old(data), crc).0.valid <= |old(data)|
      ensures data == if end == Fine then old(data)[..Replayed(old(data), crc).0.valid] else old(data)
    {
      hide ScanAll;
      ScanBound(data[VLOG_HEADER_SIZE..], crc, Scan(0, [], [], VLOG_HEADER_SIZE, VLOG_HEADER_SIZE));
      var endOff, r, delivered := Iterate(data, 0, crc);
      end := r;
      Load(delivered);
      if end != Fine {
        return;
      }
      data := data[..endOff];
    }

    /** replayFunction, once for every entry delivered. */
    method Load(delivered: seq<LogEntry>)
      modifies `memory
      ensures memory == StoreAll(old(memory), delivered)
    {
      ghost var before := memory;
      hide StoreAll;
      StoreNone(before);
      AllOf(delivered);
      for i := 0 to |delivered|
        invariant memory == StoreAll(before, delivered[..i])
      {
        StoreNext(before, delivered, i);
        var e := delivered[i];
        var ts := ParseTs(e.key);
        memory := Memory(memory.contents[e.key := e], if ts > memory.maxVersion then ts else memory.maxVersion);
      }
    }
  }

  lemma StoreNone(m: Memory)
    ensures forall es: seq<LogEntry> :: StoreAll(m, es[..0]) == m
  {
  }

  lemma StoreNext(m: Memory, es: seq<LogEntry>, i: nat)
    requires i < |es|
    ensures StoreAll(m, es[..i + 1]) == Store(StoreAll(m, es[..i]), es[i])
  {
    assert es[..i + 1][..i] == es[..i];
  }

  lemma {:induction false} ScanBound(buf: Bytes, crc: Bytes -> Bytes, s: Scan)
    requires s.valid <= s.offset
    ensures ScanAll(buf, crc, s).0.valid <= s.offset + |buf|
    decreases |buf|
  {
    hide ReadEntry, ParseTs, ParseUint, IsTxn, IsFin;
    ReadLength(buf, crc);
    var r := ReadEntry(buf, crc);
    if r.Got? && r.e.key != [] {
      AdvanceIs(s, r.e, r.len);
      var t := Advance(s, r.e, r.len);
      if t.Some? { ScanBound(buf[r.len..], crc, t.value); }
    }
  }

  lemma {:induction false} StoreJoins(m: Memory, a: seq<LogEntry>, b: seq<LogEntry>)
    ensures StoreAll(m, a + b) == StoreAll(StoreAll(m, a), b)
  {
    if b == [] {
      assert a + b == a;
    } else {
      assert (a + b)[..|a + b| - 1] == a + b[..|b| - 1];
      StoreJoins(m, a, b[..|b| - 1]);
    }
  }

  lemma {:induction false} PutJoins(m: Memory, a: seq<LogEntry>, b: seq<LogEntry>)
    ensures PutAll(m, a + b) == PutAll(PutAll(m, a), b)
  {
    if b == [] {
      assert a + b == a;
    } else {
      assert (a + b)[..|a + b| - 1] == a + b[..|b| - 1];
      PutJoins(m, a, b[..|b| - 1]);
    }
  }

  lemma {:induction false} PutIsStore(m: Memory, es: seq<LogEntry>)
    requires forall i :: 0 <= i < |es| ==> !IsFin(es[i])
    ensures PutAll(m, es) == StoreAll(m, es)
  {
    if es != [] { PutIsStore(m, es[..|es| - 1]); }
  }

  /** What the units put into the memtable while the log was written is what their replay puts there. */
  lemma {:induction false} ReplayRebuilds(us: seq<Unit>, m: Memory)
    requires AllValid(us)
    ensures PutAll(m, Log(us)) == StoreAll(m, Payloads(us))
  {
    if us != [] {
      var u := us[0];
      var mid := StoreAll(m, u.Payload());
      assert PutAll(m, u.Entries()) == mid by {
        PutIsStore(m, u.Payload());
        if u.Txn? {
          PutJoins(m, u.es, [u.fin]);
          assert [u.fin][..0] == [];
        }
      }
      ReplayRebuilds(us[1..], mid);
      PutJoins(m, u.Entries(), Log(us[1..]));
      StoreJoins(m, u.Payload(), Payloads(us[1..]));
    }
  }

  /** An undamaged log, replayed into an empty memtable, gives the contents and the largest version
      that the memtable had; a damaged one gives what the complete units alone would have given. */
  lemma ReplayGivesWhole(head: Bytes, us: seq<Unit>, k: nat, crc: Bytes -> Bytes, damage: Bytes)
    requires |head| == VLOG_HEADER_SIZE && AllValid(us) && IsCrc(crc) && k <= |Log(us)| && !Readable(damage, crc)
    ensures var t := Replayed(head + (EncodeAll(Log(us)[..k], crc) + damage), crc).0;
            StoreAll(Memory(map[], 0), t.out) == PutAll(Memory(map[], 0), Log(us[..Whole(us, k)]))
    ensures k == |Log(us)| ==> us[..Whole(us, k)] == us
  {
    hide Replayed, EncodeAll, Log, Payloads, Readable, IsCrc, StoreAll, PutAll, BadNumber, WrapsAround;
    ReplayIsAtomic(head, us, k, crc, damage);
    ReplayRebuilds(us[..Whole(us, k)], Memory(map[], 0));
    if k == |Log(us)| {
      WholeAll(us);
      AllOf(us);
    }
  }
}
