/** Entries in a log file (memtable.go encodeEntry and iterate; value.go safeRead.Entry).

    `crc` stands for the checksum: any function to four bytes. Encryption is left out. */
module LogFiles {
  import opened Codec
  import opened Keys

  const CRC_SIZE: nat := 4
  const MAX_KEY: nat := 65536

  datatype LogEntry = LogEntry(key: Bytes, value: Bytes, expiresAt: nat, meta: Byte, userMeta: Byte) {
    predicate Writable() {
      0 < |key| <= MAX_KEY && |key| + |value| < U32 && expiresAt < U64
    }

    function Head(): Header {
      Header(|key|, |value|, expiresAt, meta, userMeta)
    }
  }

  ghost predicate IsCrc(crc: Bytes -> Bytes) {
    forall b :: |crc(b)| == CRC_SIZE
  }

  /** What encodeEntry writes. */
  function EncodeEntry(e: LogEntry, crc: Bytes -> Bytes): Bytes {
    var body := Encoded(e.Head()) + (e.key + e.value);
    body + crc(body)
  }

  /** What the reader makes of the bytes ahead: an entry and its length; the end of what can be read
      (the file ends, or the checksum is wrong); an error that iterate passes on; or a slice out of
      range. */
  datatype Read = Got(e: LogEntry, len: nat) | Stop | Fail | Panic

  datatype Number = Number(v: nat, n: nat) | Short | Overflow

  /** binary.ReadUvarint, which gives up after ten bytes. */
  function ReadNumber(buf: Bytes): Number {
    var (v, n) := Uvarint(buf, 0);
    if n > 0 then Number(v, n) else if n < 0 || |buf| == MAX_VARINT_LEN_64 then Overflow else Short
  }

  function Ends(n: Number): Read {
    if n.Overflow? then Fail else Stop
  }

  /** safeRead.Entry on the rest of the file. The two sizes are cut to 32 bits, and so is their sum: when
      that wraps around, less is read than the key is said to have. */
  function ReadEntry(buf: Bytes, crc: Bytes -> Bytes): Read {
    if |buf| < 2 then Stop else
    var k := ReadNumber(buf[2..]);
    if !k.Number? then Ends(k) else
    var v := ReadNumber(buf[2 + k.n..]);
    if !v.Number? then Ends(v) else
    var x := ReadNumber(buf[2 + k.n + v.n..]);
    if !x.Number? then Ends(x) else
    var hlen, klen, vlen := 2 + k.n + v.n + x.n, k.v % U32, v.v % U32;
    if klen > MAX_KEY then Stop
    else if klen + vlen >= U32 then (if |buf| - hlen < klen + vlen - U32 then Stop else Panic)
    else Body(buf, hlen, klen, vlen, x.v, crc)
  }

  function Body(buf: Bytes, hlen: nat, klen: nat, vlen: nat, expiresAt: nat, crc: Bytes -> Bytes): Read
    requires 2 <= hlen <= |buf|
  {
    var end := hlen + klen + vlen;
    if |buf| < end + CRC_SIZE || buf[end..end + CRC_SIZE] != crc(buf[..end]) then Stop
    else Got(LogEntry(buf[hlen..hlen + klen], buf[hlen + klen..end], expiresAt, buf[0], buf[1]), end + CRC_SIZE)
  }

  // ---------------------------------------------------------------- whole entries and torn ones

  lemma NumberAt(buf: Bytes, at: nat, x: nat, rest: Bytes)
    requires x < U64 && at <= |buf| && buf[at..] == Varint(x) + rest
    ensures ReadNumber(buf[at..]) == Number(x, |Varint(x)|)
  {
    ReadAt(buf, at, x, rest);
  }

  /** An entry written is read back, whatever follows it. */
  lemma ReadWhole(e: LogEntry, crc: Bytes -> Bytes, rest: Bytes)
    requires 0 < |e.key| <= 65536 && |e.key| + |e.value| < U32 && e.expiresAt < U64 && IsCrc(crc)
    ensures ReadEntry(EncodeEntry(e, crc) + rest, crc) == Got(e, |EncodeEntry(e, crc)|)
  {
    var h := e.Head();
    var body := Encoded(h) + (e.key + e.value);
    var buf, tail := EncodeEntry(e, crc) + rest, (e.key + e.value) + crc(body) + rest;
    assert buf == Encoded(h) + tail;
    ReadHeader(h, tail, crc);
    BodyIs(e, crc, buf, rest);
  }

  /** An entry with a longer key is taken for the end of the log. */
  lemma LongKeyEnds(e: LogEntry, crc: Bytes -> Bytes, rest: Bytes)
    requires 65536 < |e.key| && |e.key| + |e.value| < U32 && e.expiresAt < U64
    ensures ReadEntry(EncodeEntry(e, crc) + rest, crc) == Stop
  {
    var h := e.Head();
    var body, tail := Encoded(h) + (e.key + e.value), (e.key + e.value) + crc(Encoded(h) + (e.key + e.value)) + rest;
    assert EncodeEntry(e, crc) + rest == Encoded(h) + tail;
    ReadHeader(h, tail, crc);
    hide ReadEntry, Encoded, EncodeEntry;
  }

  lemma ReadHeader(h: Header, tail: Bytes, crc: Bytes -> Bytes)
    requires h.Valid() && h.klen + h.vlen < U32
    ensures 2 <= |Encoded(h)|
    ensures var buf := Encoded(h) + tail;
            ReadEntry(buf, crc) == if h.klen > MAX_KEY then Stop else Body(buf, |Encoded(h)|, h.klen, h.vlen, h.expiresAt, crc)
  {
    hide Varint, Uvarint, Encoded, ReadNumber, ReadEntry, Body;
    var r2 := Varint(h.expiresAt) + tail;
    var r1 := Varint(h.vlen) + r2;
    var buf, k, v := Encoded(h) + tail, |Varint(h.klen)|, |Varint(h.vlen)|;
    Layout(h, tail, r1, r2);
    NumberAt(buf, 2, h.klen, r1);
    NumberAt(buf, 2 + k, h.vlen, r2);
    NumberAt(buf, 2 + k + v, h.expiresAt, tail);
    HeaderRead(buf, h, k, v, |Varint(h.expiresAt)|, crc);
  }

  lemma HeaderRead(buf: Bytes, h: Header, k: nat, v: nat, x: nat, crc: Bytes -> Bytes)
    requires h.Valid() && h.klen + h.vlen < U32 && 2 + k + v + x <= |buf|
    requires ReadNumber(buf[2..]) == Number(h.klen, k) && ReadNumber(buf[2 + k..]) == Number(h.vlen, v)
    requires ReadNumber(buf[2 + k + v..]) == Number(h.expiresAt, x)
    ensures ReadEntry(buf, crc) == if h.klen > MAX_KEY then Stop else Body(buf, 2 + k + v + x, h.klen, h.vlen, h.expiresAt, crc)
  {
    hide ReadNumber, Body;
  }

  lemma BodyIs(e: LogEntry, crc: Bytes -> Bytes, buf: Bytes, rest: Bytes)
    requires IsCrc(crc) && buf == EncodeEntry(e, crc) + rest && 2 <= |Encoded(e.Head())|
    ensures Body(buf, |Encoded(e.Head())|, |e.key|, |e.value|, e.expiresAt, crc) == Got(e, |EncodeEntry(e, crc)|)
  {
    var head, body := Encoded(e.Head()), Encoded(e.Head()) + (e.key + e.value);
    assert head[0] == e.meta && head[1] == e.userMeta;
    hide Encoded;
    var hlen, end := |head|, |body|;
    assert buf[..end] == body;
    assert buf[end..end + CRC_SIZE] == crc(body);
    assert buf[hlen..hlen + |e.key|] == e.key;
    assert buf[hlen + |e.key|..end] == e.value;
  }

  lemma {:induction false} NumberTorn(x: nat, n: nat, i: nat)
    requires n < |Varint(x)| && i + |Varint(x)| <= MAX_VARINT_LEN_64
    ensures Uvarint(Varint(x)[..n], i) == (0, 0)
  {
    if n > 0 {
      assert Varint(x)[..n][1..] == Varint(x / 128)[..n - 1];
      NumberTorn(x / 128, n - 1, i + 1);
    }
  }

  /** A number of which only the first bytes are there. */
  lemma ShortAt(buf: Bytes, at: nat, x: nat)
    requires x < U64 && at <= |buf| && |buf| - at < |Varint(x)| && buf[at..] == Varint(x)[..|buf| - at]
    ensures ReadNumber(buf[at..]) == Short
  {
    VarintSizes(x);
    NumberTorn(x, |buf| - at, 0);
  }

  /** An entry of which only the first bytes were written ends the log: at any byte. */
  lemma ReadTorn(e: LogEntry, crc: Bytes -> Bytes, n: nat)
    requires e.Writable() && IsCrc(crc) && n < |EncodeEntry(e, crc)|
    ensures ReadEntry(EncodeEntry(e, crc)[..n], crc) == Stop
  {
    var h := e.Head();
    var all, buf := EncodeEntry(e, crc), EncodeEntry(e, crc)[..n];
    var hlen := |Encoded(h)|;
    if n >= hlen {
      assert buf == Encoded(h) + buf[hlen..];
      ReadHeader(h, buf[hlen..], crc);
    } else {
      assert buf == Encoded(h)[..n];
      HeaderTorn(h, n, crc);
    }
  }

  lemma HeaderTorn(h: Header, n: nat, crc: Bytes -> Bytes)
    requires h.Valid() && n < |Encoded(h)|
    ensures ReadEntry(Encoded(h)[..n], crc) == Stop
  {
    var two, k, v, x := [h.meta, h.userMeta], Varint(h.klen), Varint(h.vlen), Varint(h.expiresAt);
    var all, buf := Encoded(h), Encoded(h)[..n];
    assert all == two + k + (v + x) && all == (two + k) + v + x && all == (two + k + v) + x + [];
    hide Varint, Uvarint, Encoded, ReadNumber, ReadEntry;
    if n >= 2 { NumberCut(buf, n, two, h.klen, v + x); }
    if n >= 2 + |k| { NumberCut(buf, n, two + k, h.vlen, x); }
    if n >= 2 + |k| + |v| { NumberCut(buf, n, two + k + v, h.expiresAt, []); }
    ShortHeader(buf, h.klen, |k|, h.vlen, |v|, crc);
  }

  /** A number in the part of the header that was written: all of it or its first bytes. */
  lemma NumberCut(buf: Bytes, n: nat, pre: Bytes, x: nat, post: Bytes)
    requires x < U64 && |pre| <= n <= |pre + Varint(x) + post| && buf == (pre + Varint(x) + post)[..n]
    ensures ReadNumber(buf[|pre|..]) == if n - |pre| < |Varint(x)| then Short else Number(x, |Varint(x)|)
  {
    hide Varint, ReadNumber;
    var at := |pre|;
    if n - at < |Varint(x)| {
      assert buf[at..] == Varint(x)[..n - at];
      ShortAt(buf, at, x);
    } else {
      assert buf[at..] == Varint(x) + buf[at + |Varint(x)|..];
      NumberAt(buf, at, x, buf[at + |Varint(x)|..]);
    }
  }

  lemma ShortHeader(buf: Bytes, klen: nat, k: nat, vlen: nat, v: nat, crc: Bytes -> Bytes)
    requires |buf| >= 2 ==>
               || ReadNumber(buf[2..]) == Short
               || (2 + k <= |buf| && ReadNumber(buf[2..]) == Number(klen, k)
                   && (|| ReadNumber(buf[2 + k..]) == Short
                       || (2 + k + v <= |buf| && ReadNumber(buf[2 + k..]) == Number(vlen, v) && ReadNumber(buf[2 + k + v..]) == Short)))
    ensures ReadEntry(buf, crc) == Stop
  {
    hide ReadNumber, Body;
  }

  // ---------------------------------------------------------------- damage

  /** An entry with a key can be read here. */
  predicate Readable(buf: Bytes, crc: Bytes -> Bytes) {
    var r := ReadEntry(buf, crc);
    r.Got? && r.e.key != []
  }

  /** A number of more than 64 bits: nine bytes that say another follows, and a tenth above 1. */
  predicate TooBig(b: Bytes) {
    |b| >= MAX_VARINT_LEN_64 && (forall j :: 0 <= j < 9 ==> b[j] >= 128) && b[9] > 1
  }

  /** One of the three numbers of the header is too big. */
  predicate BadNumber(buf: Bytes) {
    |buf| >= 2 &&
    (|| TooBig(buf[2..])
     || (var k := ReadNumber(buf[2..]);
         k.Number? &&
         (|| TooBig(buf[2 + k.n..])
          || (var v := ReadNumber(buf[2 + k.n..]); v.Number? && TooBig(buf[2 + k.n + v.n..])))))
  }

  /** The two lengths come to 2^32 or more, and as many bytes as they are above it are there. */
  predicate WrapsAround(buf: Bytes) {
    |buf| >= 2 &&
    var k := ReadNumber(buf[2..]);
    k.Number? &&
    var v := ReadNumber(buf[2 + k.n..]);
    v.Number? &&
    var x := ReadNumber(buf[2 + k.n + v.n..]);
    x.Number? &&
    var sum := k.v % U32 + v.v % U32;
    k.v % U32 <= MAX_KEY && U32 <= sum && sum - U32 <= |buf| - (2 + k.n + v.n + x.n)
  }

  /** Nothing can be read from here on, and the reader can tell. */
  predicate Damaged(buf: Bytes, crc: Bytes -> Bytes) {
    !Readable(buf, crc) && !BadNumber(buf) && !WrapsAround(buf)
  }

  lemma {:induction false} OverflowAt(b: Bytes, i: nat)
    requires i < MAX_VARINT_LEN_64
    ensures var n := Uvarint(b, i).1;
            (n < 0 || (n == 0 && |b| == MAX_VARINT_LEN_64 - i)) <==>
            (|b| >= MAX_VARINT_LEN_64 - i && (forall j :: 0 <= j < 9 - i ==> b[j] >= 128) && b[9 - i] > 1)
    decreases |b|
  {
    if b != [] && b[0] >= 128 {
      if i < 9 {
        OverflowAt(b[1..], i + 1);
        assert forall j :: 0 <= j < |b| - 1 ==> b[1..][j] == b[j + 1];
        assert (forall j :: 0 <= j < 9 - i && j < |b| ==> b[j] >= 128) <==>
               (forall j :: 0 <= j < 8 - i && j < |b| - 1 ==> b[1..][j] >= 128) by {
          if forall j :: 0 <= j < 8 - i && j < |b| - 1 ==> b[1..][j] >= 128 {
            forall j | 0 <= j < 9 - i && j < |b| ensures b[j] >= 128 {
              if j > 0 { assert b[1..][j - 1] == b[j]; }
            }
          }
        }
      }
    }
  }

  /** The reader gives up on a number exactly when it is too big. */
  lemma OverflowIff(b: Bytes)
    ensures ReadNumber(b).Overflow? <==> TooBig(b)
  {
    OverflowAt(b, 0);
    hide Uvarint;
  }

  /** Which bytes make the reader fail or panic. */
  lemma FailsIff(buf: Bytes, crc: Bytes -> Bytes)
    ensures ReadEntry(buf, crc).Fail? <==> BadNumber(buf)
    ensures ReadEntry(buf, crc).Panic? <==> WrapsAround(buf)
  {
    hide ReadNumber, TooBig, Body;
    if |buf| >= 2 {
      OverflowIff(buf[2..]);
      var k := ReadNumber(buf[2..]);
      if k.Number? {
        NumberFits(buf[2..]);
        OverflowIff(buf[2 + k.n..]);
        var v := ReadNumber(buf[2 + k.n..]);
        if v.Number? {
          NumberFits(buf[2 + k.n..]);
          OverflowIff(buf[2 + k.n + v.n..]);
          NumberFits(buf[2 + k.n + v.n..]);
          BodyEnds(buf, crc);
        }
      }
    }
  }

  lemma NumberFits(b: Bytes)
    ensures ReadNumber(b).Number? ==> ReadNumber(b).n <= |b|
  {
  }

  lemma BodyEnds(buf: Bytes, crc: Bytes -> Bytes)
    ensures forall hlen: nat, klen: nat, vlen: nat, x: nat {:trigger Body(buf, hlen, klen, vlen, x, crc)} ::
              2 <= hlen <= |buf| ==> !Body(buf, hlen, klen, vlen, x, crc).Fail? && !Body(buf, hlen, klen, vlen, x, crc).Panic?
  {
  }

  /** What is read has its checksum: the last four bytes are that of all bytes before them. Key and value
      are the bytes right before those. */
  lemma GotHasChecksum(buf: Bytes, crc: Bytes -> Bytes)
    requires ReadEntry(buf, crc).Got?
    ensures var r := ReadEntry(buf, crc);
            var n := r.len - CRC_SIZE;
            && 0 < n < r.len <= |buf| && buf[n..r.len] == crc(buf[..n])
            && |r.e.key| + |r.e.value| + 2 <= n && buf[n - |r.e.value|..n] == r.e.value
            && buf[n - |r.e.value| - |r.e.key|..n - |r.e.value|] == r.e.key
            && r.e.meta == buf[0] && r.e.userMeta == buf[1]
  {
    hide ReadNumber;
  }

  /** A whole entry with any payload and any four bytes where its checksum belongs: it is read exactly if
      they are the checksum of what precedes them, and else the log ends. */
  lemma ReadChecked(h: Header, key: Bytes, value: Bytes, sum: Bytes, crc: Bytes -> Bytes, rest: Bytes)
    requires h.Valid() && h.klen == |key| <= MAX_KEY && h.vlen == |value| && h.klen + h.vlen < U32 && |sum| == CRC_SIZE
    ensures var body := Encoded(h) + (key + value);
            ReadEntry(body + sum + rest, crc) ==
            if sum == crc(body) then Got(LogEntry(key, value, h.expiresAt, h.meta, h.userMeta), |body| + CRC_SIZE) else Stop
  {
    var head, tail := Encoded(h), (key + value) + sum + rest;
    assert head[0] == h.meta && head[1] == h.userMeta;
    HeaderFits(h);
    hide Encoded, Body, ReadEntry;
    Grouped(head, key + value, sum, rest);
    ReadHeader(h, tail, crc);
    BodyChecked(head, key, value, h.expiresAt, sum, rest, crc);
  }

  lemma Grouped(a: Bytes, b: Bytes, c: Bytes, d: Bytes)
    ensures a + b + c + d == a + (b + c + d)
  {
  }

  lemma BodyChecked(head: Bytes, key: Bytes, value: Bytes, expiresAt: nat, sum: Bytes, rest: Bytes, crc: Bytes -> Bytes)
    requires |head| >= 2 && |sum| == CRC_SIZE
    ensures var body := head + (key + value);
            Body(body + sum + rest, |head|, |key|, |value|, expiresAt, crc) ==
            if sum == crc(body) then Got(LogEntry(key, value, expiresAt, head[0], head[1]), |body| + CRC_SIZE) else Stop
  {
    var body := head + (key + value);
    var buf, hlen, end := body + sum + rest, |head|, |body|;
    assert buf[..end] == body;
    assert buf[end..end + CRC_SIZE] == sum;
    assert buf[hlen..hlen + |key|] == key;
    assert buf[hlen + |key|..end] == value;
  }

  /** An entry written whole whose checksum is no longer right, be it that the payload or the checksum has
      changed, is damage the reader can tell. */
  lemma CorruptIsDamage(h: Header, key: Bytes, value: Bytes, sum: Bytes, crc: Bytes -> Bytes, rest: Bytes)
    requires h.Valid() && h.klen == |key| <= MAX_KEY && h.vlen == |value| && h.klen + h.vlen < U32 && |sum| == CRC_SIZE
    requires sum != crc(Encoded(h) + (key + value))
    ensures Damaged(Encoded(h) + (key + value) + sum + rest, crc)
  {
    ReadChecked(h, key, value, sum, crc, rest);
    FailsIff(Encoded(h) + (key + value) + sum + rest, crc);
    hide ReadEntry, BadNumber, WrapsAround, Encoded;
  }

  /** A torn entry is damage the reader can tell, at any byte. */
  lemma TornIsDamage(e: LogEntry, crc: Bytes -> Bytes, n: nat)
    requires e.Writable() && IsCrc(crc) && n < |EncodeEntry(e, crc)|
    ensures Damaged(EncodeEntry(e, crc)[..n], crc)
  {
    ReadTorn(e, crc, n);
    FailsIff(EncodeEntry(e, crc)[..n], crc);
    hide ReadEntry, BadNumber, WrapsAround;
  }

  /** A log file is zeroed beyond its end; no checksum makes an entry with a key of that. */
  lemma ReadZeros(crc: Bytes -> Bytes, buf: Bytes)
    requires forall i :: 0 <= i < |buf| ==> buf[i] == 0
    ensures Damaged(buf, crc)
  {
    FailsIff(buf, crc);
    hide BadNumber, WrapsAround;
  }

  /** A length that goes on for eleven bytes: an error, where a broken checksum would end the log. */
  lemma LongNumberFails(crc: Bytes -> Bytes)
    ensures var buf := [0, 0] + seq(10, _ => 255) + [0]; BadNumber(buf) && ReadEntry(buf, crc) == Fail
  {
    var buf: Bytes := [0, 0] + seq(10, _ => 255) + [0];
    assert buf[2..] == seq(10, _ => 255) + [0];
    FailsIff(buf, crc);
    hide ReadEntry;
  }

  /** A key of one byte and a value of 2^32 - 1: nothing is read for the two, and then one byte of it
      is asked for. */
  lemma LengthsWrap(crc: Bytes -> Bytes)
    ensures var buf := [0, 0, 1, 255, 255, 255, 255, 15, 0]; WrapsAround(buf) && ReadEntry(buf, crc) == Panic
  {
    var buf: Bytes := [0, 0, 1, 255, 255, 255, 255, 15, 0];
    var h := Header(1, U32 - 1, 0, 0, 0);
    LargestLength();
    assert buf[2..] == Varint(1) + buf[3..] && buf[3..] == Varint(U32 - 1) + [0] && buf[8..] == Varint(0) + [];
    NumberAt(buf, 2, 1, buf[3..]);
    NumberAt(buf, 3, U32 - 1, [0]);
    NumberAt(buf, 8, 0, []);
    FailsIff(buf, crc);
    hide ReadNumber, ReadEntry;
  }

  lemma LargestLength()
    ensures Varint(U32 - 1) == [255, 255, 255, 255, 15]
  {
    assert Varint(15) == [15] && Varint(2047) == [255, 15] && Varint(262143) == [255, 255, 15];
    assert Varint(33554431) == [255, 255, 255, 15];
  }
}
