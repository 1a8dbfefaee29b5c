/** Varints and what is encoded with them: the header of a log entry (structs.go) and a ValueStruct
    (y/iterator.go). */
module Codec {
  type Byte = x: int | 0 <= x < 256

  const U32: nat := 0x1_0000_0000
  const U64: nat := 0x1_0000_0000_0000_0000
  const MAX_VARINT_LEN_64: nat := 10
  const MAX_HEADER_SIZE: nat := 22

  // ---------------------------------------------------------------- varints

  /** Seven bits a byte, the lowest first; all bytes but the last have their top bit set. */
  function Varint(x: nat): seq<Byte> {
    if x < 128 then [x] else [x % 128 + 128] + Varint(x / 128)
  }

  /** binary.Uvarint on bytes `i` and following of a number: the value of these bytes, and how many
      there are; 0 if the buffer ends too early, negative if the number does not fit into 64 bits. */
  function Uvarint(buf: seq<Byte>, i: nat): (r: (nat, int))
    requires i <= MAX_VARINT_LEN_64
    ensures r.1 <= |buf|
    decreases |buf|
  {
    if buf == [] then (0, 0)
    else if i == MAX_VARINT_LEN_64 then (0, -(i + 1))
    else if buf[0] < 128 then (if i == MAX_VARINT_LEN_64 - 1 && buf[0] > 1 then (0, -(i + 1)) else (buf[0], 1))
    else
      var (v, n) := Uvarint(buf[1..], i + 1);
      if n <= 0 then (0, n) else (buf[0] - 128 + 128 * v, n + 1)
  }

  /** The number of which these are the digits to the base 128, the lowest first, in the low seven bits. */
  function Digits(b: seq<Byte>): nat {
    if b == [] then 0 else b[0] % 128 + 128 * Digits(b[1..])
  }

  /** The digits of the number, none more than it has; all but the last have the high bit set. */
  lemma {:induction false} VarintIsDigits(x: nat)
    ensures var v := Varint(x);
            && v != [] && Digits(v) == x && v[|v| - 1] < 128 && (|v| > 1 ==> v[|v| - 1] > 0)
            && forall i :: 0 <= i < |v| - 1 ==> v[i] >= 128
  {
    var v := Varint(x);
    if x < 128 {
      assert v[1..] == [];
    } else {
      VarintIsDigits(x / 128);
      assert v[1..] == Varint(x / 128);
      assert forall i :: 1 <= i < |v| ==> v[i] == v[1..][i - 1];
    }
  }

  function Pow128(k: nat): (r: nat)
    ensures r >= 1
  {
    if k == 0 then 1 else 128 * Pow128(k - 1)
  }

  lemma {:induction false} VarintSize(x: nat, k: nat)
    requires x < Pow128(k) && k >= 1
    ensures 1 <= |Varint(x)| <= k
  {
    if x >= 128 {
      assert Pow128(k) == 128 * Pow128(k - 1) && Pow128(0) == 1;
      VarintSize(x / 128, k - 1);
    }
  }

  /** Any number of 64 bits can be read back, whatever follows it. */
  lemma {:induction false} VarintRoundTrip(x: nat, rest: seq<Byte>, i: nat)
    requires i < MAX_VARINT_LEN_64 && x * Pow128(i) < U64
    ensures Uvarint(Varint(x) + rest, i) == (x, |Varint(x)|)
  {
    NinthByte(x, i);
    if x >= 128 {
      assert x * Pow128(i) == (x / 128) * (128 * Pow128(i)) + (x % 128) * Pow128(i) by { Distribute(x, Pow128(i)); }
      assert Pow128(i + 1) == 128 * Pow128(i);
      VarintRoundTrip(x / 128, rest, i + 1);
      assert (Varint(x) + rest)[1..] == Varint(x / 128) + rest;
    }
  }

  lemma Distribute(x: nat, p: nat)
    ensures x * p == (x / 128) * (128 * p) + (x % 128) * p
    ensures (x % 128) * p >= 0
  {
  }

  /** 64 bits end in the tenth byte, which is 0 or 1. */
  lemma NinthByte(x: nat, i: nat)
    requires i < MAX_VARINT_LEN_64 && x * Pow128(i) < U64
    ensures i == MAX_VARINT_LEN_64 - 1 ==> x <= 1
  {
    if i == MAX_VARINT_LEN_64 - 1 {
      Powers();
      AtLeast(x, Pow128(9));
    }
  }

  lemma AtLeast(x: nat, p: nat)
    ensures x <= 1 || x * p >= 2 * p
  {
  }

  lemma Powers()
    ensures Pow128(5) == 0x8_0000_0000 && Pow128(9) == 0x8000_0000_0000_0000 && Pow128(10) == 0x40_0000_0000_0000_0000
  {
  }

  lemma VarintSizes(x: nat)
    ensures x < U32 ==> 1 <= |Varint(x)| <= 5
    ensures x < U64 ==> 1 <= |Varint(x)| <= 10
  {
    Powers();
    if x < U32 { VarintSize(x, 5); }
    if x < U64 { VarintSize(x, 10); }
  }

  /** sizeVarint, which counts shifts by seven bits. */
  method SizeVarint(x: nat) returns (n: nat)
    ensures n == |Varint(x)|
  {
    var y := x;
    n := 0;
    while true
      invariant n + |Varint(y)| == |Varint(x)|
      decreases y
    {
      n := n + 1;
      if y / 128 == 0 {
        return;
      }
      y := y / 128;
    }
  }

  /** binary.PutUvarint into a buffer, from index `at` on. */
  method PutUvarint(buf: array<Byte>, at: nat, x: nat) returns (n: nat)
    requires at + |Varint(x)| <= buf.Length
    modifies buf
    ensures n == |Varint(x)| && buf[at..at + n] == Varint(x)
    ensures buf[..at] == old(buf[..at]) && buf[at + n..] == old(buf[at + n..])
  {
    ghost var all := Varint(x);
    var y := x;
    n := 0;
    while y >= 128
      invariant n < |all| && all[n..] == Varint(y)
      invariant forall j :: 0 <= j < n ==> buf[at + j] == all[j]
      invariant forall j :: 0 <= j < buf.Length && !(at <= j < at + n) ==> buf[j] == old(buf[j])
    {
      VarintStep(all, n, y);
      buf[at + n] := y % 128 + 128;
      y := y / 128;
      n := n + 1;
    }
    VarintStep(all, n, y);
    buf[at + n] := y;
    n := n + 1;
  }

  lemma VarintStep(all: seq<Byte>, n: nat, y: nat)
    requires n < |all| && all[n..] == Varint(y)
    ensures if y < 128 then all[n] == y && n + 1 == |all|
            else all[n] == y % 128 + 128 && n + 1 < |all| && all[n + 1..] == Varint(y / 128)
  {
  }

  /** One byte of the decoding loop. */
  lemma UvarintStep(buf: seq<Byte>, i: nat)
    requires i <= |buf| && i <= MAX_VARINT_LEN_64
    ensures Uvarint(buf[i..], i) ==
              if i == |buf| then (0, 0)
              else if i == MAX_VARINT_LEN_64 then (0, -(i + 1))
              else if buf[i] < 128 then (if i == MAX_VARINT_LEN_64 - 1 && buf[i] > 1 then (0, -(i + 1)) else (buf[i] as nat, 1))
              else
                var (v, n) := Uvarint(buf[i + 1..], i + 1);
                if n <= 0 then (0, n) else (buf[i] - 128 + 128 * v, n + 1)
  {
  }

  /** binary.Uvarint: `place` is the weight of the next byte. */
  method ReadUvarint(buf: seq<Byte>) returns (x: nat, n: int)
    ensures (x, n) == Uvarint(buf, 0)
  {
    assert buf[0..] == buf;
    x := 0;
    var place: nat := 1;
    ghost var all := Uvarint(buf, 0);
    hide Uvarint;
    for i := 0 to |buf|
      invariant i <= MAX_VARINT_LEN_64
      invariant var (v, m) := Uvarint(buf[i..], i); all == if m <= 0 then (0, m) else (x + place * v, i + m)
    {
      UvarintStep(buf, i);
      if i == MAX_VARINT_LEN_64 {
        return 0, -(i + 1);
      }
      var b := buf[i];
      if b < 128 {
        if i == MAX_VARINT_LEN_64 - 1 && b > 1 {
          return 0, -(i + 1);
        }
        return x + place * b, i + 1;
      }
      Weigh(x, place, b - 128, Uvarint(buf[i + 1..], i + 1).0);
      x, place := x + (b - 128) * place, 128 * place;
    }
    UvarintStep(buf, |buf|);
    return 0, 0;
  }

  lemma Weigh(x: nat, place: nat, b: nat, v: nat)
    ensures x + place * (b + 128 * v) == x + b * place + (128 * place) * v
  {
  }

  // ---------------------------------------------------------------- the header of a log entry

  datatype Header = Header(klen: nat, vlen: nat, expiresAt: nat, meta: Byte, userMeta: Byte) {
    predicate Valid() {
      klen < U32 && vlen < U32 && expiresAt < U64
    }
  }

  function Encoded(h: Header): seq<Byte> {
    [h.meta, h.userMeta] + Varint(h.klen) + Varint(h.vlen) + Varint(h.expiresAt)
  }

  /** Encode never needs more than 22 bytes. */
  lemma HeaderFits(h: Header)
    requires h.Valid()
    ensures 5 <= |Encoded(h)| <= MAX_HEADER_SIZE
  {
    VarintSizes(h.klen);
    VarintSizes(h.vlen);
    VarintSizes(h.expiresAt);
  }

  method EncodeHeader(h: Header, out: array<Byte>) returns (index: nat)
    requires h.Valid() && out.Length >= MAX_HEADER_SIZE
    modifies out
    ensures index == |Encoded(h)| && index <= MAX_HEADER_SIZE && out[..index] == Encoded(h)
    ensures out[..index] == [h.meta, h.userMeta] + Varint(h.klen) + Varint(h.vlen) + Varint(h.expiresAt)
    ensures forall j :: index <= j < out.Length ==> out[j] == old(out[j])
  {
    HeaderFits(h);
    hide Varint;
    out[0], out[1] := h.meta, h.userMeta;
    index := 2;
    index := Append(out, index, h.klen, [h.meta, h.userMeta]);
    index := Append(out, index, h.vlen, [h.meta, h.userMeta] + Varint(h.klen));
    index := Append(out, index, h.expiresAt, [h.meta, h.userMeta] + Varint(h.klen) + Varint(h.vlen));
  }

  method Append(out: array<Byte>, at: nat, x: nat, ghost before: seq<Byte>) returns (index: nat)
    requires at + |Varint(x)| <= out.Length && out[..at] == before
    modifies out
    ensures index == at + |Varint(x)| && out[..index] == before + Varint(x)
    ensures forall j :: index <= j < out.Length ==> out[j] == old(out[j])
  {
    hide Varint;
    var n := PutUvarint(out, at, x);
    index := at + n;
    assert out[..index] == out[..at] + out[at..index];
    assert forall j :: index <= j < out.Length ==> out[j] == out[index..][j - index];
  }

  /** Three numbers one after the other; nothing if one is cut short or does not fit. */
  function Decoded(buf: seq<Byte>): (Header, int)
    requires |buf| >= 2
  {
    var (klen, k) := Uvarint(buf[2..], 0);
    var none := (Header(0, 0, 0, buf[0], buf[1]), 0);
    if k <= 0 then none else
    var (vlen, v) := Uvarint(buf[2 + k..], 0);
    if v <= 0 then none else
    var (expiresAt, e) := Uvarint(buf[2 + k + v..], 0);
    if e <= 0 then none else (Header(klen % U32, vlen % U32, expiresAt, buf[0], buf[1]), 2 + k + v + e)
  }

  /** Nothing is decoded, and the index is 0, exactly if one of the three numbers cannot be read where it
      would be. */
  lemma NothingDecoded(buf: seq<Byte>)
    requires |buf| >= 2
    ensures Decoded(buf).1 == 0 ==> Decoded(buf).0 == Header(0, 0, 0, buf[0], buf[1])
    ensures Decoded(buf).1 == 0 <==>
            var k := Uvarint(buf[2..], 0).1;
            k <= 0 ||
            var v := Uvarint(buf[2 + k..], 0).1;
            v <= 0 || Uvarint(buf[2 + k + v..], 0).1 <= 0
    ensures Decoded(buf).1 >= 0
  {
    hide Uvarint;
  }

  /** Decode; klen and vlen are cut to 32 bits. Bytes that Encode did not write may be refused. */
  method DecodeHeader(buf: seq<Byte>) returns (h: Header, index: int)
    requires |buf| >= 2
    ensures (h, index) == Decoded(buf)
  {
    hide Uvarint;
    h, index := Header(0, 0, 0, buf[0], buf[1]), 0;
    var klen, k := ReadUvarint(buf[2..]);
    if k <= 0 {
      return;
    }
    var vlen, v := ReadUvarint(buf[2 + k..]);
    if v <= 0 {
      return;
    }
    var expiresAt, e := ReadUvarint(buf[2 + k + v..]);
    if e <= 0 {
      return;
    }
    h, index := Header(klen % U32, vlen % U32, expiresAt, buf[0], buf[1]), 2 + k + v + e;
  }

  lemma HeaderRoundTrip(h: Header, rest: seq<Byte>)
    requires h.Valid()
    ensures |Encoded(h) + rest| >= 2 && Decoded(Encoded(h) + rest) == (h, |Encoded(h)|)
  {
    hide Varint, Uvarint, Encoded, Decoded;
    var r2 := Varint(h.expiresAt) + rest;
    var r1 := Varint(h.vlen) + r2;
    var buf, k, v, e := Encoded(h) + rest, |Varint(h.klen)|, |Varint(h.vlen)|, |Varint(h.expiresAt)|;
    Layout(h, rest, r1, r2);
    ReadAt(buf, 2, h.klen, r1);
    ReadAt(buf, 2 + k, h.vlen, r2);
    ReadAt(buf, 2 + k + v, h.expiresAt, rest);
    DecodedIs(buf, h, k, v, e);
  }

  lemma ReadAt(buf: seq<Byte>, at: nat, x: nat, rest: seq<Byte>)
    requires x < U64 && at <= |buf| && buf[at..] == Varint(x) + rest
    ensures Uvarint(buf[at..], 0) == (x, |Varint(x)|) && 1 <= |Varint(x)|
  {
    VarintSizes(x);
    VarintRoundTrip(x, rest, 0);
  }

  lemma DecodedIs(buf: seq<Byte>, h: Header, k: nat, v: nat, e: nat)
    requires h.Valid() && 1 <= k && 1 <= v && 1 <= e && 2 + k + v <= |buf| && buf[0] == h.meta && buf[1] == h.userMeta
    requires Uvarint(buf[2..], 0) == (h.klen, k) && Uvarint(buf[2 + k..], 0) == (h.vlen, v)
    requires Uvarint(buf[2 + k + v..], 0) == (h.expiresAt, e)
    ensures Decoded(buf) == (h, 2 + k + v + e)
  {
  }

  lemma Layout(h: Header, rest: seq<Byte>, r1: seq<Byte>, r2: seq<Byte>)
    requires r2 == Varint(h.expiresAt) + rest && r1 == Varint(h.vlen) + r2
    ensures var buf, k, v := Encoded(h) + rest, |Varint(h.klen)|, |Varint(h.vlen)|;
            && 2 + k + v <= |Encoded(h)| == 2 + k + v + |Varint(h.expiresAt)| && buf[0] == h.meta && buf[1] == h.userMeta
            && buf[2..] == Varint(h.klen) + r1 && buf[2 + k..] == r1 && buf[2 + k + v..] == r2
  {
    hide Varint;
    var buf := Encoded(h) + rest;
    assert buf == [h.meta, h.userMeta] + (Varint(h.klen) + r1);
    After(buf, 2, h.klen, r1);
    After(buf, 2 + |Varint(h.klen)|, h.vlen, r2);
  }

  lemma After(buf: seq<Byte>, at: nat, x: nat, rest: seq<Byte>)
    requires at <= |buf| && buf[at..] == Varint(x) + rest
    ensures at + |Varint(x)| <= |buf| && buf[at + |Varint(x)|..] == rest
  {
  }

  // ---------------------------------------------------------------- ValueStruct

  datatype Value = Value(meta: Byte, userMeta: Byte, expiresAt: nat, value: seq<Byte>)

  function EncodedValue(v: Value): seq<Byte> {
    [v.meta, v.userMeta] + Varint(v.expiresAt) + v.value
  }

  method EncodedSize(v: Value) returns (size: nat)
    ensures size == |EncodedValue(v)|
  {
    var enc := SizeVarint(v.expiresAt);
    size := |v.value| + 2 + enc;
  }

  /** Decode takes whatever is left as the value. */
  method DecodeValue(b: seq<Byte>) returns (v: Value)
    requires |b| >= 2 && Uvarint(b[2..], 0).1 >= 0
    ensures v == DecodedValue(b)
  {
    var expiresAt, sz := ReadUvarint(b[2..]);
    v := Value(b[0], b[1], expiresAt, b[2 + sz..]);
  }

  function DecodedValue(b: seq<Byte>): Value
    requires |b| >= 2 && Uvarint(b[2..], 0).1 >= 0
  {
    var (expiresAt, sz) := Uvarint(b[2..], 0);
    Value(b[0], b[1], expiresAt, b[2 + sz..])
  }

  lemma ValueRoundTrip(v: Value)
    requires v.expiresAt < U64
    ensures var b := EncodedValue(v); |b| >= 2 && Uvarint(b[2..], 0).1 >= 0 && DecodedValue(b) == v
    ensures EncodedValue(v) == [v.meta, v.userMeta] + (Varint(v.expiresAt) + v.value)
  {
    var b := EncodedValue(v);
    assert b == [v.meta, v.userMeta] + (Varint(v.expiresAt) + v.value);
    assert b[2..] == Varint(v.expiresAt) + v.value;
    ReadAt(b, 2, v.expiresAt, v.value);
    hide Varint, Uvarint;
    After(b, 2, v.expiresAt, v.value);
  }
}
