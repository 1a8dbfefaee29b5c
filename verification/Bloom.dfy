/** Bloom filters (y/bloom.go). Hashes are 32 bits wide, and so is the arithmetic on them. */
module Blooms {
  import opened Wrappers
  import opened Codec

  function Mask(k: nat): bv8
    requires k < 8
  {
    (1 as bv8) << k
  }

  predicate Bit(f: seq<bv8>, b: nat)
    requires b / 8 < |f|
  {
    f[b / 8] & Mask(b % 8) != 0
  }

  /** Bit `k` counts from the lowest. */
  lemma MaskIs()
    ensures Mask(0) == 1 && Mask(1) == 2 && Mask(2) == 4 && Mask(3) == 8
    ensures Mask(4) == 16 && Mask(5) == 32 && Mask(6) == 64 && Mask(7) == 128
  {
  }

  /** Eight bits to a byte. */
  lemma BitOf(f: seq<bv8>, i: nat, j: nat)
    requires i < |f| && j < 8
    ensures (8 * i + j) / 8 < |f| && (Bit(f, 8 * i + j) <==> f[i] & Mask(j) != 0)
  {
    hide Mask;
    assert (8 * i + j) / 8 == i && (8 * i + j) % 8 == j;
  }

  /** Setting a bit sets that bit and no other. */
  lemma SetBit(x: bv8, k: nat, j: nat)
    requires k < 8 && j < 8
    ensures (x | Mask(k)) & Mask(j) != 0 <==> j == k || x & Mask(j) != 0
  {
  }

  /** h>>17 | h<<15: the two parts have no bit in common. */
  function Delta(h: nat): (d: nat)
    requires h < U32
    ensures d < U32
  {
    h / 0x2_0000 + h % 0x2_0000 * 0x8000
  }

  /** The hash after `j` steps. */
  function Probe(h: nat, j: nat): (p: nat)
    requires h < U32
    ensures p < U32
  {
    if j == 0 then h else (Probe(h, j - 1) + Delta(h)) % U32
  }

  /** The first `k` probes for `h` all find their bit set. */
  /** Probe `j` is the hash and `j` times its rotation, in 32 bits. */
  lemma {:induction false} ProbeIs(h: nat, j: nat)
    requires h < U32
    ensures Probe(h, j) == (h + j * Delta(h)) % U32
  {
    if j > 0 {
      ProbeIs(h, j - 1);
      OneMore(h, Delta(h), j);
    }
  }

  lemma OneMore(h: nat, d: nat, j: nat)
    requires j > 0
    ensures ((h + (j - 1) * d) % U32 + d) % U32 == (h + j * d) % U32
  {
    var a, b := (j - 1) * d, j * d;
    assert b == a + d;
    ModAdd(h + a, h + b, d);
  }

  lemma ModAdd(a: nat, b: nat, d: nat)
    requires b == a + d
    ensures (a % U32 + d) % U32 == b % U32
  {
  }

  /** The rotation by 17 bits to the right: the high fifteen bits come to the bottom. */
  lemma DeltaIsRotation(high: nat, low: nat)
    requires high < 0x8000 && low < 0x2_0000
    ensures high * 0x2_0000 + low < U32 && Delta(high * 0x2_0000 + low) == low * 0x8000 + high
  {
  }

  predicate Found(f: seq<bv8>, h: nat, k: nat, nBits: nat)
    requires h < U32 && |f| > 0 && 0 < nBits <= 8 * (|f| - 1)
  {
    forall j :: 0 <= j < k ==> Bit(f, Probe(h, j) % nBits)
  }

  /** No bit that was set is lost. */
  predicate Grows(f: seq<bv8>, g: seq<bv8>) {
    |f| == |g| && forall b :: 0 <= b < 8 * |f| && Bit(f, b) ==> Bit(g, b)
  }

  lemma StillFound(f: seq<bv8>, g: seq<bv8>, h: nat, k: nat, nBits: nat)
    requires h < U32 && |f| > 0 && 0 < nBits <= 8 * (|f| - 1) && Grows(f, g) && Found(f, h, k, nBits)
    ensures Found(g, h, k, nBits)
  {
  }

  lemma FoundNone(f: seq<bv8>, h: nat, nBits: nat)
    requires h < U32 && |f| > 0 && 0 < nBits <= 8 * (|f| - 1)
    ensures Found(f, h, 0, nBits)
  {
  }

  lemma FoundMore(f: seq<bv8>, h: nat, j: nat, nBits: nat)
    requires h < U32 && |f| > 0 && 0 < nBits <= 8 * (|f| - 1)
    requires Found(f, h, j, nBits) && Bit(f, Probe(h, j) % nBits)
    ensures Found(f, h, j + 1, nBits)
  {
  }

  /** How long a filter is made: a whole number of bytes, at least eight. */
  function Bytes(keys: nat, bitsPerKey: int): (n: nat)
    ensures n >= 8
    ensures var bits := if bitsPerKey <= 0 then 0 else keys * bitsPerKey;
            8 * n >= bits && (n > 8 ==> 8 * n < bits + 8)
  {
    var nBits := keys * (if bitsPerKey < 0 then 0 else bitsPerKey);
    ((if nBits < 64 then 64 else nBits) + 7) / 8
  }

  method SetOne(filter: array<bv8>, bitPos: nat)
    requires bitPos < 8 * filter.Length
    modifies filter
    ensures Grows(old(filter[..]), filter[..]) && Bit(filter[..], bitPos)
    ensures bitPos / 8 < filter.Length - 1 ==> filter[filter.Length - 1] == old(filter[filter.Length - 1])
    ensures forall b :: 0 <= b < 8 * filter.Length && Bit(filter[..], b) ==> b == bitPos || Bit(old(filter[..]), b)
  {
    ghost var before := filter[..];
    filter[bitPos / 8] := filter[bitPos / 8] | Mask(bitPos % 8);
    forall b | 0 <= b < 8 * filter.Length ensures Bit(filter[..], b) <==> b == bitPos || Bit(before, b) {
      if b / 8 == bitPos / 8 { SetBit(before[b / 8], bitPos % 8, b % 8); }
    }
  }

  /** The probes for one key. */
  method SetAll(filter: array<bv8>, h: nat, k: nat, nBits: nat)
    requires h < U32 && filter.Length > 1 && 0 < nBits <= 8 * (filter.Length - 1)
    modifies filter
    ensures Grows(old(filter[..]), filter[..]) && Found(filter[..], h, k, nBits)
  {
    hide Found, Delta, Bit;
    var x, delta := h, Delta(h);
    ghost var before := filter[..];
    FoundNone(before, h, nBits);
    for j := 0 to k
      invariant x == Probe(h, j) && Grows(before, filter[..]) && Found(filter[..], h, j, nBits)
    {
      ghost var f := filter[..];
      var bitPos := x % nBits;
      SetOne(filter, bitPos);
      StillFound(f, filter[..], h, j, nBits);
      FoundMore(filter[..], h, j, nBits);
      x := (x + delta) % U32;
    }
  }

  method SetKeys(filter: array<bv8>, keys: seq<nat>, k: nat, nBits: nat)
    requires (forall i :: 0 <= i < |keys| ==> keys[i] < U32) && filter.Length > 1
    requires 0 < nBits <= 8 * (filter.Length - 1)
    modifies filter
    ensures AllFound(filter[..], keys, k, nBits)
  {
    for i := 0 to |keys|
      invariant forall n :: 0 <= n < i ==> Found(filter[..], keys[n], k, nBits)
    {
      ghost var before := filter[..];
      SetAll(filter, keys[i], k, nBits);
      forall n | 0 <= n < i ensures Found(filter[..], keys[n], k, nBits) {
        StillFound(before, filter[..], keys[n], k, nBits);
      }
    }
  }

  /** The last byte is not one of those with the bits. */
  lemma LastByte(f: seq<bv8>, x: bv8, h: nat, k: nat, nBits: nat)
    requires h < U32 && |f| > 0 && 0 < nBits <= 8 * (|f| - 1) && Found(f, h, k, nBits)
    ensures Found(f[|f| - 1 := x], h, k, nBits)
  {
  }

  /** The number of probes is in the last byte. */
  function Probes(f: seq<bv8>): nat
    requires f != []
  {
    f[|f| - 1] as nat
  }

  lemma ByteRoundTrip(k: nat)
    requires k <= 30
    ensures (k as bv8) as nat == k
  {
  }

  /** The number of bits as MayContain computes it. */
  function Asked(f: seq<bv8>): (n: nat)
    requires |f| >= 2
    ensures n <= 8 * (|f| - 1)
  {
    8 * (|f| - 1) % U32
  }

  ghost predicate AllFound(f: seq<bv8>, keys: seq<nat>, k: nat, nBits: nat)
    requires forall i :: 0 <= i < |keys| ==> keys[i] < U32
    requires |f| > 0 && 0 < nBits <= 8 * (|f| - 1)
  {
    forall n :: 0 <= n < |keys| ==> Found(f, keys[n], k, nBits)
  }

  /** Every key added is found; the last byte is the number of probes. */
  ghost predicate IsFilter(f: seq<bv8>, keys: seq<nat>)
    requires forall i :: 0 <= i < |keys| ==> keys[i] < U32
  {
    && |f| >= 2 && 1 <= Probes(f) <= 30
    && (keys != [] ==> Asked(f) > 0 && AllFound(f, keys, Probes(f), Asked(f)))
  }

  lemma Finished(f: seq<bv8>, keys: seq<nat>, k: nat)
    requires |f| >= 2 && 1 <= k <= 30
    requires forall i :: 0 <= i < |keys| ==> keys[i] < U32
    requires keys != [] ==> Asked(f) > 0 && AllFound(f, keys, k, Asked(f))
    ensures IsFilter(f[|f| - 1 := k as bv8], keys)
  {
    var g := f[|f| - 1 := k as bv8];
    ByteRoundTrip(k);
    assert Probes(g) == k;
    forall n | 0 <= n < |keys| ensures Found(g, keys[n], k, Asked(g)) {
      LastByte(f, k as bv8, keys[n], k, Asked(f));
    }
  }

  /** appendFilter on an empty buffer; `factor` is what the floating-point product bitsPerKey * 0.69
      comes to. None is the division by zero when the number of bits is 0 in 32 bits. */
  method NewFilter(keys: seq<nat>, bitsPerKey: int, factor: nat) returns (f: Option<seq<bv8>>)
    requires forall i :: 0 <= i < |keys| ==> keys[i] < U32
    ensures f.None? <==> keys != [] && 8 * Bytes(|keys|, bitsPerKey) % U32 == 0
    ensures f.Some? ==> IsFilter(f.value, keys) && |f.value| == Bytes(|keys|, bitsPerKey) + 1
    ensures f.Some? ==> f.value[|f.value| - 1] as nat == if factor < 1 then 1 else if factor > 30 then 30 else factor
  {
    hide Found, Probes, AllFound, IsFilter;
    var bits := if bitsPerKey < 0 then 0 else bitsPerKey;
    var k := factor;
    if k < 1 {
      k := 1;
    }
    if k > 30 {
      k := 30;
    }
    var nBits := |keys| * bits;
    if nBits < 64 {
      nBits := 64;
    }
    var nBytes := (nBits + 7) / 8;
    assert nBytes == Bytes(|keys|, bitsPerKey);
    hide Bytes;
    nBits := nBytes * 8;
    var filter := new bv8[nBytes + 1](_ => 0);
    if |keys| > 0 {
      if nBits % U32 == 0 {
        return None;
      }
      SetKeys(filter, keys, k, nBits % U32);
    }
    ghost var done := filter[..];
    Finished(done, keys, k);
    filter[nBytes] := k as bv8;
    assert filter[..] == done[|done| - 1 := k as bv8];
    f := Some(filter[..]);
  }

  /** 2^26 keys with 64 bits each: 2^32 bits, which are none in 32 bits. */
  method TooManyBits() returns (keys: seq<nat>, f: Option<seq<bv8>>)
    ensures |keys| == 0x400_0000 && f == None
  {
    keys := seq(0x400_0000, _ => 0);
    assert Bytes(0x400_0000, 64) == 0x2000_0000;
    f := NewFilter(keys, 64, 44);
  }

  lemma NotFound(f: seq<bv8>, h: nat, k: nat, nBits: nat, j: nat)
    requires h < U32 && |f| > 0 && 0 < nBits <= 8 * (|f| - 1) && j < k && !Bit(f, Probe(h, j) % nBits)
    ensures !Found(f, h, k, nBits)
  {
  }

  /** None is the division by zero. */
  method MayContain(f: seq<bv8>, h: nat) returns (r: Option<bool>)
    requires h < U32
    ensures |f| < 2 ==> r == Some(false)
    ensures |f| >= 2 && Probes(f) > 30 ==> r == Some(true)
    ensures |f| >= 2 && Probes(f) <= 30 && Asked(f) == 0 ==> r == if Probes(f) == 0 then Some(true) else None
    ensures |f| >= 2 && Probes(f) <= 30 && Asked(f) > 0 ==> r == Some(Found(f, h, Probes(f), Asked(f)))
  {
    hide Probes, Found, Asked;
    if |f| < 2 {
      return Some(false);
    }
    var k := Probes(f);
    if k > 30 {
      return Some(true);
    }
    var nBits := Asked(f);
    if nBits == 0 {
      return if k > 0 then None else Some(true);
    }
    var found := Check(f, h, k, nBits);
    r := Some(found);
  }

  method Check(f: seq<bv8>, h: nat, k: nat, nBits: nat) returns (r: bool)
    requires h < U32 && |f| > 0 && 0 < nBits <= 8 * (|f| - 1)
    ensures r == Found(f, h, k, nBits)
  {
    hide Found, Delta, Bit;
    var x, delta := h, Delta(h);
    FoundNone(f, h, nBits);
    for j := 0 to k
      invariant x == Probe(h, j) && Found(f, h, j, nBits)
    {
      var bitPos := x % nBits;
      if !Bit(f, bitPos) {
        NotFound(f, h, k, nBits, j);
        return false;
      }
      FoundMore(f, h, j, nBits);
      x := (x + delta) % U32;
    }
    r := true;
  }

  /** A filter never denies a key that was added, for any number of keys and of bits it can be built
      with. */
  method NoFalseNegatives(keys: seq<nat>, bitsPerKey: int, factor: nat, h: nat) returns (r: Option<bool>)
    requires (forall i :: 0 <= i < |keys| ==> keys[i] < U32) && h < U32
    ensures h in keys ==> (r.None? <==> 8 * Bytes(|keys|, bitsPerKey) % U32 == 0)
    ensures h in keys && r.Some? ==> r.value
  {
    var f := NewFilter(keys, bitsPerKey, factor);
    if f.None? {
      return None;
    }
    r := MayContain(f.value, h);
  }
}
