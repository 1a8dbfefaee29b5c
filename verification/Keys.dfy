/** Keys on disk: the user key followed by the version, inverted and big-endian, so that comparing
    the bytes puts newer versions first (y/y.go). `RankPreservesOrder` is what allows the other
    modules to use integers for user keys. */
module Keys {
  import opened Codec

  type Bytes = seq<Byte>

  const MAX_U64: nat := 0xFFFF_FFFF_FFFF_FFFF

  /** bytes.Compare: the sign of the lexicographic comparison. */
  function Compare(a: Bytes, b: Bytes): (r: int)
    ensures -1 <= r <= 1
  {
    if a == [] then (if b == [] then 0 else -1)
    else if b == [] then 1
    else if a[0] != b[0] then (if a[0] < b[0] then -1 else 1)
    else Compare(a[1..], b[1..])
  }

  lemma {:induction false} CompareIsOrder(a: Bytes, b: Bytes)
    ensures Compare(a, b) == 0 <==> a == b
    ensures Compare(b, a) == -Compare(a, b)
  {
    if a != [] && b != [] && a[0] == b[0] {
      CompareIsOrder(a[1..], b[1..]);
      assert a == [a[0]] + a[1..] && b == [b[0]] + b[1..];
    }
  }

  lemma {:induction false} CompareTrans(a: Bytes, b: Bytes, c: Bytes)
    requires Compare(a, b) < 0 && Compare(b, c) < 0
    ensures Compare(a, c) < 0
  {
    if a != [] && b != [] && c != [] && a[0] == b[0] == c[0] {
      CompareTrans(a[1..], b[1..], c[1..]);
    }
  }

  // ---------------------------------------------------------------- fixed-width integers

  function Pow256(n: nat): (r: nat)
    ensures r >= 1
  {
    if n == 0 then 1 else 256 * Pow256(n - 1)
  }

  /** `x` in `n` bytes, the highest first. */
  function BigEndian(x: nat, n: nat): (r: Bytes)
    ensures |r| == n
  {
    if n == 0 then [] else BigEndian(x / 256, n - 1) + [x % 256]
  }

  function FromBigEndian(b: Bytes): nat {
    if b == [] then 0 else 256 * FromBigEndian(b[..|b| - 1]) + b[|b| - 1]
  }

  lemma {:induction false} BigEndianRoundTrip(x: nat, n: nat)
    requires x < Pow256(n)
    ensures FromBigEndian(BigEndian(x, n)) == x
  {
    if n > 0 {
      BigEndianRoundTrip(x / 256, n - 1);
      assert BigEndian(x, n)[..n - 1] == BigEndian(x / 256, n - 1);
    }
  }

  lemma {:induction false} FromBigEndianBound(b: Bytes)
    ensures FromBigEndian(b) < Pow256(|b|)
  {
    if b != [] { FromBigEndianBound(b[..|b| - 1]); }
  }

  /** The order of the encodings is the order of the numbers. */
  lemma {:induction false} BigEndianOrder(x: nat, y: nat, n: nat)
    requires x < y < Pow256(n)
    ensures Compare(BigEndian(x, n), BigEndian(y, n)) < 0
  {
    var a, b := BigEndian(x / 256, n - 1), BigEndian(y / 256, n - 1);
    if x / 256 == y / 256 {
      CommonPrefix(a, [x % 256], [y % 256]);
    } else {
      BigEndianOrder(x / 256, y / 256, n - 1);
      SmallerPrefix(a, b, [x % 256], [y % 256]);
    }
  }

  lemma {:induction false} CommonPrefix(a: Bytes, x: Bytes, y: Bytes)
    ensures Compare(a + x, a + y) == Compare(x, y)
  {
    if a == [] {
      assert a + x == x && a + y == y;
    } else {
      assert (a + x)[1..] == a[1..] + x && (a + y)[1..] == a[1..] + y;
      CommonPrefix(a[1..], x, y);
    }
  }

  lemma {:induction false} SmallerPrefix(a: Bytes, b: Bytes, x: Bytes, y: Bytes)
    requires |a| == |b| && Compare(a, b) < 0
    ensures Compare(a + x, b + y) < 0
  {
    assert (a + x)[1..] == a[1..] + x && (b + y)[1..] == b[1..] + y;
    if a[0] == b[0] { SmallerPrefix(a[1..], b[1..], x, y); }
  }

  // ---------------------------------------------------------------- keys with a version

  function KeyWithTs(key: Bytes, ts: nat): (r: Bytes)
    requires ts <= MAX_U64
    ensures |r| == |key| + 8
  {
    key + BigEndian(MAX_U64 - ts, 8)
  }

  function ParseTs(key: Bytes): (ts: nat)
    ensures ts <= MAX_U64
  {
    if |key| <= 8 then 0
    else
      var tail := key[|key| - 8..];
      FromBigEndianBound(tail);
      assert Pow256(8) == MAX_U64 + 1 by { Pow256Is(); }
      MAX_U64 - FromBigEndian(tail)
  }

  function ParseKey(key: Bytes): Bytes {
    if |key| < 8 then [] else key[..|key| - 8]
  }

  predicate SameKey(src: Bytes, dst: Bytes) {
    |src| == |dst| && ParseKey(src) == ParseKey(dst)
  }

  function CompareKeys(a: Bytes, b: Bytes): int
    requires |a| >= 8 && |b| >= 8
  {
    var c := Compare(a[..|a| - 8], b[..|b| - 8]);
    if c != 0 then c else Compare(a[|a| - 8..], b[|b| - 8..])
  }

  lemma Pow256Is()
    ensures Pow256(8) == MAX_U64 + 1
  {
  }

  /** Both parts can be read back. An empty key loses its version: ParseTs takes eight bytes for no
      version at all. */
  lemma KeyRoundTrip(key: Bytes, ts: nat)
    requires ts <= MAX_U64
    ensures ParseKey(KeyWithTs(key, ts)) == key
    ensures ParseTs(KeyWithTs(key, ts)) == if key == [] then 0 else ts
  {
    var tail := BigEndian(MAX_U64 - ts, 8);
    Pow256Is();
    BigEndianRoundTrip(MAX_U64 - ts, 8);
    assert KeyWithTs(key, ts)[|key|..] == tail;
    assert KeyWithTs(key, ts)[..|key|] == key;
  }

  /** User keys in ascending order, the versions of one key from the newest down. */
  lemma CompareKeysIs(a: Bytes, s: nat, b: Bytes, t: nat)
    requires s <= MAX_U64 && t <= MAX_U64
    ensures var c := CompareKeys(KeyWithTs(a, s), KeyWithTs(b, t));
            && (c < 0 <==> Compare(a, b) < 0 || (a == b && s > t))
            && (c == 0 <==> a == b && s == t)
  {
    CompareIsOrder(a, b);
    VersionOrder(s, t);
    hide Compare, BigEndian;
    var x, y := KeyWithTs(a, s), KeyWithTs(b, t);
    assert x[..|a|] == a && y[..|b|] == b;
    assert x[|a|..] == BigEndian(MAX_U64 - s, 8) && y[|b|..] == BigEndian(MAX_U64 - t, 8);
  }

  lemma VersionOrder(s: nat, t: nat)
    requires s <= MAX_U64 && t <= MAX_U64
    ensures var c := Compare(BigEndian(MAX_U64 - s, 8), BigEndian(MAX_U64 - t, 8)); (c < 0 <==> s > t) && (c == 0 <==> s == t)
  {
    Pow256Is();
    CompareIsOrder(BigEndian(MAX_U64 - s, 8), BigEndian(MAX_U64 - t, 8));
    if s > t { BigEndianOrder(MAX_U64 - s, MAX_U64 - t, 8); }
    if s < t { BigEndianOrder(MAX_U64 - t, MAX_U64 - s, 8); }
    hide Compare, BigEndian;
  }

  lemma SameKeyIs(a: Bytes, s: nat, b: Bytes, t: nat)
    requires s <= MAX_U64 && t <= MAX_U64
    ensures SameKey(KeyWithTs(a, s), KeyWithTs(b, t)) <==> a == b
  {
  }

  // ---------------------------------------------------------------- integers for user keys

  /** How many of `keys` come before `k`. */
  function Rank(keys: set<Bytes>, k: Bytes): nat {
    |set x | x in keys && Compare(x, k) < 0|
  }

  /** The keys of any database can be numbered in their own order. */
  lemma RankPreservesOrder(keys: set<Bytes>, a: Bytes, b: Bytes)
    requires a in keys && b in keys
    ensures Rank(keys, a) < Rank(keys, b) <==> Compare(a, b) < 0
    ensures Rank(keys, a) == Rank(keys, b) <==> a == b
  {
    CompareIsOrder(a, b);
    if Compare(a, b) < 0 { RankGrows(keys, a, b); }
    if Compare(b, a) < 0 { RankGrows(keys, b, a); }
  }

  lemma RankGrows(keys: set<Bytes>, a: Bytes, b: Bytes)
    requires a in keys && Compare(a, b) < 0
    ensures Rank(keys, a) < Rank(keys, b)
  {
    var below := set x | x in keys && Compare(x, a) < 0;
    var more := set x | x in keys && Compare(x, b) < 0;
    CompareIsOrder(a, a);
    forall x | x in below ensures x in more {
      CompareTrans(x, a, b);
    }
    Smaller(below + {a}, more);
  }

  lemma {:induction false} Smaller(s: set<Bytes>, t: set<Bytes>)
    requires s <= t
    ensures |s| <= |t|
  {
    if s != {} {
      var x :| x in s;
      Smaller(s - {x}, t - {x});
    }
  }
}
