/** Facts about sequences of any type. */
module Sequences {
  lemma Assoc<T>(a: seq<T>, b: seq<T>, c: seq<T>)
    ensures a + b + c == a + (b + c)
  {
  }

  lemma TakeFirst<T>(a: seq<T>, b: seq<T>, k: nat)
    requires k <= |a|
    ensures (a + b)[..k] == a[..k]
  {
  }

  lemma TakeJoined<T>(a: seq<T>, b: seq<T>, k: nat)
    requires |a| <= k <= |a| + |b|
    ensures (a + b)[..k] == a + b[..k - |a|]
  {
  }

  lemma DropJoined<T>(a: seq<T>, b: seq<T>)
    ensures (a + b)[|a|..] == b
  {
  }

  lemma UnitLeft<T>(none: seq<T>, b: seq<T>)
    requires none == []
    ensures none + b == b
  {
  }

  lemma AllOf<T>(a: seq<T>)
    ensures a[..|a|] == a
  {
  }

  lemma UnitRight<T>(a: seq<T>)
    ensures a + [] == a
  {
  }

  lemma PrefixJoined<T>(head: seq<T>, a: seq<T>, b: seq<T>, c: seq<T>)
    requires a <= b
    ensures (head + (b + c))[..|head| + |a|] == head + a && |head| + |a| <= |head + (b + c)|
  {
  }

  lemma SliceOfSlice<T>(s: seq<T>, a: nat, b: nat, c: nat, d: nat)
    requires a <= b <= |s| && c <= d <= b - a
    ensures s[a..b][c..d] == s[a + c..a + d]
  {
    var x, y := s[a..b][c..d], s[a + c..a + d];
    forall i | 0 <= i < d - c ensures x[i] == y[i] {
      assert x[i] == s[a..b][c + i] == s[a + c + i];
    }
  }

  /** The parts of three sequences in a row. */
  lemma ThreeParts<T>(x: seq<T>, y: seq<T>, z: seq<T>)
    ensures (x + y + z)[..|x|] == x && (x + y + z)[|x|..|x| + |y|] == y && (x + y + z)[|x| + |y|..] == z
  {
  }
}
