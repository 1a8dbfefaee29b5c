/** Tables on disk: prefix-compressed blocks and the iterators over them (table/builder.go,
    table/iterator.go).

    An entry's slot in a block has the length of the prefix shared with the block's first key, the
    rest of the key, and the value; where it lies in the bytes of a block is the matter of BlockBytes. */
module Blocks {
  import opened Codec
  import opened Keys

  datatype KV = KV(key: Bytes, val: Bytes)

  datatype Slot = Slot(overlap: nat, diff: Bytes, val: Bytes)

  /** Keys have a version; comparing them looks at the user key first. */
  predicate Lt(a: Bytes, b: Bytes) {
    |a| >= 8 && |b| >= 8 && CompareKeys(a, b) < 0
  }

  ghost predicate Increasing(es: seq<KV>) {
    && (forall i :: 0 <= i < |es| ==> |es[i].key| >= 8)
    && forall i, j :: 0 <= i < j < |es| ==> Lt(es[i].key, es[j].key)
  }

  /** The order of keys is a strict total one. */
  lemma LtTrans(a: Bytes, b: Bytes, c: Bytes)
    requires Lt(a, b) && Lt(b, c)
    ensures Lt(a, c)
  {
    var x, y, z := a[..|a| - 8], b[..|b| - 8], c[..|c| - 8];
    CompareIsOrder(x, y);
    CompareIsOrder(y, z);
    if Compare(x, y) != 0 && Compare(y, z) != 0 { CompareTrans(x, y, z); }
    if Compare(x, y) == 0 && Compare(y, z) == 0 { CompareTrans(a[|a| - 8..], b[|b| - 8..], c[|c| - 8..]); }
    hide Compare;
  }

  lemma LtTotal(a: Bytes, b: Bytes)
    requires |a| >= 8 && |b| >= 8
    ensures CompareKeys(a, b) == 0 <==> a == b
    ensures Lt(a, b) ==> !Lt(b, a)
    ensures Lt(a, b) || Lt(b, a) || a == b
  {
    var x, y := a[..|a| - 8], b[..|b| - 8];
    CompareIsOrder(x, y);
    CompareIsOrder(a[|a| - 8..], b[|b| - 8..]);
    hide Compare;
    assert a == x + a[|a| - 8..] && b == y + b[|b| - 8..];
  }

  lemma LtAsym(a: Bytes, b: Bytes)
    requires Lt(a, b)
    ensures !Lt(b, a)
  {
    LtTotal(a, b);
  }

  // ---------------------------------------------------------------- building

  /** keyDiff: the length of the common prefix. */
  function Common(base: Bytes, key: Bytes): (n: nat)
    ensures n <= |base| && n <= |key| && base[..n] == key[..n]
    ensures n == |base| || n == |key| || base[n] != key[n]
  {
    if base == [] || key == [] || base[0] != key[0] then 0
    else
      var n := 1 + Common(base[1..], key[1..]);
      assert base[..n] == [base[0]] + base[1..][..n - 1] && key[..n] == [key[0]] + key[1..][..n - 1];
      n
  }

  /** The key of a slot in a block with this first key. */
  function KeyOf(base: Bytes, s: Slot): Bytes
    requires s.overlap <= |base|
  {
    base[..s.overlap] + s.diff
  }

  /** A block: its first slot holds the base key in full, all others share prefixes with it. */
  predicate IsBlock(slots: seq<Slot>) {
    && slots != [] && slots[0].overlap == 0
    && forall i :: 0 <= i < |slots| ==> slots[i].overlap <= |slots[0].diff|
  }

  /** The entries of a block. */
  function Decode(slots: seq<Slot>): (es: seq<KV>)
    requires IsBlock(slots)
    ensures |es| == |slots|
    ensures forall i :: 0 <= i < |slots| ==> es[i] == KV(KeyOf(slots[0].diff, slots[i]), slots[i].val)
  {
    seq(|slots|, i requires 0 <= i < |slots| => KV(KeyOf(slots[0].diff, slots[i]), slots[i].val))
  }

  function DecodeAll(blocks: seq<seq<Slot>>): seq<KV>
    requires forall i :: 0 <= i < |blocks| ==> IsBlock(blocks[i])
  {
    if blocks == [] then [] else DecodeAll(blocks[..|blocks| - 1]) + Decode(blocks[|blocks| - 1])
  }

  class Builder {
    var blockList: seq<seq<Slot>>
    var curBlock: seq<Slot>
    var baseKey: Bytes

    ghost predicate Valid()
      reads this
    {
      && (forall i :: 0 <= i < |blockList| ==> IsBlock(blockList[i]))
      && if curBlock == [] then baseKey == [] else IsBlock(curBlock) && baseKey == curBlock[0].diff && baseKey != []
    }

    /** Everything added so far. */
    ghost function Added(): seq<KV>
      requires Valid()
      reads this
    {
      DecodeAll(blockList) + if curBlock == [] then [] else Decode(curBlock)
    }

    constructor ()
      ensures Valid() && Added() == []
    {
      blockList, curBlock, baseKey := [], [], [];
    }

    method AddHelper(key: Bytes, val: Bytes)
      requires Valid() && key != []
      modifies `curBlock, `baseKey
      ensures Valid() && Added() == old(Added()) + [KV(key, val)]
      ensures |curBlock| == |old(curBlock)| + 1 && curBlock[..|old(curBlock)|] == old(curBlock)
      ensures var s := curBlock[|old(curBlock)|];
              && s.overlap <= |key| && s.diff == key[s.overlap..] && s.val == val
              && (if old(curBlock) == [] then s.overlap == 0 && baseKey == key
                  else
                    && baseKey == old(baseKey) && s.overlap <= |baseKey| && key[..s.overlap] == baseKey[..s.overlap]
                    && (s.overlap == |baseKey| || s.overlap == |key| || key[s.overlap] != baseKey[s.overlap]))
    {
      var overlap := 0;
      if |baseKey| == 0 {
        baseKey := key;
      } else {
        overlap := Common(baseKey, key);
      }
      var slot := Slot(overlap, key[overlap..], val);
      assert key == key[..overlap] + key[overlap..];
      ghost var before := curBlock;
      curBlock := curBlock + [slot];
      assert Decode(curBlock) == (if before == [] then [] else Decode(before)) + [KV(key, val)];
    }

    method FinishBlock()
      requires Valid()
      modifies `blockList
      ensures old(curBlock) == [] ==> blockList == old(blockList)
      ensures old(curBlock) != [] ==> blockList == old(blockList) + [curBlock]
    {
      if |curBlock| == 0 {
        return;
      }
      blockList := blockList + [curBlock];
    }

    /** addInternal; `full` is shouldFinishBlock's look at the size, which only counts when the block
        is not empty. */
    method Add(key: Bytes, val: Bytes, full: bool)
      requires Valid() && key != []
      modifies this
      ensures Valid() && Added() == old(Added()) + [KV(key, val)]
      ensures if full && old(curBlock) != [] then blockList == old(blockList) + [old(curBlock)] && |curBlock| == 1
              else blockList == old(blockList) && |curBlock| == |old(curBlock)| + 1
    {
      if |curBlock| > 0 && full {
        FinishBlock();
        DecodeMore(old(blockList), curBlock);
        curBlock, baseKey := [], [];
      }
      AddHelper(key, val);
    }

    /** The blocks of the finished table hold just what was added, in order. */
    method Finish() returns (blocks: seq<seq<Slot>>)
      requires Valid()
      modifies this
      ensures (forall i :: 0 <= i < |blocks| ==> IsBlock(blocks[i])) && DecodeAll(blocks) == old(Added())
    {
      FinishBlock();
      if |curBlock| > 0 { DecodeMore(old(blockList), curBlock); }
      blocks := blockList;
    }
  }

  lemma DecodeMore(blocks: seq<seq<Slot>>, b: seq<Slot>)
    requires (forall i :: 0 <= i < |blocks| ==> IsBlock(blocks[i])) && IsBlock(b)
    ensures DecodeAll(blocks + [b]) == DecodeAll(blocks) + Decode(b)
  {
  }

  /** Adding a whole list, breaking blocks wherever `full` says. */
  method BuildTable(es: seq<KV>, full: nat -> bool) returns (blocks: seq<seq<Slot>>)
    requires forall i :: 0 <= i < |es| ==> es[i].key != []
    ensures (forall i :: 0 <= i < |blocks| ==> IsBlock(blocks[i])) && DecodeAll(blocks) == es
  {
    var b := new Builder();
    assert es[..|es|] == es;
    for i := 0 to |es|
      invariant b.Valid() && b.Added() == es[..i] && fresh(b)
    {
      assert es[..i + 1] == es[..i] + [es[i]];
      b.Add(es[i].key, es[i].val, full(i));
    }
    blocks := b.Finish();
  }

  // ---------------------------------------------------------------- within a block

  class BlockIterator {
    var slots: seq<Slot>
    var idx: int
    var eof: bool
    var baseKey: Bytes
    var key: Bytes
    var val: Bytes
    var prevOverlap: nat

    /** What the shortcut relies on: as much of `key` as the last entry shared with the base key is
        still there. */
    ghost predicate Valid()
      reads this
    {
      && IsBlock(slots) && slots[0].diff != []
      && (baseKey == [] || baseKey == slots[0].diff)
      && prevOverlap <= |key| && prevOverlap <= |slots[0].diff| && key[..prevOverlap] == slots[0].diff[..prevOverlap]
    }

    /** Positioned at entry `i`. */
    ghost predicate At(i: int)
      reads this
    {
      Valid() && 0 <= i < |slots| && idx == i && !eof && KV(key, val) == Decode(slots)[i]
    }

    ghost predicate Off()
      reads this
    {
      Valid() && eof
    }

    constructor ()
    {
      slots, idx, eof, baseKey, key, val, prevOverlap := [], 0, false, [], [], [], 0;
    }

    method SetBlock(b: seq<Slot>)
      requires IsBlock(b) && b[0].diff != []
      modifies this
      ensures Valid() && slots == b && idx == 0 && !eof && key == [] && val == []
    {
      slots := b;
      eof := false;
      idx := 0;
      baseKey := [];
      prevOverlap := 0;
      key := [];
      val := [];
    }

    /** The key at any index is right whatever the iterator was at before. */
    method SetIdx(i: int)
      requires Valid()
      modifies this
      ensures slots == old(slots) && idx == i
      ensures if 0 <= i < |slots| then At(i) else Off() && key == old(key)
    {
      idx := i;
      if i >= |slots| || i < 0 {
        eof := true;
        return;
      }
      eof := false;
      if |baseKey| == 0 {
        baseKey := slots[0].diff;
      }
      var h := slots[i];
      if h.overlap > prevOverlap {
        key := key[..prevOverlap] + baseKey[prevOverlap..h.overlap];
        assert key == baseKey[..h.overlap];
      } else {
        assert key[..h.overlap] == key[..prevOverlap][..h.overlap] == baseKey[..prevOverlap][..h.overlap] == baseKey[..h.overlap];
      }
      prevOverlap := h.overlap;
      key := key[..h.overlap] + h.diff;
      val := h.val;
    }

    /** sort.Search over the indices from `start` on, moving the iterator to each index it tries. */
    method Seek(k: Bytes, start: nat)
      requires Valid() && |k| >= 8 && Increasing(Decode(slots)) && start <= |slots|
      modifies this
      ensures slots == old(slots) && start <= idx <= |slots|
      ensures if idx < |slots| then At(idx) && !Lt(key, k) else Off()
      ensures forall i :: start <= i < idx ==> Lt(Decode(slots)[i].key, k)
      ensures start == 0 ==> HasKey(slots, key)
    {
      eof := false;
      var lo, hi := 0, |slots|;
      while lo < hi
        invariant Valid() && slots == old(slots) && 0 <= lo <= hi <= |slots| && (hi < |slots| ==> start <= hi)
        invariant forall i :: start <= i < lo ==> Lt(Decode(slots)[i].key, k)
        invariant hi < |slots| ==> !Lt(Decode(slots)[hi].key, k)
        invariant start == 0 && (lo, hi) != (0, |slots|) ==> HasKey(slots, key)
      {
        var mid := (lo + hi) / 2;
        var below := mid < start;
        if !below {
          SetIdx(mid);
          below := CompareKeys(key, k) < 0;
        }
        if below {
          AllBelow(Decode(slots), start, mid, k);
          lo := mid + 1;
        } else {
          hi := mid;
        }
      }
      SetIdx(lo);
    }
  }

  predicate HasKey(slots: seq<Slot>, key: Bytes)
    requires IsBlock(slots)
  {
    exists i :: 0 <= i < |slots| && Decode(slots)[i].key == key
  }

  lemma AllBelow(es: seq<KV>, start: nat, mid: nat, k: Bytes)
    requires Increasing(es) && mid < |es| && |k| >= 8 && (mid < start || Lt(es[mid].key, k))
    ensures forall i :: start <= i <= mid ==> Lt(es[i].key, k)
  {
    forall i | start <= i < mid ensures Lt(es[i].key, k) {
      LtTrans(es[i].key, es[mid].key, k);
    }
  }
}
