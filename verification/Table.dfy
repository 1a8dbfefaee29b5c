/** Iterating over a table of several blocks (table/iterator.go).

    A position is an index into all the entries of the table; every move is stated in terms of it. */
module TableIterators {
  import opened Keys
  import opened Blocks

  /** A table as the builder leaves it, with increasing keys. */
  ghost predicate IsTable(blocks: seq<seq<Slot>>) {
    && (forall b :: 0 <= b < |blocks| ==> IsBlock(blocks[b]) && blocks[b][0].diff != [])
    && Increasing(DecodeAll(blocks))
  }

  /** The position of block b's first entry. */
  ghost function Start(blocks: seq<seq<Slot>>, b: nat): nat
    requires b <= |blocks| && forall i :: 0 <= i < |blocks| ==> IsBlock(blocks[i])
  {
    |DecodeAll(blocks[..b])|
  }

  lemma {:induction false} Prefix(blocks: seq<seq<Slot>>, b: nat)
    requires b <= |blocks| && forall i :: 0 <= i < |blocks| ==> IsBlock(blocks[i])
    ensures DecodeAll(blocks[..b]) <= DecodeAll(blocks)
    decreases |blocks| - b
  {
    if b < |blocks| {
      DecodeMore(blocks[..b], blocks[b]);
      assert blocks[..b + 1] == blocks[..b] + [blocks[b]];
      Prefix(blocks, b + 1);
    } else {
      assert blocks[..b] == blocks;
    }
  }

  lemma StartEnds(blocks: seq<seq<Slot>>)
    requires forall i :: 0 <= i < |blocks| ==> IsBlock(blocks[i])
    ensures Start(blocks, 0) == 0 && Start(blocks, |blocks|) == |DecodeAll(blocks)|
  {
    assert blocks[..|blocks|] == blocks;
  }

  /** Entry `i` of block `b` is where it should be. */
  lemma Located(blocks: seq<seq<Slot>>, b: nat)
    requires b < |blocks| && forall i :: 0 <= i < |blocks| ==> IsBlock(blocks[i])
    ensures Start(blocks, b + 1) == Start(blocks, b) + |blocks[b]| <= |DecodeAll(blocks)|
    ensures forall i :: 0 <= i < |blocks[b]| ==> DecodeAll(blocks)[Start(blocks, b) + i] == Decode(blocks[b])[i]
  {
    DecodeMore(blocks[..b], blocks[b]);
    assert blocks[..b + 1] == blocks[..b] + [blocks[b]] && blocks[..|blocks|] == blocks;
    Prefix(blocks, b + 1);
  }

  lemma SomeEntries(blocks: seq<seq<Slot>>)
    requires forall i :: 0 <= i < |blocks| ==> IsBlock(blocks[i])
    ensures DecodeAll(blocks) == [] <==> blocks == []
    ensures blocks != [] ==> blocks[|blocks| - 1] != []
    ensures blocks != [] ==> Start(blocks, |blocks| - 1) + |blocks[|blocks| - 1]| == |DecodeAll(blocks)|
  {
    if blocks != [] { Located(blocks, |blocks| - 1); StartEnds(blocks); }
  }

  lemma BlockIncreasing(blocks: seq<seq<Slot>>, b: nat)
    requires IsTable(blocks) && b < |blocks|
    ensures Increasing(Decode(blocks[b]))
  {
    hide Lt, Decode, IsBlock, DecodeAll, Start;
    Located(blocks, b);
    SliceIncreasing(DecodeAll(blocks), Decode(blocks[b]), Start(blocks, b));
  }

  lemma SliceIncreasing(all: seq<KV>, es: seq<KV>, s: nat)
    requires Increasing(all) && s + |es| <= |all| && forall i :: 0 <= i < |es| ==> all[s + i] == es[i]
    ensures Increasing(es)
  {
    hide Lt;
    forall i, j | 0 <= i < j < |es| ensures Lt(es[i].key, es[j].key) {
      assert es[i] == all[s + i] && es[j] == all[s + j];
    }
    forall i | 0 <= i < |es| ensures |es[i].key| >= 8 {
      assert es[i] == all[s + i];
    }
  }

  /** How many entries come before `k`. */
  ghost function SeekPos(es: seq<KV>, k: Bytes): (q: nat)
    requires |k| >= 8 && forall i :: 0 <= i < |es| ==> |es[i].key| >= 8
    ensures q <= |es| && (forall i :: 0 <= i < q ==> Lt(es[i].key, k)) && (q < |es| ==> !Lt(es[q].key, k))
  {
    if es == [] || !Lt(es[0].key, k) then 0 else 1 + SeekPos(es[1..], k)
  }

  lemma SeekPosIs(es: seq<KV>, k: Bytes, q: nat)
    requires Increasing(es) && |k| >= 8 && q <= |es|
    requires (q > 0 ==> Lt(es[q - 1].key, k)) && (q < |es| ==> !Lt(es[q].key, k))
    ensures SeekPos(es, k) == q
  {
    hide CompareKeys, Compare;
    var s := SeekPos(es, k);
    if s < q { AllBelow(es, 0, q - 1, k); }
    assert !(s < q);
  }

  class TableIterator {
    const blocks: seq<seq<Slot>>
    const bi: BlockIterator
    var bpos: int
    var err: bool
    var loaded: bool

    constructor (blocks: seq<seq<Slot>>)
      requires IsTable(blocks)
      ensures this.blocks == blocks && fresh(bi)
    {
      this.blocks := blocks;
      bi := new BlockIterator();
      bpos, err, loaded := 0, false, false;
    }

    ghost function All(): seq<KV>
      requires IsTable(blocks)
    {
      DecodeAll(blocks)
    }

    /** Block `bpos` is loaded. */
    ghost predicate In()
      reads this, bi
    {
      IsTable(blocks) && loaded && 0 <= bpos < |blocks| && bi.Valid() && bi.slots == blocks[bpos]
    }

    /** At entry `p` of the table. */
    ghost predicate On(p: int)
      reads this, bi
    {
      In() && !err && bi.At(bi.idx) && Start(blocks, bpos) + bi.idx == p
    }

    /** Past the last entry, with the last block loaded. */
    ghost predicate End()
      reads this, bi
    {
      In() && err && bi.Off() && bpos == |blocks| - 1 && bi.idx == |bi.slots|
    }

    lemma OnKey(p: int)
      requires On(p)
      ensures 0 <= p < |All()| && KV(bi.key, bi.val) == All()[p]
    {
      Located(blocks, bpos);
    }

    method Load(b: int)
      requires IsTable(blocks) && 0 <= b < |blocks|
      modifies this, bi
      ensures In() && bpos == b && err == old(err)
    {
      bpos := b;
      bi.SetBlock(blocks[b]);
      loaded := true;
    }

    method SeekToFirst()
      requires IsTable(blocks)
      modifies this, bi
      ensures if All() == [] then err else On(0)
    {
      SomeEntries(blocks);
      hide Increasing, DecodeAll, Decode;
      if |blocks| == 0 {
        err := true;
        return;
      }
      StartEnds(blocks);
      Load(0);
      bi.SetIdx(0);
      err := bi.eof;
    }

    method SeekToLast()
      requires IsTable(blocks)
      modifies this, bi
      ensures if All() == [] then err else On(|All()| - 1)
    {
      SomeEntries(blocks);
      hide Increasing, DecodeAll, Decode, Start, IsBlock;
      if |blocks| == 0 {
        err := true;
        return;
      }
      Load(|blocks| - 1);
      bi.SetIdx(|bi.slots| - 1);
      err := bi.eof;
    }

    /** Moves on from entry `p`; with no block loaded, to the first entry of block `bpos`. */
    method Next(ghost p: int)
      requires IsTable(blocks) && (On(p) || (!loaded && 0 <= bpos <= |blocks| && Start(blocks, bpos) == p + 1))
      modifies this, bi
      ensures if p + 1 < |All()| then On(p + 1) else err
      decreases |blocks| - bpos, loaded
    {
      hide Increasing, DecodeAll;
      err := false;
      StartEnds(blocks);
      if bpos < |blocks| { Located(blocks, bpos); }
      if bpos >= |blocks| {
        err := true;
        return;
      }
      if !loaded {
        Load(bpos);
        bi.SetIdx(0);
        err := bi.eof;
        return;
      }
      bi.SetIdx(bi.idx + 1);
      if bi.eof {
        bpos := bpos + 1;
        loaded := false;
        Next(p);
      }
    }

    method Prev(ghost p: int)
      requires IsTable(blocks)
      requires On(p) || (End() && p == |All()|) || (!loaded && -1 <= bpos < |blocks| && Start(blocks, bpos + 1) == p)
      modifies this, bi
      ensures if p - 1 >= 0 then On(p - 1) else err
      decreases bpos + 1, loaded
    {
      hide Increasing, DecodeAll;
      err := false;
      StartEnds(blocks);
      if bpos >= 0 { Located(blocks, bpos); }
      if bpos < 0 {
        err := true;
        return;
      }
      if !loaded {
        Load(bpos);
        bi.SetIdx(|bi.slots| - 1);
        err := bi.eof;
        return;
      }
      bi.SetIdx(bi.idx - 1);
      if bi.eof {
        bpos := bpos - 1;
        loaded := false;
        Prev(p);
      }
    }

    /** Moves to the first entry at or above `k`. */
    method SeekFrom(k: Bytes)
      requires IsTable(blocks) && |k| >= 8 && blocks != []
      modifies this, bi
      ensures var q := SeekPos(All(), k); if q < |All()| then On(q) else End() && bi.key != k
    {
      err := false;
      bpos := 0;
      StartEnds(blocks);
      var idx := FindBlock(k);
      if idx > 0 { BelowBase(blocks, idx - 1, k); }
      hide IsTable, Passed, Lt, SeekPos;
      if idx == 0 {
        SeekBlock(0, k);
        return;
      }
      SeekBlock(idx - 1, k);
      if err && idx < |blocks| {
        SeekBlock(idx, k);
      }
    }

    /** Seeks in block `b`: the entry is there, or every entry up to the end of the block is below. */
    method SeekBlock(b: int, k: Bytes)
      requires IsTable(blocks) && 0 <= b < |blocks| && |k| >= 8 && Passed(blocks, b, k)
      modifies this, bi
      ensures if !err then On(SeekPos(All(), k)) && SeekPos(All(), k) < |All()|
              else
                && In() && bpos == b && bi.Off() && bi.idx == |blocks[b]| && bi.key != k && Passed(blocks, b + 1, k)
                && !Lt(k, blocks[b][0].diff) && (b + 1 == |blocks| ==> SeekPos(All(), k) == |All()|)
    {
      BlockIncreasing(blocks, b);
      SeekHelper(b, k);
      Landed(blocks, b, bi.idx, k);
      hide Passed, SeekPos, CompareKeys, Increasing;
      if err {
        LandedPast(blocks, b, k);
        NotKey(blocks[b], bi.key, k);
      } else {
        OnKey(Start(blocks, b) + bi.idx);
      }
    }

    /** Moves to the last entry at or below `k`. */
    method SeekForPrev(k: Bytes)
      requires IsTable(blocks) && |k| >= 8 && blocks != []
      modifies this, bi
      ensures var q := SeekPos(All(), k);
              var p := if q < |All()| && All()[q].key == k then q else q - 1;
              if p >= 0 then On(p) else err
    {
      SeekFrom(k);
      ghost var q := SeekPos(All(), k);
      if q < |All()| { OnKey(q); }
      if bi.key != k {
        Prev(q);
      }
    }

    /** Loads block `b` and seeks in it. */
    method SeekHelper(b: int, k: Bytes)
      requires IsTable(blocks) && 0 <= b < |blocks| && |k| >= 8
      modifies this, bi
      ensures In() && bpos == b && 0 <= bi.idx <= |blocks[b]|
      ensures if bi.idx < |blocks[b]| then On(Start(blocks, b) + bi.idx) && |bi.key| >= 8 && !Lt(bi.key, k)
              else err && bi.Off() && HasKey(blocks[b], bi.key)
      ensures forall i :: 0 <= i < bi.idx ==> Lt(Decode(blocks[b])[i].key, k)
    {
      BlockIncreasing(blocks, b);
      hide IsTable, Increasing;
      Load(b);
      bi.Seek(k, 0);
      err := bi.eof;
    }

    /** The first block whose first key is above `k`. */
    method FindBlock(k: Bytes) returns (idx: nat)
      requires IsTable(blocks) && |k| >= 8
      ensures idx <= |blocks|
      ensures idx > 0 ==> !Lt(k, blocks[idx - 1][0].diff)
      ensures idx < |blocks| ==> Lt(k, blocks[idx][0].diff)
    {
      hide Increasing, DecodeAll, CompareKeys;
      var lo, hi := 0, |blocks|;
      while lo < hi
        invariant 0 <= lo <= hi <= |blocks|
        invariant lo > 0 ==> !Lt(k, blocks[lo - 1][0].diff)
        invariant hi < |blocks| ==> Lt(k, blocks[hi][0].diff)
      {
        var mid := (lo + hi) / 2;
        BaseIsKey(blocks, mid);
        CompareFlips(blocks[mid][0].diff, k);
        if CompareKeys(blocks[mid][0].diff, k) > 0 {
          hi := mid;
        } else {
          lo := mid + 1;
        }
      }
      idx := lo;
    }
  }

  lemma BlockNotEmpty(slots: seq<Slot>)
    requires IsBlock(slots)
    ensures slots != []
  {
  }

  lemma BaseKeyIs(slots: seq<Slot>)
    requires IsBlock(slots)
    ensures Decode(slots)[0].key == slots[0].diff
  {
    assert slots[0].diff[..0] + slots[0].diff == slots[0].diff;
  }

  lemma BaseIsKey(blocks: seq<seq<Slot>>, b: nat)
    requires IsTable(blocks) && b < |blocks|
    ensures |blocks[b][0].diff| >= 8
  {
    BlockIncreasing(blocks, b);
    BaseKeyIs(blocks[b]);
  }

  lemma CompareFlips(a: Bytes, b: Bytes)
    requires |a| >= 8 && |b| >= 8
    ensures CompareKeys(b, a) == -CompareKeys(a, b)
  {
    CompareIsOrder(a[..|a| - 8], b[..|b| - 8]);
    CompareIsOrder(a[|a| - 8..], b[|b| - 8..]);
    hide Compare;
  }

  /** Every entry before block `b` is below `k`. */
  ghost predicate Passed(blocks: seq<seq<Slot>>, b: nat, k: Bytes)
    requires b <= |blocks| && forall i :: 0 <= i < |blocks| ==> IsBlock(blocks[i])
  {
    forall j :: 0 <= j < Start(blocks, b) && j < |DecodeAll(blocks)| ==> Lt(DecodeAll(blocks)[j].key, k)
  }

  /** Blocks before one that starts at or below `k` can be passed over. */
  lemma BelowBase(blocks: seq<seq<Slot>>, b: nat, k: Bytes)
    requires IsTable(blocks) && b < |blocks| && |k| >= 8 && !Lt(k, blocks[b][0].diff)
    ensures Passed(blocks, b, k)
  {
    Located(blocks, b);
    BaseKeyIs(blocks[b]);
    var all, s := DecodeAll(blocks), Start(blocks, b);
    var base := blocks[b][0].diff;
    assert all[s] == Decode(blocks[b])[0];
    LtTotal(base, k);
    hide CompareKeys;
    forall j | 0 <= j < s ensures Lt(all[j].key, k) {
      assert Lt(all[j].key, all[s].key);
      if base != k { LtTrans(all[j].key, base, k); }
    }
  }

  /** Every entry before entry `i` of block `b` is below. */
  lemma PassedTo(blocks: seq<seq<Slot>>, b: nat, i: nat, k: Bytes)
    requires IsTable(blocks) && b < |blocks| && i <= |blocks[b]| && Passed(blocks, b, k)
    requires forall j :: 0 <= j < i ==> Lt(Decode(blocks[b])[j].key, k)
    ensures Start(blocks, b) + i <= |DecodeAll(blocks)|
    ensures forall j :: 0 <= j < Start(blocks, b) + i ==> Lt(DecodeAll(blocks)[j].key, k)
  {
    hide Lt, Decode, Increasing, IsBlock, DecodeAll, Start;
    Located(blocks, b);
    var all, s := DecodeAll(blocks), Start(blocks, b);
    forall j | 0 <= j < s + i ensures Lt(all[j].key, k) {
      if j >= s { assert all[j] == Decode(blocks[b])[j - s]; }
    }
  }

  /** Where a seek in block `b` ends in the table. */
  lemma Landed(blocks: seq<seq<Slot>>, b: nat, i: nat, k: Bytes)
    requires IsTable(blocks) && |k| >= 8 && b < |blocks| && i <= |blocks[b]| && Passed(blocks, b, k)
    requires forall j :: 0 <= j < i ==> Lt(Decode(blocks[b])[j].key, k)
    requires i < |blocks[b]| ==> !Lt(Decode(blocks[b])[i].key, k)
    ensures i < |blocks[b]| ==> SeekPos(DecodeAll(blocks), k) == Start(blocks, b) + i
    ensures i == |blocks[b]| && b + 1 == |blocks| ==> SeekPos(DecodeAll(blocks), k) == |DecodeAll(blocks)|
  {
    hide CompareKeys, Decode, SeekPos, Start, Passed, Lt, IsBlock, Increasing, DecodeAll;
    PassedTo(blocks, b, i, k);
    Located(blocks, b);
    StartEnds(blocks);
    var all, s := DecodeAll(blocks), Start(blocks, b);
    if i < |blocks[b]| {
      assert all[s + i] == Decode(blocks[b])[i];
      SeekPosIs(all, k, s + i);
    } else if b + 1 == |blocks| {
      SeekPosIs(all, k, s + i);
    }
  }

  /** The whole block is below. */
  lemma LandedPast(blocks: seq<seq<Slot>>, b: nat, k: Bytes)
    requires IsTable(blocks) && |k| >= 8 && b < |blocks| && Passed(blocks, b, k)
    requires forall j :: 0 <= j < |blocks[b]| ==> Lt(Decode(blocks[b])[j].key, k)
    ensures Passed(blocks, b + 1, k) && !Lt(k, blocks[b][0].diff)
  {
    BlockNotEmpty(blocks[b]);
    hide CompareKeys, Decode, Start, Passed, Lt, IsBlock, Increasing, DecodeAll;
    PassedTo(blocks, b, |blocks[b]|, k);
    Located(blocks, b);
    BaseKeyIs(blocks[b]);
    LtAsym(Decode(blocks[b])[0].key, k);
    PassedIs(blocks, b + 1, k);
  }

  lemma PassedIs(blocks: seq<seq<Slot>>, b: nat, k: Bytes)
    requires b <= |blocks| && forall i :: 0 <= i < |blocks| ==> IsBlock(blocks[i])
    requires Start(blocks, b) <= |DecodeAll(blocks)|
    requires forall j :: 0 <= j < Start(blocks, b) ==> Lt(DecodeAll(blocks)[j].key, k)
    ensures Passed(blocks, b, k)
  {
  }

  lemma NotKey(slots: seq<Slot>, key: Bytes, k: Bytes)
    requires IsBlock(slots) && HasKey(slots, key) && forall j :: 0 <= j < |slots| ==> Lt(Decode(slots)[j].key, k)
    ensures key != k
  {
    var j :| 0 <= j < |slots| && Decode(slots)[j].key == key;
    LtTotal(key, k);
  }
}
