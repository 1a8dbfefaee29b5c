/** The arena of a skiplist (skl/arena.go): a bump counter over a byte buffer. Every allocation gets
    bytes no other allocation has; nodes start on 8-byte boundaries.

    The counter has 32 bits, and the check after it is moved sees what is left of it: once it wraps
    around, `Valid` is lost. The contracts say exactly when. */
module Arenas {
  import opened Wrappers

  const MAX_HEIGHT: nat := 20
  const OFFSET_SIZE: nat := 4
  const NODE_ALIGN: nat := 7
  const U32: nat := 0x1_0000_0000
  /** The size of a node with a tower of full height. */
  const MAX_NODE_SIZE: nat := 96

  /** Bytes [start, end) of the buffer. */
  datatype Block = Block(start: nat, end: nat)

  predicate Apart(a: Block, b: Block) {
    a.end <= b.start || b.end <= a.start
  }

  /** What a node of this height needs: the part of the tower it never uses is left out. */
  function NodeSize(height: nat): nat
    requires 1 <= height <= MAX_HEIGHT
  {
    MAX_NODE_SIZE - (MAX_HEIGHT - height) * OFFSET_SIZE
  }

  /** Clearing the low three bits. */
  function AlignDown(m: nat): (r: nat)
    ensures r % 8 == 0 && r <= m < r + 8
  {
    m - m % 8
  }

  class Arena {
    const size: nat
    var n: nat
    ghost var blocks: seq<Block>

    /** All blocks are in the part of the buffer in use, apart from each other, and offset 0 is in none. */
    ghost predicate Valid()
      reads this
    {
      && 1 <= n < U32 && (blocks != [] ==> n <= size)
      && (forall i :: 0 <= i < |blocks| ==> 1 <= blocks[i].start <= blocks[i].end <= n)
      && forall i, j :: 0 <= i < j < |blocks| ==> Apart(blocks[i], blocks[j])
    }

    constructor (size: nat)
      ensures Valid() && blocks == [] && this.size == size
    {
      this.size, n, blocks := size, 1, [];
    }

    /** n.Add(l) and the check that the buffer is large enough: None is the failed assertion. */
    method Bump(l: nat) returns (end: Option<nat>)
      requires l < U32
      modifies `n
      ensures n == (old(n) + l) % U32 && end == if n <= size then Some(n) else None
    {
      n := (n + l) % U32;
      end := if n <= size then Some(n) else None;
    }

    /** putKey. None is an assertion that fails or a slice that is out of range. */
    method PutKey(len: nat) returns (m: Option<nat>)
      requires Valid()
      modifies this
      ensures m.Some? <==> old(n) + len <= size && old(n) + len < U32
      ensures m.Some? ==> Valid() && blocks == old(blocks) + [Block(m.value, m.value + len)]
    {
      var l := len % U32;
      var end := Bump(l);
      if end.None? {
        return None;
      }
      var start := (end.value - l) % U32;
      if start > end.value || len != l {
        return None;
      }
      blocks := blocks + [Block(start, end.value)];
      return Some(start);
    }

    /** putVal: Encode writes `l` bytes from `m` on, or is out of range. Past 2^32 bytes the counter is
        behind the block. */
    method PutVal(l: nat) returns (m: Option<nat>)
      requires Valid() && l < U32
      modifies this
      ensures m.Some? <==> old(n) + l <= size
      ensures m.Some? ==> blocks == old(blocks) + [Block(m.value, m.value + l)]
      ensures m.Some? ==> (Valid() <==> old(n) + l < U32)
    {
      var end := Bump(l);
      if end.None? {
        return None;
      }
      var start := (end.value - l) % U32;
      if start + l > size {
        return None;
      }
      blocks := blocks + [Block(start, start + l)];
      assert blocks[|blocks| - 1] == Block(start, start + l);
      return Some(start);
    }

    /** putNode: when the counter wraps around, a buffer that is too small goes unnoticed. */
    method PutNode(height: nat) returns (m: Option<nat>)
      requires Valid() && 1 <= height <= MAX_HEIGHT
      modifies this
      ensures var end := old(n) + 16 + 4 * height + 7;
              && (m.Some? <==> end % U32 <= size)
              && (m.Some? ==> m.value % 8 == 0 && blocks == old(blocks) + [Block(m.value, m.value + 16 + 4 * height)])
              && (m.Some? ==> (Valid() <==> end < U32))
    {
      var unusedSize := (MAX_HEIGHT - height) * OFFSET_SIZE;
      var l := MAX_NODE_SIZE - unusedSize + NODE_ALIGN;
      var end := Bump(l);
      if end.None? {
        return None;
      }
      var start := AlignDown((end.value - l + NODE_ALIGN) % U32);
      NodeStart(old(n), l, NodeSize(height), end.value, start);
      hide AlignDown;
      blocks := blocks + [Block(start, start + NodeSize(height))];
      assert blocks[|blocks| - 1] == Block(start, start + NodeSize(height));
      return Some(start);
    }
  }

  /** Where a node lands: within the bytes the counter passed over, or outside what is in use. */
  lemma NodeStart(n: nat, l: nat, node: nat, end: nat, start: nat)
    requires 1 <= n < U32 && l == node + NODE_ALIGN && l < 200 && end == (n + l) % U32
    requires start == AlignDown((end - l + NODE_ALIGN) % U32)
    ensures n + l < U32 ==> n <= start && start + node <= end
    ensures n + l >= U32 ==> start == 0 || start + node > end
  {
  }

  /** A node that goes beyond the buffer and passes the check. */
  lemma NodeTooLarge()
    ensures var size, n := U32 - 50, U32 - 60;
            var end := n + NodeSize(MAX_HEIGHT) + NODE_ALIGN;
            n <= size < end && end % U32 <= size
  {
  }
}
