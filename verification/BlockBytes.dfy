/** The bytes of a block: entries, the offsets they start at, and a footer that is read from the end
    (table/builder.go, table/table.go, table/iterator.go). */
module BlockBytes {
  import opened Wrappers
  import opened Arithmetic
  import opened Codec
  import opened Keys
  import opened Blocks
  import opened Sequences

  const U16: nat := 0x1_0000
  const HEADER_SIZE: nat := 4

  // ---------------------------------------------------------------- native integers

  /** A header's and an offset's bytes as they are in memory: the lowest first. */
  function LittleEndian(x: nat, n: nat): (r: Bytes)
    ensures |r| == n
  {
    if n == 0 then [] else [x % 256] + LittleEndian(x / 256, n - 1)
  }

  function FromLittleEndian(b: Bytes): nat {
    if b == [] then 0 else b[0] + 256 * FromLittleEndian(b[1..])
  }

  lemma {:induction false} LittleEndianRoundTrip(x: nat, n: nat)
    requires x < Pow256(n)
    ensures FromLittleEndian(LittleEndian(x, n)) == x
  {
    if n > 0 {
      LittleEndianRoundTrip(x / 256, n - 1);
      assert LittleEndian(x, n)[1..] == LittleEndian(x / 256, n - 1);
    }
  }

  /** Each byte is a digit to the base 256, the lowest first. */
  lemma {:induction false} LittleEndianDigit(x: nat, n: nat, i: nat)
    requires i < n
    ensures LittleEndian(x, n)[i] == x / Pow256(i) % 256
  {
    if i > 0 {
      LittleEndianDigit(x / 256, n - 1, i - 1);
      DivTwice(x, 256, Pow256(i - 1));
    }
  }

  lemma Widths()
    ensures Pow256(2) == U16 && Pow256(4) == U32
  {
  }

  // ---------------------------------------------------------------- layout

  predicate Fits(s: Slot) {
    s.overlap < U16 && |s.diff| < U16
  }

  /** header.Encode, then the rest of the key, then the value. */
  function EntryBytes(s: Slot): Bytes {
    LittleEndian(s.overlap, 2) + LittleEndian(|s.diff|, 2) + s.diff + s.val
  }

  function Data(slots: seq<Slot>): Bytes {
    if slots == [] then [] else Data(slots[..|slots| - 1]) + EntryBytes(slots[|slots| - 1])
  }

  function Offsets(slots: seq<Slot>): (o: seq<nat>)
    ensures |o| == |slots|
  {
    if slots == [] then []
    else Offsets(slots[..|slots| - 1]) + [|Data(slots[..|slots| - 1])|]
  }

  /** U32SliceToBytes. */
  function Words(offsets: seq<nat>): (b: Bytes)
    ensures |b| == 4 * |offsets|
  {
    if offsets == [] then [] else Words(offsets[..|offsets| - 1]) + LittleEndian(offsets[|offsets| - 1], 4)
  }

  /** BytesToU32Slice. */
  function FromWords(b: Bytes): (o: seq<nat>)
    requires |b| % 4 == 0
    ensures |o| == |b| / 4
  {
    if b == [] then [] else FromWords(b[..|b| - 4]) + [FromLittleEndian(b[|b| - 4..])]
  }

  lemma {:induction false} WordsRoundTrip(offsets: seq<nat>)
    requires forall i :: 0 <= i < |offsets| ==> offsets[i] < U32
    ensures FromWords(Words(offsets)) == offsets
  {
    if offsets != [] {
      var n := |offsets| - 1;
      WordsRoundTrip(offsets[..n]);
      Widths();
      LittleEndianRoundTrip(offsets[n], 4);
      var b := Words(offsets);
      assert b[..|b| - 4] == Words(offsets[..n]) && b[|b| - 4..] == LittleEndian(offsets[n], 4);
    }
  }

  function WordsOf(slots: seq<Slot>): (b: Bytes)
    ensures |b| == 4 * |slots|
  {
    Words(Offsets(slots))
  }

  /** What the checksum is taken of. */
  function Covered(slots: seq<Slot>): Bytes {
    Data(slots) + WordsOf(slots) + BigEndian(|slots|, 4)
  }

  function BlockOf(slots: seq<Slot>, checksum: Bytes): Bytes {
    Covered(slots) + checksum + BigEndian(|checksum|, 4)
  }

  // ---------------------------------------------------------------- writing

  class BlockWriter {
    var data: Bytes
    var entryOffsets: seq<nat>

    /** The block holds these entries and is not finished. */
    ghost predicate Holds(slots: seq<Slot>)
      reads this
    {
      data == Data(slots) && entryOffsets == Offsets(slots)
    }

    constructor ()
      ensures Holds([])
    {
      data, entryOffsets := [], [];
    }

    /** The part of addHelper that writes. */
    method Append(s: Slot, ghost slots: seq<Slot>)
      requires Holds(slots)
      modifies this
      ensures Holds(slots + [s])
      ensures entryOffsets == old(entryOffsets) + [|old(data)|]
      ensures data == old(data) + (LittleEndian(s.overlap, 2) + LittleEndian(|s.diff|, 2) + s.diff + s.val)
    {
      assert (slots + [s])[..|slots|] == slots;
      entryOffsets := entryOffsets + [|data|];
      data := data + (LittleEndian(s.overlap, 2) + LittleEndian(|s.diff|, 2) + s.diff + s.val);
    }

    /** finishBlock; nothing is written for an empty block. */
    method Finish(sum: Bytes -> Bytes, ghost slots: seq<Slot>) returns (block: Bytes)
      requires Holds(slots)
      modifies this
      ensures block == if slots == [] then [] else BlockOf(slots, sum(Covered(slots)))
      ensures slots != [] ==>
                var body := old(data) + Words(old(entryOffsets)) + BigEndian(|old(entryOffsets)|, 4);
                block == body + sum(body) + BigEndian(|sum(body)|, 4)
    {
      if |entryOffsets| == 0 {
        return data;
      }
      data := data + Words(entryOffsets);
      data := data + BigEndian(|entryOffsets|, 4);
      var checksum := sum(data);
      data := data + checksum;
      data := data + BigEndian(|checksum|, 4);
      block := data;
    }
  }

  // ---------------------------------------------------------------- reading

  /** Panic is a slice index out of range. */
  datatype Read = Block(data: Bytes, entriesIndexStart: nat, entryOffsets: seq<nat>, checksum: Bytes)
                | InvalidLength | BadChecksum | Panic

  ghost predicate Writable(slots: seq<Slot>, checksum: Bytes) {
    |Data(slots)| < U32 && |slots| < U32 && |checksum| < U32
  }

  /** Five parts in a row: entries, offsets, their number, the checksum, its length. */
  function Parts(d: Bytes, w: Bytes, n: Bytes, c: Bytes, l: Bytes): Bytes {
    d + w + n + c + l
  }

  lemma CutParts(d: Bytes, w: Bytes, n: Bytes, c: Bytes, l: Bytes)
    ensures var b, e := Parts(d, w, n, c, l), |d| + |w|;
            && |b| == e + |n| + |c| + |l| && b[|d|..e] == w && b[e..e + |n|] == n && b[..e + |n|] == d + w + n
            && b[e + |n|..e + |n| + |c|] == c && b[e + |n| + |c|..] == l
  {
  }

  /** The part of Table.block that finds its way backwards through the footer. */
  method ReadFooter(bytes: Bytes, ghost d: Bytes, ghost w: Bytes, ghost n: Bytes, ghost c: Bytes, ghost l: Bytes)
    returns (r: Read)
    ensures !r.BadChecksum? && (|bytes| < 4 ==> r.Panic?)
    ensures r.InvalidLength? <==> |bytes| >= 4 && FromBigEndian(bytes[|bytes| - 4..]) > |bytes|
    ensures bytes == Parts(d, w, n, c, l) && |n| == |l| == 4 && FromBigEndian(l) == |c| && 4 * FromBigEndian(n) == |w|
            ==> r == Block(d + w + n, |d|, FromWords(w), c)
  {
    CutParts(d, w, n, c, l);
    hide Parts, FromWords, FromBigEndian;
    var readPos := |bytes| - 4;
    if readPos < 0 {
      return Panic;
    }
    var chkLen := FromBigEndian(bytes[readPos..]);
    if chkLen > |bytes| {
      return InvalidLength;
    }
    readPos := readPos - chkLen;
    if readPos < 0 {
      return Panic;
    }
    var checksum := bytes[readPos..readPos + chkLen];
    readPos := readPos - 4;
    if readPos < 0 {
      return Panic;
    }
    var numEntries := FromBigEndian(bytes[readPos..readPos + 4]);
    var entriesIndexStart := readPos - numEntries * 4;
    var entriesIndexEnd := entriesIndexStart + numEntries * 4;
    if entriesIndexStart < 0 {
      return Panic;
    }
    var entryOffsets := FromWords(bytes[entriesIndexStart..entriesIndexEnd]);
    r := Block(bytes[..readPos + 4], entriesIndexStart, entryOffsets, checksum);
  }

  /** Table.block, from the decompressed bytes on: whatever slots and checksum were written are found
      again. */
  method ReadBlock(bytes: Bytes, sum: Bytes -> Bytes, verify: bool, ghost slots: seq<Slot>, ghost checksum: Bytes)
    returns (r: Read)
    ensures |bytes| < 4 ==> r.Panic?
    ensures r.InvalidLength? <==> |bytes| >= 4 && FromBigEndian(bytes[|bytes| - 4..]) > |bytes|
    ensures r.Block? && verify ==> sum(r.data) == r.checksum
    ensures Writable(slots, checksum) && bytes == BlockOf(slots, checksum) ==>
              if verify && sum(Covered(slots)) != checksum then r == BadChecksum
              else r == Block(Covered(slots), |Data(slots)|, Offsets(slots), checksum)
  {
    if Writable(slots, checksum) { Numbers(slots, checksum); }
    hide Data, Offsets, WordsOf, FromWords, BigEndian, FromBigEndian, Writable;
    r := ReadFooter(bytes, Data(slots), WordsOf(slots), BigEndian(|slots|, 4), checksum, BigEndian(|checksum|, 4));
    if r.Block? && verify && sum(r.data) != r.checksum {
      return BadChecksum;
    }
  }

  lemma {:induction false} OffsetsBound(slots: seq<Slot>)
    ensures forall i :: 0 <= i < |slots| ==> Offsets(slots)[i] <= |Data(slots)|
  {
    if slots != [] { OffsetsBound(slots[..|slots| - 1]); }
  }

  lemma Numbers(slots: seq<Slot>, checksum: Bytes)
    requires Writable(slots, checksum)
    ensures FromBigEndian(BigEndian(|checksum|, 4)) == |checksum| && FromBigEndian(BigEndian(|slots|, 4)) == |slots|
    ensures FromWords(WordsOf(slots)) == Offsets(slots)
  {
    Widths();
    OffsetsBound(slots);
    BigEndianRoundTrip(|checksum|, 4);
    BigEndianRoundTrip(|slots|, 4);
    WordsRoundTrip(Offsets(slots));
  }

  // ---------------------------------------------------------------- one entry

  /** setIdx's view of entry `i`; None is a slice index out of range. The end of the key is computed in
      16 bits. */
  method EntryAt(b: Bytes, offsets: seq<nat>, i: nat, ghost slots: seq<Slot>) returns (r: Option<Slot>)
    requires b == Data(slots) && offsets == Offsets(slots) && i < |slots| && Fits(slots[i])
    ensures r == if HEADER_SIZE + |slots[i].diff| < U16 then Some(slots[i]) else None
  {
    EntrySpan(slots, i);
    EntryParts(slots[i]);
    hide Data, Offsets, EntryBytes, LittleEndian, FromLittleEndian;
    var startOffset := offsets[i];
    var endOffset := if i + 1 == |offsets| then |b| else offsets[i + 1];
    var entryData := b[startOffset..endOffset];
    var overlap := FromLittleEndian(entryData[..2]);
    var diff := FromLittleEndian(entryData[2..4]);
    var valueOff := (HEADER_SIZE + diff) % U16;
    if valueOff < HEADER_SIZE {
      return None;
    }
    r := Some(Slot(overlap, entryData[HEADER_SIZE..valueOff], entryData[valueOff..]));
  }

  /** A rest of 65532 bytes is written and not read back. */
  method LongRest() returns (s: Slot, r: Option<Slot>)
    ensures Fits(s) && |s.diff| == 65532 && s.overlap == 0 && r == None
  {
    s := Slot(0, seq(65532, _ => 0), []);
    var slots := [s];
    hide Data, Offsets;
    r := EntryAt(Data(slots), Offsets(slots), 0, slots);
  }

  /** Entries follow each other without gaps. */
  lemma {:induction false} EntrySpan(slots: seq<Slot>, i: nat)
    requires i < |slots|
    ensures var s, e := Offsets(slots)[i], if i + 1 == |slots| then |Data(slots)| else Offsets(slots)[i + 1];
            s <= e <= |Data(slots)| && Data(slots)[s..e] == EntryBytes(slots[i])
    decreases |slots|
  {
    hide EntryBytes;
    var n := |slots| - 1;
    var front, last := slots[..n], EntryBytes(slots[n]);
    if i == n {
      DropJoined(Data(front), last);
      AllOf(Data(slots));
    } else {
      EntrySpan(front, i);
      var s, e := Offsets(slots)[i], Offsets(slots)[i + 1];
      assert Data(slots)[s..e] == Data(front)[s..e];
    }
  }

  lemma EntryParts(s: Slot)
    requires Fits(s)
    ensures var b, n := EntryBytes(s), HEADER_SIZE + |s.diff|;
            && |b| == n + |s.val| && FromLittleEndian(b[..2]) == s.overlap && FromLittleEndian(b[2..4]) == |s.diff|
            && b[4..n] == s.diff && b[n..] == s.val
  {
    Widths();
    LittleEndianRoundTrip(s.overlap, 2);
    LittleEndianRoundTrip(|s.diff|, 2);
    var x, y, b := LittleEndian(s.overlap, 2), LittleEndian(|s.diff|, 2), EntryBytes(s);
    hide LittleEndian, FromLittleEndian;
    assert b[..2] == x && b[2..4] == y;
  }
}
