/** The manifest file (manifest.go): a log of change sets, and the state in memory beside it.

    Serialisation and checksum are parameters: functions of which only the round trip of the change
    sets concerned is asked. `AlwaysInSync`: over any sequence of change sets, rewrites, torn appends
    and reopens, the file gives the tables in memory. */
module ManifestFiles {
  import opened Wrappers
  import opened Codec
  import opened Keys
  import opened Sequences
  import opened Manifests

  datatype Format = Format(marshal: seq<Change> -> Bytes, unmarshal: Bytes -> Option<seq<Change>>, crc: Bytes -> nat)

  /** The change set survives serialisation, and its length fits into the four bytes for it. */
  predicate Fits(f: Format, cs: seq<Change>) {
    f.unmarshal(f.marshal(cs)) == Some(cs) && |f.marshal(cs)| < U32
  }

  const BADGER_MAGIC_VERSION: nat := 8

  function HeaderBytes(extMagic: nat): (r: Bytes)
    ensures |r| == 8
  {
    [66, 100, 103, 114] + BigEndian(extMagic % 65536, 2) + BigEndian(BADGER_MAGIC_VERSION, 2)
  }

  /** "Bdgr", the external magic in two bytes, and the version in two more. */
  lemma HeaderIs(extMagic: nat)
    ensures HeaderBytes(extMagic) == [66, 100, 103, 114, extMagic / 256 % 256, extMagic % 256, 0, 8]
  {
    TwoBytes(extMagic % 65536);
    TwoBytes(BADGER_MAGIC_VERSION);
    assert extMagic % 65536 / 256 == extMagic / 256 % 256 && extMagic % 65536 % 256 == extMagic % 256;
  }

  lemma TwoBytes(n: nat)
    requires n < 65536
    ensures BigEndian(n, 2) == [n / 256, n % 256]
  {
    assert BigEndian(n / 256, 1) == [n / 256];
  }

  /** Length, checksum, and the change set. */
  function Frame(f: Format, cs: seq<Change>): Bytes {
    var buf := f.marshal(cs);
    BigEndian(|buf| % U32, 4) + BigEndian(f.crc(buf) % U32, 4) + buf
  }

  function Frames(f: Format, sets: seq<seq<Change>>): Bytes {
    if sets == [] then [] else Frame(f, sets[0]) + Frames(f, sets[1..])
  }

  datatype Result = Error | Replayed(build: Build, offset: nat)

  /** What the bytes at `offset` are: the end of what can be used, an error, or a change set and the
      offset after it. No length may exceed `limit`, the size of the file. */
  datatype Next = End | Bad | Set(cs: seq<Change>, after: nat)

  function ReadFrame(f: Format, file: Bytes, limit: nat, offset: nat): (r: Next)
    requires offset <= |file|
    ensures r.Set? ==> offset + 8 <= r.after <= |file| && r.after - offset - 8 <= limit
  {
    if |file| - offset < 8 then End
    else
      var length := FromBigEndian(file[offset..offset + 4]);
      if length > limit then Bad
      else if |file| - offset - 8 < length then End
      else
        var buf := file[offset + 8..offset + 8 + length];
        if f.crc(buf) % U32 != FromBigEndian(file[offset + 4..offset + 8]) then Bad
        else
          var cs := f.unmarshal(buf);
          if cs.None? then Bad else Set(cs.value, offset + 8 + length)
  }

  /** A change set that is read has its checksum and its length, and is what its bytes say. */
  lemma SetHasChecksum(f: Format, file: Bytes, limit: nat, offset: nat)
    requires offset <= |file| && ReadFrame(f, file, limit, offset).Set?
    ensures var r := ReadFrame(f, file, limit, offset);
            && offset + 8 <= r.after <= |file| && FromBigEndian(file[offset..offset + 4]) == r.after - offset - 8
            && FromBigEndian(file[offset + 4..offset + 8]) == f.crc(file[offset + 8..r.after]) % U32
            && f.unmarshal(file[offset + 8..r.after]) == Some(r.cs)
  {
    hide FromBigEndian;
  }

  /** With another checksum, or bytes that are no change set, it is an error, not the end. */
  lemma WrongChecksumIsBad(f: Format, file: Bytes, limit: nat, offset: nat)
    requires offset + 8 <= |file| && offset + 8 + FromBigEndian(file[offset..offset + 4]) <= |file|
    requires var buf := file[offset + 8..offset + 8 + FromBigEndian(file[offset..offset + 4])];
             FromBigEndian(file[offset + 4..offset + 8]) != f.crc(buf) % U32 || f.unmarshal(buf).None?
    ensures ReadFrame(f, file, limit, offset) == Bad
  {
    hide FromBigEndian;
  }

  /** The loop of ReplayManifestFile. */
  function ReplayFrom(f: Format, file: Bytes, limit: nat, offset: nat, b: Build): (r: Result)
    requires offset <= |file|
    ensures r.Replayed? ==> offset <= r.offset <= |file|
    decreases |file| - offset
  {
    var next := ReadFrame(f, file, limit, offset);
    if next.Bad? then Error
    else if next.End? then Replayed(b, offset)
    else
      var (more, ok) := ApplySet(b, next.cs);
      if !ok then Error else ReplayFrom(f, file, limit, next.after, more)
  }

  /** The size is cut to 32 bits before lengths are compared with it. */
  function Replay(f: Format, file: Bytes, extMagic: nat): (r: Result)
    ensures r.Replayed? ==> 8 <= r.offset <= |file|
  {
    if |file| < 8 || file[..8] != HeaderBytes(extMagic) then Error else ReplayFrom(f, file, |file| % U32, 8, EMPTY)
  }

  /** A file without the magic text, the external magic and the version is refused. */
  lemma WrongHeaderFails(f: Format, file: Bytes, extMagic: nat)
    requires file[..if |file| < 8 then |file| else 8] != [66, 100, 103, 114, extMagic / 256 % 256, extMagic % 256, 0, 8]
    ensures Replay(f, file, extMagic).Error?
  {
    HeaderIs(extMagic);
    hide HeaderBytes;
  }

  method ReplayManifestFile(f: Format, fp: Bytes, extMagic: nat) returns (m: Manifest, truncOffset: nat, ok: bool)
    ensures ok <==> Replay(f, fp, extMagic).Replayed?
    ensures ok ==> Replay(f, fp, extMagic) == Replayed(m.State(), truncOffset) && Indexed(m.State())
    ensures fresh(m)
  {
    m := new Manifest();
    truncOffset, ok := 0, false;
    if |fp| < 8 || fp[..8] != HeaderBytes(extMagic) {
      return;
    }
    truncOffset := 8;
    hide ReadFrame, ApplySet, HeaderBytes;
    while true
      invariant truncOffset <= |fp| && fresh(m) && Indexed(m.State())
      invariant Replay(f, fp, extMagic) == ReplayFrom(f, fp, |fp| % U32, truncOffset, m.State())
      decreases |fp| - truncOffset
    {
      var next := ReadFrame(f, fp, |fp| % U32, truncOffset);
      if next.Bad? {
        return;
      }
      if next.End? {
        ok := true;
        return;
      }
      var applied := m.ApplyChangeSet(next.cs);
      if !applied {
        return;
      }
      truncOffset := next.after;
    }
  }

  // ---------------------------------------------------------------- whole and torn change sets

  lemma FourBytes(x: nat)
    requires x < U32
    ensures FromBigEndian(BigEndian(x, 4)) == x
  {
    assert Pow256(1) == 256 && Pow256(2) == 0x1_0000 && Pow256(3) == 0x100_0000 && Pow256(4) == 0x1_0000_0000;
    BigEndianRoundTrip(x, 4);
  }

  /** The parts of a change set that starts at `offset`. */
  lemma FrameParts(f: Format, cs: seq<Change>, file: Bytes, offset: nat, n: nat)
    requires Fits(f, cs) && offset + n <= |file| && n <= |Frame(f, cs)| && file[offset..offset + n] == Frame(f, cs)[..n]
    ensures |Frame(f, cs)| == 8 + |f.marshal(cs)|
    ensures n >= 8 ==> FromBigEndian(file[offset..offset + 4]) == |f.marshal(cs)|
    ensures n >= 8 ==> FromBigEndian(file[offset + 4..offset + 8]) == f.crc(f.marshal(cs)) % U32
    ensures n == |Frame(f, cs)| ==> file[offset + 8..offset + n] == f.marshal(cs)
  {
    var buf := f.marshal(cs);
    var len, sum := BigEndian(|buf|, 4), BigEndian(f.crc(buf) % U32, 4);
    FourBytes(|buf|);
    FourBytes(f.crc(buf) % U32);
    hide *;
    PartsAt(len, sum, buf, file, offset, n);
  }

  lemma PartsAt(len: Bytes, sum: Bytes, buf: Bytes, file: Bytes, offset: nat, n: nat)
    requires |len| == |sum| == 4 && n <= 8 + |buf| && offset + n <= |file| && file[offset..offset + n] == (len + sum + buf)[..n]
    ensures n >= 8 ==> file[offset..offset + 4] == len && file[offset + 4..offset + 8] == sum
    ensures n == 8 + |buf| ==> file[offset + 8..offset + n] == buf
  {
    var all := len + sum + buf;
    ThreeParts(len, sum, buf);
    if n >= 8 {
      SliceOfSlice(file, offset, offset + n, 0, 4);
      SliceOfSlice(file, offset, offset + n, 4, 8);
      SliceOfSlice(all, 0, n, 0, 4);
      SliceOfSlice(all, 0, n, 4, 8);
    }
    if n == |all| {
      SliceOfSlice(file, offset, offset + n, 8, n);
      AllOf(all);
    }
  }

  lemma ReadWholeFrame(f: Format, cs: seq<Change>, file: Bytes, limit: nat, offset: nat)
    requires Fits(f, cs) && offset + |Frame(f, cs)| <= |file| && file[offset..offset + |Frame(f, cs)|] == Frame(f, cs)
    ensures ReadFrame(f, file, limit, offset) == if |f.marshal(cs)| > limit then Bad else Set(cs, offset + |Frame(f, cs)|)
  {
    AllOf(Frame(f, cs));
    FrameParts(f, cs, file, offset, |Frame(f, cs)|);
    hide FromBigEndian, Frame;
  }

  /** A torn change set is the end, unless its length is there and larger than the limit. */
  lemma ReadTornFrame(f: Format, cs: seq<Change>, file: Bytes, limit: nat, offset: nat)
    requires Fits(f, cs) && offset <= |file| && |file| - offset < |Frame(f, cs)|
    requires file[offset..] == Frame(f, cs)[..|file| - offset]
    ensures ReadFrame(f, file, limit, offset) == if |file| - offset >= 8 && |f.marshal(cs)| > limit then Bad else End
  {
    FrameParts(f, cs, file, offset, |file| - offset);
    hide FromBigEndian, Frame;
  }

  ghost predicate AllFit(f: Format, sets: seq<seq<Change>>) {
    forall i :: 0 <= i < |sets| ==> Fits(f, sets[i])
  }

  function ApplySets(b: Build, sets: seq<seq<Change>>): (Build, bool)
    decreases |sets|
  {
    if sets == [] then (b, true)
    else
      var (mid, ok) := ApplySet(b, sets[0]);
      if !ok then (mid, false) else ApplySets(mid, sets[1..])
  }

  /** How many change sets are whole in the first `n` bytes. */
  function Whole(f: Format, sets: seq<seq<Change>>, n: nat): (k: nat)
    ensures k <= |sets|
  {
    if sets == [] || n < |Frame(f, sets[0])| then 0 else 1 + Whole(f, sets[1..], n - |Frame(f, sets[0])|)
  }

  /** The bytes after the last whole change set. */
  function Left(f: Format, sets: seq<seq<Change>>, n: nat): (r: nat)
    ensures r <= n
  {
    if sets == [] || n < |Frame(f, sets[0])| then n else Left(f, sets[1..], n - |Frame(f, sets[0])|)
  }

  /** No length is above the limit. */
  predicate LengthsFit(f: Format, sets: seq<seq<Change>>, limit: nat) {
    forall i :: 0 <= i < |sets| ==> |f.marshal(sets[i])| <= limit
  }

  /** What replaying a truncated file comes to: all change sets still whole in it; an error if one of
      them cannot be applied, or if the length of one of them or of the torn one exceeds the limit. */
  ghost function Truncated(f: Format, sets: seq<seq<Change>>, n: nat, size: nat, limit: nat, b: Build): Result
    requires n <= size
  {
    var k := Whole(f, sets, n);
    var (done, ok) := ApplySets(b, sets[..k]);
    if !ok || !LengthsFit(f, sets[..k], limit) || (k < |sets| && Left(f, sets, n) >= 8 && |f.marshal(sets[k])| > limit) then Error
    else Replayed(done, size - Left(f, sets, n))
  }

  lemma {:induction false} ReplayPrefix(f: Format, sets: seq<seq<Change>>, file: Bytes, limit: nat, offset: nat, b: Build)
    requires AllFit(f, sets) && offset <= |file| && file[offset..] <= Frames(f, sets)
    ensures ReplayFrom(f, file, limit, offset, b) == Truncated(f, sets, |file| - offset, |file|, limit, b)
    decreases |sets|
  {
    hide Frame, ReadFrame, ApplySet, Fits;
    var n := |file| - offset;
    if sets == [] {
      NothingLeft(f, file, limit, offset);
      assert sets[..0] == [];
    } else if n < |Frame(f, sets[0])| {
      TakeFirst(Frame(f, sets[0]), Frames(f, sets[1..]), n);
      assert file[offset..] == Frames(f, sets)[..n];
      ReadTornFrame(f, sets[0], file, limit, offset);
      assert sets[..0] == [];
    } else {
      var len := |Frame(f, sets[0])|;
      FirstFrame(Frame(f, sets[0]), Frames(f, sets[1..]), file, offset);
      ReadWholeFrame(f, sets[0], file, limit, offset);
      LengthsStep(f, sets, Whole(f, sets, n), limit);
      var (mid, ok) := ApplySet(b, sets[0]);
      if ok { ReplayPrefix(f, sets[1..], file, limit, offset + len, mid); }
    }
  }

  lemma LengthsStep(f: Format, sets: seq<seq<Change>>, k: nat, limit: nat)
    requires 1 <= k <= |sets|
    ensures sets[..k][0] == sets[0] && sets[..k][1..] == sets[1..][..k - 1]
    ensures LengthsFit(f, sets[..k], limit) <==> |f.marshal(sets[0])| <= limit && LengthsFit(f, sets[1..][..k - 1], limit)
  {
    var more := sets[1..][..k - 1];
    assert forall i :: 0 <= i < |more| ==> more[i] == sets[..k][i + 1];
    assert forall i :: 1 <= i < k ==> sets[..k][i] == more[i - 1];
  }

  lemma NothingLeft(f: Format, file: Bytes, limit: nat, offset: nat)
    requires offset == |file|
    ensures ReadFrame(f, file, limit, offset) == End
  {
  }

  lemma FirstFrame(a: Bytes, b: Bytes, file: Bytes, offset: nat)
    requires offset <= |file| && file[offset..] <= a + b && |file| - offset >= |a|
    ensures file[offset..offset + |a|] == a && file[offset + |a|..] <= b
  {
  }

  /** A file cut anywhere after its header: if replay succeeds it gives the state after all change sets
      that are still whole, and where they end; it fails only as `Truncated` says. */
  lemma TruncatedReplay(f: Format, extMagic: nat, sets: seq<seq<Change>>, n: nat)
    requires AllFit(f, sets) && n <= |Frames(f, sets)|
    ensures var r := Replay(f, (HeaderBytes(extMagic) + Frames(f, sets))[..8 + n], extMagic);
            && r == Truncated(f, sets, n, 8 + n, (8 + n) % U32, EMPTY)
            && (r.Replayed? ==> ApplySets(EMPTY, sets[..Whole(f, sets, n)]) == (r.build, true))
  {
    hide HeaderBytes, Frames, Frame, ReadFrame, Fits;
    var head, all := HeaderBytes(extMagic), Frames(f, sets);
    var file := (head + all)[..8 + n];
    TakeJoined(head, all, 8 + n);
    DropJoined(head, all[..n]);
    assert file[..8] == head;
    assert file[8..] == all[..n];
    ReplayPrefix(f, sets, file, (8 + n) % U32, 8, EMPTY);
  }

  /** A file that ends right after the length and the checksum of its first change set, with a length
      above that of the whole file: replay fails, where a shorter change set would only be left out. */
  lemma TornAndTooLong(extMagic: nat)
    ensures var f := Format(_ => seq(100, _ => 0), _ => Some([Delete(1)]), _ => 0);
            && Fits(f, [Delete(1)]) && |Frame(f, [Delete(1)])| == 108
            && Replay(f, HeaderBytes(extMagic) + Frame(f, [Delete(1)])[..8], extMagic).Error?
  {
    var f := Format(_ => seq(100, _ => 0), _ => Some([Delete(1)]), _ => 0);
    var frame := Frame(f, [Delete(1)]);
    var file := HeaderBytes(extMagic) + frame[..8];
    assert file[..8] == HeaderBytes(extMagic) && file[8..] == frame[..8];
    hide HeaderBytes, Frame;
    ReadTornFrame(f, [Delete(1)], file, 16, 8);
  }

  /** A file of 2^32 bytes, whole but for its size, which is 0 in 32 bits. */
  lemma FourGigabytes(extMagic: nat)
    ensures var f := Format(_ => seq(U32 - 16, _ => 0), _ => Some([Delete(1)]), _ => 0);
            var file := HeaderBytes(extMagic) + Frame(f, [Delete(1)]);
            Fits(f, [Delete(1)]) && |file| == U32 && Replay(f, file, extMagic).Error?
  {
    var f := Format(_ => seq(U32 - 16, _ => 0), _ => Some([Delete(1)]), _ => 0);
    var frame := Frame(f, [Delete(1)]);
    var file := HeaderBytes(extMagic) + frame;
    assert |f.marshal([Delete(1)])| == U32 - 16 && |frame| == U32 - 8;
    assert file[..8] == HeaderBytes(extMagic) && file[8..8 + |frame|] == frame;
    hide HeaderBytes, Frame;
    ReadWholeFrame(f, [Delete(1)], file, 0, 8);
  }

  // ---------------------------------------------------------------- memory and file

  /** Replaying the file gives the tables in memory; nothing is left over. */
  predicate InSync(f: Format, file: Bytes, extMagic: nat, m: Build) {
    var r := Replay(f, file, extMagic);
    r.Replayed? && r.offset == |file| && r.build.tables == m.tables
  }

  /** And it gives the counts in memory. Opening a manifest does not bring that about, rewriting it does. */
  predicate SameCounts(f: Format, file: Bytes, extMagic: nat, m: Build) {
    var r := Replay(f, file, extMagic);
    InSync(f, file, extMagic, m) && r.build.creations == m.creations && r.build.deletions == m.deletions
  }

  /** What is at each level, beyond the padding. */
  ghost predicate SameIndex(a: Build, b: Build) {
    forall l: nat, id :: (l < |a.levels| && id in a.levels[l]) <==> (l < |b.levels| && id in b.levels[l])
  }

  /** In step, and so is the index by level. */
  ghost predicate InStep(f: Format, file: Bytes, extMagic: nat, m: Build) {
    InSync(f, file, extMagic, m) && Consistent(Replay(f, file, extMagic).build) && Consistent(m)
  }

  /** Then the index rebuilt from the file says what the one in memory says. */
  lemma InStepIndex(f: Format, file: Bytes, extMagic: nat, m: Build)
    requires InStep(f, file, extMagic, m)
    ensures SameIndex(Replay(f, file, extMagic).build, m)
  {
    var b := Replay(f, file, extMagic).build;
    hide Replay;
    forall l: nat, id ensures (l < |b.levels| && id in b.levels[l]) <==> (l < |m.levels| && id in m.levels[l]) {
      if id in b.tables { assert b.tables[id].level < |b.levels| && m.tables[id].level < |m.levels|; }
    }
  }

  /** The longest change set that is read. */
  function Longest(f: Format, file: Bytes, limit: nat, offset: nat): nat
    requires offset <= |file|
    decreases |file| - offset
  {
    var next := ReadFrame(f, file, limit, offset);
    if !next.Set? then 0
    else
      var more := Longest(f, file, limit, next.after);
      if next.after - offset - 8 > more then next.after - offset - 8 else more
  }

  lemma {:induction false} LongestFits(f: Format, file: Bytes, limit: nat, offset: nat)
    requires offset <= |file|
    ensures Longest(f, file, limit, offset) <= |file| - offset
    decreases |file| - offset
  {
    hide ReadFrame;
    var next := ReadFrame(f, file, limit, offset);
    if next.Set? { LongestFits(f, file, limit, next.after); }
  }

  /** A change set read from one file is read from any other that has these bytes and allows its length. */
  lemma SameFrame(f: Format, file: Bytes, limit: nat, other: Bytes, more: nat, offset: nat)
    requires offset <= |file| && ReadFrame(f, file, limit, offset).Set?
    requires var after := ReadFrame(f, file, limit, offset).after; after <= |other| && file[..after] == other[..after]
    ensures var r := ReadFrame(f, file, limit, offset);
            ReadFrame(f, other, more, offset) == if r.after - offset - 8 > more then Bad else r
  {
    var r := ReadFrame(f, file, limit, offset);
    SameSlice(file, other, r.after, offset, offset + 4);
    SameSlice(file, other, r.after, offset + 4, offset + 8);
    SameSlice(file, other, r.after, offset + 8, r.after);
    hide FromBigEndian;
  }

  lemma SameSlice(a: Bytes, b: Bytes, n: nat, i: nat, j: nat)
    requires i <= j <= n && n <= |a| && n <= |b| && a[..n] == b[..n]
    ensures a[i..j] == b[i..j]
  {
    SliceOfSlice(a, 0, n, i, j);
    SliceOfSlice(b, 0, n, i, j);
  }

  /** Replaying another file that has what was used of this one, with another size: the rest follows,
      unless a length is too much for that size. */
  lemma {:induction false} ReplayAgain(f: Format, file: Bytes, limit: nat, other: Bytes, more: nat, offset: nat, b: Build)
    requires offset <= |file| && ReplayFrom(f, file, limit, offset, b).Replayed?
    requires var end := ReplayFrom(f, file, limit, offset, b).offset; end <= |other| && file[..end] == other[..end]
    ensures var r := ReplayFrom(f, file, limit, offset, b);
            ReplayFrom(f, other, more, offset, b) ==
            if Longest(f, file, limit, offset) > more then Error else ReplayFrom(f, other, more, r.offset, r.build)
    decreases |file| - offset
  {
    hide ReadFrame, ApplySet;
    var next, r := ReadFrame(f, file, limit, offset), ReplayFrom(f, file, limit, offset, b);
    if next.Set? {
      var mid := ApplySet(b, next.cs).0;
      assert r == ReplayFrom(f, file, limit, next.after, mid);
      SliceOfSlice(file, 0, r.offset, 0, next.after);
      SliceOfSlice(other, 0, r.offset, 0, next.after);
      SameFrame(f, file, limit, other, more, offset);
      ReplayAgain(f, file, limit, other, more, next.after, mid);
    }
  }

  /** What is appended is read after what was there. */
  lemma ReplayAppended(f: Format, file: Bytes, extMagic: nat, x: Bytes)
    requires var r := Replay(f, file, extMagic); r.Replayed? && r.offset == |file|
    ensures var more := |file + x| % U32;
            Replay(f, file + x, extMagic) ==
            if Longest(f, file, |file| % U32, 8) > more then Error
            else ReplayFrom(f, file + x, more, |file|, Replay(f, file, extMagic).build)
  {
    hide ReadFrame, ApplySet, HeaderBytes;
    TakeFirst(file, x, |file|);
    TakeFirst(file, x, 8);
    AllOf(file);
    ReplayAgain(f, file, |file| % U32, file + x, |file + x| % U32, 8, EMPTY);
  }

  /** What is left after truncation is read as before. */
  lemma TruncateKeeps(f: Format, file: Bytes, extMagic: nat)
    requires Replay(f, file, extMagic).Replayed?
    ensures var r := Replay(f, file, extMagic);
            && Replay(f, file[..r.offset], extMagic) == (if Longest(f, file, |file| % U32, 8) > r.offset % U32 then Error else r)
            && (|file| < U32 ==> Replay(f, file[..r.offset], extMagic) == r)
  {
    hide ReadFrame, ApplySet, HeaderBytes;
    var r := Replay(f, file, extMagic);
    var cut := file[..r.offset];
    SliceOfSlice(file, 0, r.offset, 0, 8);
    AllOf(cut);
    ReplayAgain(f, file, |file| % U32, cut, r.offset % U32, 8, EMPTY);
    NothingLeft(f, cut, r.offset % U32, r.offset);
    LongestUsed(f, file, |file| % U32, 8, EMPTY);
  }

  lemma {:induction false} LongestUsed(f: Format, file: Bytes, limit: nat, offset: nat, b: Build)
    requires offset <= |file| && ReplayFrom(f, file, limit, offset, b).Replayed?
    ensures Longest(f, file, limit, offset) <= ReplayFrom(f, file, limit, offset, b).offset - offset
    decreases |file| - offset
  {
    hide ReadFrame, ApplySet;
    var next := ReadFrame(f, file, limit, offset);
    if next.Set? { LongestUsed(f, file, limit, next.after, ApplySet(b, next.cs).0); }
  }

  /** Appending a change set that was applied keeps tables and counts in step, exactly as long as no
      length is above the size of the file in 32 bits. */
  lemma AppendKeepsSync(f: Format, file: Bytes, extMagic: nat, m: Build, cs: seq<Change>)
    requires InSync(f, file, extMagic, m) && Fits(f, cs) && ApplySet(m, cs).1
    ensures var more, limit := file + Frame(f, cs), |file + Frame(f, cs)| % U32;
            && (InSync(f, more, extMagic, ApplySet(m, cs).0) <==>
                Longest(f, file, |file| % U32, 8) <= limit && |f.marshal(cs)| <= limit)
            && (|more| < U32 ==> InSync(f, more, extMagic, ApplySet(m, cs).0))
            && (Replay(f, more, extMagic).Replayed? ==> Replay(f, more, extMagic).build == ApplySet(Replay(f, file, extMagic).build, cs).0)
  {
    hide Frame, Fits, HeaderBytes, ApplySet, Replay, Longest, ReadFrame, Live;
    FrameLength(f, cs);
    LongestFits(f, file, |file| % U32, 8);
    SameOutcome(Replay(f, file, extMagic).build, m, cs);
    AppendedIs(f, file, extMagic, cs);
  }

  lemma AppendedIs(f: Format, file: Bytes, extMagic: nat, cs: seq<Change>)
    requires var r := Replay(f, file, extMagic); r.Replayed? && r.offset == |file|
    requires Fits(f, cs)
    ensures var b, more := Replay(f, file, extMagic).build, file + Frame(f, cs);
            var limit := |more| % U32;
            Replay(f, more, extMagic) ==
            if Longest(f, file, |file| % U32, 8) > limit || |f.marshal(cs)| > limit || !ApplySet(b, cs).1 then Error
            else Replayed(ApplySet(b, cs).0, |more|)
  {
    var frame := Frame(f, cs);
    var more, limit := file + frame, |file + frame| % U32;
    ReplayAppended(f, file, extMagic, frame);
    hide Frame, ReadFrame, Fits, HeaderBytes, ApplySet, Longest;
    DropJoined(file, frame);
    AllOf(more);
    ReadWholeFrame(f, cs, more, limit, |file|);
    NothingLeft(f, more, limit, |more|);
    hide Replay;
  }

  lemma FrameLength(f: Format, cs: seq<Change>)
    ensures |Frame(f, cs)| == 8 + |f.marshal(cs)|
  {
  }

  /** The counts too, if they were. */
  lemma AppendKeepsCounts(f: Format, file: Bytes, extMagic: nat, m: Build, cs: seq<Change>)
    requires SameCounts(f, file, extMagic, m) && Fits(f, cs) && ApplySet(m, cs).1
    requires InSync(f, file + Frame(f, cs), extMagic, ApplySet(m, cs).0)
    ensures SameCounts(f, file + Frame(f, cs), extMagic, ApplySet(m, cs).0)
  {
    var b := Replay(f, file, extMagic).build;
    AppendKeepsSync(f, file, extMagic, m, cs);
    SameOutcome(b, m, cs);
    CountsGrow(b, m, cs);
    CountsGrow(m, b, cs);
    hide ApplySet, Replay, Frame, Fits;
  }

  /** Appending changes to levels below 256 keeps the index in step too. */
  lemma AppendKeepsStep(f: Format, file: Bytes, extMagic: nat, m: Build, cs: seq<Change>)
    requires InStep(f, file, extMagic, m) && Fits(f, cs) && ApplySet(m, cs).1 && InRange(cs)
    requires InSync(f, file + Frame(f, cs), extMagic, ApplySet(m, cs).0)
    ensures InStep(f, file + Frame(f, cs), extMagic, ApplySet(m, cs).0)
  {
    AppendKeepsSync(f, file, extMagic, m, cs);
    SetKeepsConsistent(m, cs);
    SetKeepsConsistent(Replay(f, file, extMagic).build, cs);
    hide Replay, Frame, ApplySet, Consistent, InRange, Fits;
  }

  /** A rewritten file is in step, exactly as long as its size fits 32 bits. */
  lemma RewriteSyncs(f: Format, extMagic: nat, cs: seq<Change>, m: Build)
    requires Lists(cs, m.tables) && Fits(f, cs) && Indexed(m)
    ensures var file := HeaderBytes(extMagic) + Frame(f, cs);
            && (InSync(f, file, extMagic, m) <==> |file| < U32)
            && (|file| < U32 ==> Replay(f, file, extMagic).build == ApplySet(EMPTY, cs).0)
            && (|file| < U32 && m.creations == |m.tables| && m.deletions == 0 ==> SameCounts(f, file, extMagic, m))
  {
    Rebuilt(cs, m.tables);
    OneFrame(f, extMagic, cs);
    hide Frame, HeaderBytes, ApplySet, Lists, Indexed, Fits, Replay;
  }

  /** A file with one change set that can be applied. */
  lemma OneFrame(f: Format, extMagic: nat, cs: seq<Change>)
    requires Fits(f, cs) && ApplySet(EMPTY, cs).1
    ensures var file := HeaderBytes(extMagic) + Frame(f, cs);
            Replay(f, file, extMagic) == if |file| < U32 then Replayed(ApplySet(EMPTY, cs).0, |file|) else Error
  {
    var head, frame := HeaderBytes(extMagic), Frame(f, cs);
    var file := head + frame;
    FrameLength(f, cs);
    SizeFits(|f.marshal(cs)|);
    hide Frame, ReadFrame, Fits, HeaderBytes, ApplySet;
    TakeFirst(head, frame, 8);
    AllOf(head);
    DropJoined(head, frame);
    AllOf(file);
    ReadWholeFrame(f, cs, file, |file| % U32, 8);
    NothingLeft(f, file, |file| % U32, |file|);
    assert file[..8] == head;
    assert |file| == |f.marshal(cs)| + 16;
    assert |file| < U32 ==> ReadFrame(f, file, |file| % U32, 8) == Set(cs, |file|);
    assert |file| >= U32 ==> ReadFrame(f, file, |file| % U32, 8) == Bad;
    assert |file| < U32 ==> ReplayFrom(f, file, |file| % U32, 8, EMPTY) == ReplayFrom(f, file, |file| % U32, |file|, ApplySet(EMPTY, cs).0);
  }

  lemma SizeFits(n: nat)
    requires n < U32
    ensures n <= (n + 16) % U32 <==> n + 16 < U32
  {
  }

  /** A rewritten file has the index in step, whatever was in the file before. */
  lemma RewriteSteps(f: Format, extMagic: nat, cs: seq<Change>, m: Build)
    requires Lists(cs, m.tables) && Fits(f, cs) && Consistent(m)
    ensures var file := HeaderBytes(extMagic) + Frame(f, cs); InStep(f, file, extMagic, m) <==> |file| < U32
  {
    RewriteSyncs(f, extMagic, cs, m);
    ListingInRange(cs, m);
    SetKeepsConsistent(EMPTY, cs);
    hide Replay, Frame, HeaderBytes, ApplySet, Lists, Fits, InRange;
  }

  /** After a change set that fails, the file still gives the tables in memory if and only if the changes
      before the failing one put every table back; and the counts only if there are none. */
  lemma FailedChanges(f: Format, file: Bytes, extMagic: nat, m: Build, cs: seq<Change>, n: nat)
    requires InSync(f, file, extMagic, m) && FailsAt(m.tables, cs, n)
    ensures !ApplySet(m, cs).1
    ensures InSync(f, file, extMagic, ApplySet(m, cs).0) <==> PutsBack(m.tables, cs, n)
    ensures SameCounts(f, file, extMagic, m) ==> (SameCounts(f, file, extMagic, ApplySet(m, cs).0) <==> n == 0)
  {
    FailsCleanly(m, cs, n);
    FailsThere(m, cs, n);
    CountsGrow(m, m, cs[..n]);
    if n == 0 { assert cs[..n] == []; }
    hide Replay, PutsBack;
  }

  /** Creating a table twice in one change set leaves it in memory and not in the file. */
  lemma CreatedTwice(f: Format, file: Bytes, extMagic: nat, m: Build)
    requires InSync(f, file, extMagic, m) && 1 !in m.tables
    ensures var (n, ok) := ApplySet(m, [Create(1, 0, 0, 0), Create(1, 0, 0, 0)]);
            !ok && 1 in n.tables && !InSync(f, file, extMagic, n)
  {
    var cs := [Create(1, 0, 0, 0), Create(1, 0, 0, 0)];
    assert cs[..1][..0] == [] && ApplySet(m, cs[..1]).1;
  }

  /** Opening a manifest that has recorded a deletion leaves the counts in memory behind those of the
      file; only the tables and the index are those of the file. */
  lemma CountsStartOver(f: Format, file: Bytes, extMagic: nat, m: Build)
    requires var r := Replay(f, file, extMagic); r.Replayed? && r.build.deletions > 0 && IsClone(m, r.build)
    ensures !SameCounts(f, file, extMagic, m)
  {
  }

  // ---------------------------------------------------------------- one step

  datatype Store = Store(file: Bytes, m: Build)

  /** What stays the same while a manifest is in use. */
  datatype Setup = Setup(f: Format, extMagic: nat, deletionsRewriteThreshold: nat)

  /** Whether the file is to be rewritten. */
  predicate Wasteful(threshold: nat, b: Build) {
    b.deletions > threshold && b.deletions > 10 * (b.creations as int - b.deletions)
  }

  /** The change set that ends up in the file. */
  ghost predicate Writes(threshold: nat, b: Build, cs: seq<Change>, written: seq<Change>) {
    if Wasteful(threshold, b) then Lists(written, b.tables) else written == cs
  }

  /** What addChanges leaves when it succeeds. */
  function Added(c: Setup, s: Store, cs: seq<Change>, written: seq<Change>): Store {
    var b := ApplySet(s.m, cs).0;
    if Wasteful(c.deletionsRewriteThreshold, b) then
      Store(HeaderBytes(c.extMagic) + Frame(c.f, written), b.(creations := |b.tables|, deletions := 0))
    else Store(s.file + Frame(c.f, written), b)
  }

  predicate Synced(c: Setup, s: Store) {
    InSync(c.f, s.file, c.extMagic, s.m)
  }

  predicate Counted(c: Setup, s: Store) {
    SameCounts(c.f, s.file, c.extMagic, s.m)
  }

  ghost predicate Stepped(c: Setup, s: Store) {
    InStep(c.f, s.file, c.extMagic, s.m)
  }

  /** A change set that is added leaves the file in step if it was, or if it is rewritten. */
  lemma AddKeepsSync(c: Setup, s: Store, cs: seq<Change>, written: seq<Change>)
    requires Indexed(s.m) && ApplySet(s.m, cs).1 && Writes(c.deletionsRewriteThreshold, ApplySet(s.m, cs).0, cs, written)
    requires Fits(c.f, written) && |Added(c, s, cs, written).file| < U32
    ensures var t, anew := Added(c, s, cs, written), Wasteful(c.deletionsRewriteThreshold, ApplySet(s.m, cs).0);
            && (Synced(c, s) || anew ==> Synced(c, t))
            && (Counted(c, s) || anew ==> Counted(c, t))
            && (InRange(cs) && (Stepped(c, s) || (anew && Consistent(s.m))) ==> Stepped(c, t))
  {
    SetKeepsIndexed(s.m, cs);
    if Wasteful(c.deletionsRewriteThreshold, ApplySet(s.m, cs).0) {
      RewriteKeeps(c, s, cs, written);
    } else {
      hide InSync, InStep, SameCounts, Fits, ApplySet, Frame, Indexed, Consistent, InRange;
      if Synced(c, s) { AppendKeepsSync(c.f, s.file, c.extMagic, s.m, cs); }
      if Counted(c, s) { CountedIs(c, s); AppendKeepsCounts(c.f, s.file, c.extMagic, s.m, cs); }
      if Stepped(c, s) && InRange(cs) { SteppedIs(c, s); AppendKeepsStep(c.f, s.file, c.extMagic, s.m, cs); }
    }
  }

  lemma CountedIs(c: Setup, s: Store)
    requires Counted(c, s)
    ensures Synced(c, s)
  {
  }

  lemma SteppedIs(c: Setup, s: Store)
    requires Stepped(c, s)
    ensures Synced(c, s) && Consistent(s.m) && Consistent(Replay(c.f, s.file, c.extMagic).build)
  {
  }

  lemma RewriteKeeps(c: Setup, s: Store, cs: seq<Change>, written: seq<Change>)
    requires Indexed(ApplySet(s.m, cs).0) && Lists(written, ApplySet(s.m, cs).0.tables) && Fits(c.f, written)
    requires Wasteful(c.deletionsRewriteThreshold, ApplySet(s.m, cs).0) && |Added(c, s, cs, written).file| < U32
    ensures var t := Added(c, s, cs, written); Counted(c, t) && (InRange(cs) && Consistent(s.m) ==> Stepped(c, t))
  {
    var b, t := ApplySet(s.m, cs).0, Added(c, s, cs, written);
    assert Indexed(t.m);
    RewriteSyncs(c.f, c.extMagic, written, t.m);
    if InRange(cs) && Consistent(s.m) {
      SetKeepsConsistent(s.m, cs);
      CountsAside(b, t.m);
      RewriteSteps(c.f, c.extMagic, written, t.m);
    }
    hide Replay, ApplySet, Frame, HeaderBytes, Lists, Fits, Consistent;
  }

  /** What the file holds once it is opened again: truncated where replay stopped, with a fresh copy of
      the tables in memory. */
  ghost predicate Opens(c: Setup, stored: Bytes, s: Store) {
    var r := Replay(c.f, stored, c.extMagic);
    r.Replayed? && s.file == stored[..r.offset] && IsClone(s.m, r.build)
  }

  /** Opening leaves file and memory in step: with no premise on what was in memory before, and the index
      too if the replayed one is right. */
  lemma OpenSyncs(c: Setup, stored: Bytes, s: Store)
    requires Opens(c, stored, s) && |stored| < U32
    ensures Synced(c, s) && (Consistent(Replay(c.f, stored, c.extMagic).build) ==> Stepped(c, s))
  {
    TruncateKeeps(c.f, stored, c.extMagic);
    hide Replay;
  }

  /** A file in step to which the first bytes of a change set were appended: it opens as if they were
      not there, unless the length is there and more than the size of the file. */
  lemma TornAppend(f: Format, file: Bytes, extMagic: nat, cs: seq<Change>, n: nat)
    requires var r := Replay(f, file, extMagic); r.Replayed? && r.offset == |file|
    requires Fits(f, cs) && n < |Frame(f, cs)| && |file| + n < U32
    ensures Replay(f, file + Frame(f, cs)[..n], extMagic) ==
            if n >= 8 && |f.marshal(cs)| > |file| + n then Error else Replay(f, file, extMagic)
  {
    hide Frame, ReadFrame, Fits, HeaderBytes, ApplySet, Longest, Replay, ReplayFrom;
    LongestFits(f, file, |file| % U32, 8);
    ReplayAppended(f, file, extMagic, Frame(f, cs)[..n]);
    AtTornEnd(f, file, cs, n, |file + Frame(f, cs)[..n]| % U32, Replay(f, file, extMagic).build);
  }

  lemma AtTornEnd(f: Format, file: Bytes, cs: seq<Change>, n: nat, limit: nat, b: Build)
    requires Fits(f, cs) && n < |Frame(f, cs)|
    ensures ReplayFrom(f, file + Frame(f, cs)[..n], limit, |file|, b) ==
            if n >= 8 && |f.marshal(cs)| > limit then Error else Replayed(b, |file|)
  {
    hide Frame, ReadFrame, Fits, ApplySet;
    DropJoined(file, Frame(f, cs)[..n]);
    ReadTornFrame(f, cs, file + Frame(f, cs)[..n], limit, |file|);
  }

  // ---------------------------------------------------------------- any number of steps

  /** `Reopen`: the process ends with the first `n` bytes of a change set appended, and the manifest is
      opened again. */
  datatype Event = Add(cs: seq<Change>, written: seq<Change>) | Fail(cs: seq<Change>, n: nat) | Reopen(cs: seq<Change>, n: nat, after: Store)

  ghost predicate Enabled(c: Setup, s: Store, e: Event) {
    match e
    case Add(cs, written) =>
      && ApplySet(s.m, cs).1 && Writes(c.deletionsRewriteThreshold, ApplySet(s.m, cs).0, cs, written)
      && Fits(c.f, written) && |Added(c, s, cs, written).file| < U32
    case Fail(cs, n) => FailsAt(s.m.tables, cs, n) && PutsBack(s.m.tables, cs, n)
    case Reopen(cs, n, after) =>
      && Fits(c.f, cs) && n < |Frame(c.f, cs)| && |s.file| + n < U32
      && Opens(c, s.file + Frame(c.f, cs)[..n], after)
  }

  function Apply(c: Setup, s: Store, e: Event): Store {
    match e
    case Add(cs, written) => Added(c, s, cs, written)
    case Fail(cs, _) => s.(m := ApplySet(s.m, cs).0)
    case Reopen(_, _, after) => after
  }

  /** A manifest that was just created. */
  ghost predicate Created(c: Setup, s: Store) {
    && Fits(c.f, []) && s.file == HeaderBytes(c.extMagic) + Frame(c.f, []) && |s.file| < U32
    && IsClone(s.m, EMPTY)
  }

  function After(c: Setup, s: Store, run: seq<Event>): Store {
    if run == [] then s else Apply(c, After(c, s, run[..|run| - 1]), run[|run| - 1])
  }

  ghost predicate Runs(c: Setup, s: Store, run: seq<Event>) {
    run == [] || (Runs(c, s, run[..|run| - 1]) && Enabled(c, After(c, s, run[..|run| - 1]), run[|run| - 1]))
  }

  /** The levels that are created are below 256. */
  predicate Levels(e: Event) {
    e.Reopen? || InRange(e.cs)
  }

  ghost predicate Inv(c: Setup, s: Store) {
    Synced(c, s) && Indexed(s.m)
  }

  lemma CreatedSyncs(c: Setup, s: Store)
    requires Created(c, s)
    ensures Inv(c, s) && Stepped(c, s)
  {
    assert Lists([], s.m.tables) && Consistent(s.m);
    hide Replay, Frame, HeaderBytes, Fits, Lists, Consistent;
    RewriteSyncs(c.f, c.extMagic, [], s.m);
    RewriteSteps(c.f, c.extMagic, [], s.m);
  }

  /** Each step keeps file and memory in step. What it does to the tables is what an added change set
      says, and nothing else. */
  lemma StepKeeps(c: Setup, s: Store, e: Event)
    requires Inv(c, s) && Enabled(c, s, e)
    ensures var t := Apply(c, s, e);
            && Inv(c, t)
            && (Stepped(c, s) && Levels(e) ==> Stepped(c, t))
            && t.m.tables == if e.Add? then ApplySet(s.m, e.cs).0.tables else s.m.tables
  {
    match e
    case Add(cs, written) =>
      AddKeepsSync(c, s, cs, written);
      SetKeepsIndexed(s.m, cs);
      hide Synced, Stepped, ApplySet, Writes, Fits, Frame;
    case Fail(cs, n) =>
      FailsCleanly(s.m, cs, n);
      SetKeepsIndexed(s.m, cs);
      if Stepped(c, s) && InRange(cs) { SetKeepsConsistent(s.m, cs); }
      hide ApplySet, PutsBack, FailsAt, Replay, Indexed, Consistent, InRange;
    case Reopen(cs, n, after) =>
      TornAppend(c.f, s.file, c.extMagic, cs, n);
      OpenSyncs(c, s.file + Frame(c.f, cs)[..n], after);
      hide Replay, Frame, Fits;
  }

  /** Over any sequence of change sets, rewrites, failures that put everything back, torn appends and
      reopens, replaying the file gives the tables in memory, and for levels below 256 the index too. */
  lemma {:induction false} AlwaysInSync(c: Setup, s: Store, run: seq<Event>)
    requires Created(c, s) && Runs(c, s, run)
    ensures Inv(c, After(c, s, run))
    ensures (forall i :: 0 <= i < |run| ==> Levels(run[i])) ==> Stepped(c, After(c, s, run))
  {
    hide Created, Enabled, Apply, Inv, Stepped, Levels;
    if run == [] {
      CreatedSyncs(c, s);
    } else {
      AlwaysInSync(c, s, run[..|run| - 1]);
      StepKeeps(c, After(c, s, run[..|run| - 1]), run[|run| - 1]);
    }
  }

  /** All change sets that were added. */
  function SetsOf(run: seq<Event>): seq<seq<Change>> {
    if run == [] then []
    else
      var last := run[|run| - 1];
      SetsOf(run[..|run| - 1]) + if last.Add? then [last.cs] else []
  }

  lemma {:induction false} OneMore(b: Build, sets: seq<seq<Change>>, cs: seq<Change>)
    requires ApplySets(b, sets).1
    ensures ApplySets(b, sets + [cs]) == ApplySet(ApplySets(b, sets).0, cs)
    decreases |sets|
  {
    hide ApplySet;
    if sets == [] {
      assert ([] + [cs])[0] == cs && ([] + [cs])[1..] == [];
      assert sets + [cs] == [cs] && [cs][1..] == [];
    } else {
      assert (sets + [cs])[1..] == sets[1..] + [cs];
      OneMore(ApplySet(b, sets[0]).0, sets[1..], cs);
    }
  }

  /** At any moment the tables are what all change sets added so far, one after the other, make of an
      empty manifest: rewriting and opening again loses nothing. */
  lemma {:induction false} NothingLost(c: Setup, s: Store, run: seq<Event>)
    requires Created(c, s) && Runs(c, s, run)
    ensures var (b, ok) := ApplySets(EMPTY, SetsOf(run)); ok && b.tables == After(c, s, run).m.tables
  {
    if run == [] {
      assert IsClone(s.m, EMPTY);
    } else {
      var front, e := run[..|run| - 1], run[|run| - 1];
      NothingLost(c, s, front);
      LastOf(c, s, run);
      hide *;
      AlwaysInSync(c, s, front);
      StepKeeps(c, After(c, s, front), e);
      if e.Add? { AddedMore(c, After(c, s, front), e.cs, e.written, SetsOf(front)); }
    }
  }

  lemma LastOf(c: Setup, s: Store, run: seq<Event>)
    requires run != [] && Runs(c, s, run)
    ensures var front, e := run[..|run| - 1], run[|run| - 1];
            && Runs(c, s, front) && Enabled(c, After(c, s, front), e) && After(c, s, run) == Apply(c, After(c, s, front), e)
            && SetsOf(run) == if e.Add? then SetsOf(front) + [e.cs] else SetsOf(front)
  {
    hide Enabled, Apply;
  }

  lemma AddedMore(c: Setup, s: Store, cs: seq<Change>, written: seq<Change>, sets: seq<seq<Change>>)
    requires Enabled(c, s, Add(cs, written)) && ApplySets(EMPTY, sets).1 && ApplySets(EMPTY, sets).0.tables == s.m.tables
    ensures var (b, ok) := ApplySets(EMPTY, sets + [cs]); ok && b.tables == ApplySet(s.m, cs).0.tables
  {
    assert ApplySet(s.m, cs).1;
    hide *;
    SameOutcome(ApplySets(EMPTY, sets).0, s.m, cs);
    OneMore(EMPTY, sets, cs);
  }

  // ---------------------------------------------------------------- the code

  class ManifestFile {
    const c: Setup
    const inMemory: bool
    const manifest: Manifest
    var fp: Bytes

    constructor (c: Setup, inMemory: bool, manifest: Manifest, fp: Bytes)
      ensures this.c == c && this.inMemory == inMemory && this.manifest == manifest && this.fp == fp
    {
      this.c, this.inMemory, this.manifest, this.fp := c, inMemory, manifest, fp;
    }

    function Stored(): Store
      reads this, manifest
    {
      Store(fp, manifest.State())
    }

    /** Applies a change set to memory and then writes it, or all of memory, to the file; `written` is
        the change set that ends up in the file, `n` the change that fails. */
    method AddChanges(changes: seq<Change>) returns (ok: bool, written: seq<Change>, ghost n: nat)
      requires Indexed(manifest.State())
      modifies this, manifest
      ensures Indexed(manifest.State())
      ensures inMemory ==> ok && Stored() == old(Stored())
      ensures !inMemory ==> ok == ApplySet(old(manifest.State()), changes).1
      ensures ok && !inMemory ==>
                && Writes(c.deletionsRewriteThreshold, ApplySet(old(manifest.State()), changes).0, changes, written)
                && Stored() == Added(c, old(Stored()), changes, written)
      ensures ok && !inMemory ==>
                var b := ApplySet(old(manifest.State()), changes).0;
                if b.deletions > c.deletionsRewriteThreshold && b.deletions > 10 * (b.creations as int - b.deletions)
                then && Lists(written, b.tables) && fp == HeaderBytes(c.extMagic) + Frame(c.f, written)
                     && manifest.tables == b.tables && manifest.creations == |b.tables| && manifest.deletions == 0
                else fp == old(fp) + Frame(c.f, changes) && manifest.State() == b
      ensures ok && !inMemory && Fits(c.f, written) && |fp| < U32 ==>
                var anew := Wasteful(c.deletionsRewriteThreshold, ApplySet(old(manifest.State()), changes).0);
                && (old(Synced(c, Stored())) || anew ==> Synced(c, Stored()))
                && (old(Counted(c, Stored())) || anew ==> Counted(c, Stored()))
                && (InRange(changes) && (old(Stepped(c, Stored())) || (anew && old(Consistent(manifest.State())))) ==>
                      Stepped(c, Stored()))
      ensures !ok ==> fp == old(fp) && manifest.State() == ApplySet(old(manifest.State()), changes).0
      ensures !ok ==> FailsAt(old(manifest.tables), changes, n)
      ensures !ok && old(Synced(c, Stored())) ==> (Synced(c, Stored()) <==> PutsBack(old(manifest.tables), changes, n))
    {
      hide Frame, HeaderBytes, Fits, InSync, InStep, SameCounts, ApplySet, Consistent, InRange, FailsAt, PutsBack, Lists;
      written, n := changes, 0;
      if inMemory {
        return true, written, n;
      }
      ghost var s := Stored();
      ok := manifest.ApplyChangeSet(changes);
      if !ok {
        n := FirstRefused(s.m, changes);
        if Synced(c, s) { FailedChanges(c.f, s.file, c.extMagic, s.m, changes, n); }
        return;
      }
      if manifest.deletions > c.deletionsRewriteThreshold && manifest.deletions > 10 * (manifest.creations as int - manifest.deletions) {
        written := manifest.AsChanges();
        fp := HeaderBytes(c.extMagic) + Frame(c.f, written);
        manifest.creations := |manifest.tables|;
        manifest.deletions := 0;
      } else {
        fp := fp + Frame(c.f, changes);
      }
      if Fits(c.f, written) && |fp| < U32 { AddKeepsSync(c, s, changes, written); }
    }
  }

  lemma ListsFirst(cs: seq<Change>, tables: map<nat, TableManifest>)
    requires Lists(cs, tables)
    ensures cs == [] || cs[0].id in tables
  {
  }

  /** helpOpenOrCreateManifestFile; `stored` is the file if there is one. The second result is for the
      caller, the one in the file object is a copy. None are the errors. */
  method OpenOrCreate(c: Setup, stored: Option<Bytes>, readOnly: bool) returns (mf: Option<ManifestFile>, m: Manifest)
    ensures mf.None? <==> if stored.None? then readOnly else Replay(c.f, stored.value, c.extMagic).Error?
    ensures mf.Some? ==> fresh(mf.value) && fresh(mf.value.manifest) && mf.value.c == c && !mf.value.inMemory && m != mf.value.manifest
    ensures mf.Some? && stored.None? ==>
              m.State() == EMPTY && (Fits(c.f, []) && |mf.value.fp| < U32 ==> Created(c, mf.value.Stored()))
    ensures mf.Some? && stored.Some? ==>
              && m.State() == Replay(c.f, stored.value, c.extMagic).build && IsClone(mf.value.manifest.State(), m.State())
              && (if readOnly then mf.value.fp == stored.value else Opens(c, stored.value, mf.value.Stored()))
    ensures mf.Some? && stored.Some? && !readOnly && |stored.value| < U32 ==>
              Synced(c, mf.value.Stored()) && (Consistent(m.State()) ==> Stepped(c, mf.value.Stored()))
  {
    hide Frame, HeaderBytes, Fits, Replay, Consistent;
    mf := None;
    if stored.None? {
      m := new Manifest();
      if readOnly {
        return;
      }
      var changes := m.AsChanges();
      ListsFirst(changes, m.tables);
      var copy := m.Clone();
      var file := new ManifestFile(c, false, copy, HeaderBytes(c.extMagic) + Frame(c.f, changes));
      return Some(file), m;
    }
    var truncOffset, ok;
    m, truncOffset, ok := ReplayManifestFile(c.f, stored.value, c.extMagic);
    if !ok {
      return;
    }
    var fp := if readOnly then stored.value else stored.value[..truncOffset];
    var copy := m.Clone();
    var file := new ManifestFile(c, false, copy, fp);
    if !readOnly && |stored.value| < U32 { OpenSyncs(c, stored.value, file.Stored()); }
    return Some(file), m;
  }
}
