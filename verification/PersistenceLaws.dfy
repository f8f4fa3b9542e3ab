/**
 What persistent storage promises: what a file restores, how much of it a short file restores, and
 which changes a save pass notices.
 */
module PersistenceLaws {
  import opened Bytes
  import opened Options
  import opened PersistentStorage

  // --------------------------------------------------------------------------
  // Restoring
  // --------------------------------------------------------------------------

  /** Reading the first n bytes of a saved file sets exactly the cells whose value is wholly among them
      and not zero; every other cell keeps what it holds. */
  lemma PrefixOfFileRestores(saved: Image, n: nat, m: Image, i: nat)
    requires saved.Sized() && m.Sized() && n <= |FileOf(saved)| && i < BUFFER_SIZE
    ensures var r := RestoredImage(FileOf(saved)[..n], m);
      && r.ints[i] == (if 2 * i + 2 <= n && Stored(Width16(), saved.ints[i]) != 0
                       then Some(Stored(Width16(), saved.ints[i])) else m.ints[i])
      && r.dints[i] == (if 2 * BUFFER_SIZE + 4 * i + 4 <= n && Stored(Width32(), saved.dints[i]) != 0
                        then Some(Stored(Width32(), saved.dints[i])) else m.dints[i])
      && r.lints[i] == (if 6 * BUFFER_SIZE + 8 * i + 8 <= n && Stored(Width64(), saved.lints[i]) != 0
                        then Some(Stored(Width64(), saved.lints[i])) else m.lints[i])
  {
    hide Stored, MemoryBytes, Restored;
    var file := FileOf(saved);
    var ints, dints, lints :=
      MemoryBytes(Width16(), saved.ints), MemoryBytes(Width32(), saved.dints), MemoryBytes(Width64(), saved.lints);
    var part := file[..n];
    SectionRestores(Width16(), [], saved.ints, dints + lints, file, n, m.ints, i, 2 * i);
    SectionRestores(Width32(), ints, saved.dints, lints, file, n, m.dints, i, 4 * i);
    SectionRestores(Width64(), ints + dints, saved.lints, [], file, n, m.lints, i, 8 * i);
    assert Behind(part, 0) == part;
  }

  /** The same for one memory, whose bytes stand between others in the file */
  lemma SectionRestores<T(!new)>(w: Width<T>, before: seq<bv8>, saved: seq<Option<T>>, after: seq<bv8>,
    file: seq<bv8>, n: nat, cells: seq<Option<T>>, i: nat, at: nat)
    requires w.Sound() && |saved| == |cells| && i < |cells| && at == i * w.size
    requires file == before + MemoryBytes(w, saved) + after && n <= |file|
    ensures Restored(w, Behind(file[..n], |before|), cells)[i] ==
      if |before| + at + w.size <= n && Stored(w, saved[i]) != w.zero then Some(Stored(w, saved[i])) else cells[i]
  {
    hide Stored, MemoryBytes, Restored, Behind;
    BytesOfCell(w, saved, i);
    var bytes, v := MemoryBytes(w, saved), Stored(w, saved[i]);
    assert at + w.size <= |bytes| && bytes[at..at + w.size] == w.bytes(v);
    CellOfSection(w, before, bytes, after, file, n, cells, i, at, v);
  }

  lemma CellOfSection<T(!new)>(w: Width<T>, before: seq<bv8>, bytes: seq<bv8>, after: seq<bv8>, file: seq<bv8>, n: nat,
    cells: seq<Option<T>>, i: nat, at: nat, v: T)
    requires w.Sound() && i < |cells| && at == i * w.size && at + w.size <= |bytes|
    requires file == before + bytes + after && n <= |file| && bytes[at..at + w.size] == w.bytes(v)
    ensures Restored(w, Behind(file[..n], |before|), cells)[i] ==
      if |before| + at + w.size <= n && v != w.zero then Some(v) else cells[i]
  {
    hide Behind, Restored;
    SectionSlice(before, bytes, after, file, n, at, w.size);
    CellRestores(w, Behind(file[..n], |before|), cells, i, at, v);
  }

  lemma CellRestores<T(!new)>(w: Width<T>, there: seq<bv8>, cells: seq<Option<T>>, i: nat, at: nat, v: T)
    requires w.Sound() && i < |cells| && at == i * w.size
    requires at + w.size <= |there| ==> there[at..at + w.size] == w.bytes(v)
    ensures Restored(w, there, cells)[i] == if at + w.size <= |there| && v != w.zero then Some(v) else cells[i]
  {
    assert w.value(w.bytes(v)) == v;
  }

  lemma SliceOfSlice<T>(s: seq<T>, from: nat, end: nat, at: nat, size: nat)
    requires from + at + size <= end <= |s|
    ensures s[from..end][at..at + size] == s[from + at..from + at + size]
  {
    var part, there := s[from..end][at..at + size], s[from + at..from + at + size];
    forall k | 0 <= k < size
      ensures part[k] == there[k]
    {
      assert part[k] == s[from..end][at + k] == s[from + (at + k)];
    }
    assert |part| == |there| == size;
  }

  lemma SectionSlice(before: seq<bv8>, bytes: seq<bv8>, after: seq<bv8>, file: seq<bv8>, n: nat, at: nat, size: nat)
    requires file == before + bytes + after && n <= |file| && at + size <= |bytes| && size > 0
    ensures var there := Behind(file[..n], |before|);
      if |before| + at + size <= n then at + size <= |there| && there[at..at + size] == bytes[at..at + size]
      else |there| < at + size
  {
    var k := |before|;
    assert k <= n ==> Behind(file[..n], k) == file[k..n];
    assert file[k..k + |bytes|] == bytes;
    if k + at + size <= n {
      SliceOfSlice(file, k, n, at, size);
      SliceOfSlice(file, k, k + |bytes|, at, size);
    }
  }

  /** Whether two memories hold the same values, empty slots counting as 0 */
  ghost predicate SameValues(a: Image, b: Image)
    requires a.Sized() && b.Sized()
  {
    forall i | 0 <= i < BUFFER_SIZE ::
      && Stored(Width16(), a.ints[i]) == Stored(Width16(), b.ints[i])
      && Stored(Width32(), a.dints[i]) == Stored(Width32(), b.dints[i])
      && Stored(Width64(), a.lints[i]) == Stored(Width64(), b.lints[i])
  }

  /** Whether a memory holds 0 wherever another one does */
  ghost predicate ZeroWhere(saved: Image, m: Image)
    requires saved.Sized() && m.Sized()
  {
    forall i | 0 <= i < BUFFER_SIZE ::
      && (Stored(Width16(), saved.ints[i]) == 0 ==> Stored(Width16(), m.ints[i]) == 0)
      && (Stored(Width32(), saved.dints[i]) == 0 ==> Stored(Width32(), m.dints[i]) == 0)
      && (Stored(Width64(), saved.lints[i]) == 0 ==> Stored(Width64(), m.lints[i]) == 0)
  }

  lemma StoredSome<T(!new)>(w: Width<T>, v: T)
    ensures Stored(w, Some(v)) == v
  {
  }

  /** A complete file restores the saved values exactly when the memory is 0 where they are. */
  lemma RestoreIff(saved: Image, m: Image)
    requires saved.Sized() && m.Sized()
    ensures SameValues(RestoredImage(FileOf(saved), m), saved) <==> ZeroWhere(saved, m)
  {
    hide Stored, FileOf, RestoredImage;
    var file := FileOf(saved);
    var r := RestoredImage(file, m);
    assert file[..|file|] == file;
    assert |file| == 14 * BUFFER_SIZE;
    forall i | 0 <= i < BUFFER_SIZE
      ensures r.ints[i] ==
        if Stored(Width16(), saved.ints[i]) != 0 then Some(Stored(Width16(), saved.ints[i])) else m.ints[i]
      ensures r.dints[i] ==
        if Stored(Width32(), saved.dints[i]) != 0 then Some(Stored(Width32(), saved.dints[i])) else m.dints[i]
      ensures r.lints[i] ==
        if Stored(Width64(), saved.lints[i]) != 0 then Some(Stored(Width64(), saved.lints[i])) else m.lints[i]
      ensures Stored(Width16(), Some(Stored(Width16(), saved.ints[i]))) == Stored(Width16(), saved.ints[i])
      ensures Stored(Width32(), Some(Stored(Width32(), saved.dints[i]))) == Stored(Width32(), saved.dints[i])
      ensures Stored(Width64(), Some(Stored(Width64(), saved.lints[i]))) == Stored(Width64(), saved.lints[i])
    {
      PrefixOfFileRestores(saved, |file|, m, i);
      StoredSome(Width16(), Stored(Width16(), saved.ints[i]));
      StoredSome(Width32(), Stored(Width32(), saved.dints[i]));
      StoredSome(Width64(), Stored(Width64(), saved.lints[i]));
    }
  }

  /** A cell that was saved as 0 keeps what it holds at start-up. */
  lemma ZeroNotRestored()
    ensures exists saved: Image, m: Image ::
      saved.Sized() && m.Sized() && !SameValues(RestoredImage(FileOf(saved), m), saved)
  {
    hide FileOf, RestoredImage, SameValues;
    var saved := Image(seq(BUFFER_SIZE, _ => Some(0)), seq(BUFFER_SIZE, _ => None), seq(BUFFER_SIZE, _ => None));
    var m := saved.(ints := seq(BUFFER_SIZE, _ => Some(1)));
    assert Stored(Width16(), saved.ints[0]) == 0 && Stored(Width16(), m.ints[0]) == 1;
    assert !ZeroWhere(saved, m);
    RestoreIff(saved, m);
  }

  // --------------------------------------------------------------------------
  // Noticing changes
  // --------------------------------------------------------------------------

  /** The checksum moves by the changes of all cells, each 64-bit one folded to 32 bits. */
  lemma ChecksumMoves(a: Image, b: Image)
    requires a.Sized() && b.Sized()
    ensures Xor(Checksum(a), Checksum(b)) == Xor(
      Xor(Changes(Width16(), a.ints, b.ints), Changes(Width32(), a.dints, b.dints)),
      Changes(Width64(), a.lints, b.lints))
  {
    hide Xor, XorAll, Changes;
    var a16, a32, a64 := XorAll(Width16(), a.ints), XorAll(Width32(), a.dints), XorAll(Width64(), a.lints);
    var b16, b32, b64 := XorAll(Width16(), b.ints), XorAll(Width32(), b.dints), XorAll(Width64(), b.lints);
    XorAllChanges(Width16(), a.ints, b.ints);
    XorAllChanges(Width32(), a.dints, b.dints);
    XorAllChanges(Width64(), a.lints, b.lints);
    XorRegroup(Xor(a16, a32), a64, Xor(b16, b32), b64);
    XorRegroup(a16, a32, b16, b32);
  }

  lemma OnlyChange(x: bv32, y: bv32, z: bv32)
    requires y == 0 && z == 0
    ensures Xor(Xor(x, y), z) == x && Xor(Xor(y, x), z) == x && Xor(Xor(y, z), x) == x
  {
  }

  /** A single 16-bit cell that changes is noticed. */
  lemma IntChangeNoticed(m: Image, i: nat, cell: Option<bv16>)
    requires m.Sized() && i < BUFFER_SIZE
    ensures Checksum(m.(ints := m.ints[i := cell])) == Checksum(m) <==>
      Stored(Width16(), cell) == Stored(Width16(), m.ints[i])
  {
    hide Xor, XorAll, Changes, Checksum, Stored;
    var b := m.(ints := m.ints[i := cell]);
    ChecksumMoves(m, b);
    OneChange(Width16(), m.ints, i, cell);
    NoChange(Width32(), m.dints);
    NoChange(Width64(), m.lints);
    OnlyChange(Changes(Width16(), m.ints, b.ints), 0, 0);
    XorSame(Checksum(m), Checksum(b));
    ExtendedDiffers(Stored(Width16(), m.ints[i]), Stored(Width16(), cell));
  }

  lemma ExtendedDiffers(a: bv16, b: bv16)
    ensures Xor(Extended(a), Extended(b)) == 0 <==> a == b
  {
    hide Xor;
    XorSame(Extended(a), Extended(b));
  }

  lemma DintChangeNoticed(m: Image, i: nat, cell: Option<bv32>)
    requires m.Sized() && i < BUFFER_SIZE
    ensures Checksum(m.(dints := m.dints[i := cell])) == Checksum(m) <==>
      Stored(Width32(), cell) == Stored(Width32(), m.dints[i])
  {
    hide Xor, XorAll, Changes, Checksum, Stored;
    var b := m.(dints := m.dints[i := cell]);
    ChecksumMoves(m, b);
    NoChange(Width16(), m.ints);
    OneChange(Width32(), m.dints, i, cell);
    NoChange(Width64(), m.lints);
    OnlyChange(Changes(Width32(), m.dints, b.dints), 0, 0);
    XorSame(Checksum(m), Checksum(b));
    XorSame(Stored(Width32(), m.dints[i]), Stored(Width32(), cell));
  }

  /** A single 64-bit cell that changes is missed exactly when its halves change by the same bits. */
  lemma LintChangeMissedIff(m: Image, i: nat, cell: Option<bv64>)
    requires m.Sized() && i < BUFFER_SIZE
    ensures Checksum(m.(lints := m.lints[i := cell])) == Checksum(m) <==>
      var was, now := Stored(Width64(), m.lints[i]), Stored(Width64(), cell);
      Xor(High32(was), High32(now)) == Xor(Low32(was), Low32(now))
  {
    hide Xor, XorAll, Changes, Checksum, Stored, High32, Low32, Folded;
    var b := m.(lints := m.lints[i := cell]);
    ChecksumMoves(m, b);
    NoChange(Width16(), m.ints);
    NoChange(Width32(), m.dints);
    OneChange(Width64(), m.lints, i, cell);
    OnlyChange(Changes(Width64(), m.lints, b.lints), 0, 0);
    XorSame(Checksum(m), Checksum(b));
    FoldedDiffers(Stored(Width64(), m.lints[i]), Stored(Width64(), cell));
  }

  lemma FoldedDiffers(a: bv64, b: bv64)
    ensures Xor(Folded(a), Folded(b)) == 0 <==> Xor(High32(a), High32(b)) == Xor(Low32(a), Low32(b))
  {
    hide Xor, Folded, High32, Low32;
    FoldedHalves(a);
    FoldedHalves(b);
    XorRegroup(High32(a), Low32(a), High32(b), Low32(b));
    XorSame(Xor(High32(a), High32(b)), Xor(Low32(a), Low32(b)));
  }

  lemma FoldedHalves(a: bv64)
    ensures Folded(a) == Xor(High32(a), Low32(a))
  {
  }

  // --------------------------------------------------------------------------
  // Runs of the storing thread
  // --------------------------------------------------------------------------

  /** Passes over the memories that the thread finds, the last one last */
  function Passes(memories: seq<Image>, disk: Disk): Disk {
    if |memories| == 0 then disk
    else Pass(memories[|memories| - 1], Passes(memories[..|memories| - 1], disk))
  }

  /** All memories from position k on have this checksum. */
  ghost predicate SameSince(memories: seq<Image>, k: nat, checksum: bv32) {
    forall j | k <= j < |memories| :: Checksum(memories[j]) == checksum
  }

  /** The file is always that of a memory since which no pass has seen another checksum, or the one
      from before when no pass has seen another checksum at all. */
  lemma {:induction false} FileAfterPasses(memories: seq<Image>, disk: Disk)
    requires |memories| > 0
    ensures Passes(memories, disk).combinedChecksum == Checksum(memories[|memories| - 1])
    ensures var after := Passes(memories, disk);
      || (after.file == disk.file && SameSince(memories, 0, disk.combinedChecksum))
      || (exists k :: 0 <= k < |memories| && after.file == Some(FileOf(memories[k])) &&
            SameSince(memories, k, after.combinedChecksum))
    decreases |memories|
  {
    hide Checksum, FileOf;
    var n := |memories| - 1;
    var last := memories[n];
    var before, after := Passes(memories[..n], disk), Passes(memories, disk);
    if n > 0 {
      FileAfterPasses(memories[..n], disk);
    }
    if Checksum(last) != before.combinedChecksum {
      assert after.file == Some(FileOf(memories[n])) && SameSince(memories, n, after.combinedChecksum);
    } else if !(before.file == disk.file && SameSince(memories[..n], 0, disk.combinedChecksum)) {
      var k :| 0 <= k < n && before.file == Some(FileOf(memories[..n][k])) &&
        SameSince(memories[..n], k, before.combinedChecksum);
      assert memories[..n][k] == memories[k];
      assert SameSince(memories, k, after.combinedChecksum) by {
        assert forall j :: k <= j < n ==> memories[j] == memories[..n][j];
      }
    } else {
      assert forall j :: 0 <= j < n ==> memories[j] == memories[..n][j];
    }
  }

  /** Such a change: both halves of the value go from 0 to 1, and the checksum stays. */
  lemma ChangeMissed()
    ensures exists m: Image ::
      m.Sized() && m.lints[0] == Some(0) &&
      Checksum(m.(lints := m.lints[0 := Some(0x1_0000_0001)])) == Checksum(m)
  {
    hide Checksum, Xor, High32, Low32;
    var m := Image(seq(BUFFER_SIZE, _ => None), seq(BUFFER_SIZE, _ => None), seq(BUFFER_SIZE, _ => Some(0)));
    LintChangeMissedIff(m, 0, Some(0x1_0000_0001));
    HalvesMove();
  }

  lemma HalvesMove()
    ensures High32(0) == Low32(0) && High32(0x1_0000_0001) == Low32(0x1_0000_0001)
  {
  }

  // --------------------------------------------------------------------------
  // The bytes of the file
  // --------------------------------------------------------------------------

  /** The number that two bytes of a file make, the low byte first */
  function At(file: seq<bv8>, k: nat): nat
    requires k + 1 < |file|
  {
    Number(file[k + 1], file[k])
  }

  lemma IntBytes(v: bv16)
    ensures At(Bytes16(v), 0) == v as nat
  {
    hide High, Low, Number;
    WordNumber(v);
  }

  lemma DintBytes(v: bv32)
    ensures At(Bytes32(v), 0) == Word32(v, 1) as nat && At(Bytes32(v), 2) == Word32(v, 0) as nat
  {
    hide Word32, Bytes16, Number;
    IntBytes(Word32(v, 1));
    IntBytes(Word32(v, 0));
    var low, high := Bytes16(Word32(v, 1)), Bytes16(Word32(v, 0));
    assert Bytes32(v) == low + high;
    assert (low + high)[0] == low[0] && (low + high)[1] == low[1] && (low + high)[2] == high[0] && (low + high)[3] == high[1];
  }

  lemma QuartersOfHalves(v: bv64)
    ensures Word32(Low32(v), 1) == Word64(v, 3) && Word32(Low32(v), 0) == Word64(v, 2)
    ensures Word32(High32(v), 1) == Word64(v, 1) && Word32(High32(v), 0) == Word64(v, 0)
  {
  }

  lemma LintBytes(v: bv64)
    ensures At(Bytes64(v), 0) == Word64(v, 3) as nat && At(Bytes64(v), 2) == Word64(v, 2) as nat
    ensures At(Bytes64(v), 4) == Word64(v, 1) as nat && At(Bytes64(v), 6) == Word64(v, 0) as nat
  {
    hide Word32, Word64, Low32, High32, Bytes32, Number;
    QuartersOfHalves(v);
    DintBytes(Low32(v));
    DintBytes(High32(v));
    var low, high := Bytes32(Low32(v)), Bytes32(High32(v));
    var b := low + high;
    assert Bytes64(v) == b;
    assert b[0] == low[0] && b[1] == low[1] && b[2] == low[2] && b[3] == low[3];
    assert b[4] == high[0] && b[5] == high[1] && b[6] == high[2] && b[7] == high[3];
  }

  function CellOr<T>(cell: Option<T>, zero: T): T {
    if cell.Some? then cell.value else zero
  }

  lemma Sections(m: Image)
    requires m.Sized()
    ensures var file := FileOf(m);
      && |file| == 14 * 1024 && file[0..2048] == MemoryBytes(Width16(), m.ints)
      && file[2048..6144] == MemoryBytes(Width32(), m.dints) && file[6144..14336] == MemoryBytes(Width64(), m.lints)
  {
    hide MemoryBytes;
  }

  lemma IntInFile(m: Image, i: nat)
    requires m.Sized() && i < 1024
    ensures |FileOf(m)| == 14 * 1024 && At(FileOf(m), 2 * i) == CellOr(m.ints[i], 0) as nat
  {
    hide MemoryBytes, Bytes16, Number, FileOf;
    Sections(m);
    var v := CellOr(m.ints[i], 0);
    BytesOfCell(Width16(), m.ints, i);
    IntBytes(v);
    InSlice(FileOf(m), 0, MemoryBytes(Width16(), m.ints), 2 * i, Bytes16(v));
    assert FileOf(m)[0 + 2 * i + 0] == Bytes16(v)[0] && FileOf(m)[0 + 2 * i + 1] == Bytes16(v)[1];
  }

  lemma DintInFile(m: Image, i: nat)
    requires m.Sized() && i < 1024
    ensures var file, v, at := FileOf(m), CellOr(m.dints[i], 0), 2 * 1024 + 4 * i;
      && |file| == 14 * 1024
      && At(file, at) == Word32(v, 1) as nat && At(file, at + 2) == Word32(v, 0) as nat
  {
    hide MemoryBytes, Bytes32, Word32, Number, FileOf;
    Sections(m);
    var file, v, at := FileOf(m), CellOr(m.dints[i], 0), 2048 + 4 * i;
    BytesOfCell(Width32(), m.dints, i);
    DintBytes(v);
    InSlice(file, 2048, MemoryBytes(Width32(), m.dints), 4 * i, Bytes32(v));
    assert file[at + 0] == Bytes32(v)[0] && file[at + 1] == Bytes32(v)[1];
    assert file[at + 2] == Bytes32(v)[2] && file[at + 3] == Bytes32(v)[3];
  }

  lemma LintInFile(m: Image, i: nat)
    requires m.Sized() && i < 1024
    ensures var file, v, at := FileOf(m), CellOr(m.lints[i], 0), 6 * 1024 + 8 * i;
      && |file| == 14 * 1024
      && At(file, at) == Word64(v, 3) as nat && At(file, at + 2) == Word64(v, 2) as nat
      && At(file, at + 4) == Word64(v, 1) as nat && At(file, at + 6) == Word64(v, 0) as nat
  {
    hide MemoryBytes, Bytes64, Word64, Number, FileOf;
    Sections(m);
    var file, v, at := FileOf(m), CellOr(m.lints[i], 0), 6144 + 8 * i;
    BytesOfCell(Width64(), m.lints, i);
    LintBytes(v);
    InSlice(file, 6144, MemoryBytes(Width64(), m.lints), 8 * i, Bytes64(v));
    assert file[at + 0] == Bytes64(v)[0] && file[at + 1] == Bytes64(v)[1];
    assert file[at + 2] == Bytes64(v)[2] && file[at + 3] == Bytes64(v)[3];
    assert file[at + 4] == Bytes64(v)[4] && file[at + 5] == Bytes64(v)[5];
    assert file[at + 6] == Bytes64(v)[6] && file[at + 7] == Bytes64(v)[7];
  }

  /** The file has the 1024 words, then the double words, then the long words, each with its low bytes first; an
      empty slot is saved as 0. */
  lemma FileBytes(m: Image, i: nat)
    requires m.Sized() && i < 1024
    ensures |FileOf(m)| == 14 * 1024
    ensures At(FileOf(m), 2 * i) == CellOr(m.ints[i], 0) as nat
    ensures var file, v, at := FileOf(m), CellOr(m.dints[i], 0), 2 * 1024 + 4 * i;
      At(file, at) == Word32(v, 1) as nat && At(file, at + 2) == Word32(v, 0) as nat
    ensures var file, v, at := FileOf(m), CellOr(m.lints[i], 0), 6 * 1024 + 8 * i;
      && At(file, at) == Word64(v, 3) as nat && At(file, at + 2) == Word64(v, 2) as nat
      && At(file, at + 4) == Word64(v, 1) as nat && At(file, at + 6) == Word64(v, 0) as nat
  {
    hide FileOf, Word32, Word64, At, CellOr;
    IntInFile(m, i);
    DintInFile(m, i);
    LintInFile(m, i);
  }

  /** The bytes of a value, in a section of a file */
  lemma InSlice(file: seq<bv8>, start: nat, section: seq<bv8>, at: nat, bytes: seq<bv8>)
    requires start + |section| <= |file| && file[start..start + |section|] == section
    requires at + |bytes| <= |section| && section[at..at + |bytes|] == bytes
    ensures forall k :: 0 <= k < |bytes| ==> file[start + at + k] == bytes[k]
  {
    forall k | 0 <= k < |bytes|
      ensures file[start + at + k] == bytes[k]
    {
      assert bytes[k] == section[at + k] == file[start..start + |section|][at + k];
    }
  }

  lemma {:induction false} NothingSums<T(!new)>(w: Width<T>, n: nat)
    requires w.Sound()
    ensures XorAll(w, seq(n, _ => None)) == 0
  {
    hide Xor;
    if n > 0 {
      var cells: seq<Option<T>> := seq(n, _ => None);
      assert cells[..n - 1] == seq(n - 1, _ => None);
      NothingSums(w, n - 1);
      XorZero(0);
    }
  }

  /** The checksum of a memory without variables is 0; together with how it moves, this fixes it everywhere. */
  lemma ChecksumOfNothing()
    ensures Checksum(Image(seq(1024, _ => None), seq(1024, _ => None), seq(1024, _ => None))) == 0
  {
    hide XorAll, Xor;
    NothingSums(Width16(), 1024);
    NothingSums(Width32(), 1024);
    NothingSums(Width64(), 1024);
    XorZero(0);
  }
}
