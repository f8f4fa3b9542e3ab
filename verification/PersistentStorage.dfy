/**
 Persistent storage: the three memories written to a file, one value after the other, whenever their
 checksum changes, and read back at start-up.
 */
module PersistentStorage {
  import opened Bytes
  import opened Options

  const BUFFER_SIZE: nat := 1024

  // --------------------------------------------------------------------------
  // Values as the bytes of a little-endian machine
  // --------------------------------------------------------------------------

  function Bytes16(v: bv16): (b: seq<bv8>)
    ensures |b| == 2
  {
    [Low(v), High(v)]
  }

  function Bytes32(v: bv32): (b: seq<bv8>)
    ensures |b| == 4
  {
    Bytes16(Word32(v, 1)) + Bytes16(Word32(v, 0))
  }

  function Bytes64(v: bv64): (b: seq<bv8>)
    ensures |b| == 8
  {
    Bytes32(Low32(v)) + Bytes32(High32(v))
  }

  function Value16(b: seq<bv8>): bv16
    requires |b| == 2
  {
    Join(b[1], b[0])
  }

  function Value32(b: seq<bv8>): bv32
    requires |b| == 4
  {
    JoinWords(Value16(b[2..]), Value16(b[..2]))
  }

  function Value64(b: seq<bv8>): bv64
    requires |b| == 8
  {
    JoinHalves(Value32(b[4..]), Value32(b[..4]))
  }

  lemma ValueOfBytes16(v: bv16)
    ensures Value16(Bytes16(v)) == v
  {
    hide Join, High, Low;
    SplitJoins(v);
  }

  lemma ValueOfBytes32(v: bv32)
    ensures Value32(Bytes32(v)) == v
  {
    hide JoinWords, Word32, Value16, Bytes16;
    var b := Bytes32(v);
    assert b[..2] == Bytes16(Word32(v, 1)) && b[2..] == Bytes16(Word32(v, 0));
    ValueOfBytes16(Word32(v, 1));
    ValueOfBytes16(Word32(v, 0));
    WordsJoin(v);
  }

  lemma ValueOfBytes64(v: bv64)
    ensures Value64(Bytes64(v)) == v
  {
    hide JoinHalves, High32, Low32, Value32, Bytes32;
    var b := Bytes64(v);
    assert b[..4] == Bytes32(Low32(v)) && b[4..] == Bytes32(High32(v));
    ValueOfBytes32(Low32(v));
    ValueOfBytes32(High32(v));
    HalvesJoin(v);
  }

  // --------------------------------------------------------------------------
  // One memory. The code repeats the same three loops for each width; they are written once here.
  // --------------------------------------------------------------------------

  /** How the values of a memory are written and read, and what the checksum takes of them */
  datatype Width<!T(!new)> = Width(size: nat, zero: T, bytes: T -> seq<bv8>, value: seq<bv8> -> T, part: T -> bv32) {
    /** Writing gives `size` bytes, and reading them gives the value back. */
    ghost predicate Sound() {
      && size > 0
      && (forall v: T :: |bytes(v)| == size && value(bytes(v)) == v)
      && part(zero) == 0
    }
  }

  function Extended(v: bv16): bv32 { v as bv32 }
  function Whole(v: bv32): bv32 { v }

  function Read16(b: seq<bv8>): bv16 { if |b| == 2 then Value16(b) else 0 }
  function Read32(b: seq<bv8>): bv32 { if |b| == 4 then Value32(b) else 0 }
  function Read64(b: seq<bv8>): bv64 { if |b| == 8 then Value64(b) else 0 }

  function Width16(): (w: Width<bv16>)
    ensures w.Sound()
  {
    hide Value16, Bytes16;
    assert forall v: bv16 :: Value16(Bytes16(v)) == v by {
      forall v: bv16 { ValueOfBytes16(v); }
    }
    Width(2, 0, Bytes16, Read16, Extended)
  }

  function Width32(): (w: Width<bv32>)
    ensures w.Sound()
  {
    hide Value32, Bytes32;
    assert forall v: bv32 :: Value32(Bytes32(v)) == v by {
      forall v: bv32 { ValueOfBytes32(v); }
    }
    Width(4, 0, Bytes32, Read32, Whole)
  }

  /** The two halves of a 64-bit value, folded into one */
  function Folded(v: bv64): bv32 {
    Low32(v ^ (v >> 32))
  }

  function Width64(): (w: Width<bv64>)
    ensures w.Sound()
  {
    hide Value64, Bytes64;
    assert forall v: bv64 :: Value64(Bytes64(v)) == v by {
      forall v: bv64 { ValueOfBytes64(v); }
    }
    Width(8, 0, Bytes64, Read64, Folded)
  }

  /** What is saved of a cell: a slot that nothing is glued to counts as 0. */
  function Stored<T(!new)>(w: Width<T>, cell: Option<T>): T {
    if cell.Some? then cell.value else w.zero
  }

  function MemoryBytes<T(!new)>(w: Width<T>, cells: seq<Option<T>>): (b: seq<bv8>)
    requires w.Sound()
    ensures |b| == |cells| * w.size
  {
    if |cells| == 0 then []
    else
      var n := |cells| - 1;
      assert (n + 1) * w.size == n * w.size + w.size;
      MemoryBytes(w, cells[..n]) + w.bytes(Stored(w, cells[n]))
  }

  /** A cell after reading: values that are not wholly in the file, and zeros, leave it alone. */
  function RestoredCell<T(==,!new)>(w: Width<T>, file: seq<bv8>, i: nat, cell: Option<T>): Option<T> {
    if i * w.size + w.size <= |file| && w.value(file[i * w.size..i * w.size + w.size]) != w.zero
    then Some(w.value(file[i * w.size..i * w.size + w.size]))
    else cell
  }

  function Restored<T(==,!new)>(w: Width<T>, file: seq<bv8>, cells: seq<Option<T>>): (r: seq<Option<T>>)
    ensures |r| == |cells|
  {
    seq(|cells|, i requires 0 <= i < |cells| => RestoredCell(w, file, i, cells[i]))
  }

  /** Where the value of a cell stands in the bytes of its memory */
  lemma {:induction false} BytesOfCell<T(!new)>(w: Width<T>, cells: seq<Option<T>>, i: nat)
    requires w.Sound() && i < |cells|
    ensures i * w.size + w.size <= |cells| * w.size
    ensures MemoryBytes(w, cells)[i * w.size..i * w.size + w.size] == w.bytes(Stored(w, cells[i]))
    decreases |cells|
  {
    hide Stored;
    var n := |cells| - 1;
    assert (n + 1) * w.size == n * w.size + w.size;
    if i < n {
      BytesOfCell(w, cells[..n], i);
      var b := MemoryBytes(w, cells[..n]);
      assert MemoryBytes(w, cells)[i * w.size..i * w.size + w.size] == b[i * w.size..i * w.size + w.size];
    }
  }

  method WriteMemory<T(!new)>(w: Width<T>, memory: array<Option<T>>, file: seq<bv8>) returns (written: seq<bv8>)
    requires w.Sound()
    ensures written == file + MemoryBytes(w, memory[..])
  {
    written := file;
    var i := 0;
    while i < memory.Length
      invariant 0 <= i <= memory.Length
      invariant written == file + MemoryBytes(w, memory[..i])
    {
      var value := if memory[i] != None then memory[i].value else w.zero;
      assert memory[..i + 1][..i] == memory[..i];
      written := written + w.bytes(value);
      i := i + 1;
    }
    assert memory[..i] == memory[..];
  }

  /** One of the reading loops: stops early at the end of the file, or at an error behind its last byte */
  method ReadMemory<T(==,!new)>(w: Width<T>, memory: array<Option<T>>, file: seq<bv8>, start: nat, failing: bool)
    returns (next: nat, failed: bool)
    requires w.Sound() && start <= |file|
    modifies memory
    ensures memory[..] == Restored(w, file[start..], old(memory[..]))
    ensures start + memory.Length * w.size <= |file| ==> next == start + memory.Length * w.size && !failed
    ensures start + memory.Length * w.size > |file| ==> next == |file| && failed == failing
  {
    var i := 0;
    next, failed := start, false;
    while i < memory.Length
      invariant 0 <= i <= memory.Length && next == start + i * w.size && next <= |file| && !failed
      invariant forall k :: 0 <= k < i ==> memory[k] == RestoredCell(w, file[start..], k, old(memory[k]))
      invariant forall k :: i <= k < memory.Length ==> memory[k] == old(memory[k])
    {
      hide RestoredCell;
      if |file| - next < w.size {
        NothingRestored(w, file[start..], i, memory[..]);
        OrderScales(i, memory.Length - 1, w.size);
        next, failed := |file|, failing;
        return;
      }
      var value := w.value(file[next..next + w.size]);
      OneRestored(w, file, start, i, memory[i]);
      if value != w.zero {
        memory[i] := Some(value);
      }
      next := next + w.size;
      OrderScales(i, i, w.size);
      i := i + 1;
    }
  }

  lemma NothingRestored<T(!new)>(w: Width<T>, file: seq<bv8>, i: nat, cells: seq<Option<T>>)
    requires |file| < i * w.size + w.size
    ensures forall k :: i <= k < |cells| ==> RestoredCell(w, file, k, cells[k]) == cells[k]
  {
    forall k | i <= k < |cells|
      ensures RestoredCell(w, file, k, cells[k]) == cells[k]
    {
      OrderScales(i, k, w.size);
    }
  }

  lemma OneRestored<T(!new)>(w: Width<T>, file: seq<bv8>, start: nat, i: nat, cell: Option<T>)
    requires start + i * w.size + w.size <= |file|
    ensures var value := w.value(file[start + i * w.size..start + i * w.size + w.size]);
      RestoredCell(w, file[start..], i, cell) == if value != w.zero then Some(value) else cell
  {
    var at := i * w.size;
    assert file[start..][at..at + w.size] == file[start + at..start + at + w.size];
  }

  lemma OrderScales(a: nat, b: nat, c: nat)
    requires a <= b
    ensures a * c <= b * c && (b + 1) * c == b * c + c
  {
    assert a * c + (b - a) * c == b * c;
  }

  // --------------------------------------------------------------------------
  // The checksum
  // --------------------------------------------------------------------------

  function Xor(a: bv32, b: bv32): bv32 { a ^ b }

  function XorAll<T(!new)>(w: Width<T>, cells: seq<Option<T>>): bv32 {
    if |cells| == 0 then 0
    else Xor(XorAll(w, cells[..|cells| - 1]), w.part(Stored(w, cells[|cells| - 1])))
  }

  /** What the changes from one state of a memory to another contribute */
  function Changes<T(!new)>(w: Width<T>, a: seq<Option<T>>, b: seq<Option<T>>): bv32
    requires |a| == |b|
  {
    if |a| == 0 then 0
    else
      var n := |a| - 1;
      Xor(Changes(w, a[..n], b[..n]), Xor(w.part(Stored(w, a[n])), w.part(Stored(w, b[n]))))
  }

  lemma XorAssociative(a: bv32, b: bv32, c: bv32)
    ensures Xor(Xor(a, b), c) == Xor(a, Xor(b, c))
  {
  }

  lemma XorCommutative(a: bv32, b: bv32)
    ensures Xor(a, b) == Xor(b, a)
  {
  }

  lemma XorZero(a: bv32)
    ensures Xor(a, 0) == a && Xor(0, a) == a
  {
  }

  lemma XorSame(a: bv32, b: bv32)
    ensures Xor(a, b) == 0 <==> a == b
  {
    hide Xor;
    XorSelf(a);
    XorSelf(b);
    XorAssociative(a, b, b);
    XorZero(a);
    XorZero(b);
  }

  lemma XorSelf(a: bv32)
    ensures Xor(a, a) == 0
  {
  }

  lemma XorRegroup(a: bv32, b: bv32, c: bv32, d: bv32)
    ensures Xor(Xor(a, b), Xor(c, d)) == Xor(Xor(a, c), Xor(b, d))
  {
    hide Xor;
    calc {
      Xor(Xor(a, b), Xor(c, d));
      { XorAssociative(a, b, Xor(c, d)); }
      Xor(a, Xor(b, Xor(c, d)));
      { XorAssociative(b, c, d); XorCommutative(b, c); }
      Xor(a, Xor(Xor(c, b), d));
      { XorAssociative(c, b, d); }
      Xor(a, Xor(c, Xor(b, d)));
      { XorAssociative(a, c, Xor(b, d)); }
      Xor(Xor(a, c), Xor(b, d));
    }
  }

  lemma {:induction false} XorAllChanges<T(!new)>(w: Width<T>, a: seq<Option<T>>, b: seq<Option<T>>)
    requires |a| == |b|
    ensures Xor(XorAll(w, a), XorAll(w, b)) == Changes(w, a, b)
    decreases |a|
  {
    hide Xor;
    if |a| == 0 {
      XorZero(0);
    } else {
      var n := |a| - 1;
      XorAllChanges(w, a[..n], b[..n]);
      XorRegroup(XorAll(w, a[..n]), w.part(Stored(w, a[n])), XorAll(w, b[..n]), w.part(Stored(w, b[n])));
    }
  }

  lemma {:induction false} OneChange<T(!new)>(w: Width<T>, a: seq<Option<T>>, i: nat, cell: Option<T>)
    requires i < |a|
    ensures Changes(w, a, a[i := cell]) == Xor(w.part(Stored(w, a[i])), w.part(Stored(w, cell)))
    decreases |a|
  {
    hide Xor;
    var n := |a| - 1;
    var b := a[i := cell];
    if i < n {
      assert b[..n] == a[..n][i := cell];
      OneChange(w, a[..n], i, cell);
      XorSame(w.part(Stored(w, a[n])), w.part(Stored(w, a[n])));
      XorZero(Changes(w, a[..n], b[..n]));
    } else {
      assert b[..n] == a[..n];
      NoChange(w, a[..n]);
      XorZero(Xor(w.part(Stored(w, a[n])), w.part(Stored(w, cell))));
    }
  }

  lemma {:induction false} NoChange<T(!new)>(w: Width<T>, a: seq<Option<T>>)
    ensures Changes(w, a, a) == 0
    decreases |a|
  {
    hide Xor;
    if |a| > 0 {
      NoChange(w, a[..|a| - 1]);
      XorSame(w.part(Stored(w, a[|a| - 1])), w.part(Stored(w, a[|a| - 1])));
      XorZero(0);
    }
  }

  lemma XorAllSnoc<T(!new)>(w: Width<T>, cells: seq<Option<T>>, cell: Option<T>, start: bv32, before: bv32)
    requires w.Sound() && before == Xor(start, XorAll(w, cells))
    ensures cell.Some? ==> Xor(before, w.part(cell.value)) == Xor(start, XorAll(w, cells + [cell]))
    ensures cell.None? ==> before == Xor(start, XorAll(w, cells + [cell]))
  {
    hide Xor;
    assert (cells + [cell])[..|cells|] == cells;
    XorZero(XorAll(w, cells));
    XorAssociative(start, XorAll(w, cells), w.part(Stored(w, cell)));
  }

  /** One of the checksum's loops */
  method ChecksumMemory<T(!new)>(w: Width<T>, memory: array<Option<T>>, start: bv32) returns (checksum: bv32)
    requires w.Sound()
    ensures checksum == Xor(start, XorAll(w, memory[..]))
  {
    hide XorAll, Xor;
    checksum := start;
    var i := 0;
    XorAllNothing(w, start);
    while i < memory.Length
      invariant 0 <= i <= memory.Length
      invariant checksum == Xor(start, XorAll(w, memory[..i]))
    {
      assert memory[..i + 1] == memory[..i] + [memory[i]];
      XorAllSnoc(w, memory[..i], memory[i], start, checksum);
      if memory[i] != None {
        checksum := Xor(checksum, w.part(memory[i].value));
      }
      i := i + 1;
    }
    assert memory[..i] == memory[..];
  }

  lemma XorAllNothing<T(!new)>(w: Width<T>, start: bv32)
    ensures Xor(start, XorAll(w, [])) == start
  {
  }

  // --------------------------------------------------------------------------
  // All three memories
  // --------------------------------------------------------------------------

  datatype Image = Image(ints: seq<Option<bv16>>, dints: seq<Option<bv32>>, lints: seq<Option<bv64>>) {
    predicate Sized() {
      |ints| == BUFFER_SIZE && |dints| == BUFFER_SIZE && |lints| == BUFFER_SIZE
    }
  }

  function Checksum(m: Image): bv32 {
    Xor(Xor(XorAll(Width16(), m.ints), XorAll(Width32(), m.dints)), XorAll(Width64(), m.lints))
  }

  function FileOf(m: Image): (file: seq<bv8>)
    ensures m.Sized() ==> |file| == 14 * BUFFER_SIZE
  {
    MemoryBytes(Width16(), m.ints) + MemoryBytes(Width32(), m.dints) + MemoryBytes(Width64(), m.lints)
  }

  /** What is left of a file behind its first n bytes */
  function Behind(file: seq<bv8>, n: nat): seq<bv8> {
    if n <= |file| then file[n..] else []
  }

  function RestoredImage(file: seq<bv8>, m: Image): (r: Image)
    ensures m.Sized() ==> r.Sized()
  {
    Image(
      Restored(Width16(), file, m.ints),
      Restored(Width32(), Behind(file, 2 * BUFFER_SIZE), m.dints),
      Restored(Width64(), Behind(file, 6 * BUFFER_SIZE), m.lints))
  }

  /** What the storing thread remembers and leaves behind */
  datatype Disk = Disk(combinedChecksum: bv32, file: Option<seq<bv8>>)

  /** One pass over a memory, when the file can be opened */
  function Pass(m: Image, disk: Disk): Disk {
    if Checksum(m) == disk.combinedChecksum then disk else Disk(Checksum(m), Some(FileOf(m)))
  }

  /** The memories and what is on disk. The slots of the memories are pointers, and None is the null
      pointer. */
  class Storage {
    const intMemory: array<Option<bv16>>
    const dintMemory: array<Option<bv32>>
    const lintMemory: array<Option<bv64>>
    var combinedChecksum: bv32
    var file: Option<seq<bv8>>

    ghost predicate Valid() {
      intMemory.Length == BUFFER_SIZE && dintMemory.Length == BUFFER_SIZE && lintMemory.Length == BUFFER_SIZE
    }

    ghost function Memory(): (m: Image)
      reads intMemory, dintMemory, lintMemory
    {
      Image(intMemory[..], dintMemory[..], lintMemory[..])
    }

    function OnDisk(): Disk
      reads this
    {
      Disk(combinedChecksum, file)
    }

    method CalculateCombinedChecksum() returns (checksum: bv32)
      ensures checksum == Checksum(Memory())
    {
      hide XorAll, Xor;
      XorZero(XorAll(Width16(), intMemory[..]));
      checksum := ChecksumMemory(Width16(), intMemory, 0);
      checksum := ChecksumMemory(Width32(), dintMemory, checksum);
      checksum := ChecksumMemory(Width64(), lintMemory, checksum);
    }

    /** One pass of the storing thread: nothing happens while the checksum stays, and otherwise the file is
        written anew. The thread ends for good when the file cannot be opened. */
    method SavePass(opens: bool) returns (running: bool)
      modifies this
      ensures var sum := Checksum(Memory());
        if sum == old(combinedChecksum) then running && combinedChecksum == sum && file == old(file)
        else if opens then running && combinedChecksum == sum && file == Some(FileOf(Memory()))
        else !running && combinedChecksum == old(combinedChecksum) && file == old(file)
      ensures running == (opens || old(combinedChecksum) == Checksum(Memory()))
      ensures OnDisk() == if running then Pass(Memory(), old(OnDisk())) else old(OnDisk())
    {
      hide Checksum;
      var newChecksum := CalculateCombinedChecksum();
      running := true;
      if newChecksum == combinedChecksum {
        return;
      }
      if !opens {
        running := false;
        return;
      }
      combinedChecksum := newChecksum;
      var written := WriteMemory(Width16(), intMemory, []);
      assert written == MemoryBytes(Width16(), intMemory[..]);
      written := WriteMemory(Width32(), dintMemory, written);
      written := WriteMemory(Width64(), lintMemory, written);
      file := Some(written);
    }

    /** Start-up: reads the file if there is one; `failing` is a read error behind its last byte. */
    method ReadPersistentStorage(failing: bool)
      requires Valid()
      modifies intMemory, dintMemory, lintMemory
      ensures Memory() == match old(file) case None => old(Memory()) case Some(bytes) => RestoredImage(bytes, old(Memory()))
    {
      hide Restored;
      if file == None {
        return;
      }
      var bytes := file.value;
      ghost var before := Memory();
      assert bytes[0..] == bytes;
      var next, failed := ReadMemory(Width16(), intMemory, bytes, 0, failing);
      NothingBehind(bytes, 2 * BUFFER_SIZE, before);
      NothingBehind(bytes, 6 * BUFFER_SIZE, before);
      if failed {
        return;
      }
      assert bytes[next..] == Behind(bytes, 2 * BUFFER_SIZE);
      next, failed := ReadMemory(Width32(), dintMemory, bytes, next, failing);
      if failed {
        return;
      }
      assert bytes[next..] == Behind(bytes, 6 * BUFFER_SIZE);
      next, failed := ReadMemory(Width64(), lintMemory, bytes, next, failing);
    }
  }

  lemma NothingBehind(file: seq<bv8>, n: nat, m: Image)
    ensures n >= |file| ==> Restored(Width32(), Behind(file, n), m.dints) == m.dints
    ensures n >= |file| ==> Restored(Width64(), Behind(file, n), m.lints) == m.lints
  {
  }
}
