/** One data file of the block store: its in-memory counters and free-slot stack, and its bytes.

    On disk a file is a 24-byte header, room for MAX_FREE_SLOTS offsets, and a growing run of
    slots of `blockSize` bytes each. */
module DataFile {
  import opened Bytes

  const MAX_FREE_SLOTS: nat := 100_000
  const SLOTS_SECTION_POS: nat := 24
  const DATA_SECTION_POS: nat := 800_024

  /** `free` is the used part of `free_slots_offset`, the top of the stack last. */
  datatype FileState = FileState(blockSize: nat, blockCnt: nat, free: seq<nat>, disk: seq<byte>)

  // ---------- what the code does to a file ----------

  /** The three counters as sync_data_file_header writes them. */
  function Header(f: FileState): (h: seq<byte>)
    ensures |h| == SLOTS_SECTION_POS
  {
    Encode(f.blockSize, 8) + Encode(f.blockCnt, 8) + Encode(|f.free|, 8)
  }

  function SyncHeader(f: FileState): FileState {
    f.(disk := Pwrite(f.disk, Header(f), 0))
  }

  function SlotEntryPos(pos: nat): nat {
    SLOTS_SECTION_POS + 8 * pos
  }

  function SyncTopSlot(f: FileState): FileState
    requires f.free != []
  {
    f.(disk := Pwrite(f.disk, Encode(f.free[|f.free| - 1], 8), SlotEntryPos(|f.free| - 1)))
  }

  function WriteData(f: FileState, data: seq<byte>, offset: nat): FileState {
    f.(disk := Pwrite(f.disk, data, offset))
  }

  function SlotOffset(blockSize: nat, slot: nat): nat {
    DATA_SECTION_POS + blockSize * slot
  }

  /** The offset the next append to this file will use. */
  function NextOffset(f: FileState): nat {
    if f.free != [] then f.free[|f.free| - 1] else SlotOffset(f.blockSize, f.blockCnt)
  }

  /** Pops a free slot, or opens the next one; the header is rewritten either way. */
  function Take(f: FileState): FileState {
    SyncHeader(
      if f.free != []
      then f.(free := f.free[..|f.free| - 1], blockCnt := f.blockCnt + 1)
      else f.(blockCnt := f.blockCnt + 1))
  }

  /** `--` on a size_t. */
  function Decrement(n: nat): nat {
    if n > 0 then n - 1 else 0xFFFF_FFFF_FFFF_FFFF
  }

  /** The in-memory half of releasing a slot; a full stack leaks it. */
  function Release(f: FileState, offset: nat): FileState {
    if |f.free| >= MAX_FREE_SLOTS then f
    else f.(blockCnt := Decrement(f.blockCnt), free := f.free + [offset])
  }

  /** Releasing a slot: counters and stack first, then header and stack entry on disk. */
  function Give(f: FileState, offset: nat): FileState {
    if |f.free| >= MAX_FREE_SLOTS then f else SyncTopSlot(SyncHeader(Release(f, offset)))
  }

  /** create_data_file: the whole header section is written out, its offsets all zero. */
  function Create(blockSize: nat): FileState {
    var f := FileState(blockSize, 0, [], []);
    f.(disk := Pwrite([], Header(f) + seq(8 * MAX_FREE_SLOTS, _ => 0), 0))
  }

  /** load_data_file: counters and stack as the bytes on disk give them. */
  function Load(disk: seq<byte>): (f: Option<FileState>) {
    if |disk| < DATA_SECTION_POS then None
    else
      var count := Decode(disk[16..24]);
      if count > MAX_FREE_SLOTS then None
      else Some(FileState(Decode(disk[..8]), Decode(disk[8..16]),
        seq(count, j requires 0 <= j < count && count <= MAX_FREE_SLOTS => Decode(disk[SlotEntryPos(j)..SlotEntryPos(j) + 8])),
        disk))
  }

  // ---------- what every file keeps ----------

  /** All slots ever opened. Leaked ones stay counted in `blockCnt`. */
  function HighWater(f: FileState): nat {
    f.blockCnt + |f.free|
  }

  ghost predicate IsSlot(f: FileState, offset: nat) {
    exists i :: 0 <= i < HighWater(f) && offset == SlotOffset(f.blockSize, i)
  }

  ghost predicate HeaderOnDisk(f: FileState) {
    |f.disk| >= SLOTS_SECTION_POS && f.disk[..SLOTS_SECTION_POS] == Header(f)
  }

  ghost predicate StackOnDisk(f: FileState) {
    && |f.disk| >= DATA_SECTION_POS
    && |f.free| <= MAX_FREE_SLOTS
    && forall j :: 0 <= j < |f.free| ==> f.disk[SlotEntryPos(j)..SlotEntryPos(j) + 8] == Encode(f.free[j], 8)
  }

  ghost predicate Valid(f: FileState) {
    && f.blockSize > 0
    && HeaderOnDisk(f)
    && StackOnDisk(f)
    && Distinct(f.free)
    && forall j :: 0 <= j < |f.free| ==> IsSlot(f, f.free[j])
  }

  lemma {:induction false} TimesMore(b: nat, i: nat, d: nat)
    requires d > 0
    ensures b * (i + d) >= b * i + b
    decreases d
  {
    if d > 1 {
      TimesMore(b, i, d - 1);
      assert b * (i + d) == b * (i + (d - 1)) + b;
    }
  }

  lemma SlotOrder(blockSize: nat, i: nat, j: nat)
    requires i < j
    ensures SlotOffset(blockSize, i) + blockSize <= SlotOffset(blockSize, j)
  {
    TimesMore(blockSize, i, j - i);
    assert i + (j - i) == j;
  }

  lemma SlotPastHeader(blockSize: nat, i: nat)
    ensures DATA_SECTION_POS <= SlotOffset(blockSize, i)
  {
  }

  /** Two different slots never share a byte, and no slot reaches into the header section. */
  lemma SlotsApart(f: FileState, x: nat, y: nat)
    requires IsSlot(f, x) && IsSlot(f, y) && x != y
    ensures x + f.blockSize <= y || y + f.blockSize <= x
    ensures x >= DATA_SECTION_POS
  {
    hide SlotOffset;
    var i :| 0 <= i < HighWater(f) && x == SlotOffset(f.blockSize, i);
    var j :| 0 <= j < HighWater(f) && y == SlotOffset(f.blockSize, j);
    if i < j { SlotOrder(f.blockSize, i, j); } else { SlotOrder(f.blockSize, j, i); }
    SlotPastHeader(f.blockSize, i);
  }

  /** Which offsets are slots depends on the counters alone. */
  lemma SameSlots(f: FileState, g: FileState)
    requires g.blockSize == f.blockSize && HighWater(f) <= HighWater(g)
    ensures forall x :: IsSlot(f, x) ==> IsSlot(g, x)
  {
    hide SlotOffset;
  }

  /** Writing anywhere in the data section leaves the header section alone. */
  lemma WriteDataKeeps(f: FileState, data: seq<byte>, offset: nat)
    requires Valid(f) && offset >= DATA_SECTION_POS
    ensures Valid(WriteData(f, data, offset))
  {
    hide SlotOffset, IsSlot, Encode;
    var f' := WriteData(f, data, offset);
    assert f'.disk[..DATA_SECTION_POS] == f.disk[..DATA_SECTION_POS];
    assert f'.disk[..SLOTS_SECTION_POS] == f.disk[..SLOTS_SECTION_POS];
    forall j | 0 <= j < |f'.free|
      ensures f'.disk[SlotEntryPos(j)..SlotEntryPos(j) + 8] == Encode(f'.free[j], 8)
    {
      assert f'.disk[SlotEntryPos(j)..SlotEntryPos(j) + 8] == f.disk[SlotEntryPos(j)..SlotEntryPos(j) + 8];
    }
    SameSlots(f, f');
  }

  /** Rewriting the header makes it current and touches neither stack entries nor data. */
  lemma SyncHeaderKeeps(f: FileState)
    requires StackOnDisk(f)
    ensures HeaderOnDisk(SyncHeader(f)) && StackOnDisk(SyncHeader(f))
    ensures |SyncHeader(f).disk| == |f.disk|
    ensures SyncHeader(f).disk[DATA_SECTION_POS..] == f.disk[DATA_SECTION_POS..]
  {
    hide SlotOffset, IsSlot, Encode;
    var f' := SyncHeader(f);
    assert Header(f) != [];
    assert |f'.disk| == |f.disk|;
    assert f'.disk[DATA_SECTION_POS..] == f.disk[DATA_SECTION_POS..];
    forall j | 0 <= j < |f'.free|
      ensures f'.disk[SlotEntryPos(j)..SlotEntryPos(j) + 8] == Encode(f'.free[j], 8)
    {
      assert f'.disk[SlotEntryPos(j)..SlotEntryPos(j) + 8] == f.disk[SlotEntryPos(j)..SlotEntryPos(j) + 8];
    }
  }

  /** Taking a slot: the file stays valid, and the slot handed out is in no one's hands. */
  lemma TakeKeeps(f: FileState)
    requires Valid(f)
    ensures Valid(Take(f)) && Take(f).blockSize == f.blockSize
    ensures IsSlot(Take(f), NextOffset(f)) && NextOffset(f) !in Take(f).free
    ensures forall x :: IsSlot(f, x) ==> IsSlot(Take(f), x)
    ensures forall x :: IsSlot(f, x) && x !in f.free ==> x != NextOffset(f) && x !in Take(f).free
    ensures |Take(f).disk| == |f.disk| && Take(f).disk[DATA_SECTION_POS..] == f.disk[DATA_SECTION_POS..]
  {
    hide SlotOffset, IsSlot, Encode;
    var n := |f.free|;
    var g := if f.free != [] then f.(free := f.free[..n - 1], blockCnt := f.blockCnt + 1) else f.(blockCnt := f.blockCnt + 1);
    assert StackOnDisk(g);
    SyncHeaderKeeps(g);
    SameSlots(f, Take(f));
    if f.free == [] {
      NextIsFresh(f);
    }
  }

  lemma SlotsBelowNext(f: FileState, x: nat)
    requires f.free == [] && IsSlot(f, x)
    ensures x + f.blockSize <= NextOffset(f)
  {
    hide SlotOffset;
    var i :| 0 <= i < HighWater(f) && x == SlotOffset(f.blockSize, i);
    SlotOrder(f.blockSize, i, f.blockCnt);
  }

  /** With an empty stack the next offset lies one past every slot opened so far. */
  lemma NextIsFresh(f: FileState)
    requires f.free == [] && f.blockSize > 0
    ensures IsSlot(Take(f), NextOffset(f)) && !IsSlot(f, NextOffset(f))
    ensures forall x: nat :: IsSlot(f, x) ==> x + f.blockSize <= NextOffset(f)
  {
    hide SlotOffset, Header, Pwrite, IsSlot;
    forall x: nat | IsSlot(f, x)
      ensures x + f.blockSize <= NextOffset(f)
    {
      SlotsBelowNext(f, x);
    }
    TopIsSlot(Take(f), f.blockCnt);
  }

  lemma TopIsSlot(f: FileState, i: nat)
    requires i < HighWater(f)
    ensures IsSlot(f, SlotOffset(f.blockSize, i))
  {
    hide SlotOffset;
  }

  /** Releasing a slot: with room on the stack it goes on top, in memory and on disk, and is the next
      to be taken; without, it leaks. */
  lemma GiveKeeps(f: FileState, offset: nat)
    requires Valid(f) && IsSlot(f, offset) && offset !in f.free && f.blockCnt > 0
    ensures Valid(Give(f, offset)) && Give(f, offset).blockSize == f.blockSize
    ensures HighWater(Give(f, offset)) == HighWater(f)
    ensures |f.free| < MAX_FREE_SLOTS ==> Give(f, offset).free == f.free + [offset]
    ensures |f.free| >= MAX_FREE_SLOTS ==> Give(f, offset) == f
    ensures forall x :: x in Give(f, offset).free ==> x in f.free || x == offset
    ensures |Give(f, offset).disk| == |f.disk| && Give(f, offset).disk[DATA_SECTION_POS..] == f.disk[DATA_SECTION_POS..]
  {
    hide SlotOffset, IsSlot, Encode;
    if |f.free| < MAX_FREE_SLOTS {
      var g := Release(f, offset);
      SameSlots(f, g);
      SyncedSlots(f, g);
    }
  }

  lemma SyncedSlots(f: FileState, g: FileState)
    requires Valid(f) && |f.free| < MAX_FREE_SLOTS
    requires g.disk == f.disk && |g.free| == |f.free| + 1 && g.free[..|f.free|] == f.free && g.blockSize == f.blockSize
    requires Distinct(g.free) && forall j :: 0 <= j < |g.free| ==> IsSlot(g, g.free[j])
    ensures var f' := SyncTopSlot(SyncHeader(g));
            && Valid(f')
            && |f'.disk| == |f.disk| && f'.disk[DATA_SECTION_POS..] == f.disk[DATA_SECTION_POS..]
  {
    hide SlotOffset, IsSlot, Encode;
    var h := SyncHeader(g);
    SameSlots(g, h);
    SameSlots(h, SyncTopSlot(h));
    assert |Header(g)| == SLOTS_SECTION_POS;
    assert |h.disk| == |f.disk|;
    assert h.disk[..SLOTS_SECTION_POS] == Header(g);
    var top := |f.free|;
    var f' := SyncTopSlot(h);
    assert |f'.disk| == |h.disk|;
    assert f'.disk[..SLOTS_SECTION_POS] == h.disk[..SLOTS_SECTION_POS];
    assert f'.disk[DATA_SECTION_POS..] == h.disk[DATA_SECTION_POS..] == f.disk[DATA_SECTION_POS..];
    forall j | 0 <= j < |f'.free|
      ensures f'.disk[SlotEntryPos(j)..SlotEntryPos(j) + 8] == Encode(f'.free[j], 8)
    {
      if j < top {
        assert f'.disk[SlotEntryPos(j)..SlotEntryPos(j) + 8] == f.disk[SlotEntryPos(j)..SlotEntryPos(j) + 8];
        assert g.free[j] == g.free[..top][j] == f.free[j];
      }
    }
  }

  lemma CreateValid(blockSize: nat)
    requires blockSize > 0
    ensures Valid(Create(blockSize)) && Create(blockSize).free == [] && Create(blockSize).blockCnt == 0
    ensures |Create(blockSize).disk| == DATA_SECTION_POS
  {
    var f := FileState(blockSize, 0, [], []);
    var section := Header(f) + seq(8 * MAX_FREE_SLOTS, _ => 0);
    assert Create(blockSize).disk[..|section|] == section;
  }

  /** Closing and loading a file gives back the allocator it was closed with, whatever stale
      offsets the popped part of the on-disk stack still holds. The bound says that the offsets
      fit the type of a file position, which every write to the file needed already. */
  lemma LoadRestores(f: FileState)
    requires Valid(f) && f.blockSize < 0x8000_0000_0000_0000
    requires SlotOffset(f.blockSize, HighWater(f)) < 0x8000_0000_0000_0000
    ensures Load(f.disk) == Some(f)
  {
    hide SlotOffset, IsSlot, Encode, Decode;
    var d := f.disk;
    Ranges();
    if HighWater(f) > 0 { CountsFit(f); }
    var h := Header(f);
    assert d[..8] == Encode(f.blockSize, 8) by { assert d[..8] == d[..24][..8] == h[..8]; }
    assert d[8..16] == Encode(f.blockCnt, 8) by { assert d[8..16] == d[..24][8..16] == h[8..16]; }
    assert d[16..24] == Encode(|f.free|, 8) by { assert d[16..24] == d[..24][16..24] == h[16..24]; }
    DecodeEncode(f.blockSize, 8);
    DecodeEncode(f.blockCnt, 8);
    DecodeEncode(|f.free|, 8);
    var g := Load(d).value;
    forall j | 0 <= j < |f.free|
      ensures g.free[j] == f.free[j]
    {
      SlotBelowTop(f, f.free[j]);
      DecodeEncode(f.free[j], 8);
    }
    assert g.free == f.free;
  }

  lemma CountsFit(f: FileState)
    requires f.blockSize > 0 && SlotOffset(f.blockSize, HighWater(f)) < 0x8000_0000_0000_0000
    requires HighWater(f) > 0
    ensures f.blockCnt < 0x8000_0000_0000_0000
  {
    assert f.blockSize * HighWater(f) >= 1 * HighWater(f);
  }

  lemma SlotBelowTop(f: FileState, offset: nat)
    requires IsSlot(f, offset)
    ensures offset + f.blockSize <= SlotOffset(f.blockSize, HighWater(f))
  {
    hide SlotOffset;
    var i :| 0 <= i < HighWater(f) && offset == SlotOffset(f.blockSize, i);
    SlotOrder(f.blockSize, i, HighWater(f));
  }
}
