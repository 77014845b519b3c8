/** The block store as a function of its state: size classes, index, journal and data files.

    `Storage` runs these operations in place; here is what they compute and what every
    operation keeps. Index, journal and file writes succeed. */
module StoreModel {
  import opened Bytes
  import opened DataFile
  import opened Crc32

  const KEY_LEN := 16
  const BEGINNING_SIZE := 128
  const MAX_BLOCK_CNT: nat := 20

  type Key = k: seq<byte> | |k| == KEY_LEN witness [0, 0, 0, 0, 0, 0, 0, 0, 0, 0, 0, 0, 0, 0, 0, 0]

  datatype IndexValue = IndexValue(crc32: u32, blockId: nat, dataSize: nat, offset: nat)

  datatype OpType = IndexAppend | IndexModify | IndexDel

  datatype LogItem = LogItem(op: OpType, key: Key, value: IndexValue)

  datatype Store = Store(files: seq<FileState>, index: map<Key, IndexValue>, journal: seq<LogItem>)

  /** What a call reports. `Crashed` is a failed assert(3), which ends the process. */
  datatype Reply = Code(ret: int) | NotFound | Found(data: seq<byte>) | Crashed

  /** Byte `i` of a key that goes on in zeros. */
  function KeyByte(key: seq<byte>, i: nat): byte {
    if i < |key| then key[i] else 0
  }

  /** A key is cut or zero-padded to KEY_LEN bytes. */
  function FixKey(key: seq<byte>): (k: Key)
    ensures forall i :: 0 <= i < KEY_LEN ==> k[i] == KeyByte(key, i)
  {
    if |key| >= KEY_LEN then key[..KEY_LEN] else key + seq(KEY_LEN - |key|, _ => 0)
  }

  /** Two keys are the same to the store when they agree on sixteen bytes, zero past the end. */
  ghost predicate SameKey(a: seq<byte>, b: seq<byte>) {
    forall i :: 0 <= i < 16 ==> KeyByte(a, i) == KeyByte(b, i)
  }

  lemma SameKeyIff(a: seq<byte>, b: seq<byte>)
    ensures FixKey(a) == FixKey(b) <==> SameKey(a, b)
  {
    hide FixKey, KeyByte;
    if FixKey(a) == FixKey(b) {
      assert forall i :: 0 <= i < 16 ==> FixKey(a)[i] == KeyByte(a, i) && FixKey(b)[i] == KeyByte(b, i);
    }
    if SameKey(a, b) {
      assert forall i :: 0 <= i < 16 ==> FixKey(a)[i] == FixKey(b)[i];
    }
  }

  // ---------- size classes ----------

  /** block_size_array[i]. */
  function ClassSize(i: nat): nat {
    if i == 0 then BEGINNING_SIZE else 2 * ClassSize(i - 1)
  }

  /** The conversion of a size_t to int. */
  function ToInt(n: nat): int {
    var r := n % 0x1_0000_0000;
    if r < 0x8000_0000 then r else r - 0x1_0000_0000
  }

  function SmallestFrom(i: nat, wanted: int): int
    requires i <= MAX_BLOCK_CNT
    decreases MAX_BLOCK_CNT - i
  {
    if i == MAX_BLOCK_CNT then -1
    else if ClassSize(i) >= wanted then ClassSize(i)
    else SmallestFrom(i + 1, wanted)
  }

  function CalcBlockSize(dataSize: nat): int {
    SmallestFrom(0, ToInt(dataSize))
  }

  function IndexFrom(i: nat, count: nat, size: int): int
    requires i <= count
    decreases count - i
  {
    if i == count then -1
    else if size == ClassSize(i) then i
    else IndexFrom(i + 1, count, size)
  }

  function FindBlockFile(count: nat, size: int): int {
    IndexFrom(0, count, size)
  }

  /** The class an append of `dataSize` bytes goes to, or -1. */
  function ClassFor(count: nat, dataSize: nat): int {
    FindBlockFile(count, CalcBlockSize(dataSize))
  }

  lemma {:induction false} ClassesGrow(i: nat, j: nat)
    requires i < j
    ensures 0 < ClassSize(i) < ClassSize(j)
    decreases j
  {
    ClassPositive(i);
    if i < j - 1 { ClassesGrow(i, j - 1); }
  }

  lemma {:induction false} ClassPositive(i: nat)
    ensures ClassSize(i) > 0
  {
    if i > 0 { ClassPositive(i - 1); }
  }

  lemma LargestClass()
    ensures ClassSize(MAX_BLOCK_CNT - 1) == 0x400_0000
  {
    assert ClassSize(6) == 0x2000;
    assert ClassSize(11) == 0x4_0000;
    assert ClassSize(15) == 0x40_0000;
    assert ClassSize(19) == 0x400_0000;
  }

  /** Class `j` is the first one from `i` on that holds `wanted` bytes. */
  ghost predicate LeastFrom(i: nat, j: nat, wanted: int) {
    i <= j < MAX_BLOCK_CNT && wanted <= ClassSize(j) && forall l :: i <= l < j ==> ClassSize(l) < wanted
  }

  lemma {:induction false} SmallestIsLeast(i: nat, wanted: int)
    requires i <= MAX_BLOCK_CNT
    ensures var r := SmallestFrom(i, wanted);
            || (r == -1 && forall j :: i <= j < MAX_BLOCK_CNT ==> ClassSize(j) < wanted)
            || (exists j :: LeastFrom(i, j, wanted) && r == ClassSize(j))
    decreases MAX_BLOCK_CNT - i
  {
    if i < MAX_BLOCK_CNT {
      if ClassSize(i) >= wanted {
        assert LeastFrom(i, i, wanted);
      } else {
        SmallestIsLeast(i + 1, wanted);
        if SmallestFrom(i + 1, wanted) != -1 {
          var j :| LeastFrom(i + 1, j, wanted) && SmallestFrom(i + 1, wanted) == ClassSize(j);
          assert LeastFrom(i, j, wanted);
        }
      }
    }
  }

  lemma {:induction false} IndexIsFirst(i: nat, count: nat, size: int)
    requires i <= count
    ensures var r := IndexFrom(i, count, size);
            if r == -1 then forall j :: i <= j < count ==> ClassSize(j) != size
            else i <= r < count && ClassSize(r) == size
    decreases count - i
  {
    if i < count && size != ClassSize(i) {
      IndexIsFirst(i + 1, count, size);
    }
  }

  /** A size within the largest class gets the least class it fits in. */
  lemma LeastClassThatFits(count: nat, dataSize: nat)
    requires 0 < count <= MAX_BLOCK_CNT && dataSize <= ClassSize(count - 1)
    ensures var b := ClassFor(count, dataSize);
            0 <= b < count && dataSize <= ClassSize(b) && forall j :: 0 <= j < b ==> ClassSize(j) < dataSize
  {
    LargestClass();
    if count < MAX_BLOCK_CNT { ClassesGrow(count - 1, MAX_BLOCK_CNT - 1); }
    assert ToInt(dataSize) == dataSize;
    SmallestIsLeast(0, dataSize);
    var size := CalcBlockSize(dataSize);
    if size != -1 {
      var j: nat :| LeastFrom(0, j, dataSize) && size == ClassSize(j);
      assert j < count;
      IndexIsFirst(0, count, size);
      var b := ClassFor(count, dataSize);
      assert b != -1 by { assert ClassSize(j) == size; }
      if j < b { ClassesGrow(j, b); }
    }
  }

  /** The size exceeds every class, but the conversion to int makes it look as if it did not. */
  predicate Wraps(count: nat, dataSize: nat) {
    count > 0 && ToInt(dataSize) <= ClassSize(count - 1) < dataSize
  }

  /** A size above the largest class gets a class, necessarily one that is too small for it,
      exactly when the conversion to int wraps it to one that fits, and none otherwise. */
  lemma NoClassAboveLargest(count: nat, dataSize: nat)
    requires 0 < count <= MAX_BLOCK_CNT && dataSize > ClassSize(count - 1)
    ensures ClassFor(count, dataSize) == -1 || (0 <= ClassFor(count, dataSize) < count && dataSize > ClassSize(ClassFor(count, dataSize)))
    ensures ClassFor(count, dataSize) != -1 <==> Wraps(count, dataSize)
  {
    hide SmallestFrom, IndexFrom, ToInt;
    var b := ClassFor(count, dataSize);
    var size := CalcBlockSize(dataSize);
    IndexIsFirst(0, count, size);
    SmallestIsLeast(0, ToInt(dataSize));
    if b != -1 {
      if b < count - 1 { ClassesGrow(b, count - 1); }
      ClassPositive(b);
    }
    if size != -1 {
      var j: nat :| LeastFrom(0, j, ToInt(dataSize)) && size == ClassSize(j);
      if j < count { assert b != -1; } else { ClassApart(count, j); }
    }
  }

  lemma ClassApart(count: nat, j: nat)
    requires 0 < count <= j
    ensures ClassSize(count - 1) < ClassSize(j)
    ensures forall i :: 0 <= i < count ==> ClassSize(i) < ClassSize(j)
  {
    forall i | 0 <= i < count
      ensures ClassSize(i) < ClassSize(j)
    {
      ClassesGrow(i, j);
    }
  }

  // ---------- the operations ----------

  /** Every index entry names an existing data file. */
  ghost predicate Ranged(s: Store) {
    forall k :: k in s.index ==> s.index[k].blockId < |s.files|
  }

  function Log(s: Store, op: OpType, key: Key, iv: IndexValue): Store {
    s.(journal := s.journal + [LogItem(op, key, iv)])
  }

  function NewEntry(s: Store, b: nat, data: seq<byte>): IndexValue
    requires b < |s.files|
  {
    IndexValue(Checksum(data), b, |data|, NextOffset(s.files[b]))
  }

  function AppendBlock(s: Store, blockId: int, key: Key, data: seq<byte>): (Store, Reply) {
    if !(0 <= blockId < |s.files|) then (s, Code(-1))
    else if |data| > ClassSize(blockId) then (s, Crashed)
    else
      var f := s.files[blockId];
      var iv := NewEntry(s, blockId, data);
      var s1 := Log(s.(files := s.files[blockId := WriteData(Take(f), data, iv.offset)]), IndexAppend, key, iv);
      (s1.(index := s1.index[key := iv]), Code(0))
  }

  function ModifyBlock(s: Store, iv: IndexValue, key: Key, data: seq<byte>): (Store, Reply) {
    if iv.blockId >= |s.files| then (s, Code(-1))
    else if |data| > ClassSize(iv.blockId) then (s, Crashed)
    else
      var iv' := iv.(crc32 := Checksum(data), dataSize := |data|);
      var s1 := Log(s.(files := s.files[iv.blockId := WriteData(s.files[iv.blockId], data, iv.offset)]), IndexModify, key, iv');
      (s1.(index := s1.index[key := iv']), Code(0))
  }

  function DoDeleteBlock(s: Store, iv: IndexValue, key: Key): Store
    requires iv.blockId < |s.files|
  {
    var s1 := Log(s, IndexDel, key, iv);
    s1.(index := s1.index - {key}, files := s1.files[iv.blockId := Give(s1.files[iv.blockId], iv.offset)])
  }

  function UpdateBlock(s: Store, key: seq<byte>, data: seq<byte>): (Store, Reply)
    requires Ranged(s)
  {
    var k := FixKey(key);
    if k in s.index then
      var iv := s.index[k];
      if |data| <= ClassSize(iv.blockId) then
        var (s1, r) := ModifyBlock(s, iv, k, data);
        (s1, if r == Code(0) || r == Crashed then r else Code(-1))
      else
        var s1 := DoDeleteBlock(s, iv, k);
        var (s2, r) := AppendBlock(s1, ClassFor(|s.files|, |data|), k, data);
        (s2, if r == Code(0) || r == Crashed then r else Code(-3))
    else
      var b := ClassFor(|s.files|, |data|);
      if b < 0 then (s, Code(0))
      else
        var (s1, r) := AppendBlock(s, b, k, data);
        (s1, if r == Code(0) || r == Crashed then r else Code(-4))
  }

  function FindBlock(s: Store, key: seq<byte>): Reply
    requires Ranged(s)
  {
    var k := FixKey(key);
    if k !in s.index then NotFound
    else
      match Entry(s, k)
      case Some(data) => Found(data)
      case None => Code(-1)
  }

  function DeleteBlock(s: Store, key: seq<byte>): (Store, Reply)
    requires Ranged(s)
  {
    var k := FixKey(key);
    if k in s.index then (DoDeleteBlock(s, s.index[k], k), Code(0)) else (s, NotFound)
  }

  /** What pread gives for an indexed key. */
  function Entry(s: Store, k: Key): Option<seq<byte>>
    requires k in s.index && s.index[k].blockId < |s.files|
  {
    ReadEntry(s.files[s.index[k].blockId], s.index[k])
  }

  function ReadEntry(f: FileState, iv: IndexValue): Option<seq<byte>> {
    Pread(f.disk, iv.dataSize, iv.offset)
  }

  // ---------- what every operation keeps ----------

  /** One index entry against its file: a live slot whose bytes and checksum are as recorded. */
  ghost predicate EntryOk(f: FileState, iv: IndexValue) {
    && IsSlot(f, iv.offset)
    && iv.offset !in f.free
    && iv.dataSize <= f.blockSize
    && ReadEntry(f, iv).Some?
    && iv.crc32 == Checksum(ReadEntry(f, iv).value)
  }

  ghost predicate FilesOk(files: seq<FileState>) {
    && 0 < |files| <= MAX_BLOCK_CNT
    && forall i :: 0 <= i < |files| ==> Valid(files[i]) && files[i].blockSize == ClassSize(i)
  }

  ghost predicate EntriesOk(s: Store) {
    && Ranged(s)
    && forall k :: k in s.index ==> EntryOk(s.files[s.index[k].blockId], s.index[k])
  }

  /** No two keys share a slot. */
  ghost predicate OneKeyPerSlot(index: map<Key, IndexValue>) {
    forall k, l :: k in index && l in index && k != l && index[k].blockId == index[l].blockId ==> index[k].offset != index[l].offset
  }

  ghost predicate Inv(s: Store) {
    FilesOk(s.files) && EntriesOk(s) && OneKeyPerSlot(s.index)
  }

  /** The map from keys to byte strings that the store stands for. */
  ghost function Abs(s: Store): map<Key, seq<byte>>
    requires EntriesOk(s)
  {
    map k | k in s.index :: Entry(s, k).value
  }

  // ---------- one file, one other entry ----------

  lemma SameDataSection(f: FileState, g: FileState, iv: IndexValue)
    requires |f.disk| == |g.disk| >= DATA_SECTION_POS && f.disk[DATA_SECTION_POS..] == g.disk[DATA_SECTION_POS..]
    requires iv.offset >= DATA_SECTION_POS
    ensures ReadEntry(f, iv) == ReadEntry(g, iv)
  {
    var o, n := iv.offset - DATA_SECTION_POS, iv.dataSize;
    if n > 0 && iv.offset + n <= |f.disk| {
      assert f.disk[iv.offset..iv.offset + n] == f.disk[DATA_SECTION_POS..][o..o + n];
      assert g.disk[iv.offset..iv.offset + n] == g.disk[DATA_SECTION_POS..][o..o + n];
    }
  }

  lemma SlotInData(f: FileState, offset: nat)
    requires IsSlot(f, offset)
    ensures offset >= DATA_SECTION_POS
  {
    hide SlotOffset;
    var i :| 0 <= i < HighWater(f) && offset == SlotOffset(f.blockSize, i);
    SlotPastHeader(f.blockSize, i);
  }

  /** Writing into one slot leaves every entry in another slot as it was. */
  lemma WriteLeavesOthers(f: FileState, iv: IndexValue, data: seq<byte>, offset: nat)
    requires Valid(f) && EntryOk(f, iv) && IsSlot(f, offset) && offset != iv.offset && |data| <= f.blockSize
    ensures EntryOk(WriteData(f, data, offset), iv) && ReadEntry(WriteData(f, data, offset), iv) == ReadEntry(f, iv)
  {
    hide IsSlot, Pread, Pwrite, Checksum;
    SlotsApart(f, iv.offset, offset);
    PreadFrame(f.disk, data, offset, iv.dataSize, iv.offset);
    SameSlots(f, WriteData(f, data, offset));
  }

  lemma TakeLeavesOthers(f: FileState, iv: IndexValue)
    requires Valid(f) && EntryOk(f, iv)
    ensures EntryOk(Take(f), iv) && ReadEntry(Take(f), iv) == ReadEntry(f, iv) && iv.offset != NextOffset(f)
  {
    TakeKeeps(f);
    SlotInData(f, iv.offset);
    hide IsSlot, Pread, Pwrite, Checksum, Take;
    SameDataSection(f, Take(f), iv);
  }

  lemma GiveLeavesOthers(f: FileState, iv: IndexValue, offset: nat)
    requires Valid(f) && EntryOk(f, iv) && IsSlot(f, offset) && offset !in f.free && f.blockCnt > 0 && iv.offset != offset
    ensures EntryOk(Give(f, offset), iv) && ReadEntry(Give(f, offset), iv) == ReadEntry(f, iv)
  {
    GiveKeeps(f, offset);
    SlotInData(f, iv.offset);
    hide IsSlot, Pread, Pwrite, Checksum, Give, Valid;
    SameSlots(f, Give(f, offset));
    SameDataSection(f, Give(f, offset), iv);
  }

  // ---------- append, modify, delete ----------

  lemma AbsPut(s: Store, s': Store, k: Key, data: seq<byte>)
    requires EntriesOk(s) && EntriesOk(s') && s'.index.Keys == s.index.Keys + {k}
    requires Entry(s', k) == Some(data)
    requires forall l :: l in s.index && l != k ==> Entry(s', l) == Entry(s, l)
    ensures Abs(s') == Abs(s)[k := data]
  {
    hide EntryOk, Entry;
  }

  lemma AbsRemove(s: Store, s': Store, k: Key)
    requires EntriesOk(s) && EntriesOk(s') && s'.index.Keys == s.index.Keys - {k}
    requires forall l :: l in s'.index ==> Entry(s', l) == Entry(s, l)
    ensures Abs(s') == Abs(s) - {k}
  {
    hide EntryOk, Entry;
  }

  /** append_block on a new key, with room in the class: the map gains exactly that key. */
  lemma AppendKeeps(s: Store, b: nat, k: Key, data: seq<byte>)
    requires Inv(s) && b < |s.files| && k !in s.index && |data| <= ClassSize(b)
    ensures var (s', r) := AppendBlock(s, b, k, data);
            r == Code(0) && Inv(s') && Abs(s') == Abs(s)[k := data]
  {
    hide IsSlot, Pread, Pwrite, Checksum, Take, Valid, NextOffset, Abs;
    var f := s.files[b];
    var iv := NewEntry(s, b, data);
    var f1 := Take(f);
    var f2 := WriteData(f1, data, iv.offset);
    var s' := AppendBlock(s, b, k, data).0;
    TakeKeeps(f);
    SlotInData(f1, iv.offset);
    WriteDataKeeps(f1, data, iv.offset);
    SameSlots(f1, f2);
    PreadOwnWrite(f1.disk, data, iv.offset);
    forall l | l in s.index
      ensures EntryOk(s'.files[s'.index[l].blockId], s'.index[l]) && Entry(s', l) == Entry(s, l)
      ensures s.index[l].blockId == b ==> s.index[l].offset != iv.offset
    {
      if s.index[l].blockId == b {
        TakeLeavesOthers(f, s.index[l]);
        WriteLeavesOthers(f1, s.index[l], data, iv.offset);
      }
    }
    AbsPut(s, s', k, data);
  }

  lemma OverwriteEntry(f: FileState, iv: IndexValue, data: seq<byte>)
    requires Valid(f) && EntryOk(f, iv) && |data| <= f.blockSize
    ensures var f1 := WriteData(f, data, iv.offset);
            var iv' := iv.(crc32 := Checksum(data), dataSize := |data|);
            Valid(f1) && EntryOk(f1, iv') && ReadEntry(f1, iv') == Some(data) && f1.blockSize == f.blockSize
    ensures IsSlot(f, iv.offset)
  {
    hide IsSlot, Pread, Pwrite, Checksum;
    SlotInData(f, iv.offset);
    WriteDataKeeps(f, data, iv.offset);
    SameSlots(f, WriteData(f, data, iv.offset));
    PreadOwnWrite(f.disk, data, iv.offset);
  }

  /** modify_block: the value changes in its own slot. */
  lemma ModifyKeeps(s: Store, k: Key, data: seq<byte>)
    requires Inv(s) && k in s.index && |data| <= ClassSize(s.index[k].blockId)
    ensures var (s', r) := ModifyBlock(s, s.index[k], k, data);
            r == Code(0) && Inv(s') && Abs(s') == Abs(s)[k := data]
  {
    hide IsSlot, ReadEntry, WriteData, Checksum, Valid, Abs, EntryOk;
    var iv := s.index[k];
    var f := s.files[iv.blockId];
    var s' := ModifyBlock(s, iv, k, data).0;
    OverwriteEntry(f, iv, data);
    forall l | l in s.index && l != k
      ensures EntryOk(s'.files[s'.index[l].blockId], s'.index[l]) && Entry(s', l) == Entry(s, l)
    {
      if s.index[l].blockId == iv.blockId {
        WriteLeavesOthers(f, s.index[l], data, iv.offset);
      }
    }
    AbsPut(s, s', k, data);
  }

  /** do_delete_block: the key goes and no other value changes, even when the slot leaks; with room on
      the free stack its slot is the next one used. */
  lemma DeleteKeeps(s: Store, k: Key)
    requires Inv(s) && k in s.index
    ensures var s' := DoDeleteBlock(s, s.index[k], k);
            Inv(s') && Abs(s') == Abs(s) - {k} && k !in s'.index
    ensures var b := s.index[k].blockId;
            |s.files[b].free| < MAX_FREE_SLOTS ==> NextOffset(DoDeleteBlock(s, s.index[k], k).files[b]) == s.index[k].offset
  {
    hide IsSlot, Pread, Pwrite, Checksum, Valid, Give, SlotOffset, Abs;
    var iv := s.index[k];
    var b := iv.blockId;
    var f := s.files[b];
    LiveSlotCounted(s, k);
    var s' := DoDeleteBlock(s, iv, k);
    GiveKeeps(f, iv.offset);
    forall l | l in s.index && l != k
      ensures EntryOk(s'.files[s'.index[l].blockId], s'.index[l]) && Entry(s', l) == Entry(s, l)
    {
      if s.index[l].blockId == b {
        GiveLeavesOthers(f, s.index[l], iv.offset);
      }
    }
    AbsRemove(s, s', k);
  }

  // ---------- the slots of a file are live, free or leaked ----------

  function LiveKeys(s: Store, b: nat): set<Key> {
    set k | k in s.index && s.index[k].blockId == b
  }

  function LiveSlots(s: Store, b: nat): set<nat> {
    set k | k in LiveKeys(s, b) :: s.index[k].offset
  }

  function FreeSlots(f: FileState): set<nat> {
    set j | 0 <= j < |f.free| :: f.free[j]
  }

  function AllSlots(blockSize: nat, count: nat): set<nat> {
    set i | 0 <= i < count :: SlotOffset(blockSize, i)
  }

  lemma {:induction false} AllSlotsCounted(blockSize: nat, count: nat)
    requires blockSize > 0
    ensures |AllSlots(blockSize, count)| == count
    decreases count
  {
    hide SlotOffset;
    if count > 0 {
      AllSlotsCounted(blockSize, count - 1);
      assert AllSlots(blockSize, count) == AllSlots(blockSize, count - 1) + {SlotOffset(blockSize, count - 1)};
      forall i | 0 <= i < count - 1
        ensures SlotOffset(blockSize, i) != SlotOffset(blockSize, count - 1)
      {
        SlotOrder(blockSize, i, count - 1);
      }
    }
  }

  lemma {:induction false} DistinctCounted(s: seq<nat>)
    requires Distinct(s)
    ensures |set j | 0 <= j < |s| :: s[j]| == |s|
    decreases |s|
  {
    if s != [] {
      var n := |s| - 1;
      var rest := s[..n];
      DistinctCounted(rest);
      assert (set j | 0 <= j < |s| :: s[j]) == (set j | 0 <= j < |rest| :: rest[j]) + {s[n]};
    }
  }

  lemma {:induction false} LiveCounted(index: map<Key, IndexValue>, keys: set<Key>)
    requires keys <= index.Keys
    requires forall k, l :: k in keys && l in keys && k != l ==> index[k].offset != index[l].offset
    ensures |set k | k in keys :: index[k].offset| == |keys|
    decreases keys
  {
    if keys != {} {
      var k :| k in keys;
      LiveCounted(index, keys - {k});
      assert (set l | l in keys :: index[l].offset) == (set l | l in keys - {k} :: index[l].offset) + {index[k].offset};
    }
  }

  lemma SubsetCount<T>(a: set<T>, b: set<T>)
    requires a <= b
    ensures |b| == |a| + |b - a|
  {
    assert b == a + (b - a);
  }

  lemma LiveAndFreeApart(s: Store, b: nat)
    requires Inv(s) && b < |s.files|
    ensures LiveSlots(s, b) !! FreeSlots(s.files[b])
    ensures LiveSlots(s, b) + FreeSlots(s.files[b]) <= AllSlots(s.files[b].blockSize, HighWater(s.files[b]))
  {
    hide SlotOffset, IsSlot, ReadEntry, Checksum, AllSlots, HeaderOnDisk, StackOnDisk;
    var f := s.files[b];
    forall x | x in LiveSlots(s, b)
      ensures x in AllSlots(f.blockSize, HighWater(f)) && x !in FreeSlots(f)
    {
      var k :| k in LiveKeys(s, b) && x == s.index[k].offset;
      assert EntryOk(f, s.index[k]);
      SlotListed(f, x);
    }
    forall x | x in FreeSlots(f)
      ensures x in AllSlots(f.blockSize, HighWater(f))
    {
      SlotListed(f, x);
    }
  }

  /** Slots that were opened and are neither in use nor up for reuse. */
  function Lost(s: Store, b: nat): set<nat>
    requires b < |s.files|
  {
    AllSlots(s.files[b].blockSize, HighWater(s.files[b])) - LiveSlots(s, b) - FreeSlots(s.files[b])
  }

  /** Slots 0 .. block_cnt + free_slots_cnt - 1 are live, free or lost, each of the lists without
      repetition, and block_cnt counts the live and the lost. */
  lemma SlotPartition(s: Store, b: nat)
    requires Inv(s) && b < |s.files|
    ensures var f := s.files[b];
            var all := AllSlots(f.blockSize, HighWater(f));
            && LiveSlots(s, b) !! FreeSlots(f)
            && LiveSlots(s, b) + FreeSlots(f) <= all
            && |all| == HighWater(f) && |FreeSlots(f)| == |f.free|
            && |LiveSlots(s, b)| == |LiveKeys(s, b)|
            && f.blockCnt == |LiveKeys(s, b)| + |Lost(s, b)|
  {
    hide *;
    LiveSlotsCounted(s, b);
    FreeSlotsCounted(s, b);
    LiveAndFreeApart(s, b);
    PositiveClass(s, b);
    var f := s.files[b];
    var all := AllSlots(f.blockSize, HighWater(f));
    AllSlotsCounted(f.blockSize, HighWater(f));
    SubsetCount(LiveSlots(s, b), all);
    SubsetCount(FreeSlots(f), all - LiveSlots(s, b));
    HighWaterIs(f);
    LostIs(s, b);
  }

  lemma LostIs(s: Store, b: nat)
    requires b < |s.files|
    ensures Lost(s, b) == AllSlots(s.files[b].blockSize, HighWater(s.files[b])) - LiveSlots(s, b) - FreeSlots(s.files[b])
  {
  }

  lemma HighWaterIs(f: FileState)
    ensures HighWater(f) == f.blockCnt + |f.free|
  {
  }

  lemma PositiveClass(s: Store, b: nat)
    requires Inv(s) && b < |s.files|
    ensures s.files[b].blockSize > 0
  {
  }

  lemma LiveSlotsCounted(s: Store, b: nat)
    requires Inv(s)
    ensures |LiveSlots(s, b)| == |LiveKeys(s, b)|
  {
    hide FilesOk, EntriesOk;
    LiveCounted(s.index, LiveKeys(s, b));
  }

  lemma FreeSlotsCounted(s: Store, b: nat)
    requires Inv(s) && b < |s.files|
    ensures |FreeSlots(s.files[b])| == |s.files[b].free|
  {
    hide EntryOk, HeaderOnDisk, StackOnDisk, IsSlot;
    DistinctCounted(s.files[b].free);
  }

  lemma SlotListed(f: FileState, offset: nat)
    requires IsSlot(f, offset)
    ensures offset in AllSlots(f.blockSize, HighWater(f))
  {
    hide SlotOffset;
  }

  lemma LiveSlotCounted(s: Store, k: Key)
    requires Inv(s) && k in s.index
    ensures s.files[s.index[k].blockId].blockCnt > 0
  {
    hide FilesOk, EntryOk, OneKeyPerSlot, LiveKeys, AllSlots, LiveSlots, FreeSlots;
    SlotPartition(s, s.index[k].blockId);
    LiveKeyIsLive(s, k);
  }

  lemma LiveKeyIsLive(s: Store, k: Key)
    requires k in s.index
    ensures |LiveKeys(s, s.index[k].blockId)| > 0
  {
    assert k in LiveKeys(s, s.index[k].blockId);
  }
}
