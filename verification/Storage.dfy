/** The block store as the program runs it: open data files with their counters and stack arrays,
    updated in place. Every method computes what `StoreModel` says. */
module Storage {
  import opened Bytes
  import D = DataFile
  import M = StoreModel
  import R = StoreRuns
  import Crc32

  /** struct block_file_t and the file behind its descriptor. */
  class BlockFile {
    var blockSize: nat
    var blockCnt: nat
    var freeSlotsCnt: nat
    const freeSlotsOffset: array<nat>
    var disk: seq<byte>

    ghost predicate Valid()
      reads this
    {
      freeSlotsOffset.Length == D.MAX_FREE_SLOTS && freeSlotsCnt <= D.MAX_FREE_SLOTS
    }

    ghost function Model(): D.FileState
      reads this, freeSlotsOffset
      requires Valid()
    {
      D.FileState(blockSize, blockCnt, freeSlotsOffset[..freeSlotsCnt], disk)
    }

    /** create_data_file: header and an all-zero stack are written out. */
    constructor Create(size: nat)
      ensures Valid() && fresh(freeSlotsOffset) && Model() == D.Create(size)
    {
      blockSize, blockCnt, freeSlotsCnt := size, 0, 0;
      freeSlotsOffset := new nat[D.MAX_FREE_SLOTS](_ => 0);
      disk := [];
      new;
      var header := Encode(blockSize, 8) + Encode(blockCnt, 8) + Encode(freeSlotsCnt, 8);
      disk := Pwrite(disk, header + seq(8 * D.MAX_FREE_SLOTS, _ => 0), 0);
      assert header == D.Header(D.FileState(size, 0, [], []));
    }

    /** sync_data_file. */
    method SyncDataFile(data: seq<byte>, offset: nat)
      requires Valid()
      modifies this`disk
      ensures Valid() && Model() == D.WriteData(old(Model()), data, offset)
    {
      disk := Pwrite(disk, data, offset);
    }

    /** sync_data_file_header. */
    method SyncHeader()
      requires Valid()
      modifies this`disk
      ensures Valid() && Model() == D.SyncHeader(old(Model()))
    {
      SyncDataFile(Encode(blockSize, 8) + Encode(blockCnt, 8) + Encode(freeSlotsCnt, 8), 0);
    }

    /** The part of append_block under the file's write lock. */
    method AppendData(data: seq<byte>) returns (offset: nat)
      requires Valid()
      modifies this, freeSlotsOffset
      ensures Valid() && offset == D.NextOffset(old(Model()))
      ensures Model() == D.WriteData(D.Take(old(Model())), data, offset)
    {
      hide Pwrite, Encode;
      ghost var f := Model();
      if freeSlotsCnt != 0 {
        offset := freeSlotsOffset[freeSlotsCnt - 1];
        freeSlotsOffset[freeSlotsCnt - 1] := 0;
        freeSlotsCnt := freeSlotsCnt - 1;
        blockCnt := blockCnt + 1;
        assert Model() == f.(free := f.free[..|f.free| - 1], blockCnt := f.blockCnt + 1);
        SyncHeader();
        SyncDataFile(data, offset);
      } else {
        blockCnt := blockCnt + 1;
        SyncHeader();
        offset := D.DATA_SECTION_POS + blockSize * (blockCnt - 1);
        SyncDataFile(data, offset);
      }
    }

    /** The part of do_delete_block that gives the slot back, or leaks it. */
    method GiveSlot(offset: nat)
      requires Valid()
      modifies this, freeSlotsOffset
      ensures Valid() && Model() == D.Give(old(Model()), offset)
    {
      hide Pwrite, Encode;
      ghost var f := Model();
      if freeSlotsCnt >= D.MAX_FREE_SLOTS {
        return;
      }
      blockCnt := if blockCnt > 0 then blockCnt - 1 else 0xFFFF_FFFF_FFFF_FFFF;
      var slotPos := freeSlotsCnt;
      freeSlotsOffset[slotPos] := offset;
      freeSlotsCnt := freeSlotsCnt + 1;
      assert Model() == D.Release(f, offset);
      SyncHeader();
      SyncDataFile(Encode(freeSlotsOffset[slotPos], 8), D.SLOTS_SECTION_POS + 8 * slotPos);
    }

    /** load_data_file: the header section is read back into the structure. */
    method LoadDataFile() returns (ok: bool)
      requires Valid()
      modifies this, freeSlotsOffset
      ensures Valid() && ok == D.Load(old(disk)).Some?
      ensures ok ==> Model() == D.Load(old(disk)).value
    {
      if |disk| < D.DATA_SECTION_POS || Decode(disk[16..24]) > D.MAX_FREE_SLOTS {
        return false;
      }
      blockSize, blockCnt, freeSlotsCnt := Decode(disk[..8]), Decode(disk[8..16]), Decode(disk[16..24]);
      ghost var loaded := D.Load(disk).value;
      var j := 0;
      while j < D.MAX_FREE_SLOTS
        invariant 0 <= j <= D.MAX_FREE_SLOTS && Valid()
        invariant disk == old(disk) && freeSlotsCnt == |loaded.free|
        invariant blockSize == loaded.blockSize && blockCnt == loaded.blockCnt
        invariant forall i :: 0 <= i < j ==> freeSlotsOffset[i] == Decode(disk[D.SlotEntryPos(i)..D.SlotEntryPos(i) + 8])
      {
        freeSlotsOffset[j] := Decode(disk[D.SlotEntryPos(j)..D.SlotEntryPos(j) + 8]);
        j := j + 1;
      }
      assert freeSlotsOffset[..freeSlotsCnt] == loaded.free;
      return true;
    }
  }

  /** calc_block_size. */
  method CalcBlockSize(dataSize: nat) returns (r: int)
    ensures r == M.CalcBlockSize(dataSize)
  {
    var size := M.BEGINNING_SIZE;
    var i := 0;
    while i < M.MAX_BLOCK_CNT
      invariant 0 <= i <= M.MAX_BLOCK_CNT && size == M.ClassSize(i)
      invariant M.CalcBlockSize(dataSize) == M.SmallestFrom(i, M.ToInt(dataSize))
    {
      if size >= M.ToInt(dataSize) {
        return size;
      }
      size := size * 2;
      i := i + 1;
    }
    return -1;
  }

  /** init_storage: the size classes up to `largestSize`, or a failure if there are too many. */
  method InitStorage(largestSize: nat) returns (ret: int, blockSizes: seq<nat>)
    ensures var largest := if largestSize < 128 then 0x40_0000 else largestSize;
            && (ret == 0 || ret == -1)
            && 0 < |blockSizes| <= M.MAX_BLOCK_CNT
            && (forall i :: 0 <= i < |blockSizes| ==> blockSizes[i] == M.ClassSize(i) <= largest)
            && (ret == 0 <==> largest < M.ClassSize(M.MAX_BLOCK_CNT))
            && (ret == 0 ==> largest < M.ClassSize(|blockSizes|))
            && (ret == -1 ==> |blockSizes| == M.MAX_BLOCK_CNT)
  {
    var largest := if largestSize < M.BEGINNING_SIZE then 4 * 1024 * 1024 else largestSize;
    ret, blockSizes := 0, [];
    var currSize := M.BEGINNING_SIZE;
    var i := 0;
    while currSize <= largest
      invariant 0 <= i == |blockSizes| <= M.MAX_BLOCK_CNT && currSize == M.ClassSize(i)
      invariant forall j :: 0 <= j < i ==> blockSizes[j] == M.ClassSize(j) <= largest
      invariant i == 0 ==> currSize <= largest
      decreases M.MAX_BLOCK_CNT - i
    {
      if i >= M.MAX_BLOCK_CNT {
        ret := -1;
        break;
      }
      blockSizes := blockSizes + [currSize];
      currSize := currSize * 2;
      i := i + 1;
    }
    if ret == 0 && i < M.MAX_BLOCK_CNT {
      M.ClassesGrow(i, M.MAX_BLOCK_CNT);
    }
  }

  /** struct bucket_storage_t with the global table of data files. */
  class Store {
    const files: seq<BlockFile>
    var index: map<M.Key, M.IndexValue>
    var journal: seq<M.LogItem>

    ghost const handles: set<object> := set f | f in files :: f
    ghost const stacks: set<object> := set f | f in files :: f.freeSlotsOffset

    /** The files and their arrays are pairwise different objects. */
    ghost predicate Valid()
      reads this, handles
    {
      && (forall i :: 0 <= i < |files| ==> files[i].Valid())
      && (forall i, j :: 0 <= i < j < |files| ==> files[i] != files[j] && files[i].freeSlotsOffset != files[j].freeSlotsOffset)
    }

    ghost function FileStates(): (r: seq<D.FileState>)
      reads this, handles, stacks
      requires Valid()
      ensures |r| == |files| && forall i :: 0 <= i < |files| ==> r[i] == files[i].Model()
    {
      seq(|files|, i requires 0 <= i < |files| && files[i].Valid() reads files, stacks => files[i].Model())
    }

    ghost function Model(): M.Store
      reads this, handles, stacks
      requires Valid()
    {
      M.Store(FileStates(), index, journal)
    }

    /** open_storage on an empty directory: one new data file per size class. */
    constructor Open(count: nat)
      requires count <= M.MAX_BLOCK_CNT
      ensures Valid() && fresh(handles) && fresh(stacks) && Model() == R.Fresh(count)
    {
      hide D.Create, M.ClassSize;
      var made: seq<BlockFile> := [];
      var i := 0;
      while i < count
        invariant 0 <= i == |made| <= count
        invariant forall j :: 0 <= j < i ==> fresh(made[j]) && fresh(made[j].freeSlotsOffset) && made[j].Valid()
        invariant forall j :: 0 <= j < i ==> made[j].Model() == D.Create(M.ClassSize(j))
        invariant forall j, l :: 0 <= j < l < i ==> made[j] != made[l] && made[j].freeSlotsOffset != made[l].freeSlotsOffset
      {
        var fh := new BlockFile.Create(M.ClassSize(i));
        made := made + [fh];
        i := i + 1;
      }
      files, index, journal := made, map[], [];
      new;
      assert FileStates() == R.Fresh(count).files;
    }

    /** close_storage: every header is written once more. */
    method Close()
      requires Valid()
      modifies handles
      ensures Valid() && Model() == old(Model()).(files := R.Synced(old(FileStates())))
    {
      hide D.SyncHeader;
      ghost var before := FileStates();
      var i := 0;
      while i < |files|
        invariant 0 <= i <= |files| && Valid()
        invariant forall j :: 0 <= j < i ==> files[j].Model() == D.SyncHeader(before[j])
        invariant forall j :: i <= j < |files| ==> files[j].Model() == before[j]
      {
        files[i].SyncHeader();
        i := i + 1;
      }
      assert FileStates() == R.Synced(before);
    }

    /** open_storage on existing files: the header sections are read back, the journal truncated. */
    method Load() returns (ok: bool)
      requires Valid()
      modifies this, handles, stacks
      ensures Valid() && index == old(index)
      ensures ok <==> forall i :: 0 <= i < |files| ==> D.Load(old(FileStates()[i].disk)).Some?
      ensures ok ==> journal == [] && forall i :: 0 <= i < |files| ==> files[i].Model() == D.Load(old(FileStates()[i].disk)).value
    {
      hide D.Load;
      ghost var before := FileStates();
      journal := [];
      var i := 0;
      while i < |files|
        invariant 0 <= i <= |files| && Valid() && index == old(index) && journal == []
        invariant forall j :: 0 <= j < i ==> Some(files[j].Model()) == D.Load(before[j].disk)
        invariant forall j :: i <= j < |files| ==> files[j].Model() == before[j]
      {
        var loaded := files[i].LoadDataFile();
        if !loaded {
          return false;
        }
        i := i + 1;
      }
      return true;
    }

    /** close_storage, then open_storage on the files it left. */
    method Reopen() returns (ok: bool)
      requires Valid()
      modifies this, handles, stacks
      ensures Valid() && ok == R.Reopen(old(Model())).Some?
      ensures ok ==> Model() == R.Reopen(old(Model())).value
    {
      hide D.SyncHeader, D.Load;
      ghost var s := Model();
      Close();
      ok := Load();
      if ok {
        assert FileStates() == R.Reopen(s).value.files;
      }
    }

    /** find_block_file. */
    method FindBlockFile(size: int) returns (r: int)
      ensures r == M.FindBlockFile(|files|, size)
    {
      for i := 0 to |files|
        invariant M.FindBlockFile(|files|, size) == M.IndexFrom(i, |files|, size)
      {
        if size == M.ClassSize(i) {
          return i;
        }
      }
      return -1;
    }

    /** index_logger_append, seen from the store. */
    method Log(item: M.LogItem)
      modifies this`journal
      ensures journal == old(journal) + [item]
    {
      journal := journal + [item];
    }

    method AppendBlock(blockId: int, key: M.Key, data: seq<byte>) returns (r: M.Reply)
      requires Valid()
      modifies this, handles, stacks
      ensures Valid() && (Model(), r) == M.AppendBlock(old(Model()), blockId, key, data)
    {
      hide D.Take, D.WriteData, D.NextOffset, Crc32.Checksum, M.ClassSize;
      ghost var s := Model();
      if !(0 <= blockId < |files|) {
        return M.Code(-1);
      }
      if |data| > M.ClassSize(blockId) {
        return M.Crashed;
      }
      var fh := files[blockId];
      var offset := fh.AppendData(data);
      var iv := M.IndexValue(Crc32.Checksum(data), blockId, |data|, offset);
      assert FileStates() == old(FileStates())[blockId := fh.Model()];
      assert iv == M.NewEntry(s, blockId, data);
      Log(M.LogItem(M.IndexAppend, key, iv));
      index := index[key := iv];
      assert Model().files == M.AppendBlock(s, blockId, key, data).0.files;
      return M.Code(0);
    }

    method ModifyBlock(iv: M.IndexValue, key: M.Key, data: seq<byte>) returns (r: M.Reply)
      requires Valid()
      modifies this, handles
      ensures Valid() && (Model(), r) == M.ModifyBlock(old(Model()), iv, key, data)
    {
      if iv.blockId >= |files| {
        return M.Code(-1);
      }
      if |data| > M.ClassSize(iv.blockId) {
        return M.Crashed;
      }
      var fh := files[iv.blockId];
      fh.SyncDataFile(data, iv.offset);
      var iv' := iv.(crc32 := Crc32.Checksum(data), dataSize := |data|);
      Log(M.LogItem(M.IndexModify, key, iv'));
      index := index[key := iv'];
      assert FileStates() == old(FileStates())[iv.blockId := fh.Model()];
      return M.Code(0);
    }

    method DoDeleteBlock(iv: M.IndexValue, key: M.Key)
      requires Valid() && iv.blockId < |files|
      modifies this, handles, stacks
      ensures Valid() && Model() == M.DoDeleteBlock(old(Model()), iv, key)
    {
      var fh := files[iv.blockId];
      Log(M.LogItem(M.IndexDel, key, iv));
      index := index - {key};
      fh.GiveSlot(iv.offset);
      assert FileStates() == old(FileStates())[iv.blockId := fh.Model()];
    }

    /** update_block. */
    method UpdateBlock(key: seq<byte>, data: seq<byte>) returns (r: M.Reply)
      requires Valid() && M.Ranged(Model())
      modifies this, handles, stacks
      ensures Valid() && (Model(), r) == M.UpdateBlock(old(Model()), key, data)
    {
      hide M.AppendBlock, M.ModifyBlock, M.DoDeleteBlock, M.ClassSize, M.CalcBlockSize, M.FindBlockFile, M.FixKey;
      var k := M.FixKey(key);
      if k in index {
        var iv := index[k];
        if |data| <= M.ClassSize(iv.blockId) {
          r := ModifyBlock(iv, k, data);
          if r != M.Code(0) && r != M.Crashed {
            r := M.Code(-1);
          }
        } else {
          DoDeleteBlock(iv, k);
          var size := CalcBlockSize(|data|);
          var newBlockId := FindBlockFile(size);
          r := AppendBlock(newBlockId, k, data);
          if r != M.Code(0) && r != M.Crashed {
            r := M.Code(-3);
          }
        }
      } else {
        var size := CalcBlockSize(|data|);
        var newBlockId := FindBlockFile(size);
        if newBlockId < 0 {
          return M.Code(0);
        }
        r := AppendBlock(newBlockId, k, data);
        if r != M.Code(0) && r != M.Crashed {
          r := M.Code(-4);
        }
      }
    }

    /** find_block. */
    method FindBlock(key: seq<byte>) returns (r: M.Reply)
      requires Valid() && M.Ranged(Model())
      ensures r == M.FindBlock(Model(), key)
    {
      var k := M.FixKey(key);
      if k !in index {
        return M.NotFound;
      }
      var iv := index[k];
      var read := Pread(files[iv.blockId].disk, iv.dataSize, iv.offset);
      match read
      case Some(data) => return M.Found(data);
      case None => return M.Code(-1);
    }

    /** delete_block. */
    method DeleteBlock(key: seq<byte>) returns (r: M.Reply)
      requires Valid() && M.Ranged(Model())
      modifies this, handles, stacks
      ensures Valid() && (Model(), r) == M.DeleteBlock(old(Model()), key)
    {
      var k := M.FixKey(key);
      if k !in index {
        return M.NotFound;
      }
      DoDeleteBlock(index[k], k);
      return M.Code(0);
    }
  }
}
