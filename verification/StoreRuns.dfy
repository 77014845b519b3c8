/** The block store over whole runs: it is a map, its journal replays to its index and its
    allocator, and closing and opening it again gives the same store. */
module StoreRuns {
  import opened Bytes
  import opened DataFile
  import opened StoreModel
  import Crc32

  datatype Op = Update(key: seq<byte>, data: seq<byte>) | Remove(key: seq<byte>) | Find(key: seq<byte>)

  type Contents = map<Key, seq<byte>>

  function Step(s: Store, op: Op): (Store, Reply)
    requires Ranged(s)
  {
    match op
    case Update(key, data) => UpdateBlock(s, key, data)
    case Remove(key) => DeleteBlock(s, key)
    case Find(key) => (s, FindBlock(s, key))
  }

  // ---------- the store is a map ----------

  /** The same calls on a plain map, for a store with `count` size classes. A size above the
      largest class is never stored: a key that was there is removed first, and the call fails
      with -3, reports 0 when there was nothing to remove, or dies in append_block's assert when
      the size, converted to int, looks as if it fitted. */
  function MapStep(m: Contents, count: nat, op: Op): (Contents, Reply)
    requires count > 0
  {
    match op
    case Update(key, data) =>
      var k := FixKey(key);
      if |data| <= ClassSize(count - 1) then (m[k := data], Code(0))
      else (m - {k},
            if Wraps(count, |data|) then Crashed
            else if k in m then Code(-3) else Code(0))
    case Remove(key) =>
      var k := FixKey(key);
      if k in m then (m - {k}, Code(0)) else (m, NotFound)
    case Find(key) =>
      var k := FixKey(key);
      (m, if k in m then Found(m[k]) else NotFound)
  }

  lemma UpdateWithinLargest(s: Store, key: seq<byte>, data: seq<byte>)
    requires Inv(s) && |data| <= ClassSize(|s.files| - 1)
    ensures var (s', r) := UpdateBlock(s, key, data);
            r == Code(0) && Inv(s') && Abs(s') == Abs(s)[FixKey(key) := data]
    ensures |UpdateBlock(s, key, data).0.files| == |s.files|
  {
    hide EntryOk, Abs, FilesOk, DoDeleteBlock, AppendBlock, ModifyBlock, OneKeyPerSlot;
    var k := FixKey(key);
    FileCount(s);
    LeastClassThatFits(|s.files|, |data|);
    var b := ClassFor(|s.files|, |data|);
    if k in s.index {
      var iv := s.index[k];
      if |data| <= ClassSize(iv.blockId) {
        ModifyKeeps(s, k, data);
        SameFileCount(s, k, b, data);
      } else {
        DeleteKeeps(s, k);
        SameFileCount(s, k, b, data);
        var s1 := DoDeleteBlock(s, iv, k);
        AppendKeeps(s1, b, k, data);
        SameFileCountAppend(s1, k, b, data);
      }
    } else {
      AppendKeeps(s, b, k, data);
      SameFileCountAppend(s, k, b, data);
    }
  }

  lemma FileCount(s: Store)
    requires Inv(s)
    ensures 0 < |s.files| <= MAX_BLOCK_CNT && Ranged(s)
  {
  }

  lemma SameFileCount(s: Store, k: Key, b: int, data: seq<byte>)
    requires Ranged(s) && k in s.index
    ensures |DoDeleteBlock(s, s.index[k], k).files| == |s.files|
    ensures |ModifyBlock(s, s.index[k], k, data).0.files| == |s.files|
  {
  }

  lemma SameFileCountAppend(s: Store, k: Key, b: int, data: seq<byte>)
    ensures |AppendBlock(s, b, k, data).0.files| == |s.files|
  {
  }

  lemma UpdateAboveLargest(s: Store, key: seq<byte>, data: seq<byte>)
    requires Inv(s) && |data| > ClassSize(|s.files| - 1)
    ensures var (s', r) := UpdateBlock(s, key, data);
            Inv(s') && Abs(s') == Abs(s) - {FixKey(key)} && |s'.files| == |s.files| &&
            r == (if Wraps(|s.files|, |data|) then Crashed else if FixKey(key) in s.index then Code(-3) else Code(0))
  {
    hide EntryOk, FilesOk, DoDeleteBlock, ModifyBlock, OneKeyPerSlot;
    var k := FixKey(key);
    FileCount(s);
    NoClassAboveLargest(|s.files|, |data|);
    if k in s.index {
      var b := s.index[k].blockId;
      if b < |s.files| - 1 { ClassesGrow(b, |s.files| - 1); }
      SameFileCount(s, k, 0, data);
      DeleteKeeps(s, k);
    } else {
      assert Abs(s) - {k} == Abs(s);
    }
  }

  /** Every call, with every argument: the store answers and moves as the map does. */
  lemma StepRefines(s: Store, op: Op)
    requires Inv(s)
    ensures var (s', r) := Step(s, op);
            var (m', r') := MapStep(Abs(s), |s.files|, op);
            Inv(s') && Abs(s') == m' && r == r' && |s'.files| == |s.files|
  {
    hide EntryOk, FilesOk, AppendBlock, ModifyBlock, DoDeleteBlock, UpdateBlock, OneKeyPerSlot;
    FileCount(s);
    match op {
      case Update(key, data) =>
        if |data| <= ClassSize(|s.files| - 1) {
          UpdateWithinLargest(s, key, data);
        } else {
          UpdateAboveLargest(s, key, data);
        }
      case Remove(key) =>
        if FixKey(key) in s.index {
          DeleteKeeps(s, FixKey(key));
          SameFileCount(s, FixKey(key), 0, []);
        }
      case Find(key) =>
        FindReads(s, key);
    }
  }

  lemma FindReads(s: Store, key: seq<byte>)
    requires Inv(s)
    ensures FindBlock(s, key) == if FixKey(key) in Abs(s) then Found(Abs(s)[FixKey(key)]) else NotFound
  {
    hide FilesOk, OneKeyPerSlot, IsSlot, ReadEntry;
  }

  /** After an update the key is stored, with exactly these bytes, if and only if the size is
      within the largest class. */
  lemma StoredIffFits(s: Store, key: seq<byte>, data: seq<byte>)
    requires Inv(s)
    ensures Inv(UpdateBlock(s, key, data).0)
    ensures FindBlock(UpdateBlock(s, key, data).0, key) == Found(data) <==> |data| <= ClassSize(|s.files| - 1)
  {
    hide UpdateBlock, FindBlock, Inv, Abs;
    FileCount(s);
    StepRefines(s, Update(key, data));
    FileCount(UpdateBlock(s, key, data).0);
    FindReads(UpdateBlock(s, key, data).0, key);
  }

  /** Where an update leaves its value: in the slot it had, as long as that is large enough; else, new
      or moved up, in the least class that holds it. */
  lemma StoredInLeastClass(s: Store, key: seq<byte>, data: seq<byte>)
    requires Inv(s) && |data| <= ClassSize(|s.files| - 1)
    ensures Ranged(s) && FixKey(key) in UpdateBlock(s, key, data).0.index
    ensures var k := FixKey(key);
            var iv := UpdateBlock(s, key, data).0.index[k];
            if k in s.index && |data| <= ClassSize(s.index[k].blockId)
            then iv.blockId == s.index[k].blockId && iv.offset == s.index[k].offset
            else iv.blockId < |s.files| && |data| <= ClassSize(iv.blockId) && forall j :: 0 <= j < iv.blockId ==> ClassSize(j) < |data|
  {
    hide FilesOk, EntryOk, OneKeyPerSlot, ClassFor, FixKey, Give, Take, WriteData, NextOffset, Crc32.Checksum;
    FileCount(s);
    LeastClassThatFits(|s.files|, |data|);
  }

  /** When an update kills the process: the size is above the largest class, and its conversion to
      int is not. */
  lemma CrashIff(s: Store, key: seq<byte>, data: seq<byte>)
    requires Inv(s)
    ensures |s.files| > 0 && Ranged(s)
    ensures UpdateBlock(s, key, data).1 == Crashed <==> ToInt(|data|) <= ClassSize(|s.files| - 1) < |data|
  {
    hide UpdateBlock, Inv, Abs, ClassSize, ToInt;
    FileCount(s);
    StepRefines(s, Update(key, data));
  }

  /** With the 18 classes up to 16 MB, values of 2 GB and 4 GB kill the process, and one of 4 GB and
      128 MB is merely refused. */
  lemma CrashExample(s: Store, key: seq<byte>, data: seq<byte>)
    requires Inv(s) && |s.files| == 18
    ensures Ranged(s)
    ensures |data| == 0x1_0000_0000 ==> UpdateBlock(s, key, data).1 == Crashed
    ensures |data| == 0x8000_0000 ==> UpdateBlock(s, key, data).1 == Crashed
    ensures |data| == 0x1_0800_0000 ==> UpdateBlock(s, key, data).1 != Crashed
  {
    hide UpdateBlock, Inv;
    CrashIff(s, key, data);
    SixteenMegabytes();
  }

  lemma SixteenMegabytes()
    ensures ClassSize(17) == 0x100_0000
  {
    assert ClassSize(6) == 0x2000;
    assert ClassSize(11) == 0x4_0000;
    assert ClassSize(14) == 0x20_0000;
  }

  // ---------- whole runs ----------

  lemma StepRanged(s: Store, op: Op)
    requires Ranged(s)
    ensures Ranged(Step(s, op).0)
  {
    hide Take, Give, WriteData, NextOffset;
  }

  /** A run ends when the process dies. */
  function Run(s: Store, ops: seq<Op>): (Store, seq<Reply>)
    requires Ranged(s)
    decreases |ops|
  {
    if ops == [] then (s, [])
    else
      var (s1, r) := Step(s, ops[0]);
      if r == Crashed then (s1, [r])
      else
        StepRanged(s, ops[0]);
        var (s2, rs) := Run(s1, ops[1..]);
        (s2, [r] + rs)
  }

  function MapRun(m: Contents, count: nat, ops: seq<Op>): (Contents, seq<Reply>)
    requires count > 0
    decreases |ops|
  {
    if ops == [] then (m, [])
    else
      var (m1, r) := MapStep(m, count, ops[0]);
      if r == Crashed then (m1, [r])
      else
        var (m2, rs) := MapRun(m1, count, ops[1..]);
        (m2, [r] + rs)
  }

  /** For every sequence of calls the store and the map give the same replies, and the store
      goes on standing for the map. */
  lemma {:induction false} RunRefines(s: Store, ops: seq<Op>)
    requires Inv(s)
    ensures var (s', rs) := Run(s, ops);
            var (m', rs') := MapRun(Abs(s), |s.files|, ops);
            Inv(s') && Abs(s') == m' && rs == rs' && |s'.files| == |s.files|
    decreases |ops|
  {
    hide FilesOk, OneKeyPerSlot, EntriesOk, Step, MapStep, Abs;
    FileCount(s);
    if ops != [] {
      StepRefines(s, ops[0]);
      if Step(s, ops[0]).1 != Crashed {
        RunRefines(Step(s, ops[0]).0, ops[1..]);
      }
    }
  }

  /** What a history of calls left under a key, read from its end. A value above the largest class
      is not stored, and takes the one before it away. */
  ghost function LastStored(largest: nat, ops: seq<Op>, key: seq<byte>): Option<seq<byte>>
    decreases |ops|
  {
    if ops == [] then None
    else
      var n := |ops| - 1;
      match ops[n]
      case Update(k, data) =>
        if SameKey(k, key) then (if |data| <= largest then Some(data) else None) else LastStored(largest, ops[..n], key)
      case Remove(k) => if SameKey(k, key) then None else LastStored(largest, ops[..n], key)
      case Find(_) => LastStored(largest, ops[..n], key)
  }

  /** No call dies in the assert. */
  ghost predicate AllSurvive(count: nat, ops: seq<Op>) {
    forall i :: 0 <= i < |ops| && ops[i].Update? ==> !Wraps(count, |ops[i].data|)
  }

  lemma {:induction false} MapRunAppend(m: Contents, count: nat, ops: seq<Op>, op: Op)
    requires count > 0 && AllSurvive(count, ops)
    ensures MapRun(m, count, ops + [op]).0 == MapStep(MapRun(m, count, ops).0, count, op).0
    decreases |ops|
  {
    if ops == [] {
      assert [op][1..] == [];
    } else {
      assert (ops + [op])[1..] == ops[1..] + [op];
      var m1 := MapStep(m, count, ops[0]).0;
      assert MapStep(m, count, ops[0]).1 != Crashed;
      hide MapStep;
      MapRunAppend(m1, count, ops[1..], op);
    }
  }

  lemma {:induction false} MapRunIsHistory(count: nat, ops: seq<Op>, key: seq<byte>)
    requires count > 0 && AllSurvive(count, ops)
    ensures var m := MapRun(map[], count, ops).0; var k := FixKey(key);
            LastStored(ClassSize(count - 1), ops, key) == if k in m then Some(m[k]) else None
    decreases |ops|
  {
    hide FixKey, ClassSize;
    if ops != [] {
      var n := |ops| - 1;
      assert ops == ops[..n] + [ops[n]];
      MapRunIsHistory(count, ops[..n], key);
      MapRunAppend(map[], count, ops[..n], ops[n]);
      SameKeyIff(ops[n].key, key);
    }
  }

  /** From an empty store, whatever was called before, find returns the last value stored under the
      same key and not removed since, or reports that there is none. */
  lemma FindReturnsLastStored(s: Store, ops: seq<Op>, key: seq<byte>)
    requires Inv(s) && s.index == map[] && AllSurvive(|s.files|, ops)
    ensures Inv(Run(s, ops).0) && |s.files| > 0
    ensures FindBlock(Run(s, ops).0, key) ==
              match LastStored(ClassSize(|s.files| - 1), ops, key) { case Some(data) => Found(data) case None => NotFound }
  {
    hide FilesOk, OneKeyPerSlot, Run, MapRun, LastStored, FindBlock, FixKey;
    assert Abs(s) == map[];
    FileCount(s);
    RunRefines(s, ops);
    FindReads(Run(s, ops).0, key);
    MapRunIsHistory(|s.files|, ops, key);
  }

  /** An update is found under every key that is the same as its own, and changes what is found
      under no other. */
  lemma UpdateIsFound(s: Store, a: seq<byte>, data: seq<byte>, b: seq<byte>)
    requires Inv(s) && |data| <= ClassSize(|s.files| - 1)
    ensures Ranged(s) && Inv(UpdateBlock(s, a, data).0)
    ensures FindBlock(UpdateBlock(s, a, data).0, b) == if SameKey(a, b) then Found(data) else FindBlock(s, b)
  {
    hide Inv, UpdateBlock, FindBlock, FixKey, SameKey, Abs;
    FileCount(s);
    UpdateWithinLargest(s, a, data);
    FindReads(s, b);
    FindReads(UpdateBlock(s, a, data).0, b);
    SameKeyIff(a, b);
  }

  /** A delete removes what is found under every key that is the same as its own, and nothing else. */
  lemma DeleteIsGone(s: Store, a: seq<byte>, b: seq<byte>)
    requires Inv(s)
    ensures Ranged(s) && Inv(DeleteBlock(s, a).0)
    ensures FindBlock(DeleteBlock(s, a).0, b) == if SameKey(a, b) then NotFound else FindBlock(s, b)
  {
    hide Inv, DeleteBlock, FindBlock, FixKey, SameKey, Abs;
    FileCount(s);
    StepRefines(s, Remove(a));
    FindReads(s, b);
    FindReads(DeleteBlock(s, a).0, b);
    SameKeyIff(a, b);
  }

  // ---------- the journal replays to the index and to the allocator ----------

  function ReplayItem(index: map<Key, IndexValue>, item: LogItem): map<Key, IndexValue> {
    if item.op == IndexDel then index - {item.key} else index[item.key := item.value]
  }

  function Replay(index: map<Key, IndexValue>, items: seq<LogItem>): map<Key, IndexValue>
    decreases |items|
  {
    if items == [] then index else ReplayItem(Replay(index, items[..|items| - 1]), items[|items| - 1])
  }

  /** A file's allocator without its bytes. */
  function Bare(f: FileState): FileState {
    f.(disk := [])
  }

  function Allocators(files: seq<FileState>): (r: seq<FileState>)
    ensures |r| == |files| && forall i :: 0 <= i < |files| ==> r[i] == Bare(files[i])
  {
    seq(|files|, i requires 0 <= i < |files| => Bare(files[i]))
  }

  /** What one entry says about the slots: an append took the slot that was next in line, a
      delete gave its slot back. None if the entry does not fit the allocators. */
  function ReplaySlot(files: seq<FileState>, item: LogItem): Option<seq<FileState>> {
    var b := item.value.blockId;
    if b >= |files| then None
    else
      match item.op
      case IndexAppend =>
        if NextOffset(files[b]) == item.value.offset then Some(files[b := Bare(Take(files[b]))]) else None
      case IndexModify => Some(files)
      case IndexDel => Some(files[b := Bare(Release(files[b], item.value.offset))])
  }

  function ReplaySlots(files: seq<FileState>, items: seq<LogItem>): Option<seq<FileState>>
    decreases |items|
  {
    if items == [] then Some(files)
    else
      match ReplaySlots(files, items[..|items| - 1])
      case None => None
      case Some(fs) => ReplaySlot(fs, items[|items| - 1])
  }

  /** The session's journal accounts for everything that changed since the store was opened with
      index `index0` and allocators `files0`. */
  ghost predicate Journaled(index0: map<Key, IndexValue>, files0: seq<FileState>, s: Store) {
    && s.index == Replay(index0, s.journal)
    && ReplaySlots(files0, s.journal) == Some(Allocators(s.files))
  }

  lemma LogOne(index0: map<Key, IndexValue>, files0: seq<FileState>, s: Store, s': Store, item: LogItem)
    requires Journaled(index0, files0, s) && s'.journal == s.journal + [item]
    requires s'.index == ReplayItem(s.index, item)
    requires ReplaySlot(Allocators(s.files), item) == Some(Allocators(s'.files))
    ensures Journaled(index0, files0, s')
  {
    hide ReplaySlot, ReplayItem;
    assert s'.journal[..|s'.journal| - 1] == s.journal;
  }

  lemma AppendLogged(index0: map<Key, IndexValue>, files0: seq<FileState>, s: Store, b: int, k: Key, data: seq<byte>)
    requires Journaled(index0, files0, s)
    ensures Journaled(index0, files0, AppendBlock(s, b, k, data).0)
  {
    hide Pwrite, Journaled, Header;
    if 0 <= b < |s.files| && |data| <= ClassSize(b) {
      var s' := AppendBlock(s, b, k, data).0;
      var item := LogItem(IndexAppend, k, NewEntry(s, b, data));
      assert Allocators(s.files)[b := Bare(Take(Bare(s.files[b])))] == Allocators(s'.files);
      LogOne(index0, files0, s, s', item);
    }
  }

  lemma ModifyLogged(index0: map<Key, IndexValue>, files0: seq<FileState>, s: Store, k: Key, data: seq<byte>)
    requires Journaled(index0, files0, s) && Ranged(s) && k in s.index
    ensures Journaled(index0, files0, ModifyBlock(s, s.index[k], k, data).0)
  {
    hide Pwrite, Journaled;
    var iv := s.index[k];
    if |data| <= ClassSize(iv.blockId) {
      var s' := ModifyBlock(s, iv, k, data).0;
      assert Allocators(s'.files) == Allocators(s.files);
      LogOne(index0, files0, s, s', s'.journal[|s.journal|]);
    }
  }

  lemma DeleteLogged(index0: map<Key, IndexValue>, files0: seq<FileState>, s: Store, k: Key)
    requires Journaled(index0, files0, s) && Ranged(s) && k in s.index
    ensures Journaled(index0, files0, DoDeleteBlock(s, s.index[k], k))
  {
    hide Pwrite, Journaled, Header;
    var iv := s.index[k];
    var s' := DoDeleteBlock(s, iv, k);
    assert Allocators(s.files)[iv.blockId := Bare(Release(Bare(s.files[iv.blockId]), iv.offset))] == Allocators(s'.files);
    LogOne(index0, files0, s, s', LogItem(IndexDel, k, iv));
  }

  /** Every call keeps the journal complete: the in-place path, the delete-then-append path and
      the failing ones alike. */
  lemma StepLogged(index0: map<Key, IndexValue>, files0: seq<FileState>, s: Store, op: Op)
    requires Ranged(s) && Journaled(index0, files0, s)
    ensures Journaled(index0, files0, Step(s, op).0)
  {
    hide AppendBlock, ModifyBlock, DoDeleteBlock, Journaled, FindBlock;
    match op {
      case Update(key, data) =>
        var k := FixKey(key);
        var b := ClassFor(|s.files|, |data|);
        if k in s.index {
          ModifyLogged(index0, files0, s, k, data);
          DeleteLogged(index0, files0, s, k);
          AppendLogged(index0, files0, DoDeleteBlock(s, s.index[k], k), b, k, data);
        } else {
          AppendLogged(index0, files0, s, b, k, data);
        }
      case Remove(key) =>
        if FixKey(key) in s.index {
          DeleteLogged(index0, files0, s, FixKey(key));
        }
      case Find(_) =>
    }
  }

  /** At every point of a session, replaying the journal over the index and the allocators the
      session was opened with gives the present ones. */
  lemma {:induction false} RunLogged(index0: map<Key, IndexValue>, files0: seq<FileState>, s: Store, ops: seq<Op>)
    requires Ranged(s) && Journaled(index0, files0, s)
    ensures Journaled(index0, files0, Run(s, ops).0)
    decreases |ops|
  {
    hide Step, Journaled;
    if ops != [] {
      StepRanged(s, ops[0]);
      StepLogged(index0, files0, s, ops[0]);
      if Step(s, ops[0]).1 != Crashed {
        RunLogged(index0, files0, Step(s, ops[0]).0, ops[1..]);
      }
    }
  }

  lemma SessionStart(s: Store)
    requires s.journal == []
    ensures Journaled(s.index, Allocators(s.files), s)
  {
  }

  // ---------- closing and opening ----------

  function Synced(files: seq<FileState>): seq<FileState> {
    seq(|files|, i requires 0 <= i < |files| => SyncHeader(files[i]))
  }

  /** close_storage, then open_storage on the same directory: headers are written once more, the
      allocators are read back, and the journal is truncated. */
  function Reopen(s: Store): Option<Store> {
    var disks := Synced(s.files);
    if forall i :: 0 <= i < |disks| ==> Load(disks[i].disk).Some?
    then Some(s.(files := seq(|disks|, i requires 0 <= i < |disks| && Load(disks[i].disk).Some? => Load(disks[i].disk).value), journal := []))
    else None
  }

  /** Positions in every file fit a signed 64-bit file offset. */
  ghost predicate OffsetsFit(s: Store) {
    forall i :: 0 <= i < |s.files| ==> SlotOffset(s.files[i].blockSize, HighWater(s.files[i])) < 0x8000_0000_0000_0000
  }

  lemma SyncIsIdle(f: FileState)
    requires Valid(f)
    ensures SyncHeader(f) == f
  {
    hide IsSlot, Encode;
    assert SyncHeader(f).disk == f.disk;
  }

  lemma ClassSizesFit(i: nat)
    requires i < MAX_BLOCK_CNT
    ensures 0 < ClassSize(i) <= 0x400_0000
  {
    LargestClass();
    if i < MAX_BLOCK_CNT - 1 { ClassesGrow(i, MAX_BLOCK_CNT - 1); } else { ClassPositive(i); }
  }

  /** Between calls, closing and opening loses nothing: same counters, same free stacks in the
      same order, same bytes, same index. */
  lemma ReopenRestores(s: Store)
    requires Inv(s) && OffsetsFit(s)
    ensures Reopen(s) == Some(s.(journal := []))
  {
    hide EntriesOk, OneKeyPerSlot, Valid, SlotOffset, Load;
    forall i | 0 <= i < |s.files|
      ensures SyncHeader(s.files[i]) == s.files[i] && Load(s.files[i].disk) == Some(s.files[i])
    {
      SyncIsIdle(s.files[i]);
      ClassSizesFit(i);
      LoadRestores(s.files[i]);
    }
    assert Synced(s.files) == s.files;
    assert Reopen(s).value.files == s.files;
  }

  /** A store created from nothing. */
  function Fresh(count: nat): Store {
    Store(seq(count, i requires 0 <= i < count => Create(ClassSize(i))), map[], [])
  }

  lemma FreshInv(count: nat)
    requires 0 < count <= MAX_BLOCK_CNT
    ensures Inv(Fresh(count)) && Abs(Fresh(count)) == map[] && |Fresh(count).files| == count
  {
    hide Valid, Create;
    forall i | 0 <= i < count
      ensures Valid(Fresh(count).files[i]) && Fresh(count).files[i].blockSize == ClassSize(i)
    {
      ClassPositive(i);
      CreateValid(ClassSize(i));
      CreatedSize(ClassSize(i));
    }
  }

  lemma CreatedSize(blockSize: nat)
    ensures Create(blockSize).blockSize == blockSize
  {
  }
}
