/** What becomes of slots: a deleted one is used again, unless the free stack was full when it was
    given back. Nothing else loses a slot, and a lost slot stays lost. */
module SlotLosses {
  import opened Bytes
  import opened DataFile
  import opened StoreModel
  import opened StoreRuns
  import Crc32

  // ---------- one file ----------

  /** The slots of one file that are neither in `live` nor on the free stack. */
  function LostIn(f: FileState, live: set<nat>): set<nat> {
    AllSlots(f.blockSize, HighWater(f)) - live - FreeSlots(f)
  }

  /** A slot that is taken becomes live; it was free, or opened just now. */
  lemma TakeLosesNothing(f: FileState, live: set<nat>, data: seq<byte>)
    requires Valid(f) && live <= AllSlots(f.blockSize, HighWater(f))
    requires live !! FreeSlots(f)
    ensures LostIn(WriteData(Take(f), data, NextOffset(f)), live + {NextOffset(f)}) == LostIn(f, live)
  {
    hide HeaderOnDisk, StackOnDisk, IsSlot, Pwrite, SlotOffset, AllSlots;
    var g := Take(f);
    assert g.blockSize == f.blockSize;
    if f.free != [] {
      PopStack(f, g);
      assert HighWater(g) == HighWater(f);
      InFreeSlots(f, NextOffset(f));
    } else {
      OneMoreSlot(f.blockSize, f.blockCnt);
      assert FreeSlots(g) == {} && FreeSlots(f) == {};
    }
  }

  lemma InFreeSlots(f: FileState, x: nat)
    ensures x in FreeSlots(f) <==> x in f.free
  {
  }

  lemma PopStack(f: FileState, g: FileState)
    requires Distinct(f.free) && f.free != [] && g.free == f.free[..|f.free| - 1]
    ensures FreeSlots(g) == FreeSlots(f) - {f.free[|f.free| - 1]}
  {
    hide FreeSlots;
    assert f.free == g.free + [f.free[|f.free| - 1]];
    forall x: nat
      ensures x in FreeSlots(g) <==> x in FreeSlots(f) - {f.free[|f.free| - 1]}
    {
      InFreeSlots(f, x);
      InFreeSlots(g, x);
    }
  }

  lemma OneMoreSlot(blockSize: nat, count: nat)
    ensures AllSlots(blockSize, count + 1) == AllSlots(blockSize, count) + {SlotOffset(blockSize, count)}
    ensures blockSize > 0 ==> SlotOffset(blockSize, count) !in AllSlots(blockSize, count)
  {
    hide SlotOffset;
    if blockSize > 0 {
      forall i: nat | i < count
        ensures SlotOffset(blockSize, i) != SlotOffset(blockSize, count)
      {
        SlotOrder(blockSize, i, count);
      }
    }
  }

  /** A slot that is given back is free again, or lost when the stack has no room. */
  lemma GiveLoses(f: FileState, live: set<nat>, offset: nat)
    requires Valid(f) && f.blockCnt > 0
    requires offset in live && live <= AllSlots(f.blockSize, HighWater(f)) && live !! FreeSlots(f)
    requires IsSlot(f, offset) && offset !in f.free
    ensures LostIn(Give(f, offset), live - {offset}) == LostIn(f, live) + (if |f.free| >= MAX_FREE_SLOTS then {offset} else {})
  {
    hide Valid, IsSlot, SlotOffset, AllSlots, Give;
    GiveKeeps(f, offset);
    if |f.free| < MAX_FREE_SLOTS {
      PushStack(f, Give(f, offset), offset);
    }
  }

  lemma PushStack(f: FileState, g: FileState, offset: nat)
    requires g.free == f.free + [offset]
    ensures FreeSlots(g) == FreeSlots(f) + {offset}
  {
    hide FreeSlots;
    forall x: nat
      ensures x in FreeSlots(g) <==> x in FreeSlots(f) + {offset}
    {
      InFreeSlots(f, x);
      InFreeSlots(g, x);
    }
  }

  // ---------- the operations ----------

  lemma LostIsLostIn(s: Store, b: nat)
    requires b < |s.files|
    ensures Lost(s, b) == LostIn(s.files[b], LiveSlots(s, b))
  {
  }

  lemma FilePart(s: Store, b: nat)
    requires Inv(s) && b < |s.files|
    ensures Valid(s.files[b]) && LiveSlots(s, b) !! FreeSlots(s.files[b])
    ensures LiveSlots(s, b) <= AllSlots(s.files[b].blockSize, HighWater(s.files[b]))
  {
    hide Valid, EntriesOk, OneKeyPerSlot, AllSlots, LiveSlots, FreeSlots;
    LiveAndFreeApart(s, b);
  }

  lemma LiveAfterPut(s: Store, k: Key, iv: IndexValue, b: nat, s': Store)
    requires s'.index == s.index[k := iv]
    requires k in s.index ==> iv.blockId == s.index[k].blockId && iv.offset == s.index[k].offset
    ensures LiveSlots(s', b) == if b == iv.blockId then LiveSlots(s, b) + {iv.offset} else LiveSlots(s, b)
  {
    forall x
      ensures x in LiveSlots(s', b) <==> x in (if b == iv.blockId then LiveSlots(s, b) + {iv.offset} else LiveSlots(s, b))
    {
      if x in LiveSlots(s, b) {
        var l :| l in LiveKeys(s, b) && s.index[l].offset == x;
        assert l in LiveKeys(s', b);
      }
      if b == iv.blockId { assert k in LiveKeys(s', b); }
      if x in LiveSlots(s', b) {
        var l :| l in LiveKeys(s', b) && s'.index[l].offset == x;
        assert l != k ==> l in LiveKeys(s, b);
      }
    }
  }

  lemma LiveAfterErase(s: Store, k: Key, b: nat, s': Store)
    requires OneKeyPerSlot(s.index) && k in s.index && s'.index == s.index - {k}
    ensures LiveSlots(s', b) == if b == s.index[k].blockId then LiveSlots(s, b) - {s.index[k].offset} else LiveSlots(s, b)
    ensures b == s.index[k].blockId ==> s.index[k].offset in LiveSlots(s, b)
  {
    assert b == s.index[k].blockId ==> k in LiveKeys(s, b);
    forall x
      ensures x in LiveSlots(s', b) <==> x in (if b == s.index[k].blockId then LiveSlots(s, b) - {s.index[k].offset} else LiveSlots(s, b))
    {
      if x in LiveSlots(s, b) {
        var l :| l in LiveKeys(s, b) && s.index[l].offset == x;
        assert l != k ==> l in LiveKeys(s', b);
      }
      if x in LiveSlots(s', b) {
        var l :| l in LiveKeys(s', b) && s'.index[l].offset == x;
        assert l in LiveKeys(s, b);
      }
    }
  }

  /** An append loses no slot. */
  lemma AppendLosesNothing(s: Store, a: nat, k: Key, data: seq<byte>, b: nat)
    requires Inv(s) && a < |s.files| && k !in s.index && |data| <= ClassSize(a) && b < |s.files|
    ensures var s' := AppendBlock(s, a, k, data).0;
            |s'.files| == |s.files| && Lost(s', b) == Lost(s, b)
  {
    hide Inv, LostIn, LiveSlots, FreeSlots, AllSlots, Take, WriteData, NextOffset, Crc32.Checksum, Lost, ClassSize, Valid;
    var s' := AppendBlock(s, a, k, data).0;
    FilePart(s, b);
    LostIsLostIn(s, b);
    LostIsLostIn(s', b);
    LiveAfterPut(s, k, s'.index[k], b, s');
    if a == b { TakeLosesNothing(s.files[b], LiveSlots(s, b), data); }
  }

  /** Nor does an update in place. */
  lemma ModifyLosesNothing(s: Store, k: Key, data: seq<byte>, b: nat)
    requires Inv(s) && k in s.index && s.index[k].blockId < |s.files| && |data| <= ClassSize(s.index[k].blockId) && b < |s.files|
    ensures var s' := ModifyBlock(s, s.index[k], k, data).0;
            |s'.files| == |s.files| && Lost(s', b) == Lost(s, b)
  {
    hide Inv, AllSlots, Crc32.Checksum, ClassSize, LiveKeys, LiveSlots, Pwrite;
    var s' := ModifyBlock(s, s.index[k], k, data).0;
    LiveAfterPut(s, k, s'.index[k], b, s');
    LiveHere(s, k);
  }

  lemma LiveHere(s: Store, k: Key)
    requires k in s.index
    ensures s.index[k].offset in LiveSlots(s, s.index[k].blockId)
  {
    assert k in LiveKeys(s, s.index[k].blockId);
  }

  /** A delete loses its slot if, and only if, the free stack of its file is full. */
  lemma DeleteLoses(s: Store, k: Key, b: nat)
    requires Inv(s) && k in s.index && b < |s.files|
    ensures Ranged(s)
    ensures var iv := s.index[k];
            var s' := DoDeleteBlock(s, iv, k);
            && |s'.files| == |s.files|
            && Lost(s', b) == Lost(s, b) + (if b == iv.blockId && |s.files[b].free| >= MAX_FREE_SLOTS then {iv.offset} else {})
            && iv.offset !in Lost(s, iv.blockId)
  {
    hide Inv, LostIn, LiveSlots, FreeSlots, AllSlots, Give, Lost, Valid, EntryOk;
    FileCount(s);
    var iv := s.index[k];
    var s' := DoDeleteBlock(s, iv, k);
    FilePart(s, b);
    LostIsLostIn(s, b);
    LostIsLostIn(s', b);
    KeysApart(s);
    LiveAfterErase(s, k, b, s');
    LiveNotLost(s, k);
    if b == iv.blockId {
      LiveEntry(s, k);
      LiveSlotCounted(s, k);
      GiveLoses(s.files[b], LiveSlots(s, b), iv.offset);
    }
  }

  lemma KeysApart(s: Store)
    requires Inv(s)
    ensures OneKeyPerSlot(s.index)
  {
  }

  lemma LiveEntry(s: Store, k: Key)
    requires Inv(s) && k in s.index
    ensures s.index[k].blockId < |s.files| && IsSlot(s.files[s.index[k].blockId], s.index[k].offset)
    ensures s.index[k].offset !in s.files[s.index[k].blockId].free
  {
    hide FilesOk, OneKeyPerSlot, ReadEntry, Crc32.Checksum;
    assert EntryOk(s.files[s.index[k].blockId], s.index[k]);
  }

  lemma LiveNotLost(s: Store, k: Key)
    requires k in s.index && s.index[k].blockId < |s.files|
    ensures s.index[k].offset !in Lost(s, s.index[k].blockId)
  {
    hide AllSlots;
    LiveHere(s, k);
  }

  // ---------- calls and runs ----------

  /** The call gives a slot back, and there is no room for it: what the guard in do_delete_block
      tests, before the call. */
  predicate MeetsFullStack(s: Store, op: Op)
    requires Ranged(s)
  {
    !op.Find? &&
    var k := FixKey(op.key);
    k in s.index && (op.Update? ==> |op.data| > ClassSize(s.index[k].blockId)) && |s.files[s.index[k].blockId].free| >= MAX_FREE_SLOTS
  }

  /** The slot such a call gives back, if it belongs to file `b`. */
  function LostBy(s: Store, op: Op, b: nat): set<nat>
    requires Ranged(s)
  {
    if MeetsFullStack(s, op) && s.index[FixKey(op.key)].blockId == b then {s.index[FixKey(op.key)].offset} else {}
  }

  /** What any call loses, upgrades and failing updates included. */
  lemma StepLoses(s: Store, op: Op, b: nat)
    requires Inv(s) && b < |s.files|
    ensures Ranged(s) && |Step(s, op).0.files| == |s.files|
    ensures Lost(Step(s, op).0, b) == Lost(s, b) + LostBy(s, op, b) && Lost(s, b) !! LostBy(s, op, b)
  {
    hide Inv, AppendBlock, ModifyBlock, DoDeleteBlock, ClassFor, ClassSize, FixKey, Lost;
    FileCount(s);
    StepCount(s, op);
    if !op.Find? {
      var k := FixKey(op.key);
      if k in s.index { DeleteLoses(s, k, b); }
      if op.Update? { UpdateLoses(s, op.key, op.data, b); }
    }
  }

  lemma StepCount(s: Store, op: Op)
    requires Inv(s)
    ensures Ranged(s) && |Step(s, op).0.files| == |s.files| && Inv(Step(s, op).0)
  {
    hide Inv, Abs, Step, MapStep;
    FileCount(s);
    StepRefines(s, op);
  }

  lemma UpdateLoses(s: Store, key: seq<byte>, data: seq<byte>, b: nat)
    requires Inv(s) && b < |s.files|
    ensures Ranged(s) && |UpdateBlock(s, key, data).0.files| == |s.files|
    ensures Lost(UpdateBlock(s, key, data).0, b) == Lost(s, b) + LostBy(s, Update(key, data), b)
  {
    hide Inv, AppendBlock, ModifyBlock, DoDeleteBlock, ClassFor, ClassSize, FixKey, Lost, Abs;
    FileCount(s);
    StepCount(s, Update(key, data));
    var k := FixKey(key);
    var a := ClassFor(|s.files|, |data|);
    if k in s.index {
      var iv := s.index[k];
      if |data| <= ClassSize(iv.blockId) {
        ModifyLosesNothing(s, k, data, b);
      } else {
        DeleteLoses(s, k, b);
        DeleteKeeps(s, k);
        AppendAnyLosesNothing(DoDeleteBlock(s, iv, k), a, k, data, b);
      }
    } else {
      AppendAnyLosesNothing(s, a, k, data, b);
    }
  }

  lemma AppendAnyLosesNothing(s: Store, a: int, k: Key, data: seq<byte>, b: nat)
    requires Inv(s) && k !in s.index && b < |s.files|
    ensures var s' := AppendBlock(s, a, k, data).0;
            |s'.files| == |s.files| && Lost(s', b) == Lost(s, b)
  {
    hide Inv, Lost, Take, WriteData, NextOffset, Crc32.Checksum, ClassSize;
    if 0 <= a < |s.files| && |data| <= ClassSize(a) {
      AppendLosesNothing(s, a, k, data, b);
    }
  }

  /** The slots of file `b` that the calls of a run gave back to a full stack. */
  function LostByRun(s: Store, ops: seq<Op>, b: nat): set<nat>
    requires Ranged(s)
    decreases |ops|
  {
    if ops == [] then {}
    else
      var (s1, r) := Step(s, ops[0]);
      if r == Crashed then LostBy(s, ops[0], b)
      else
        StepRanged(s, ops[0]);
        LostBy(s, ops[0], b) + LostByRun(s1, ops[1..], b)
  }

  /** Some call of the run met a full stack. */
  predicate FullStackMet(s: Store, ops: seq<Op>)
    requires Ranged(s)
    decreases |ops|
  {
    ops != [] &&
    (MeetsFullStack(s, ops[0]) ||
     (Step(s, ops[0]).1 != Crashed && (StepRanged(s, ops[0]); FullStackMet(Step(s, ops[0]).0, ops[1..]))))
  }

  /** Over every run the lost slots are those lost before and those given back to a full stack, and a
      lost slot is never seen again. */
  lemma {:induction false} RunLoses(s: Store, ops: seq<Op>, b: nat)
    requires Inv(s) && b < |s.files|
    ensures Ranged(s) && |Run(s, ops).0.files| == |s.files|
    ensures Lost(Run(s, ops).0, b) == Lost(s, b) + LostByRun(s, ops, b) && Lost(s, b) !! LostByRun(s, ops, b)
    decreases |ops|
  {
    hide Inv, Lost, LostBy, Step;
    FileCount(s);
    if ops != [] {
      StepLoses(s, ops[0], b);
      StepCount(s, ops[0]);
      if Step(s, ops[0]).1 != Crashed {
        RunLoses(Step(s, ops[0]).0, ops[1..], b);
      }
    }
  }

  lemma {:induction false} FullStackLoses(s: Store, ops: seq<Op>)
    requires Inv(s)
    ensures Ranged(s)
    ensures FullStackMet(s, ops) <==> exists b :: 0 <= b < |s.files| && LostByRun(s, ops, b) != {}
    decreases |ops|
  {
    hide Inv, Step, MeetsFullStack, LostBy;
    FileCount(s);
    if ops != [] {
      StepCount(s, ops[0]);
      LostByMeeting(s, ops[0]);
      if Step(s, ops[0]).1 != Crashed {
        FullStackLoses(Step(s, ops[0]).0, ops[1..]);
      }
      if FullStackMet(s, ops) {
        if MeetsFullStack(s, ops[0]) {
          var b: nat :| b < |s.files| && LostBy(s, ops[0], b) != {};
          assert LostByRun(s, ops, b) != {};
        } else {
          var b: nat :| b < |s.files| && LostByRun(Step(s, ops[0]).0, ops[1..], b) != {};
          assert LostByRun(s, ops, b) != {};
        }
      } else {
        forall b: nat | b < |s.files|
          ensures LostByRun(s, ops, b) == {}
        {
          assert LostBy(s, ops[0], b) == {};
          if Step(s, ops[0]).1 != Crashed { assert LostByRun(Step(s, ops[0]).0, ops[1..], b) == {}; }
        }
      }
    }
  }

  lemma LostByMeeting(s: Store, op: Op)
    requires Ranged(s)
    ensures MeetsFullStack(s, op) <==> exists b :: 0 <= b < |s.files| && LostBy(s, op, b) != {}
  {
    hide FixKey, ClassSize;
    if MeetsFullStack(s, op) {
      assert s.index[FixKey(op.key)].offset in LostBy(s, op, s.index[FixKey(op.key)].blockId);
    }
  }

  lemma FreshLostNothing(count: nat, b: nat)
    requires 0 < count <= MAX_BLOCK_CNT && b < count
    ensures |Fresh(count).files| == count && Lost(Fresh(count), b) == {}
  {
    hide Create, ClassSize;
    CreateEmpty(ClassSize(b));
    assert AllSlots(Fresh(count).files[b].blockSize, 0) == {};
  }

  lemma CreateEmpty(blockSize: nat)
    ensures Create(blockSize).blockCnt == 0 && Create(blockSize).free == []
  {
  }

  /** Beginning with an empty store: no slot is ever lost if and only if no delete or upgrade meets a
      full free stack, and then block_cnt is the number of keys stored in the file. */
  lemma NothingLostIff(count: nat, ops: seq<Op>)
    requires 0 < count <= MAX_BLOCK_CNT
    ensures Ranged(Fresh(count)) && |Run(Fresh(count), ops).0.files| == count
    ensures var s := Run(Fresh(count), ops).0;
            && ((forall b :: 0 <= b < count ==> Lost(s, b) == {}) <==> !FullStackMet(Fresh(count), ops))
            && ((forall b :: 0 <= b < count ==> s.files[b].blockCnt == |LiveKeys(s, b)|) <==> !FullStackMet(Fresh(count), ops))
  {
    hide Inv, Fresh, Lost, LostByRun, FullStackMet, Run, LiveKeys, AllSlots, FreeSlots, LiveSlots;
    FreshInv(count);
    FileCount(Fresh(count));
    FullStackLoses(Fresh(count), ops);
    RunRefines(Fresh(count), ops);
    var s := Run(Fresh(count), ops).0;
    forall b: nat | b < count
      ensures Lost(s, b) == LostByRun(Fresh(count), ops, b)
      ensures s.files[b].blockCnt == |LiveKeys(s, b)| + |Lost(s, b)|
    {
      FreshLostNothing(count, b);
      RunLoses(Fresh(count), ops, b);
      SlotPartition(s, b);
    }
    if FullStackMet(Fresh(count), ops) {
      var b: nat :| b < count && LostByRun(Fresh(count), ops, b) != {};
      assert Lost(s, b) != {} && s.files[b].blockCnt != |LiveKeys(s, b)|;
    } else {
      forall b: nat | b < count
        ensures Lost(s, b) == {}
      {
        assert LostByRun(Fresh(count), ops, b) == {};
      }
    }
  }

  // ---------- a run that loses a slot ----------

  /** As many keys as fill the free stack, and one more. */
  const MANY: nat := MAX_FREE_SLOTS + 1

  function KeyOf(i: nat): Key {
    Encode(i, KEY_LEN)
  }

  lemma KeysDiffer(i: nat, j: nat)
    requires i < MANY && j < MANY
    ensures FixKey(KeyOf(i)) == KeyOf(i)
    ensures KeyOf(i) == KeyOf(j) ==> i == j
  {
    hide Encode, Decode;
    LongRange();
    DecodeEncode(i, KEY_LEN);
    DecodeEncode(j, KEY_LEN);
  }

  lemma LongRange()
    ensures MANY < Range(KEY_LEN)
  {
    assert Range(4) == 0x1_0000_0000;
    assert Range(8) >= Range(4);
    assert Range(12) >= Range(8);
  }

  function FillAndDrain(i: nat): seq<Op>
    requires i <= MANY
    decreases MANY - i
  {
    if i == MANY then Drain(0) else [Update(KeyOf(i), [])] + FillAndDrain(i + 1)
  }

  function Drain(i: nat): seq<Op>
    requires i <= MANY
    decreases MANY - i
  {
    if i == MANY then [] else [Remove(KeyOf(i))] + Drain(i + 1)
  }

  ghost predicate Holds(s: Store, i: nat, n: nat) {
    forall j :: i <= j < n ==> KeyOf(j) in s.index && s.index[KeyOf(j)].blockId == 0
  }

  lemma DrainStep(s: Store, i: nat)
    requires Inv(s) && i < MAX_FREE_SLOTS && Holds(s, i, MANY) && |s.files[0].free| == i
    ensures Ranged(s)
    ensures var (s', r) := Step(s, Remove(KeyOf(i)));
            Inv(s') && r != Crashed && |s'.files| == |s.files| && Holds(s', i + 1, MANY) && |s'.files[0].free| == i + 1
  {
    hide Inv, Give, Encode, KeyOf;
    FileCount(s);
    StepCount(s, Remove(KeyOf(i)));
    forall j | i < j < MANY
      ensures KeyOf(j) != KeyOf(i)
    {
      KeysDiffer(i, j);
    }
    KeysDiffer(i, i);
    LiveEntry(s, KeyOf(i));
    LiveSlotCounted(s, KeyOf(i));
    ValidFile(s, 0);
    GiveKeeps(s.files[0], s.index[KeyOf(i)].offset);
  }

  lemma ValidFile(s: Store, b: nat)
    requires Inv(s) && b < |s.files|
    ensures Valid(s.files[b])
  {
    hide Valid;
  }

  lemma {:induction false} DrainMeetsFullStack(s: Store, i: nat)
    requires Inv(s) && i <= MAX_FREE_SLOTS && Holds(s, i, MANY) && |s.files[0].free| == i
    ensures Ranged(s) && FullStackMet(s, Drain(i))
    decreases MAX_FREE_SLOTS - i
  {
    hide Inv, Step, KeyOf;
    FileCount(s);
    KeysDiffer(i, i);
    var ops := Drain(i);
    assert ops[0] == Remove(KeyOf(i)) && ops[1..] == Drain(i + 1);
    if i < MAX_FREE_SLOTS {
      DrainStep(s, i);
      DrainMeetsFullStack(Step(s, Remove(KeyOf(i))).0, i + 1);
    } else {
      assert MeetsFullStack(s, ops[0]);
    }
  }

  lemma FillStep(s: Store, i: nat)
    requires Inv(s) && i < MANY && Holds(s, 0, i) && s.files[0].free == []
    requires forall j :: i <= j < MANY ==> KeyOf(j) !in s.index
    ensures Ranged(s)
    ensures var (s', r) := Step(s, Update(KeyOf(i), []));
            Inv(s') && r != Crashed && |s'.files| == |s.files| && Holds(s', 0, i + 1) && s'.files[0].free == []
            && forall j :: i < j < MANY ==> KeyOf(j) !in s'.index
  {
    hide Inv, KeyOf, Pwrite, NextOffset, ClassFor, Crc32.Checksum, SyncHeader, FixKey;
    FileCount(s);
    StepCount(s, Update(KeyOf(i), []));
    forall j | 0 <= j < MANY && j != i
      ensures KeyOf(j) != KeyOf(i)
    {
      KeysDiffer(i, j);
    }
    KeysDiffer(i, i);
    EmptyClass(|s.files|);
    TakeFromEmpty(s.files[0]);
  }

  lemma EmptyClass(count: nat)
    requires 0 < count <= MAX_BLOCK_CNT
    ensures ClassFor(count, 0) == 0 && ClassSize(0) == BEGINNING_SIZE
  {
    hide ClassFor;
    if count > 1 { ClassesGrow(0, count - 1); }
    LeastClassThatFits(count, 0);
  }

  lemma TakeFromEmpty(f: FileState)
    ensures f.free == [] ==> Take(f).free == []
  {
  }

  lemma {:induction false} FillMeetsFullStack(s: Store, i: nat)
    requires Inv(s) && i <= MANY && Holds(s, 0, i) && s.files[0].free == []
    requires forall j :: i <= j < MANY ==> KeyOf(j) !in s.index
    ensures Ranged(s) && FullStackMet(s, FillAndDrain(i))
    decreases MANY - i
  {
    hide Inv, Step, KeyOf, MeetsFullStack;
    FileCount(s);
    var ops := FillAndDrain(i);
    if i < MANY {
      FillStep(s, i);
      assert ops[0] == Update(KeyOf(i), []) && ops[1..] == FillAndDrain(i + 1);
      FillMeetsFullStack(Step(s, Update(KeyOf(i), [])).0, i + 1);
    } else {
      DrainMeetsFullStack(s, 0);
    }
  }

  /** Storing 100,001 empty values and deleting them all loses a slot, so the stack's bound is not
      just a formality. */
  lemma SlotLostExample(count: nat)
    requires 0 < count <= MAX_BLOCK_CNT
    ensures Ranged(Fresh(count)) && FullStackMet(Fresh(count), FillAndDrain(0))
    ensures |Run(Fresh(count), FillAndDrain(0)).0.files| == count
    ensures exists b :: 0 <= b < count && Lost(Run(Fresh(count), FillAndDrain(0)).0, b) != {}
  {
    hide Inv, FillAndDrain, FullStackMet, Run, Lost, KeyOf, Create, ClassSize;
    FreshInv(count);
    FileCount(Fresh(count));
    CreateEmpty(ClassSize(0));
    FillMeetsFullStack(Fresh(count), 0);
    NothingLostIff(count, FillAndDrain(0));
  }
}
