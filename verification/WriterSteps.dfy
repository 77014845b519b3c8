/** An update or a delete cut into the steps a reader can fall between. Each step is one access to
    shared state or one call on a file's lock; run back to back they are the whole operation. */
module WriterSteps {
  import opened Bytes
  import opened DataFile
  import opened StoreModel
  import opened StoreRuns
  import Crc32

  datatype Act =
    | LockFile(b: nat)
    | UnlockFile(b: nat)
    | TakeSlot(b: nat)               // pop or extend, and rewrite the header
    | WriteBytes(b: nat)             // pwrite of the value
    | Refresh                        // new checksum and size in the entry at hand
    | Record(op: OpType)             // index_logger_append
    | Insert                         // insert_record
    | Erase                          // del_record
    | ReleaseSlot(b: nat)            // push on the free stack, or leak
    | SyncHead(b: nat)               // header to disk, after the file lock was given up
    | SyncSlot(b: nat)               // the pushed offset to disk
    | SetRet(reply: Reply)           // ret = ...

  /** What a writer keeps in its own variables, `ret` included. */
  datatype Regs = Regs(key: Key, data: seq<byte>, iv: IndexValue, leaked: bool, reply: Reply)

  function Do(s: Store, r: Regs, act: Act): (Store, Regs) {
    match act
    case LockFile(_) => (s, r)
    case UnlockFile(_) => (s, r)
    case TakeSlot(b) =>
      if b < |s.files| then (s.(files := s.files[b := Take(s.files[b])]), r.(iv := NewEntry(s, b, r.data))) else (s, r)
    case WriteBytes(b) => (OnFile(s, b, WriteTo(s, b, r.data, r.iv.offset)), r)
    case Refresh => (s, r.(iv := r.iv.(crc32 := Crc32.Checksum(r.data), dataSize := |r.data|)))
    case Record(op) => (Log(s, op, r.key, r.iv), r)
    case Insert => (s.(index := s.index[r.key := r.iv]), r)
    case Erase => (s.(index := s.index - {r.key}), r)
    case ReleaseSlot(b) =>
      if b < |s.files|
      then (s.(files := s.files[b := Release(s.files[b], r.iv.offset)]), r.(leaked := |s.files[b].free| >= MAX_FREE_SLOTS))
      else (s, r)
    case SyncHead(b) => (if b < |s.files| && !r.leaked then s.(files := s.files[b := SyncHeader(s.files[b])]) else s, r)
    case SyncSlot(b) => (if b < |s.files| && !r.leaked && s.files[b].free != [] then s.(files := s.files[b := SyncTopSlot(s.files[b])]) else s, r)
    case SetRet(reply) => (s, r.(reply := reply))
  }

  function WriteTo(s: Store, b: nat, data: seq<byte>, offset: nat): FileState {
    if b < |s.files| then WriteData(s.files[b], data, offset) else FileState(0, 0, [], [])
  }

  function OnFile(s: Store, b: nat, f: FileState): Store {
    if b < |s.files| then s.(files := s.files[b := f]) else s
  }

  function Exec(s: Store, r: Regs, acts: seq<Act>): (Store, Regs)
    decreases |acts|
  {
    if acts == [] then (s, r)
    else var (s1, r1) := Do(s, r, acts[0]); Exec(s1, r1, acts[1..])
  }

  // ---------- the operations as step lists ----------

  function Appending(b: int): seq<Act> {
    if b < 0 then [] else [LockFile(b), TakeSlot(b), WriteBytes(b), UnlockFile(b), Record(IndexAppend), Insert]
  }

  function Modifying(b: nat): seq<Act> {
    [LockFile(b), WriteBytes(b), UnlockFile(b), Refresh, Record(IndexModify), Insert]
  }

  function Deleting(b: nat): seq<Act> {
    [Record(IndexDel), Erase, LockFile(b), ReleaseSlot(b), UnlockFile(b), SyncHead(b), SyncSlot(b)]
  }

  /** What the index look-up sends update_block or delete_block on to do. */
  function Program(s: Store, op: Op): seq<Act> {
    match op
    case Update(key, data) =>
      var k := FixKey(key);
      var b := ClassFor(|s.files|, |data|);
      if k !in s.index then Appending(b)
      else if |data| <= ClassSize(s.index[k].blockId) then Modifying(s.index[k].blockId)
      else Deleting(s.index[k].blockId) + (if b < 0 then [SetRet(Code(-3))] else Appending(b))
    case Remove(key) =>
      var k := FixKey(key);
      if k in s.index then Deleting(s.index[k].blockId) else [SetRet(NotFound)]
    case Find(_) => []
  }

  function StartRegs(s: Store, op: Op): Regs {
    var k := FixKey(op.key);
    Regs(k, if op.Update? then op.data else [], if k in s.index then s.index[k] else IndexValue(0, 0, 0, 0), false, Code(0))
  }

  // ---------- run back to back they are the operation ----------

  lemma {:induction false} ExecConcat(s: Store, r: Regs, a: seq<Act>, c: seq<Act>)
    ensures Exec(s, r, a + c) == Exec(Exec(s, r, a).0, Exec(s, r, a).1, c)
    decreases |a|
  {
    hide Do;
    if a == [] {
      assert a + c == c;
    } else {
      var (s1, r1) := Do(s, r, a[0]);
      assert (a + c)[1..] == a[1..] + c;
      ExecConcat(s1, r1, a[1..], c);
    }
  }

  function Then(p: (Store, Regs), act: Act): (Store, Regs) {
    Do(p.0, p.1, act)
  }

  lemma ExecThree(p: (Store, Regs), a: Act, b: Act, c: Act)
    ensures Exec(p.0, p.1, [a, b, c]) == Then(Then(Then(p, a), b), c)
  {
    hide Do;
    assert [a, b, c][1..] == [b, c];
    assert [b, c][1..] == [c];
    assert [c][1..] == [];
    var p1 := Then(p, a);
    var p2 := Then(p1, b);
    ExecCons(p.0, p.1, [a, b, c]);
    ExecCons(p1.0, p1.1, [b, c]);
    ExecCons(p2.0, p2.1, [c]);
  }

  lemma ExecCons(s: Store, r: Regs, acts: seq<Act>)
    requires acts != []
    ensures Exec(s, r, acts) == Exec(Do(s, r, acts[0]).0, Do(s, r, acts[0]).1, acts[1..])
  {
    hide Do;
  }

  lemma ExecNone(s: Store, r: Regs)
    ensures Exec(s, r, []) == (s, r)
  {
  }

  lemma ExecLast(p: (Store, Regs), a: Act)
    ensures Exec(p.0, p.1, [a]) == Then(p, a)
  {
    hide Do;
    assert [a][1..] == [];
  }

  /** Three acts and what follows them. */
  lemma ExecSplit(p: (Store, Regs), a: Act, b: Act, c: Act, rest: seq<Act>)
    ensures var q := Then(Then(Then(p, a), b), c);
            Exec(p.0, p.1, [a, b, c] + rest) == Exec(q.0, q.1, rest)
  {
    hide Exec, Do;
    ExecThree(p, a, b, c);
    ExecConcat(p.0, p.1, [a, b, c], rest);
  }

  lemma AppendSteps(s: Store, r: Regs, b: int)
    requires b < |s.files| && (b < 0 || |r.data| <= ClassSize(b))
    ensures Exec(s, r, Appending(b)).0 == if b < 0 then s else AppendBlock(s, b, r.key, r.data).0
    ensures Exec(s, r, Appending(b)).1.reply == r.reply
  {
    hide Exec, Do, Then, AppendBlock, Stored, NewEntry, ClassSize, Log;
    if b >= 0 {
      assert Appending(b) == [LockFile(b), TakeSlot(b), WriteBytes(b)] + [UnlockFile(b), Record(IndexAppend), Insert];
      ExecSplit((s, r), LockFile(b), TakeSlot(b), WriteBytes(b), [UnlockFile(b), Record(IndexAppend), Insert]);
      AppendHead(s, r, b);
      var p := (Stored(s, b, r.data), r.(iv := NewEntry(s, b, r.data)));
      ExecThree(p, UnlockFile(b), Record(IndexAppend), Insert);
      AppendTail(p.0, p.1, b);
      AppendIs(s, b, r.key, r.data);
    } else {
      ExecNone(s, r);
    }
  }

  /** The file part of an append: a slot taken and filled. */
  function Stored(s: Store, b: nat, data: seq<byte>): Store
    requires b < |s.files|
  {
    s.(files := s.files[b := WriteData(Take(s.files[b]), data, NextOffset(s.files[b]))])
  }

  lemma AppendIs(s: Store, b: nat, key: Key, data: seq<byte>)
    requires b < |s.files| && |data| <= ClassSize(b)
    ensures var iv := NewEntry(s, b, data); var s1 := Log(Stored(s, b, data), IndexAppend, key, iv);
            AppendBlock(s, b, key, data).0 == s1.(index := s1.index[key := iv])
  {
    hide Take, WriteData, NextOffset, ClassSize, Crc32.Checksum;
  }

  lemma AppendHead(s: Store, r: Regs, b: nat)
    requires b < |s.files|
    ensures Then(Then(Then((s, r), LockFile(b)), TakeSlot(b)), WriteBytes(b)) ==
              (Stored(s, b, r.data), r.(iv := NewEntry(s, b, r.data)))
  {
    hide Take, WriteData, NextOffset, Crc32.Checksum;
    var p := Then(Then((s, r), LockFile(b)), TakeSlot(b));
    assert p == (s.(files := s.files[b := Take(s.files[b])]), r.(iv := NewEntry(s, b, r.data)));
    var f := WriteData(Take(s.files[b]), r.data, NextOffset(s.files[b]));
    assert p.0.files[b := f] == s.files[b := f];
  }

  lemma AppendTail(s: Store, r: Regs, b: nat)
    ensures var s1 := Log(s, IndexAppend, r.key, r.iv);
            Then(Then(Then((s, r), UnlockFile(b)), Record(IndexAppend)), Insert) == (s1.(index := s1.index[r.key := r.iv]), r)
  {
    hide Crc32.Checksum, Take, WriteData, NextOffset;
  }

  lemma ModifySteps(s: Store, r: Regs)
    requires r.iv.blockId < |s.files| && |r.data| <= ClassSize(r.iv.blockId)
    ensures Exec(s, r, Modifying(r.iv.blockId)).0 == ModifyBlock(s, r.iv, r.key, r.data).0
    ensures Exec(s, r, Modifying(r.iv.blockId)).1.reply == r.reply
  {
    hide Exec, Do, Then, WriteData, ClassSize, Crc32.Checksum;
    var b := r.iv.blockId;
    assert Modifying(b) == [LockFile(b), WriteBytes(b), UnlockFile(b)] + [Refresh, Record(IndexModify), Insert];
    ExecSplit((s, r), LockFile(b), WriteBytes(b), UnlockFile(b), [Refresh, Record(IndexModify), Insert]);
    var s1 := s.(files := s.files[b := WriteData(s.files[b], r.data, r.iv.offset)]);
    ModifyHead(s, r);
    ExecThree((s1, r), Refresh, Record(IndexModify), Insert);
    ModifyTail(s1, r);
  }

  lemma ModifyHead(s: Store, r: Regs)
    requires r.iv.blockId < |s.files|
    ensures var b := r.iv.blockId;
            Then(Then(Then((s, r), LockFile(b)), WriteBytes(b)), UnlockFile(b)) ==
              (s.(files := s.files[b := WriteData(s.files[b], r.data, r.iv.offset)]), r)
  {
    hide Crc32.Checksum, Take, WriteData, NextOffset;
  }

  lemma ModifyTail(s: Store, r: Regs)
    ensures var iv := r.iv.(crc32 := Crc32.Checksum(r.data), dataSize := |r.data|);
            Then(Then(Then((s, r), Refresh), Record(IndexModify)), Insert) ==
              (Log(s, IndexModify, r.key, iv).(index := s.index[r.key := iv]), r.(iv := iv))
  {
    hide Crc32.Checksum, Take, WriteData, NextOffset;
  }

  lemma DeleteSteps(s: Store, r: Regs)
    requires r.iv.blockId < |s.files|
    ensures Exec(s, r, Deleting(r.iv.blockId)).0 == DoDeleteBlock(s, r.iv, r.key)
    ensures var r1 := Exec(s, r, Deleting(r.iv.blockId)).1; r1.key == r.key && r1.data == r.data && r1.reply == r.reply
  {
    hide Exec, Do, Give, Then, Log, DoDeleteBlock, Erased, Deleting;
    var b := r.iv.blockId;
    var tail := [ReleaseSlot(b), UnlockFile(b), SyncHead(b)] + [SyncSlot(b)];
    DeletingSplit(b);
    ExecSplit((s, r), Record(IndexDel), Erase, LockFile(b), tail);
    var s1 := Erased(s, r);
    DeleteHead(s, r);
    DeleteIs(s, r);
    ExecSplit((s1, r), ReleaseSlot(b), UnlockFile(b), SyncHead(b), [SyncSlot(b)]);
    var q := Then(Then(Then((s1, r), ReleaseSlot(b)), UnlockFile(b)), SyncHead(b));
    ExecLast(q, SyncSlot(b));
    DeleteTail(s1, r);
  }

  lemma DeletingSplit(b: nat)
    ensures Deleting(b) == [Record(IndexDel), Erase, LockFile(b)] + ([ReleaseSlot(b), UnlockFile(b), SyncHead(b)] + [SyncSlot(b)])
  {
  }

  function Erased(s: Store, r: Regs): Store {
    Log(s, IndexDel, r.key, r.iv).(index := s.index - {r.key})
  }

  lemma DeleteIs(s: Store, r: Regs)
    requires r.iv.blockId < |s.files|
    ensures Erased(s, r).files == s.files
    ensures DoDeleteBlock(s, r.iv, r.key) == Erased(s, r).(files := s.files[r.iv.blockId := Give(s.files[r.iv.blockId], r.iv.offset)])
  {
    hide Give;
  }

  lemma DeleteHead(s: Store, r: Regs)
    ensures Then(Then(Then((s, r), Record(IndexDel)), Erase), LockFile(r.iv.blockId)) ==
              (Erased(s, r), r)
  {
    hide Crc32.Checksum, Take, WriteData, NextOffset, Release, SyncHeader, SyncTopSlot;
  }

  lemma DeleteTail(s: Store, r: Regs)
    requires r.iv.blockId < |s.files|
    ensures var b := r.iv.blockId;
            var e := Then(Then(Then(Then((s, r), ReleaseSlot(b)), UnlockFile(b)), SyncHead(b)), SyncSlot(b));
            && e.0 == s.(files := s.files[b := Give(s.files[b], r.iv.offset)])
            && e.1.key == r.key && e.1.data == r.data && e.1.reply == r.reply
  {
    hide Crc32.Checksum, Take, WriteData, NextOffset, Release, SyncHeader, SyncTopSlot, Give;
    var b := r.iv.blockId;
    GiveSteps(s.files[b], r.iv.offset);
    var p := Then(Then((s, r), ReleaseSlot(b)), UnlockFile(b));
    assert p == (s.(files := s.files[b := Release(s.files[b], r.iv.offset)]), r.(leaked := |s.files[b].free| >= MAX_FREE_SLOTS));
    if |s.files[b].free| < MAX_FREE_SLOTS {
      var q := Then(p, SyncHead(b));
      assert p.0.files[b := SyncHeader(p.0.files[b])] == s.files[b := SyncHeader(p.0.files[b])];
      assert q == (s.(files := s.files[b := SyncHeader(Release(s.files[b], r.iv.offset))]), p.1);
    }
  }

  /** Releasing in memory and syncing later adds up to Give. */
  lemma GiveSteps(f: FileState, offset: nat)
    ensures |f.free| >= MAX_FREE_SLOTS ==> Release(f, offset) == f && Give(f, offset) == f
    ensures |f.free| < MAX_FREE_SLOTS ==>
              SyncHeader(Release(f, offset)).free != [] && SyncTopSlot(SyncHeader(Release(f, offset))) == Give(f, offset)
  {
    hide Pwrite, Header;
  }

  /** The operation does not reach the assert in append_block. */
  predicate Survives(count: nat, op: Op) {
    op.Update? ==> !Wraps(count, |op.data|)
  }

  /** The step list does to the store what the operation does, and ends with its reply. */
  lemma ProgramIsStep(s: Store, op: Op)
    requires Inv(s) && Survives(|s.files|, op) && !op.Find?
    ensures Ranged(s) && Exec(s, StartRegs(s, op), Program(s, op)).0 == Step(s, op).0
    ensures Exec(s, StartRegs(s, op), Program(s, op)).1.reply == Step(s, op).1
  {
    hide Exec, AppendBlock, ModifyBlock, DoDeleteBlock, Appending, Modifying, Deleting, ClassSize, ClassFor, Inv;
    FileCount(s);
    var r := StartRegs(s, op);
    match op {
      case Update(key, data) =>
        var k := FixKey(key);
        var b := ClassFor(|s.files|, |data|);
        ClassFits(|s.files|, |data|);
        if k !in s.index {
          AppendSteps(s, r, b);
          AppendAnswers(s, b, k, data);
        } else if |data| <= ClassSize(s.index[k].blockId) {
          ModifySteps(s, r);
          ModifyAnswers(s, s.index[k], k, data);
        } else {
          UpgradeSteps(s, r, b);
          SameFileCount(s, k, b, data);
          AppendAnswers(DoDeleteBlock(s, s.index[k], k), b, k, data);
        }
      case Remove(key) =>
        if FixKey(key) in s.index {
          DeleteSteps(s, r);
        } else {
          ExecLast((s, r), SetRet(NotFound));
        }
    }
  }

  lemma UpgradeSteps(s: Store, r: Regs, b: int)
    requires Ranged(s) && r.iv.blockId < |s.files| && b < |s.files| && (b < 0 || |r.data| <= ClassSize(b))
    ensures var s1 := DoDeleteBlock(s, r.iv, r.key);
            var e := Exec(s, r, Deleting(r.iv.blockId) + (if b < 0 then [SetRet(Code(-3))] else Appending(b)));
            && |s1.files| == |s.files|
            && e.0 == (if b < 0 then s1 else AppendBlock(s1, b, r.key, r.data).0)
            && e.1.reply == (if b < 0 then Code(-3) else r.reply)
  {
    hide Exec, AppendBlock, Appending, Deleting, ClassSize, Give;
    var (s1, r1) := Exec(s, r, Deleting(r.iv.blockId));
    DeleteSteps(s, r);
    if b < 0 {
      ExecConcat(s, r, Deleting(r.iv.blockId), [SetRet(Code(-3))]);
      ExecLast((s1, r1), SetRet(Code(-3)));
    } else {
      ExecConcat(s, r, Deleting(r.iv.blockId), Appending(b));
      AppendSteps(s1, r1, b);
    }
  }

  lemma AppendAnswers(s: Store, b: int, k: Key, data: seq<byte>)
    requires b < |s.files| && (b < 0 || |data| <= ClassSize(b))
    ensures AppendBlock(s, b, k, data).1 == if b < 0 then Code(-1) else Code(0)
    ensures b < 0 ==> AppendBlock(s, b, k, data).0 == s
  {
    hide Take, WriteData, NextOffset, Crc32.Checksum, ClassSize;
  }

  lemma ModifyAnswers(s: Store, iv: IndexValue, k: Key, data: seq<byte>)
    requires iv.blockId < |s.files| && |data| <= ClassSize(iv.blockId)
    ensures ModifyBlock(s, iv, k, data).1 == Code(0)
  {
    hide WriteData, Crc32.Checksum, ClassSize;
  }

  /** An operation dies exactly when it does not survive. */
  lemma SurvivesIff(s: Store, op: Op)
    requires Inv(s)
    ensures Ranged(s)
    ensures Step(s, op).1 != Crashed <==> Survives(|s.files|, op)
  {
    hide Step, Abs, Wraps;
    FileCount(s);
    StepRefines(s, op);
    if op.Update? { WrapsAbove(|s.files|, |op.data|); }
  }

  lemma WrapsAbove(count: nat, size: nat)
    ensures Wraps(count, size) ==> count > 0 && size > ClassSize(count - 1)
  {
  }

  lemma ClassFits(count: nat, size: nat)
    requires 0 < count <= MAX_BLOCK_CNT && !Wraps(count, size)
    ensures ClassFor(count, size) < count
    ensures ClassFor(count, size) < 0 || size <= ClassSize(ClassFor(count, size))
  {
    hide ClassFor, ClassSize;
    if size <= ClassSize(count - 1) { LeastClassThatFits(count, size); } else { NoClassAboveLargest(count, size); }
  }

  // ---------- lock discipline and what a reader can notice ----------

  /** One file lock at a time, and a file's slots and data change only under its lock. */
  predicate Fits(act: Act, held: Option<nat>, n: nat) {
    match act
    case LockFile(b) => held.None? && b < n
    case UnlockFile(b) => held == Some(b)
    case TakeSlot(b) => held == Some(b)
    case WriteBytes(b) => held == Some(b)
    case ReleaseSlot(b) => held == Some(b)
    case _ => true
  }

  function HeldAfter(act: Act, held: Option<nat>): Option<nat> {
    match act
    case LockFile(b) => Some(b)
    case UnlockFile(_) => None
    case _ => held
  }

  predicate WellLocked(acts: seq<Act>, held: Option<nat>, n: nat)
    decreases |acts|
  {
    if acts == [] then held.None?
    else Fits(acts[0], held, n) && WellLocked(acts[1..], HeldAfter(acts[0], held), n)
  }

  lemma {:induction false} WellLockedConcat(a: seq<Act>, c: seq<Act>, held: Option<nat>, n: nat)
    requires WellLocked(a, held, n) && WellLocked(c, None, n)
    ensures WellLocked(a + c, held, n)
    decreases |a|
  {
    if a == [] {
      assert a + c == c;
    } else {
      assert (a + c)[1..] == a[1..] + c;
      WellLockedConcat(a[1..], c, HeldAfter(a[0], held), n);
    }
  }

  lemma PartsWellLocked(b: nat, n: nat)
    requires b < n
    ensures WellLocked(Appending(b), None, n) && WellLocked(Modifying(b), None, n) && WellLocked(Deleting(b), None, n)
  {
    hide WellLocked;
    ThreeThree(LockFile(b), TakeSlot(b), WriteBytes(b), UnlockFile(b), Record(IndexAppend), Insert, None, n);
    ThreeThree(LockFile(b), WriteBytes(b), UnlockFile(b), Refresh, Record(IndexModify), Insert, None, n);
    ThreeThree(Erase, LockFile(b), ReleaseSlot(b), UnlockFile(b), SyncHead(b), SyncSlot(b), None, n);
    var d := [Record(IndexDel)] + [Erase, LockFile(b), ReleaseSlot(b), UnlockFile(b), SyncHead(b), SyncSlot(b)];
    WellLockedStep(d, None, n);
    assert d == Deleting(b);
  }

  lemma WellLockedStep(acts: seq<Act>, held: Option<nat>, n: nat)
    requires acts != []
    ensures WellLocked(acts, held, n) == (Fits(acts[0], held, n) && WellLocked(acts[1..], HeldAfter(acts[0], held), n))
  {
  }

  lemma Three(a: Act, b: Act, c: Act, rest: seq<Act>, held: Option<nat>, n: nat)
    requires Fits(a, held, n) && Fits(b, HeldAfter(a, held), n) && Fits(c, HeldAfter(b, HeldAfter(a, held)), n)
    requires WellLocked(rest, HeldAfter(c, HeldAfter(b, HeldAfter(a, held))), n)
    ensures WellLocked([a, b, c] + rest, held, n)
  {
    hide WellLocked, Fits, HeldAfter;
    var s := [a, b, c] + rest;
    assert s[1..] == [b, c] + rest && s[1..][1..] == [c] + rest && s[1..][1..][1..] == rest;
    WellLockedStep(s, held, n);
    WellLockedStep(s[1..], HeldAfter(a, held), n);
    WellLockedStep(s[1..][1..], HeldAfter(b, HeldAfter(a, held)), n);
  }

  lemma ThreeThree(a: Act, b: Act, c: Act, d: Act, e: Act, f: Act, held: Option<nat>, n: nat)
    requires Fits(a, held, n) && Fits(b, HeldAfter(a, held), n) && Fits(c, HeldAfter(b, HeldAfter(a, held)), n)
    requires var h := HeldAfter(c, HeldAfter(b, HeldAfter(a, held)));
             Fits(d, h, n) && Fits(e, HeldAfter(d, h), n) && Fits(f, HeldAfter(e, HeldAfter(d, h)), n) && HeldAfter(f, HeldAfter(e, HeldAfter(d, h))).None?
    ensures WellLocked([a, b, c, d, e, f], held, n)
  {
    hide WellLocked, Fits, HeldAfter;
    NoActs(n);
    Three(d, e, f, [], HeldAfter(c, HeldAfter(b, HeldAfter(a, held))), n);
    assert [d, e, f] + [] == [d, e, f];
    Three(a, b, c, [d, e, f], held, n);
    assert [a, b, c] + [d, e, f] == [a, b, c, d, e, f];
  }

  lemma ProgramWellLocked(s: Store, op: Op)
    requires Inv(s) && Survives(|s.files|, op)
    ensures WellLocked(Program(s, op), None, |s.files|)
  {
    hide WellLocked, Appending, Modifying, Deleting, ClassFor, ClassSize;
    FileCount(s);
    var n := |s.files|;
    assert WellLocked([], None, n) by { NoActs(n); }
    if op.Update? {
      ClassFits(n, |op.data|);
      var b := ClassFor(n, |op.data|);
      if b >= 0 { PartsWellLocked(b, n); } else { NoAppend(b); }
      var k := FixKey(op.key);
      if k in s.index {
        PartsWellLocked(s.index[k].blockId, n);
        SetRetWellLocked(Code(-3), n);
        WellLockedConcat(Deleting(s.index[k].blockId), if b < 0 then [SetRet(Code(-3))] else Appending(b), None, n);
      }
    } else if op.Remove? {
      SetRetWellLocked(NotFound, n);
      if FixKey(op.key) in s.index { PartsWellLocked(s.index[FixKey(op.key)].blockId, n); }
    }
  }

  lemma SetRetWellLocked(reply: Reply, n: nat)
    ensures WellLocked([SetRet(reply)], None, n)
  {
    assert [SetRet(reply)][1..] == [];
  }

  lemma NoActs(n: nat)
    ensures WellLocked([], None, n)
  {
  }

  lemma NoAppend(b: int)
    ensures b < 0 ==> Appending(b) == []
  {
  }

  /** Enough of the file layout to tell headers from data in the middle of an operation. */
  ghost predicate LaidOut(s: Store) {
    forall b :: 0 <= b < |s.files| ==> FileLaidOut(s.files[b])
  }

  ghost predicate FileLaidOut(f: FileState) {
    |f.disk| >= DATA_SECTION_POS && |f.free| <= MAX_FREE_SLOTS
  }

  lemma StoreLaidOut(s: Store)
    requires Inv(s)
    ensures LaidOut(s)
  {
    hide EntriesOk, OneKeyPerSlot, IsSlot, HeaderOnDisk, Distinct;
  }

  /** Acts other than a data write change at most the header section of one file. */
  lemma FileActs(f: FileState, data: seq<byte>, offset: nat)
    requires FileLaidOut(f)
    ensures FileLaidOut(Take(f)) && SameData(f, Take(f))
    ensures FileLaidOut(Release(f, offset)) && SameData(f, Release(f, offset))
    ensures FileLaidOut(SyncHeader(f)) && SameData(f, SyncHeader(f))
    ensures f.free != [] ==> FileLaidOut(SyncTopSlot(f)) && SameData(f, SyncTopSlot(f))
    ensures FileLaidOut(WriteData(f, data, offset))
  {
    hide Encode, Header;
    HeaderWrite(f);
    var g := if f.free != [] then f.(free := f.free[..|f.free| - 1], blockCnt := f.blockCnt + 1) else f.(blockCnt := f.blockCnt + 1);
    HeaderWrite(g);
    if f.free != [] { SlotWrite(f); }
  }

  ghost predicate SameData(f: FileState, g: FileState) {
    |f.disk| == |g.disk| >= DATA_SECTION_POS && f.disk[DATA_SECTION_POS..] == g.disk[DATA_SECTION_POS..]
  }

  lemma HeaderWrite(f: FileState)
    requires |f.disk| >= DATA_SECTION_POS
    ensures SameData(f, SyncHeader(f)) && SyncHeader(f).free == f.free
  {
    hide Encode, Header;
    assert |Header(f)| == SLOTS_SECTION_POS;
    assert SyncHeader(f).disk[DATA_SECTION_POS..] == f.disk[DATA_SECTION_POS..];
  }

  lemma SlotWrite(f: FileState)
    requires FileLaidOut(f) && f.free != []
    ensures SameData(f, SyncTopSlot(f))
  {
    hide Encode;
    assert SyncTopSlot(f).disk[DATA_SECTION_POS..] == f.disk[DATA_SECTION_POS..];
  }

  lemma DoKeepsLayout(s: Store, r: Regs, act: Act)
    requires LaidOut(s)
    ensures LaidOut(Do(s, r, act).0) && |Do(s, r, act).0.files| == |s.files|
  {
    hide FileLaidOut, Take, Release, SyncHeader, SyncTopSlot, WriteData, Crc32.Checksum, NextOffset, Log;
    LogFiles(s, r, act);
    match act
    case TakeSlot(b) => if b < |s.files| { FileActs(s.files[b], [], 0); }
    case WriteBytes(b) => if b < |s.files| { FileActs(s.files[b], r.data, r.iv.offset); }
    case ReleaseSlot(b) => if b < |s.files| { FileActs(s.files[b], [], r.iv.offset); }
    case SyncHead(b) => if b < |s.files| { FileActs(s.files[b], [], 0); }
    case SyncSlot(b) => if b < |s.files| { FileActs(s.files[b], [], 0); }
    case _ =>
  }

  lemma LogFiles(s: Store, r: Regs, act: Act)
    ensures act.Record? ==> Log(s, act.op, r.key, r.iv).files == s.files
  {
  }

  /** A reader that looked an entry up goes on reading the same bytes through every act except a
      data write to that very file. */
  lemma DoLeavesEntry(s: Store, r: Regs, act: Act, iv: IndexValue)
    requires LaidOut(s) && iv.blockId < |s.files| && iv.offset >= DATA_SECTION_POS && act != WriteBytes(iv.blockId)
    ensures |Do(s, r, act).0.files| == |s.files|
    ensures ReadEntry(Do(s, r, act).0.files[iv.blockId], iv) == ReadEntry(s.files[iv.blockId], iv)
  {
    hide ReadEntry, Take, Release, SyncHeader, SyncTopSlot, WriteData, Crc32.Checksum, NextOffset, Log, SameData;
    LogFiles(s, r, act);
    var b := iv.blockId;
    var f := s.files[b];
    var g := Do(s, r, act).0.files[b];
    FileActs(f, r.data, r.iv.offset);
    if g != f {
      SameDataReads(f, g, iv);
    }
  }

  lemma SameDataReads(f: FileState, g: FileState, iv: IndexValue)
    requires SameData(f, g) && iv.offset >= DATA_SECTION_POS
    ensures ReadEntry(f, iv) == ReadEntry(g, iv)
  {
    SameDataSection(f, g, iv);
  }
}
