/** Finders, updaters and deleters running side by side over the index lock and one lock per data
    file. Every interleaving of their steps is a run; each step touches one lock or one piece of
    shared state.

    `contents`, `history`, `begun` and `returned` are not part of the running program. `contents` is
    the map that the calls, taken one at a time in the order of their index look-ups, would have
    produced; `history` says what that map answers to each; `begun` lists the calls as they begin
    and `returned` what was answered, both with the length of the history at that moment. */
module ConcurrentStore {
  import opened Bytes
  import opened DataFile
  import opened StoreModel
  import opened StoreRuns
  import opened WriterSteps
  import Crc32
  import RwLock

  type Tid = RwLock.Tid

  /** Where a thread is in find_block, update_block or delete_block, with its local variables.
      `id` is the place of the call in `begun`, `at` its place in `history`. */
  datatype Local =
    | AtRest
    | Entering(id: nat, op: Op)                   // asking for the index lock, or holding it before the look-up
    | Hit(at: nat, iv: IndexValue)                // find: index lock held, entry found
    | Locking(at: nat, iv: IndexValue)            // find: asking for the file lock, index lock still held
    | Holding(at: nat, iv: IndexValue)            // find: file lock held, index lock given up
    | Got(at: nat, b: nat, reply: Reply)          // find: pread done
    | Missed(at: nat)                             // find: not in the index
    | Running(at: nat, regs: Regs, rest: seq<Act>, held: Option<nat>, asked: bool)

  datatype Begun = Begun(t: Tid, op: Op, when: nat)

  datatype Entry = Entry(id: nat, t: Tid, op: Op, reply: Reply)

  datatype Return = Return(t: Tid, at: nat, when: nat, reply: Reply)

  datatype System = System(index: RwLock.State, files: seq<RwLock.State>, store: Store, locals: map<Tid, Local>,
                           contents: Contents, history: seq<Entry>, begun: seq<Begun>, returned: seq<Return>)

  datatype Move =
    | Start(op: Op)
    | IndexAgain(e: RwLock.Event)
    | FileAgain(b: nat, e: RwLock.Event)
    | Lookup
    | AskFile
    | ReadBytes
    | LeaveIndex
    | LeaveFile
    | Go

  datatype Stance = Out | WaitsR | HasR | WaitsW | HasW

  function StanceOf(p: RwLock.Phase): Stance {
    match p
    case Idle => Out
    case ReadWait(_) => WaitsR
    case Reading => HasR
    case WriteWait(_) => WaitsW
    case Writing => HasW
  }

  function At(l: RwLock.State, t: Tid): Stance {
    if t in l.phase then StanceOf(l.phase[t]) else Out
  }

  // ---------- the moves ----------

  predicate Again(e: RwLock.Event) {
    e.ReadRetry? || e.WriteRetry? || e.Spurious?
  }

  function AskEvent(op: Op): RwLock.Event {
    if op.Find? then RwLock.ReadLock else RwLock.WriteLock
  }

  predicate CanFile(s: System, t: Tid, b: nat, e: RwLock.Event) {
    b < |s.files| && RwLock.Enabled(s.files[b], t, e)
  }

  ghost predicate CanMove(s: System, t: Tid, m: Move) {
    t in s.locals &&
    var l := s.locals[t];
    match m
    case Start(op) => l.AtRest? && Survives(|s.files|, op) && RwLock.Enabled(s.index, t, AskEvent(op))
    case IndexAgain(e) => Again(e) && RwLock.Enabled(s.index, t, e)
    case FileAgain(b, e) => Again(e) && CanFile(s, t, b, e)
    case Lookup =>
      l.Entering? && At(s.index, t) == (if l.op.Find? then HasR else HasW) && |s.store.files| > 0 && Ranged(s.store)
    case AskFile =>
      (l.Hit? && CanFile(s, t, l.iv.blockId, RwLock.ReadLock)) ||
      (l.Running? && l.rest != [] && l.rest[0].LockFile? && !l.asked && CanFile(s, t, l.rest[0].b, RwLock.WriteLock))
    case ReadBytes =>
      l.Holding? && l.iv.blockId < |s.store.files|
    case LeaveIndex =>
      (l.Locking? && l.iv.blockId < |s.files| && At(s.files[l.iv.blockId], t) == HasR && RwLock.Enabled(s.index, t, RwLock.ReadUnlock)) ||
      (l.Missed? && RwLock.Enabled(s.index, t, RwLock.ReadUnlock)) ||
      (l.Running? && l.rest == [] && RwLock.Enabled(s.index, t, RwLock.WriteUnlock))
    case LeaveFile =>
      (l.Got? && CanFile(s, t, l.b, RwLock.ReadUnlock)) ||
      (l.Running? && l.rest != [] && l.rest[0].UnlockFile? && CanFile(s, t, l.rest[0].b, RwLock.WriteUnlock))
    case Go =>
      l.Running? && l.rest != [] && !l.rest[0].UnlockFile? &&
      (l.rest[0].LockFile? ==> l.asked && l.rest[0].b < |s.files| && At(s.files[l.rest[0].b], t) == HasW)
  }

  function IndexMove(s: System, t: Tid, e: RwLock.Event, l: Local): System
    requires RwLock.Enabled(s.index, t, e)
  {
    s.(index := RwLock.Apply(s.index, t, e), locals := s.locals[t := l])
  }

  function FileMove(s: System, t: Tid, b: nat, e: RwLock.Event, l: Local): System
    requires CanFile(s, t, b, e)
  {
    s.(files := s.files[b := RwLock.Apply(s.files[b], t, e)], locals := s.locals[t := l])
  }

  function LookedUp(s: System, t: Tid, op: Op): Local
    requires Ranged(s.store)
  {
    var at := |s.history|;
    if op.Find? then
      var k := FixKey(op.key);
      if k in s.store.index then Hit(at, s.store.index[k]) else Missed(at)
    else Running(at, StartRegs(s.store, op), Program(s.store, op), None, false)
  }

  /** The act at the head of a writer's list is behind it. */
  function Advanced(l: Local, regs: Regs): Local
    requires l.Running? && l.rest != []
  {
    Running(l.at, regs, l.rest[1..], HeldAfter(l.rest[0], l.held), false)
  }

  function Answer(s: System, t: Tid, at: nat, reply: Reply): System {
    s.(returned := s.returned + [Return(t, at, |s.history|, reply)])
  }

  function Begin(s: System, t: Tid, op: Op): System {
    s.(begun := s.begun + [Begun(t, op, |s.history|)])
  }

  function PreadReply(s: Store, iv: IndexValue): Reply
    requires iv.blockId < |s.files|
  {
    match ReadEntry(s.files[iv.blockId], iv)
    case Some(data) => Found(data)
    case None => Code(-1)
  }

  ghost function Next(s: System, t: Tid, m: Move): System
    requires CanMove(s, t, m)
  {
    var l := s.locals[t];
    match m
    case Start(op) => Begin(IndexMove(s, t, AskEvent(op), Entering(|s.begun|, op)), t, op)
    case IndexAgain(e) => IndexMove(s, t, e, l)
    case FileAgain(b, e) => FileMove(s, t, b, e, l)
    case Lookup =>
      var (m', reply) := MapStep(s.contents, |s.store.files|, l.op);
      s.(locals := s.locals[t := LookedUp(s, t, l.op)], contents := m', history := s.history + [Entry(l.id, t, l.op, reply)])
    case AskFile =>
      if l.Hit? then FileMove(s, t, l.iv.blockId, RwLock.ReadLock, Locking(l.at, l.iv))
      else FileMove(s, t, l.rest[0].b, RwLock.WriteLock, l.(asked := true))
    case ReadBytes => s.(locals := s.locals[t := Got(l.at, l.iv.blockId, PreadReply(s.store, l.iv))])
    case LeaveIndex =>
      if l.Locking? then IndexMove(s, t, RwLock.ReadUnlock, Holding(l.at, l.iv))
      else if l.Missed? then Answer(IndexMove(s, t, RwLock.ReadUnlock, AtRest), t, l.at, NotFound)
      else Answer(IndexMove(s, t, RwLock.WriteUnlock, AtRest), t, l.at, l.regs.reply)
    case LeaveFile =>
      if l.Got? then Answer(FileMove(s, t, l.b, RwLock.ReadUnlock, AtRest), t, l.at, l.reply)
      else FileMove(s, t, l.rest[0].b, RwLock.WriteUnlock, Advanced(l, l.regs))
    case Go =>
      var (store, regs) := Do(s.store, l.regs, l.rest[0]);
      s.(store := store, locals := s.locals[t := Advanced(l, regs)])
  }

  // ---------- what every reachable state keeps ----------

  ghost predicate LocksOk(s: System) {
    && RwLock.Inv(s.index) && s.index.phase.Keys == s.locals.Keys
    && |s.files| == |s.store.files| > 0
    && forall b :: 0 <= b < |s.files| ==> RwLock.Inv(s.files[b]) && s.files[b].phase.Keys == s.locals.Keys
  }

  ghost predicate NoFile(s: System, t: Tid) {
    forall b :: 0 <= b < |s.files| ==> At(s.files[b], t) == Out
  }

  ghost predicate NoFileBut(s: System, t: Tid, c: nat) {
    c < |s.files| && forall b :: 0 <= b < |s.files| && b != c ==> At(s.files[b], t) == Out
  }

  /** Which locks a thread holds or waits for, by where it is: the index lock first, then at most
      one file lock. */
  ghost predicate StanceOk(s: System, t: Tid)
    requires t in s.locals
  {
    var i := At(s.index, t);
    match s.locals[t]
    case AtRest => i == Out && NoFile(s, t)
    case Entering(_, op) => Survives(|s.files|, op) && (if op.Find? then i == WaitsR || i == HasR else i == WaitsW || i == HasW) && NoFile(s, t)
    case Hit(_, iv) => i == HasR && NoFile(s, t) && iv.blockId < |s.files|
    case Locking(_, iv) => i == HasR && NoFileBut(s, t, iv.blockId) && (At(s.files[iv.blockId], t) == WaitsR || At(s.files[iv.blockId], t) == HasR)
    case Holding(_, iv) => i == Out && NoFileBut(s, t, iv.blockId) && At(s.files[iv.blockId], t) == HasR
    case Got(_, b, _) => i == Out && NoFileBut(s, t, b) && At(s.files[b], t) == HasR
    case Missed(_) => i == HasR && NoFile(s, t)
    case Running(_, _, rest, held, asked) =>
      && i == HasW && WellLocked(rest, held, |s.files|)
      && match held
         case Some(b) => !asked && NoFileBut(s, t, b) && At(s.files[b], t) == HasW
         case None =>
           if !asked then NoFile(s, t)
           else rest != [] && rest[0].LockFile? && NoFileBut(s, t, rest[0].b) && (At(s.files[rest[0].b], t) == WaitsW || At(s.files[rest[0].b], t) == HasW)
  }

  /** The entry a finder carries still reads as the bytes its call is to return. */
  ghost predicate Reads(s: System, at: nat, iv: IndexValue) {
    && iv.blockId < |s.store.files| && iv.offset >= DATA_SECTION_POS
    && ReadEntry(s.store.files[iv.blockId], iv).Some?
    && at < |s.history| && s.history[at].reply == Found(ReadEntry(s.store.files[iv.blockId], iv).value)
  }

  ghost predicate Owed(s: System, t: Tid, at: nat, reply: Reply) {
    at < |s.history| && s.history[at].t == t && s.history[at].reply == reply
  }

  /** What a thread knows is what its call is to answer. */
  ghost predicate KnowsOk(s: System, t: Tid)
    requires t in s.locals
  {
    match s.locals[t]
    case AtRest => true
    case Entering(_, _) => true
    case Hit(at, iv) => Reads(s, at, iv) && s.history[at].t == t
    case Locking(at, iv) => Reads(s, at, iv) && s.history[at].t == t
    case Holding(at, iv) => Reads(s, at, iv) && s.history[at].t == t
    case Got(at, _, reply) => Owed(s, t, at, reply)
    case Missed(at) => Owed(s, t, at, NotFound)
    case Running(at, regs, rest, _, _) => Owed(s, t, at, Exec(s.store, regs, rest).1.reply)
  }

  ghost predicate SettledTo(store: Store, m: Contents, n: nat) {
    StoreModel.Inv(store) && Abs(store) == m && |store.files| == n
  }

  /** When no writer is at work the store stands for the map; when one is, the store it is going to
      leave behind does. */
  ghost predicate SettledOk(s: System) {
    && (forall t :: t in s.locals && s.locals[t].Running? ==>
          SettledTo(Exec(s.store, s.locals[t].regs, s.locals[t].rest).0, s.contents, |s.files|))
    && ((forall t :: t in s.locals ==> !s.locals[t].Running?) ==> SettledTo(s.store, s.contents, |s.files|))
  }

  function After(m: Contents, n: nat, history: seq<Entry>): Contents
    requires n > 0
    decreases |history|
  {
    if history == [] then m else MapStep(After(m, n, history[..|history| - 1]), n, history[|history| - 1].op).0
  }

  /** The history is a run of the map, one call at a time, from `m`. */
  ghost predicate Legal(m: Contents, n: nat, history: seq<Entry>)
    requires n > 0
  {
    forall i :: 0 <= i < |history| ==> history[i].reply == MapStep(After(m, n, history[..i]), n, history[i].op).1
  }

  ghost predicate HistoryOk(s: System, m: Contents) {
    && |s.files| > 0
    && Legal(m, |s.files|, s.history)
    && s.contents == After(m, |s.files|, s.history)
    && forall i :: 0 <= i < |s.returned| ==> Owed(s, s.returned[i].t, s.returned[i].at, s.returned[i].reply)
  }

  ghost predicate ThreadsOk(s: System) {
    forall t :: t in s.locals ==> StanceOk(s, t) && KnowsOk(s, t)
  }

  ghost predicate Inv(s: System, m: Contents) {
    LocksOk(s) && ThreadsOk(s) && LaidOut(s.store) && SettledOk(s) && HistoryOk(s, m)
  }

  // ---------- locks ----------

  /** A lock step moves one thread's stance and nobody else's. */
  lemma OthersStay(l: RwLock.State, t: Tid, e: RwLock.Event, u: Tid)
    requires RwLock.Enabled(l, t, e) && u != t
    ensures At(RwLock.Apply(l, t, e), u) == At(l, u)
  {
  }

  lemma OwnStance(l: RwLock.State, t: Tid, e: RwLock.Event)
    requires RwLock.Enabled(l, t, e)
    ensures var a := At(RwLock.Apply(l, t, e), t);
            match e
            case ReadLock => At(l, t) == Out && (a == WaitsR || a == HasR)
            case ReadRetry => At(l, t) == WaitsR && (a == WaitsR || a == HasR)
            case ReadUnlock => At(l, t) == HasR && a == Out
            case WriteLock => At(l, t) == Out && (a == WaitsW || a == HasW)
            case WriteRetry => At(l, t) == WaitsW && (a == WaitsW || a == HasW)
            case WriteUnlock => At(l, t) == HasW && a == Out
            case Spurious => a == At(l, t) && (a == WaitsR || a == WaitsW)
  {
  }

  /** Nobody shares a lock with its writer. */
  lemma WriterAlone(l: RwLock.State, t: Tid, u: Tid)
    requires RwLock.Inv(l) && At(l, t) == HasW && (At(l, u) == HasR || At(l, u) == HasW)
    ensures t == u
  {
  }

  lemma OnlyOneRuns(s: System, t: Tid, u: Tid)
    requires LocksOk(s) && ThreadsOk(s) && t in s.locals && u in s.locals
    requires s.locals[t].Running? && (At(s.index, u) == HasR || At(s.index, u) == HasW)
    ensures t == u
  {
    assert StanceOk(s, t);
    WriterAlone(s.index, t, u);
  }

  lemma IndexMoveLocks(s: System, t: Tid, e: RwLock.Event, l: Local)
    requires LocksOk(s) && t in s.locals && RwLock.Enabled(s.index, t, e)
    ensures LocksOk(IndexMove(s, t, e, l))
  {
    hide RwLock.Inv, RwLock.Apply, RwLock.Enabled;
    RwLock.StepInv(s.index, t, e);
  }

  lemma FileMoveLocks(s: System, t: Tid, b: nat, e: RwLock.Event, l: Local)
    requires LocksOk(s) && t in s.locals && CanFile(s, t, b, e)
    ensures LocksOk(FileMove(s, t, b, e, l))
  {
    hide RwLock.Inv, RwLock.Apply, RwLock.Enabled;
    RwLock.StepInv(s.files[b], t, e);
  }

  /** Nothing a thread relies on has changed for it. */
  ghost predicate SameFor(s: System, s': System, u: Tid) {
    && u in s.locals && u in s'.locals && s'.locals[u] == s.locals[u]
    && At(s'.index, u) == At(s.index, u)
    && |s'.files| == |s.files|
    && (forall b :: 0 <= b < |s.files| ==> At(s'.files[b], u) == At(s.files[b], u))
  }

  ghost predicate Extends(s: System, s': System) {
    |s'.history| >= |s.history| && forall i :: 0 <= i < |s.history| ==> s'.history[i] == s.history[i]
  }

  lemma StanceStays(s: System, s': System, u: Tid)
    requires SameFor(s, s', u) && StanceOk(s, u)
    ensures StanceOk(s', u)
  {
    hide At, WellLocked;
    StaysOut(s, s', u);
  }

  lemma StaysOut(s: System, s': System, u: Tid)
    requires SameFor(s, s', u)
    ensures NoFile(s, u) ==> NoFile(s', u)
    ensures forall c :: NoFileBut(s, u, c) ==> NoFileBut(s', u, c)
  {
    hide At;
  }

  lemma KnowsStays(s: System, s': System, u: Tid)
    requires u in s.locals && u in s'.locals && s'.locals[u] == s.locals[u] && KnowsOk(s, u) && Extends(s, s') && s'.store == s.store
    ensures KnowsOk(s', u)
  {
    hide ReadEntry;
  }

  lemma IndexMoveSame(s: System, t: Tid, e: RwLock.Event, l: Local, u: Tid)
    requires LocksOk(s) && RwLock.Enabled(s.index, t, e) && u != t && u in s.locals
    ensures SameFor(s, IndexMove(s, t, e, l), u)
  {
    OthersStay(s.index, t, e, u);
  }

  lemma FileMoveSame(s: System, t: Tid, b: nat, e: RwLock.Event, l: Local, u: Tid)
    requires LocksOk(s) && CanFile(s, t, b, e) && u != t && u in s.locals
    ensures SameFor(s, FileMove(s, t, b, e, l), u)
  {
    hide RwLock.Apply, RwLock.Inv;
    OthersStay(s.files[b], t, e, u);
  }

  /** What one move has to show beyond its own thread. */
  lemma ThreadsStay(s: System, s': System, t: Tid)
    requires ThreadsOk(s) && t in s.locals && s'.locals.Keys == s.locals.Keys && Extends(s, s') && s'.store == s.store
    requires forall u :: u in s.locals && u != t ==> SameFor(s, s', u)
    requires StanceOk(s', t) && KnowsOk(s', t)
    ensures ThreadsOk(s')
  {
    hide StanceOk, KnowsOk;
    forall u | u in s'.locals
      ensures StanceOk(s', u) && KnowsOk(s', u)
    {
      if u != t {
        StanceStays(s, s', u);
        KnowsStays(s, s', u);
      }
    }
  }

  /** A move that leaves the store alone, and of a writer's list at most a lock act behind. */
  lemma SettledStays(s: System, s': System, t: Tid)
    requires SettledOk(s) && t in s.locals && t in s'.locals && s'.locals == s.locals[t := s'.locals[t]]
    requires s'.store == s.store && s'.contents == s.contents && |s'.files| == |s.files|
    requires s'.locals[t].Running? == s.locals[t].Running?
    requires s.locals[t].Running? ==>
      Exec(s.store, s'.locals[t].regs, s'.locals[t].rest).0 == Exec(s.store, s.locals[t].regs, s.locals[t].rest).0
    ensures SettledOk(s')
  {
    hide Exec, SettledTo;
    if forall u :: u in s'.locals ==> !s'.locals[u].Running? {
      forall u | u in s.locals
        ensures !s.locals[u].Running?
      {
        assert u in s'.locals;
      }
    }
  }

  lemma HistoryStays(s: System, s': System, m: Contents)
    requires HistoryOk(s, m) && s'.history == s.history && s'.returned == s.returned && s'.contents == s.contents && |s'.files| == |s.files|
    ensures HistoryOk(s', m)
  {
    hide Legal, After;
  }

  lemma Answered(s: System, t: Tid, at: nat, reply: Reply, m: Contents)
    requires HistoryOk(s, m) && Owed(s, t, at, reply)
    ensures HistoryOk(Answer(s, t, at, reply), m)
  {
    hide Legal, After;
  }

  // ---------- the moves one by one ----------

  lemma KeepIndexMove(s: System, t: Tid, e: RwLock.Event, l: Local, m: Contents)
    requires Inv(s, m) && t in s.locals && RwLock.Enabled(s.index, t, e)
    requires !l.Running? && !s.locals[t].Running?
    requires StanceOk(IndexMove(s, t, e, l), t) && KnowsOk(IndexMove(s, t, e, l), t)
    ensures Inv(IndexMove(s, t, e, l), m)
  {
    hide LocksOk, ThreadsOk, LaidOut, SettledOk, HistoryOk, StanceOk, KnowsOk, SameFor, RwLock.Apply, RwLock.Enabled;
    var s' := IndexMove(s, t, e, l);
    IndexMoveLocks(s, t, e, l);
    forall u | u in s.locals && u != t
      ensures SameFor(s, s', u)
    {
      IndexMoveSame(s, t, e, l, u);
    }
    ThreadsStay(s, s', t);
    SettledStays(s, s', t);
    HistoryStays(s, s', m);
  }

  lemma KeepFileMove(s: System, t: Tid, b: nat, e: RwLock.Event, l: Local, m: Contents)
    requires Inv(s, m) && t in s.locals && CanFile(s, t, b, e)
    requires l.Running? == s.locals[t].Running?
    requires l.Running? ==> Exec(s.store, l.regs, l.rest).0 == Exec(s.store, s.locals[t].regs, s.locals[t].rest).0
    requires StanceOk(FileMove(s, t, b, e, l), t) && KnowsOk(FileMove(s, t, b, e, l), t)
    ensures Inv(FileMove(s, t, b, e, l), m)
  {
    hide LocksOk, ThreadsOk, LaidOut, SettledOk, HistoryOk, StanceOk, KnowsOk, SameFor, RwLock.Apply, RwLock.Enabled, Exec;
    var s' := FileMove(s, t, b, e, l);
    FileMoveLocks(s, t, b, e, l);
    forall u | u in s.locals && u != t
      ensures SameFor(s, s', u)
    {
      FileMoveSame(s, t, b, e, l, u);
    }
    ThreadsStay(s, s', t);
    SettledStays(s, s', t);
    HistoryStays(s, s', m);
  }

  lemma KeepStart(s: System, t: Tid, op: Op, m: Contents)
    requires Inv(s, m) && CanMove(s, t, Start(op))
    ensures Inv(Next(s, t, Start(op)), m)
  {
    hide LocksOk, LaidOut, SettledOk, HistoryOk, RwLock.Apply, RwLock.Enabled, At, Survives;
    var s' := Next(s, t, Start(op));
    assert StanceOk(s, t);
    OwnStance(s.index, t, AskEvent(op));
    assert NoFile(s', t);
    KeepIndexMove(s, t, AskEvent(op), Entering(|s.begun|, op), m);
    KeepBegin(IndexMove(s, t, AskEvent(op), Entering(|s.begun|, op)), t, op, m);
  }

  lemma KeepIndexAgain(s: System, t: Tid, e: RwLock.Event, m: Contents)
    requires Inv(s, m) && CanMove(s, t, IndexAgain(e))
    ensures Inv(Next(s, t, IndexAgain(e)), m)
  {
    hide LocksOk, LaidOut, SettledOk, HistoryOk, RwLock.Apply, RwLock.Enabled, At, Survives;
    var s' := Next(s, t, IndexAgain(e));
    assert StanceOk(s, t) && KnowsOk(s, t);
    OwnStance(s.index, t, e);
    assert NoFile(s, t) ==> NoFile(s', t);
    KeepIndexMove(s, t, e, s.locals[t], m);
  }

  lemma KeepFileAgain(s: System, t: Tid, b: nat, e: RwLock.Event, m: Contents)
    requires Inv(s, m) && CanMove(s, t, FileAgain(b, e))
    ensures Inv(Next(s, t, FileAgain(b, e)), m)
  {
    hide LocksOk, LaidOut, SettledOk, HistoryOk, RwLock.Apply, RwLock.Enabled, At, Survives, WellLocked, Exec, ReadEntry;
    var s' := Next(s, t, FileAgain(b, e));
    assert StanceOk(s, t) && KnowsOk(s, t);
    OwnStance(s.files[b], t, e);
    assert At(s.files[b], t) != Out;
    assert NoFileBut(s, t, b) ==> NoFileBut(s', t, b);
    KeepFileMove(s, t, b, e, s.locals[t], m);
  }

  lemma KeepAskFile(s: System, t: Tid, m: Contents)
    requires Inv(s, m) && CanMove(s, t, AskFile)
    ensures Inv(Next(s, t, AskFile), m)
  {
    hide LocksOk, LaidOut, SettledOk, HistoryOk, RwLock.Apply, RwLock.Enabled, At, Survives, Exec, ReadEntry, WellLocked, RwLock.Inv;
    var l := s.locals[t];
    var s' := Next(s, t, AskFile);
    assert StanceOk(s, t) && KnowsOk(s, t);
    if l.Hit? {
      OwnStance(s.files[l.iv.blockId], t, RwLock.ReadLock);
      assert NoFileBut(s', t, l.iv.blockId);
      KeepFileMove(s, t, l.iv.blockId, RwLock.ReadLock, Locking(l.at, l.iv), m);
    } else {
      var b := l.rest[0].b;
      OwnStance(s.files[b], t, RwLock.WriteLock);
      assert WellLocked(l.rest, l.held, |s.files|);
      WellLockedStep(l.rest, l.held, |s.files|);
      assert l.held == None;
      assert NoFileBut(s', t, b);
      KeepFileMove(s, t, b, RwLock.WriteLock, l.(asked := true), m);
    }
  }

  lemma KeepLeaveFile(s: System, t: Tid, m: Contents)
    requires Inv(s, m) && CanMove(s, t, LeaveFile)
    ensures Inv(Next(s, t, LeaveFile), m)
  {
    hide LocksOk, LaidOut, SettledOk, HistoryOk, RwLock.Apply, RwLock.Enabled, At, Survives, Exec, WellLocked, RwLock.Inv;
    var l := s.locals[t];
    assert StanceOk(s, t) && KnowsOk(s, t);
    if l.Got? {
      var s' := FileMove(s, t, l.b, RwLock.ReadUnlock, AtRest);
      OwnStance(s.files[l.b], t, RwLock.ReadUnlock);
      assert NoFile(s', t);
      KeepFileMove(s, t, l.b, RwLock.ReadUnlock, AtRest, m);
      KeepAnswer(s', t, l.at, l.reply, m);
    } else {
      var b := l.rest[0].b;
      var l' := Advanced(l, l.regs);
      var s' := FileMove(s, t, b, RwLock.WriteUnlock, l');
      OwnStance(s.files[b], t, RwLock.WriteUnlock);
      WellLockedStep(l.rest, l.held, |s.files|);
      assert l.held == Some(b) && NoFile(s', t);
      ExecCons(s.store, l.regs, l.rest);
      KeepFileMove(s, t, b, RwLock.WriteUnlock, l', m);
    }
  }

  lemma KeepAnswer(s: System, t: Tid, at: nat, reply: Reply, m: Contents)
    requires Inv(s, m) && Owed(s, t, at, reply)
    ensures Inv(Answer(s, t, at, reply), m)
  {
    hide LaidOut, HistoryOk, RwLock.Inv, At, WellLocked, Exec, SettledTo, ReadEntry;
    var s' := Answer(s, t, at, reply);
    Answered(s, t, at, reply, m);
    forall u | u in s'.locals
      ensures StanceOk(s', u) && KnowsOk(s', u)
    {
      assert StanceOk(s, u) && KnowsOk(s, u);
      StanceStays(s, s', u);
      KnowsStays(s, s', u);
    }
  }

  lemma KeepBegin(s: System, t: Tid, op: Op, m: Contents)
    requires Inv(s, m)
    ensures Inv(Begin(s, t, op), m)
  {
    hide LaidOut, HistoryOk, RwLock.Inv, At, WellLocked, Exec, SettledTo, ReadEntry, Survives;
    var s' := Begin(s, t, op);
    HistoryStays(s, s', m);
    forall u | u in s'.locals
      ensures StanceOk(s', u) && KnowsOk(s', u)
    {
      assert StanceOk(s, u) && KnowsOk(s, u);
      StanceStays(s, s', u);
      KnowsStays(s, s', u);
    }
  }

  lemma KeepReadBytes(s: System, t: Tid, m: Contents)
    requires Inv(s, m) && CanMove(s, t, ReadBytes)
    ensures Inv(Next(s, t, ReadBytes), m)
  {
    hide LaidOut, SettledOk, HistoryOk, RwLock.Inv, At, WellLocked, Exec, ReadEntry, Legal, After;
    var l := s.locals[t];
    var s' := Next(s, t, ReadBytes);
    assert StanceOk(s, t) && KnowsOk(s, t);
    assert NoFileBut(s', t, l.iv.blockId);
    ThreadsStay(s, s', t);
    SettledStays(s, s', t);
    HistoryStays(s, s', m);
  }

  lemma KeepLeaveIndex(s: System, t: Tid, m: Contents)
    requires Inv(s, m) && CanMove(s, t, LeaveIndex)
    ensures Inv(Next(s, t, LeaveIndex), m)
  {
    hide LocksOk, LaidOut, SettledOk, HistoryOk, RwLock.Apply, RwLock.Enabled, At, Survives, Exec, WellLocked, RwLock.Inv, ReadEntry;
    var l := s.locals[t];
    assert StanceOk(s, t) && KnowsOk(s, t);
    if l.Locking? {
      var s' := IndexMove(s, t, RwLock.ReadUnlock, Holding(l.at, l.iv));
      OwnStance(s.index, t, RwLock.ReadUnlock);
      assert NoFileBut(s', t, l.iv.blockId);
      KeepIndexMove(s, t, RwLock.ReadUnlock, Holding(l.at, l.iv), m);
    } else if l.Missed? {
      var s' := IndexMove(s, t, RwLock.ReadUnlock, AtRest);
      OwnStance(s.index, t, RwLock.ReadUnlock);
      assert NoFile(s', t);
      KeepIndexMove(s, t, RwLock.ReadUnlock, AtRest, m);
      KeepAnswer(s', t, l.at, NotFound, m);
    } else {
      KeepFinish(s, t, m);
    }
  }

  /** The writer is done: what it left behind is what the map has become. */
  lemma KeepFinish(s: System, t: Tid, m: Contents)
    requires Inv(s, m) && t in s.locals && s.locals[t].Running? && s.locals[t].rest == []
    requires RwLock.Enabled(s.index, t, RwLock.WriteUnlock)
    ensures Inv(Answer(IndexMove(s, t, RwLock.WriteUnlock, AtRest), t, s.locals[t].at, s.locals[t].regs.reply), m)
  {
    hide LocksOk, LaidOut, HistoryOk, RwLock.Apply, RwLock.Enabled, At, Survives, Exec, WellLocked, RwLock.Inv, ReadEntry, SettledTo, SameFor;
    var l := s.locals[t];
    var s' := IndexMove(s, t, RwLock.WriteUnlock, AtRest);
    assert StanceOk(s, t) && KnowsOk(s, t);
    OwnStance(s.index, t, RwLock.WriteUnlock);
    IndexMoveLocks(s, t, RwLock.WriteUnlock, AtRest);
    WellLockedEnd(l.held, |s.files|);
    assert NoFile(s', t);
    forall u | u in s.locals && u != t
      ensures SameFor(s, s', u)
    {
      IndexMoveSame(s, t, RwLock.WriteUnlock, AtRest, u);
    }
    ThreadsStay(s, s', t);
    HistoryStays(s, s', m);
    ExecNone(s.store, l.regs);
    assert SettledTo(s.store, s.contents, |s.files|);
    forall u | u in s'.locals
      ensures !s'.locals[u].Running?
    {
      if u != t && s.locals[u].Running? {
        assert StanceOk(s, u);
        OnlyOneRuns(s, t, u);
      }
    }
    KeepAnswer(s', t, l.at, l.regs.reply, m);
  }

  lemma WellLockedEnd(held: Option<nat>, n: nat)
    ensures WellLocked([], held, n) <==> held == None
  {
  }

  /** A thread inside the index lock, not itself a writer at work, sees the store settled. */
  lemma SettledNow(s: System, t: Tid, m: Contents)
    requires Inv(s, m) && t in s.locals && !s.locals[t].Running? && (At(s.index, t) == HasR || At(s.index, t) == HasW)
    ensures SettledTo(s.store, s.contents, |s.files|)
    ensures forall u :: u in s.locals ==> !s.locals[u].Running?
  {
    hide LocksOk, LaidOut, HistoryOk, Exec, SettledTo, At, StanceOk, KnowsOk;
    forall u | u in s.locals
      ensures !s.locals[u].Running?
    {
      if s.locals[u].Running? { OnlyOneRuns(s, u, t); }
    }
  }

  /** The index look-up is the point at which a call takes effect. */
  lemma KeepLookup(s: System, t: Tid, m: Contents)
    requires Inv(s, m) && CanMove(s, t, Lookup)
    ensures Inv(Next(s, t, Lookup), m)
  {
    hide LocksOk, LaidOut, HistoryOk, Exec, SettledTo, At, WellLocked, RwLock.Inv, ReadEntry, MapStep, LookedUp, Survives, After, Legal;
    var l := s.locals[t];
    var s' := Next(s, t, Lookup);
    assert StanceOk(s, t);
    SettledNow(s, t, m);
    FilesMatch(s);
    LookupHistory(s, t, m);
    if l.op.Find? { FindLookup(s, t); } else { WriterLookup(s, t); }
    assert NoFile(s', t);
    LookupThreads(s, t, s');
    LookupSettled(s, t, s');
    LookupLocks(s, s');
  }

  lemma LookupLocks(s: System, s': System)
    requires LocksOk(s) && s'.index == s.index && s'.files == s.files && s'.store == s.store && s'.locals.Keys == s.locals.Keys
    ensures LocksOk(s')
  {
    hide RwLock.Inv;
  }

  lemma LookupThreads(s: System, t: Tid, s': System)
    requires ThreadsOk(s) && t in s.locals && t in s'.locals && s'.locals == s.locals[t := s'.locals[t]]
    requires s'.index == s.index && s'.files == s.files && s'.store == s.store && Extends(s, s')
    requires StanceOk(s', t) && KnowsOk(s', t)
    ensures ThreadsOk(s')
  {
    hide StanceOk, KnowsOk, At;
    ThreadsStay(s, s', t);
  }

  lemma LookupSettled(s: System, t: Tid, s': System)
    requires t in s.locals && t in s'.locals && s'.locals == s.locals[t := s'.locals[t]]
    requires forall u :: u in s.locals ==> !s.locals[u].Running?
    requires s'.locals[t].Running? ==> SettledTo(Exec(s'.store, s'.locals[t].regs, s'.locals[t].rest).0, s'.contents, |s'.files|)
    requires !s'.locals[t].Running? ==> SettledTo(s'.store, s'.contents, |s'.files|)
    ensures SettledOk(s')
  {
    hide Exec, SettledTo;
  }

  lemma LookupHistory(s: System, t: Tid, m: Contents)
    requires HistoryOk(s, m) && CanMove(s, t, Lookup) && |s.files| == |s.store.files|
    ensures HistoryOk(Next(s, t, Lookup), m) && Extends(s, Next(s, t, Lookup))
  {
    hide MapStep, LookedUp, At, Survives, Legal, After;
    var s' := Next(s, t, Lookup);
    OneMoreEntry(m, |s.files|, s.history, s'.history[|s.history|]);
    forall i | 0 <= i < |s'.returned|
      ensures Owed(s', s'.returned[i].t, s'.returned[i].at, s'.returned[i].reply)
    {
      assert Owed(s, s.returned[i].t, s.returned[i].at, s.returned[i].reply);
    }
  }

  lemma OneMoreEntry(m: Contents, n: nat, h: seq<Entry>, e: Entry)
    requires n > 0 && Legal(m, n, h) && e.reply == MapStep(After(m, n, h), n, e.op).1
    ensures Legal(m, n, h + [e]) && After(m, n, h + [e]) == MapStep(After(m, n, h), n, e.op).0
  {
    hide MapStep;
    var h' := h + [e];
    assert h'[..|h|] == h;
    forall i | 0 <= i < |h'|
      ensures h'[i].reply == MapStep(After(m, n, h'[..i]), n, h'[i].op).1
    {
      if i < |h| { assert h'[..i] == h[..i]; }
    }
  }

  /** A finder's look-up: what it will read is what the map answers. */
  lemma FindLookup(s: System, t: Tid)
    requires CanMove(s, t, Lookup) && s.locals[t].op.Find? && |s.files| == |s.store.files|
    requires SettledTo(s.store, s.contents, |s.files|)
    ensures var s' := Next(s, t, Lookup);
            && KnowsOk(s', t) && s'.contents == s.contents
            && match s'.locals[t]
               case Hit(_, iv) => iv.blockId < |s.files|
               case Missed(_) => true
               case _ => false
  {
    hide At, Abs, FilesOk, OneKeyPerSlot, Crc32.Checksum, IsSlot, Pread;
    var key := s.locals[t].op.key;
    var k := FixKey(key);
    StepRefines(s.store, s.locals[t].op);
    if k in s.store.index {
      EntryParts(s.store, k);
    }
  }

  lemma EntryParts(s: Store, k: Key)
    requires StoreModel.Inv(s) && k in s.index
    ensures s.index[k].blockId < |s.files| && s.index[k].offset >= DATA_SECTION_POS
    ensures ReadEntry(s.files[s.index[k].blockId], s.index[k]).Some?
  {
    hide ReadEntry, IsSlot, Crc32.Checksum, FilesOk, OneKeyPerSlot;
    assert EntryOk(s.files[s.index[k].blockId], s.index[k]);
    SlotInData(s.files[s.index[k].blockId], s.index[k].offset);
  }

  /** A writer's look-up: the steps it sets out on end in the state the map has just moved to. */
  lemma WriterLookup(s: System, t: Tid)
    requires CanMove(s, t, Lookup) && !s.locals[t].op.Find? && |s.files| == |s.store.files| && Survives(|s.files|, s.locals[t].op)
    requires SettledTo(s.store, s.contents, |s.files|)
    ensures var s' := Next(s, t, Lookup); var l := s'.locals[t];
            && KnowsOk(s', t)
            && l.Running? && l.held == None && !l.asked && WellLocked(l.rest, l.held, |s.files|)
            && SettledTo(Exec(s'.store, l.regs, l.rest).0, s'.contents, |s.files|)
  {
    hide At, Abs, StoreModel.Inv, WellLocked, Exec, Program, StartRegs, Step, MapStep;
    var op := s.locals[t].op;
    StepRefines(s.store, op);
    ProgramIsStep(s.store, op);
    ProgramWellLocked(s.store, op);
  }

  /** One act of the writer: finders that are still reading do not notice. */
  lemma KeepGo(s: System, t: Tid, m: Contents)
    requires Inv(s, m) && CanMove(s, t, Go)
    ensures Inv(Next(s, t, Go), m)
  {
    hide LocksOk, ThreadsOk, LaidOut, HistoryOk, Exec, Do, SettledTo, At, WellLocked, StanceOk, KnowsOk, Advanced, SettledOk;
    var l := s.locals[t];
    var s' := Next(s, t, Go);
    DoKeepsLayout(s.store, l.regs, l.rest[0]);
    GoLocks(s, s');
    GoOwn(s, t);
    forall u | u in s'.locals
      ensures StanceOk(s', u) && KnowsOk(s', u)
    {
      if u != t { GoOther(s, t, u); }
    }
    GoSettled(s, t);
    HistoryStays(s, s', m);
    assert ThreadsOk(s') by { AllThreads(s'); }
  }

  lemma AllThreads(s: System)
    requires forall u :: u in s.locals ==> StanceOk(s, u) && KnowsOk(s, u)
    ensures ThreadsOk(s)
  {
  }

  lemma GoLocks(s: System, s': System)
    requires LocksOk(s) && s'.index == s.index && s'.files == s.files && |s'.store.files| == |s.store.files| && s'.locals.Keys == s.locals.Keys
    ensures LocksOk(s')
  {
    hide RwLock.Inv;
  }

  lemma GoOwn(s: System, t: Tid)
    requires ThreadsOk(s) && CanMove(s, t, Go)
    ensures t in Next(s, t, Go).locals && StanceOk(Next(s, t, Go), t) && KnowsOk(Next(s, t, Go), t)
  {
    hide At, WellLocked, Do, Survives;
    var l := s.locals[t];
    var s' := Next(s, t, Go);
    assert StanceOk(s, t) && KnowsOk(s, t);
    WellLockedStep(l.rest, l.held, |s.files|);
    assert NoFile(s, t) ==> NoFile(s', t);
    assert forall c :: NoFileBut(s, t, c) ==> NoFileBut(s', t, c);
  }

  lemma GoOther(s: System, t: Tid, u: Tid)
    requires LocksOk(s) && ThreadsOk(s) && LaidOut(s.store) && CanMove(s, t, Go) && u in s.locals && u != t
    ensures u in Next(s, t, Go).locals && StanceOk(Next(s, t, Go), u) && KnowsOk(Next(s, t, Go), u)
  {
    hide At, WellLocked, Do, Survives, LaidOut, ReadEntry, RwLock.Inv;
    var l := s.locals[t];
    var s' := Next(s, t, Go);
    assert StanceOk(s, u) && KnowsOk(s, u);
    StanceStays(s, s', u);
    if At(s.index, u) == HasR || At(s.index, u) == HasW { OnlyOneRuns(s, t, u); }
    if s.locals[u].Holding? {
      var iv := s.locals[u].iv;
      assert StanceOk(s, t);
      WriterElsewhere(s, t, u);
      DoLeavesEntry(s.store, l.regs, l.rest[0], iv);
    }
  }

  /** A file that a finder is reading is not the one the writer has locked. */
  lemma WriterElsewhere(s: System, t: Tid, u: Tid)
    requires t in s.locals && u in s.locals && u != t
    requires s.locals[u].Holding? && s.locals[t].Running? && s.locals[t].rest != []
    requires LocksOk(s) && StanceOk(s, t) && StanceOk(s, u)
    ensures s.locals[t].rest[0] != WriteBytes(s.locals[u].iv.blockId)
  {
    hide At, WellLocked, StanceOk, KnowsOk, LocksOk;
    var l := s.locals[t];
    var b := s.locals[u].iv.blockId;
    if l.rest[0] == WriteBytes(b) {
      HeldStance(s, t);
      HoldingStance(s, u);
      FileLockInv(s, b);
      WriterAlone(s.files[b], t, u);
    }
  }

  lemma HeldStance(s: System, t: Tid)
    requires t in s.locals && StanceOk(s, t) && s.locals[t].Running? && s.locals[t].rest != [] && s.locals[t].rest[0].WriteBytes?
    ensures var b := s.locals[t].rest[0].b; b < |s.files| && At(s.files[b], t) == HasW
  {
    hide At, WellLocked;
    WellLockedStep(s.locals[t].rest, s.locals[t].held, |s.files|);
  }

  lemma HoldingStance(s: System, u: Tid)
    requires u in s.locals && StanceOk(s, u) && s.locals[u].Holding?
    ensures var b := s.locals[u].iv.blockId; b < |s.files| && At(s.files[b], u) == HasR
  {
    hide At;
  }

  lemma FileLockInv(s: System, b: nat)
    requires LocksOk(s) && b < |s.files|
    ensures RwLock.Inv(s.files[b]) && s.files[b].phase.Keys == s.locals.Keys
  {
    hide RwLock.Inv;
  }

  lemma FilesMatch(s: System)
    requires LocksOk(s)
    ensures |s.files| == |s.store.files| > 0 && RwLock.Inv(s.index) && s.index.phase.Keys == s.locals.Keys
  {
    hide RwLock.Inv;
  }

  lemma GoSettled(s: System, t: Tid)
    requires LocksOk(s) && ThreadsOk(s) && SettledOk(s) && CanMove(s, t, Go)
    ensures SettledOk(Next(s, t, Go))
  {
    hide At, WellLocked, Do, Survives, LocksOk, ThreadsOk, Exec, SettledTo, StanceOk, KnowsOk;
    var l := s.locals[t];
    var s' := Next(s, t, Go);
    ExecCons(s.store, l.regs, l.rest);
    forall u | u in s'.locals && s'.locals[u].Running?
      ensures u == t
    {
      if u != t {
        RunningHolds(s, u);
        OnlyOneRuns(s, t, u);
      }
    }
    assert s'.locals[t].Running?;
  }

  lemma RunningHolds(s: System, u: Tid)
    requires ThreadsOk(s) && u in s.locals && s.locals[u].Running?
    ensures At(s.index, u) == HasW
  {
    assert StanceOk(s, u);
  }

  /** Every move of every thread keeps the invariant. */
  lemma KeepMove(s: System, t: Tid, move: Move, m: Contents)
    requires Inv(s, m) && CanMove(s, t, move)
    ensures Inv(Next(s, t, move), m)
  {
    hide Inv, CanMove, Next;
    match move
    case Start(op) => KeepStart(s, t, op, m);
    case IndexAgain(e) => KeepIndexAgain(s, t, e, m);
    case FileAgain(b, e) => KeepFileAgain(s, t, b, e, m);
    case Lookup => KeepLookup(s, t, m);
    case AskFile => KeepAskFile(s, t, m);
    case ReadBytes => KeepReadBytes(s, t, m);
    case LeaveIndex => KeepLeaveIndex(s, t, m);
    case LeaveFile => KeepLeaveFile(s, t, m);
    case Go => KeepGo(s, t, m);
  }
}
