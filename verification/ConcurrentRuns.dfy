/** Whole runs of the concurrent store: every call is answered as if it had happened alone at the
    moment of its index look-up, and the threads never lock each other out for good. */
module ConcurrentRuns {
  import opened Bytes
  import opened StoreModel
  import opened StoreRuns
  import opened WriterSteps
  import opened ConcurrentStore
  import RwLock

  datatype Turn = Turn(t: Tid, m: Move)

  ghost predicate ValidRun(s: System, run: seq<Turn>)
    decreases |run|
  {
    run != [] ==> CanMove(s, run[0].t, run[0].m) && ValidRun(Next(s, run[0].t, run[0].m), run[1..])
  }

  ghost function Final(s: System, run: seq<Turn>): System
    requires ValidRun(s, run)
    decreases |run|
  {
    if run == [] then s else Final(Next(s, run[0].t, run[0].m), run[1..])
  }

  /** All threads at rest around a store. */
  ghost function Initial(store: Store, threads: set<Tid>): System
    requires EntriesOk(store)
  {
    System(RwLock.Init(threads), seq(|store.files|, b => RwLock.Init(threads)), store, map t | t in threads :: AtRest, Abs(store), [], [], [])
  }

  lemma InitialInv(store: Store, threads: set<Tid>)
    requires StoreModel.Inv(store)
    ensures ConcurrentStore.Inv(Initial(store, threads), Abs(store))
  {
    hide StoreModel.Inv, EntriesOk, Abs, LaidOut, RwLock.Inv;
    assert EntriesOk(store) by { EntriesHold(store); }
    FileCount(store);
    StoreLaidOut(store);
    RwLock.InitInv(threads);
    var s := Initial(store, threads);
    forall t | t in s.locals
      ensures StanceOk(s, t) && KnowsOk(s, t)
    {
      assert NoFile(s, t);
    }
    assert Legal(Abs(store), |s.files|, []);
  }

  lemma EntriesHold(store: Store)
    requires StoreModel.Inv(store)
    ensures EntriesOk(store)
  {
  }

  lemma {:induction false} RunInv(s: System, run: seq<Turn>, m: Contents)
    requires ConcurrentStore.Inv(s, m) && ValidRun(s, run)
    ensures ConcurrentStore.Inv(Final(s, run), m)
    decreases |run|
  {
    hide ConcurrentStore.Inv, CanMove, Next;
    if run != [] {
      KeepMove(s, run[0].t, run[0].m, m);
      RunInv(Next(s, run[0].t, run[0].m), run[1..], m);
    }
  }

  /** Any number of threads, any schedule: each answer a thread got is the one the plain map gives
      at the call's place in one common order of calls, the order of the index look-ups. For a find
      this says that the bytes it read, after it had given up the index lock, are the value its key
      had at the look-up. */
  lemma EveryAnswerIsTheMaps(store: Store, threads: set<Tid>, run: seq<Turn>)
    requires StoreModel.Inv(store) && ValidRun(Initial(store, threads), run)
    ensures var s := Final(Initial(store, threads), run);
            |store.files| > 0 && forall i :: 0 <= i < |s.returned| ==> AnsweredByMap(s, Abs(store), |store.files|, s.returned[i])
  {
    hide ConcurrentStore.Inv, Abs, ValidRun, Final, StoreModel.Inv, EntriesOk, Initial;
    assert EntriesOk(store) by { EntriesHold(store); }
    InitialInv(store, threads);
    RunInv(Initial(store, threads), run, Abs(store));
    SameFileCount(Initial(store, threads), run, Abs(store));
    InitialCount(store, threads);
    AnswersAreTheMaps(Final(Initial(store, threads), run), Abs(store));
  }

  ghost predicate AnsweredByMap(s: System, m: Contents, n: nat, r: Return)
    requires n > 0
  {
    && r.at < |s.history|
    && s.history[r.at].t == r.t
    && r.reply == MapStep(After(m, n, s.history[..r.at]), n, s.history[r.at].op).1
  }

  lemma InitialCount(store: Store, threads: set<Tid>)
    requires EntriesOk(store)
    ensures |Initial(store, threads).files| == |store.files|
  {
  }

  lemma {:induction false} SameFileCount(s: System, run: seq<Turn>, m: Contents)
    requires ConcurrentStore.Inv(s, m) && ValidRun(s, run)
    ensures |Final(s, run).files| == |s.files| > 0
    decreases |run|
  {
    hide CanMove, Next, ConcurrentStore.Inv;
    assert |s.files| > 0 by { FilesThere(s, m); }
    if run != [] {
      KeepMove(s, run[0].t, run[0].m, m);
      NextFiles(s, run[0].t, run[0].m);
      SameFileCount(Next(s, run[0].t, run[0].m), run[1..], m);
    }
  }

  lemma FilesThere(s: System, m: Contents)
    requires ConcurrentStore.Inv(s, m)
    ensures |s.files| > 0
  {
  }

  lemma NextFiles(s: System, t: Tid, m: Move)
    requires CanMove(s, t, m)
    ensures |Next(s, t, m).files| == |s.files|
  {
    hide RwLock.Apply, Do, MapStep, Program, Step, LookedUp;
  }

  lemma AnswersAreTheMaps(s: System, m: Contents)
    requires ConcurrentStore.Inv(s, m)
    ensures |s.files| > 0
    ensures forall i :: 0 <= i < |s.returned| ==> AnsweredByMap(s, m, |s.files|, s.returned[i])
  {
    hide LocksOk, ThreadsOk, SettledOk, LaidOut, MapStep, After;
  }

  // ---------- the order respects time ----------

  /** Thread `t` has taken no place in the history before `n0` that it has yet to answer for. */
  predicate PlacedFrom(l: Local, n0: nat) {
    match l
    case AtRest => true
    case Entering(_, _) => true
    case Hit(at, _) => at >= n0
    case Locking(at, _) => at >= n0
    case Holding(at, _) => at >= n0
    case Got(at, _, _) => at >= n0
    case Missed(at) => at >= n0
    case Running(at, _, _, _, _) => at >= n0
  }

  lemma MovePlaced(s: System, t: Tid, m: Move, u: Tid, n0: nat)
    requires CanMove(s, t, m) && u in s.locals && n0 <= |s.history| && PlacedFrom(s.locals[u], n0)
    ensures var s' := Next(s, t, m);
            && u in s'.locals && Extends(s, s') && PlacedFrom(s'.locals[u], n0)
            && |s.returned| <= |s'.returned| && s'.returned[..|s.returned|] == s.returned
            && forall i :: |s.returned| <= i < |s'.returned| && s'.returned[i].t == u ==> s'.returned[i].at >= n0
  {
    hide RwLock.Apply, RwLock.Enabled, Do, MapStep, Program, Step, StartRegs, CanFile, HeldAfter;
  }

  /** A call that starts after `n0` look-ups have taken place is put behind all of them: whatever
      returned before a call began comes before it in the order. */
  lemma {:induction false} OrderRespectsTime(s: System, run: seq<Turn>, u: Tid, n0: nat)
    requires ValidRun(s, run) && u in s.locals && n0 <= |s.history| && PlacedFrom(s.locals[u], n0)
    ensures var f := Final(s, run);
            && Extends(s, f)
            && |s.returned| <= |f.returned| && f.returned[..|s.returned|] == s.returned
            && forall i :: |s.returned| <= i < |f.returned| && f.returned[i].t == u ==> f.returned[i].at >= n0
    decreases |run|
  {
    hide CanMove, Next, PlacedFrom;
    if run != [] {
      MovePlaced(s, run[0].t, run[0].m, u, n0);
      var s1 := Next(s, run[0].t, run[0].m);
      OrderRespectsTime(s1, run[1..], u, n0);
      var f := Final(s, run);
      assert f.returned[..|s.returned|] == f.returned[..|s1.returned|][..|s.returned|];
      forall i | |s.returned| <= i < |f.returned| && f.returned[i].t == u
        ensures f.returned[i].at >= n0
      {
        if i < |s1.returned| { assert f.returned[i] == f.returned[..|s1.returned|][i]; }
      }
    }
  }

  /** The place in the history of a call that has looked its key up. */
  function PlaceOf(l: Local): Option<nat> {
    match l
    case AtRest => None
    case Entering(_, _) => None
    case Hit(at, _) => Some(at)
    case Locking(at, _) => Some(at)
    case Holding(at, _) => Some(at)
    case Got(at, _, _) => Some(at)
    case Missed(at) => Some(at)
    case Running(at, _, _, _, _) => Some(at)
  }

  /** A call gets its place at its look-up, under its own thread and operation, keeps that place,
      and comes to rest only by answering for it, once. */
  lemma EveryCallAnswers(s: System, t: Tid, m: Move)
    requires CanMove(s, t, m)
    ensures var s' := Next(s, t, m); var l, l' := s.locals[t], s'.locals[t];
            && (l.AtRest? ==> l'.AtRest? || l'.Entering?)
            && (l.Entering? ==> l' == l || (PlaceOf(l') == Some(|s.history|) && |s'.history| == |s.history| + 1
                                            && s'.history[|s.history|].t == t && s'.history[|s.history|].op == l.op))
            && (PlaceOf(l).Some? && !l'.AtRest? ==> PlaceOf(l') == PlaceOf(l) && s'.returned == s.returned)
            && (!l.AtRest? && l'.AtRest? ==>
                  |s'.returned| == |s.returned| + 1 && s'.returned[..|s.returned|] == s.returned
                  && s'.returned[|s.returned|].t == t && Some(s'.returned[|s.returned|].at) == PlaceOf(l))
  {
    hide RwLock.Apply, Do, MapStep, Program, Step, StartRegs, HeldAfter, Survives;
  }

  // ---------- nothing is ruled out ----------

  /** A thread at rest may begin any call that would not kill the process; a call may be begun while
      any others are under way. */
  lemma AnyCallMayBegin(s: System, m: Contents, t: Tid, op: Op)
    requires ConcurrentStore.Inv(s, m) && t in s.locals && s.locals[t].AtRest?
    requires op.Update? ==> !(ToInt(|op.data|) <= ClassSize(|s.store.files| - 1) < |op.data|)
    ensures CanMove(s, t, Start(op))
  {
    hide SettledOk, HistoryOk, LaidOut, RwLock.Inv, KnowsOk, ClassSize, ToInt;
    assert StanceOk(s, t);
    FilesMatch(s);
  }

  /** A thread asleep on any lock may wake up for no reason. */
  lemma AnySleeperMayWake(s: System, m: Contents, t: Tid)
    requires ConcurrentStore.Inv(s, m) && t in s.locals
    ensures t in s.index.phase && (s.index.phase[t] == RwLock.ReadWait(false) || s.index.phase[t] == RwLock.WriteWait(false)) ==>
              CanMove(s, t, IndexAgain(RwLock.Spurious))
    ensures forall b: nat :: b < |s.files| && t in s.files[b].phase
                             && (s.files[b].phase[t] == RwLock.ReadWait(false) || s.files[b].phase[t] == RwLock.WriteWait(false)) ==>
              CanMove(s, t, FileAgain(b, RwLock.Spurious))
  {
    hide ConcurrentStore.Inv;
  }

  // ---------- no deadlock ----------

  /** A step of a call under way, not a new call and not a spurious wake-up. */
  predicate Useful(m: Move) {
    match m
    case Start(_) => false
    case IndexAgain(e) => !e.Spurious?
    case FileAgain(_, e) => !e.Spurious?
    case _ => true
  }

  /** A lock a thread waits for has a holder or a woken thread, and that one can go on. */
  lemma FileWaiterMoves(s: System, m: Contents, t: Tid, b: nat) returns (turn: Turn)
    requires ConcurrentStore.Inv(s, m) && t in s.locals && b < |s.files|
    requires (At(s.files[b], t) == WaitsR && At(s.index, t) == HasR) || (At(s.files[b], t) == WaitsW && s.locals[t].Running?)
    ensures CanMove(s, turn.t, turn.m) && Useful(turn.m)
  {
    hide SettledOk, HistoryOk, LaidOut, StanceOk, KnowsOk, RwLock.Inv, WellLocked;
    FileLockInv(s, b);
    FilesMatch(s);
    var mv := RwLock.NoDeadlock(s.files[b], t);
    var v := mv.t;
    assert v in s.locals && StanceOk(s, v) && StanceOk(s, t) && KnowsOk(s, v);
    match mv.e
    case ReadUnlock => turn := FileReaderMoves(s, v, b);
    case WriteUnlock =>
      WriterRuns(s, v, b);
      RunnerInIndex(s, t);
      OnlyOneRuns(s, v, t);
      assert false;
    case _ => turn := Turn(v, FileAgain(b, mv.e));
  }

  lemma RunnerInIndex(s: System, t: Tid)
    requires t in s.locals && StanceOk(s, t)
    ensures s.locals[t].Running? ==> At(s.index, t) == HasW
  {
    hide WellLocked;
  }

  lemma WriterRuns(s: System, v: Tid, b: nat)
    requires v in s.locals && StanceOk(s, v) && b < |s.files| && At(s.files[b], v) == HasW
    ensures s.locals[v].Running?
  {
    hide At, WellLocked;
  }

  lemma FileReaderMoves(s: System, v: Tid, b: nat) returns (turn: Turn)
    requires LocksOk(s) && v in s.locals && StanceOk(s, v) && KnowsOk(s, v) && b < |s.files| && At(s.files[b], v) == HasR
    ensures CanMove(s, turn.t, turn.m) && Useful(turn.m)
  {
    hide WellLocked, RwLock.Inv, Survives;
    var l := s.locals[v];
    assert l.Locking? ==> l.iv.blockId == b;
    assert l.Holding? ==> l.iv.blockId == b;
    assert l.Got? ==> l.b == b;
    turn := Turn(v, if l.Locking? then LeaveIndex else if l.Holding? then ReadBytes else LeaveFile);
  }

  lemma RunnerMoves(s: System, m: Contents, t: Tid) returns (turn: Turn)
    requires ConcurrentStore.Inv(s, m) && t in s.locals && s.locals[t].Running?
    ensures CanMove(s, turn.t, turn.m) && Useful(turn.m)
  {
    hide SettledOk, HistoryOk, LaidOut, RwLock.Inv, WellLocked, KnowsOk, Exec, Survives;
    var l := s.locals[t];
    assert StanceOk(s, t);
    FilesMatch(s);
    if l.rest == [] {
      turn := Turn(t, LeaveIndex);
    } else {
      WellLockedStep(l.rest, l.held, |s.files|);
      match l.rest[0]
      case LockFile(b) =>
        FileLockInv(s, b);
        if !l.asked {
          assert At(s.files[b], t) == Out;
          turn := Turn(t, AskFile);
        } else if At(s.files[b], t) == HasW {
          turn := Turn(t, Go);
        } else {
          turn := FileWaiterMoves(s, m, t, b);
        }
      case UnlockFile(b) => turn := Turn(t, LeaveFile);
      case _ => turn := Turn(t, Go);
    }
  }

  lemma FinderMoves(s: System, m: Contents, t: Tid) returns (turn: Turn)
    requires ConcurrentStore.Inv(s, m) && t in s.locals && InsideFind(s.locals[t])
    ensures CanMove(s, turn.t, turn.m) && Useful(turn.m)
  {
    hide LocksOk, SettledOk, HistoryOk, LaidOut, StanceOk, KnowsOk, CanMove, At;
    assert StanceOk(s, t) && KnowsOk(s, t);
    var l := s.locals[t];
    FinderFile(s, t);
    match l
    case Hit(_, _) =>
      HitCanAsk(s, t);
      turn := Turn(t, AskFile);
    case Missed(_) =>
      MissedCanLeave(s, t);
      turn := Turn(t, LeaveIndex);
    case Locking(_, iv) =>
      if At(s.files[iv.blockId], t) == HasR {
        turn := FileReaderMoves(s, t, iv.blockId);
      } else {
        turn := FileWaiterMoves(s, m, t, iv.blockId);
      }
    case Holding(_, iv) => turn := FileReaderMoves(s, t, iv.blockId);
    case Got(_, b, _) => turn := FileReaderMoves(s, t, b);
  }

  lemma FinderFile(s: System, t: Tid)
    requires t in s.locals && StanceOk(s, t)
    ensures match s.locals[t]
            case Locking(_, iv) =>
              iv.blockId < |s.files| && At(s.index, t) == HasR && (At(s.files[iv.blockId], t) == HasR || At(s.files[iv.blockId], t) == WaitsR)
            case Holding(_, iv) => iv.blockId < |s.files| && At(s.files[iv.blockId], t) == HasR
            case Got(_, b, _) => b < |s.files| && At(s.files[b], t) == HasR
            case _ => true
  {
    hide At, WellLocked, Survives;
  }

  lemma HitCanAsk(s: System, t: Tid)
    requires LocksOk(s) && t in s.locals && StanceOk(s, t) && s.locals[t].Hit?
    ensures CanMove(s, t, AskFile)
  {
    hide RwLock.Inv, WellLocked, Survives;
    FileLockInv(s, s.locals[t].iv.blockId);
  }

  lemma MissedCanLeave(s: System, t: Tid)
    requires LocksOk(s) && t in s.locals && StanceOk(s, t) && s.locals[t].Missed?
    ensures CanMove(s, t, LeaveIndex)
  {
    hide RwLock.Inv, WellLocked, Survives;
    FilesMatch(s);
  }

  /** Everyone under way is still on the way in. */
  lemma EntererMoves(s: System, m: Contents, t: Tid) returns (turn: Turn)
    requires ConcurrentStore.Inv(s, m) && t in s.locals && s.locals[t].Entering?
    requires forall u :: u in s.locals ==> s.locals[u].AtRest? || s.locals[u].Entering?
    ensures CanMove(s, turn.t, turn.m) && Useful(turn.m)
  {
    hide SettledOk, HistoryOk, LaidOut, RwLock.Inv, WellLocked, KnowsOk, Ranged, Survives;
    assert StanceOk(s, t);
    FilesMatch(s);
    var mv := RwLock.NoDeadlock(s.index, t);
    var v := mv.t;
    assert v in s.locals && StanceOk(s, v);
    if mv.e.ReadUnlock? || mv.e.WriteUnlock? {
      SettledNow(s, v, m);
      FileCount(s.store);
      turn := Turn(v, Lookup);
    } else {
      turn := Turn(v, IndexAgain(mv.e));
    }
  }

  /** While any call is under way, some thread can take a useful step. */
  lemma SomeoneCanMove(s: System, m: Contents, t: Tid) returns (turn: Turn)
    requires ConcurrentStore.Inv(s, m) && t in s.locals && !s.locals[t].AtRest?
    ensures CanMove(s, turn.t, turn.m) && Useful(turn.m)
  {
    hide ConcurrentStore.Inv, CanMove;
    if w :| w in s.locals && s.locals[w].Running? {
      turn := RunnerMoves(s, m, w);
    } else if w :| w in s.locals && InsideFind(s.locals[w]) {
      turn := FinderMoves(s, m, w);
    } else {
      turn := EntererMoves(s, m, t);
    }
  }

  predicate InsideFind(l: Local) {
    l.Hit? || l.Locking? || l.Holding? || l.Got? || l.Missed?
  }
}
