/** The concurrent store is linearizable: the calls of a run and their answers, put together. */
module ConcurrentCalls {
  import opened Bytes
  import opened StoreModel
  import opened StoreRuns
  import opened WriterSteps
  import opened ConcurrentStore
  import opened ConcurrentRuns
  import RwLock

  // ---------- what the record of calls keeps ----------

  /** An entry of the history belongs to a call that had begun. */
  ghost predicate EntryBegun(s: System, at: nat)
    requires at < |s.history|
  {
    var e := s.history[at];
    e.id < |s.begun| && s.begun[e.id].t == e.t && s.begun[e.id].op == e.op && s.begun[e.id].when <= at
  }

  ghost predicate NotLookedUp(s: System, id: nat) {
    forall at :: 0 <= at < |s.history| ==> s.history[at].id != id
  }

  ghost predicate Unanswered(s: System, at: nat) {
    forall i :: 0 <= i < |s.returned| ==> s.returned[i].at != at
  }

  /** A thread's call, before and after its look-up. */
  ghost predicate OpenOk(s: System, t: Tid)
    requires t in s.locals
  {
    match s.locals[t]
    case AtRest => true
    case Entering(id, op) => id < |s.begun| && s.begun[id].t == t && s.begun[id].op == op && NotLookedUp(s, id)
    case _ =>
      var at := PlaceOf(s.locals[t]).value;
      at < |s.history| && s.history[at].t == t && Unanswered(s, at)
  }

  ghost predicate ReturnOk(s: System, r: Return) {
    r.at < r.when <= |s.history| && s.history[r.at].t == r.t
  }

  ghost predicate LookedUpOnce(history: seq<Entry>) {
    forall i, j :: 0 <= i < j < |history| ==> history[i].id != history[j].id
  }

  ghost predicate AnsweredOnce(returned: seq<Return>) {
    forall i, j :: 0 <= i < j < |returned| ==> returned[i].at != returned[j].at
  }

  /** A call that began has been looked up, or its thread is still on the way in. */
  ghost predicate UnderWay(s: System, id: nat)
    requires id < |s.begun|
  {
    !NotLookedUp(s, id) || (s.begun[id].t in s.locals && s.locals[s.begun[id].t].Entering? && s.locals[s.begun[id].t].id == id)
  }

  /** A call that was looked up has been answered, or its thread still owes the answer. */
  ghost predicate Owing(s: System, at: nat)
    requires at < |s.history|
  {
    !Unanswered(s, at) || (s.history[at].t in s.locals && PlaceOf(s.locals[s.history[at].t]) == Some(at))
  }

  ghost predicate CallsOk(s: System) {
    && (forall b :: 0 <= b < |s.begun| ==> s.begun[b].when <= |s.history|)
    && (forall at :: 0 <= at < |s.history| ==> EntryBegun(s, at))
    && (forall t :: t in s.locals ==> OpenOk(s, t))
    && (forall i :: 0 <= i < |s.returned| ==> ReturnOk(s, s.returned[i]))
    && LookedUpOnce(s.history)
    && AnsweredOnce(s.returned)
    && (forall id :: 0 <= id < |s.begun| ==> UnderWay(s, id))
    && (forall at :: 0 <= at < |s.history| ==> Owing(s, at))
  }

  // ---------- the four ways a move touches the record ----------

  /** A move inside a call leaves the record as it is. */
  lemma InsideKeeps(s: System, s': System, t: Tid)
    requires CallsOk(s) && t in s.locals && t in s'.locals && s'.locals == s.locals[t := s'.locals[t]]
    requires s'.history == s.history && s'.begun == s.begun && s'.returned == s.returned
    requires s'.locals[t] == s.locals[t] || (PlaceOf(s.locals[t]).Some? && PlaceOf(s'.locals[t]) == PlaceOf(s.locals[t]))
    ensures CallsOk(s')
  {
    forall u | u in s'.locals ensures OpenOk(s', u) { assert OpenOk(s, u); }
    forall at | 0 <= at < |s'.history| ensures EntryBegun(s', at) && Owing(s', at) { assert EntryBegun(s, at) && Owing(s, at); }
    forall id | 0 <= id < |s'.begun| ensures UnderWay(s', id) { assert UnderWay(s, id); }
  }

  lemma BeginKeeps(s: System, s': System, t: Tid, op: Op)
    requires CallsOk(s) && t in s.locals && s.locals[t].AtRest?
    requires s'.locals == s.locals[t := Entering(|s.begun|, op)]
    requires s'.history == s.history && s'.returned == s.returned && s'.begun == s.begun + [Begun(t, op, |s.history|)]
    ensures CallsOk(s')
  {
    forall at | 0 <= at < |s'.history| ensures EntryBegun(s', at) && Owing(s', at) { assert EntryBegun(s, at) && Owing(s, at); }
    forall at | 0 <= at < |s.history| ensures s.history[at].id < |s.begun| { assert EntryBegun(s, at); }
    forall u | u in s'.locals ensures OpenOk(s', u) { if u != t { assert OpenOk(s, u); } }
    forall id | 0 <= id < |s'.begun| ensures UnderWay(s', id) { if id < |s.begun| { assert UnderWay(s, id); } }
  }

  lemma LookupKeeps(s: System, s': System, t: Tid, reply: Reply)
    requires CallsOk(s) && t in s.locals && s.locals[t].Entering?
    requires t in s'.locals && s'.locals == s.locals[t := s'.locals[t]] && PlaceOf(s'.locals[t]) == Some(|s.history|)
    requires s'.history == s.history + [Entry(s.locals[t].id, t, s.locals[t].op, reply)]
    requires s'.begun == s.begun && s'.returned == s.returned
    ensures CallsOk(s')
  {
    var n := |s.history|;
    var id := s.locals[t].id;
    assert OpenOk(s, t);
    forall at | 0 <= at < |s'.history| ensures EntryBegun(s', at) && Owing(s', at) {
      if at < n { assert EntryBegun(s, at) && Owing(s, at); }
    }
    forall u | u in s'.locals ensures OpenOk(s', u) { assert OpenOk(s, u); }
    forall i | 0 <= i < |s'.begun| ensures UnderWay(s', i) {
      assert UnderWay(s, i);
      if i == id { assert s'.history[n].id == id; } else { StillLookedUp(s, s', i); }
    }
    forall i | 0 <= i < |s'.returned| ensures ReturnOk(s', s'.returned[i]) { assert ReturnOk(s, s.returned[i]); }
  }

  lemma StillLookedUp(s: System, s': System, id: nat)
    requires !NotLookedUp(s, id) ==> |s.history| <= |s'.history| && forall at :: 0 <= at < |s.history| ==> s'.history[at] == s.history[at]
    ensures !NotLookedUp(s, id) ==> !NotLookedUp(s', id)
  {
    if !NotLookedUp(s, id) {
      var at :| 0 <= at < |s.history| && s.history[at].id == id;
      assert s'.history[at].id == id;
    }
  }

  lemma AnswerKeeps(s: System, s': System, t: Tid, at: nat, reply: Reply)
    requires CallsOk(s) && t in s.locals && PlaceOf(s.locals[t]) == Some(at)
    requires s'.locals == s.locals[t := AtRest] && s'.history == s.history && s'.begun == s.begun
    requires s'.returned == s.returned + [Return(t, at, |s.history|, reply)]
    ensures CallsOk(s')
  {
    assert OpenOk(s, t);
    var n := |s.returned|;
    assert s'.returned[n].at == at;
    forall u | u in s'.locals ensures OpenOk(s', u) { assert OpenOk(s, u); }
    forall a | 0 <= a < |s'.history| ensures EntryBegun(s', a) && Owing(s', a) {
      assert EntryBegun(s, a) && Owing(s, a);
      if !Unanswered(s, a) {
        var i :| 0 <= i < |s.returned| && s.returned[i].at == a;
        assert s'.returned[i].at == a;
      }
    }
    forall id | 0 <= id < |s'.begun| ensures UnderWay(s', id) { assert UnderWay(s, id); }
    forall i | 0 <= i < |s'.returned| ensures ReturnOk(s', s'.returned[i]) { if i < n { assert ReturnOk(s, s.returned[i]); } }
  }

  /** What a move does to its thread and to the record, by kind. */
  lemma MoveRecord(s: System, t: Tid, m: Move)
    requires CanMove(s, t, m)
    ensures t in s.locals && (m.Lookup? ==> |s.store.files| > 0)
    ensures var s' := Next(s, t, m); var l := s.locals[t];
            && t in s'.locals && s'.locals == s.locals[t := s'.locals[t]]
            && var l' := s'.locals[t];
               if m.Start? then
                 && l.AtRest? && l' == Entering(|s.begun|, m.op) && s'.history == s.history && s'.returned == s.returned
                 && s'.begun == s.begun + [Begun(t, m.op, |s.history|)]
               else if m.Lookup? then
                 && l.Entering? && PlaceOf(l') == Some(|s.history|) && s'.begun == s.begun && s'.returned == s.returned
                 && s'.history == s.history + [Entry(l.id, t, l.op, MapStep(s.contents, |s.store.files|, l.op).1)]
               else
                 && s'.history == s.history && s'.begun == s.begun
                 && if l'.AtRest? && !l.AtRest?
                    then PlaceOf(l).Some? && |s'.returned| == |s.returned| + 1
                         && s'.returned == s.returned + [Return(t, PlaceOf(l).value, |s.history|, s'.returned[|s.returned|].reply)]
                    else s'.returned == s.returned && (l' == l || (PlaceOf(l).Some? && PlaceOf(l') == PlaceOf(l)))
  {
    hide RwLock.Apply, RwLock.Enabled, Do, MapStep, Program, Step, StartRegs, CanFile, HeldAfter, Survives, At;
  }

  lemma MoveKeepsCalls(s: System, t: Tid, m: Move)
    requires CallsOk(s) && CanMove(s, t, m)
    ensures CallsOk(Next(s, t, m))
  {
    hide CallsOk, Next, CanMove, MapStep;
    MoveRecord(s, t, m);
    var s' := Next(s, t, m);
    var l := s.locals[t];
    match m
    case Start(op) => BeginKeeps(s, s', t, op);
    case Lookup => LookupKeeps(s, s', t, MapStep(s.contents, |s.store.files|, l.op).1);
    case _ =>
      if s'.locals[t].AtRest? && !l.AtRest? {
        AnswerKeeps(s, s', t, PlaceOf(l).value, s'.returned[|s.returned|].reply);
      } else {
        InsideKeeps(s, s', t);
      }
  }

  lemma {:induction false} RunKeepsCalls(s: System, run: seq<Turn>)
    requires CallsOk(s) && ValidRun(s, run)
    ensures CallsOk(Final(s, run))
    decreases |run|
  {
    hide CallsOk, Next, CanMove;
    if run != [] {
      MoveKeepsCalls(s, run[0].t, run[0].m);
      RunKeepsCalls(Next(s, run[0].t, run[0].m), run[1..]);
    }
  }

  lemma InitialCalls(store: Store, threads: set<Tid>)
    requires EntriesOk(store)
    ensures CallsOk(Initial(store, threads)) && Initial(store, threads).begun == []
  {
    hide EntriesOk, Abs;
  }

  // ---------- begun is the list of calls ----------

  /** The calls that the turns of a run begin. */
  function Starts(run: seq<Turn>): seq<(Tid, Op)>
    decreases |run|
  {
    if run == [] then []
    else (if run[0].m.Start? then [(run[0].t, run[0].m.op)] else []) + Starts(run[1..])
  }

  function Names(begun: seq<Begun>): (r: seq<(Tid, Op)>)
    ensures |r| == |begun| && forall i :: 0 <= i < |r| ==> r[i] == (begun[i].t, begun[i].op)
  {
    seq(|begun|, i requires 0 <= i < |begun| => (begun[i].t, begun[i].op))
  }

  lemma {:induction false} BegunAreStarts(s: System, run: seq<Turn>)
    requires ValidRun(s, run)
    ensures Names(Final(s, run).begun) == Names(s.begun) + Starts(run)
    decreases |run|
  {
    hide Next, CanMove, MapStep;
    if run != [] {
      MoveRecord(s, run[0].t, run[0].m);
      var s1 := Next(s, run[0].t, run[0].m);
      assert Names(s1.begun) == Names(s.begun) + (if run[0].m.Start? then [(run[0].t, run[0].m.op)] else []);
      BegunAreStarts(s1, run[1..]);
    }
  }

  // ---------- linearizability ----------

  /** An answered call: which one it is, that it took effect after it began and before it was
      answered, and that the answer is the map's. Times are lengths of the history. */
  ghost predicate CallAnswered(s: System, m: Contents, n: nat, r: Return)
    requires n > 0
  {
    && r.at < |s.history|
    && var e := s.history[r.at];
       && e.id < |s.begun|
       && s.begun[e.id].t == e.t == r.t && s.begun[e.id].op == e.op
       && s.begun[e.id].when <= r.at < r.when
       && r.reply == MapStep(After(m, n, s.history[..r.at]), n, e.op).1
  }

  /** With nobody inside, every call is answered and the store stands for what the calls, one at a
      time, have made of the map. */
  ghost predicate Settled(s: System, m: Contents, n: nat)
    requires n > 0
  {
    && StoreModel.Inv(s.store) && EntriesOk(s.store)
    && Abs(s.store) == After(m, n, s.history)
    && (forall id :: 0 <= id < |s.begun| ==> !NotLookedUp(s, id))
    && (forall at :: 0 <= at < |s.history| ==> !Unanswered(s, at))
  }

  /** For every run from a store in order, any threads, any schedule: the calls begun are those of
      the run; there is one order, the history, in which each takes effect at most once, between
      its beginning and its answer; every answer is the one the map gives in that order; none is
      given twice; and once all threads rest, every call is answered and the store stands for the
      outcome. */
  lemma Linearizable(store: Store, threads: set<Tid>, run: seq<Turn>)
    requires StoreModel.Inv(store) && ValidRun(Initial(store, threads), run)
    ensures EntriesOk(store) && |store.files| > 0
    ensures var s := Final(Initial(store, threads), run); var n := |store.files|; var m := Abs(store);
            && Names(s.begun) == Starts(run)
            && LookedUpOnce(s.history) && AnsweredOnce(s.returned)
            && (forall i :: 0 <= i < |s.returned| ==> CallAnswered(s, m, n, s.returned[i]))
            && ((forall t :: t in s.locals ==> s.locals[t].AtRest?) ==> Settled(s, m, n))
  {
    hide ConcurrentStore.Inv, Abs, ValidRun, Final, StoreModel.Inv, EntriesOk, Initial, CallsOk, CallAnswered, Settled, LookedUpOnce, AnsweredOnce;
    assert EntriesOk(store) by { EntriesHold(store); }
    FileCount(store);
    var s0 := Initial(store, threads);
    var s := Final(s0, run);
    InitialInv(store, threads);
    RunInv(s0, run, Abs(store));
    ConcurrentRuns.SameFileCount(s0, run, Abs(store));
    InitialCount(store, threads);
    InitialCalls(store, threads);
    RunKeepsCalls(s0, run);
    BegunAreStarts(s0, run);
    AnswersAreTheMaps(s, Abs(store));
    OnceEach(s);
    forall i | 0 <= i < |s.returned|
      ensures CallAnswered(s, Abs(store), |store.files|, s.returned[i])
    {
      AnsweredCall(s, Abs(store), |store.files|, i);
    }
    if forall t :: t in s.locals ==> s.locals[t].AtRest? {
      AllSettled(s, Abs(store));
    }
  }

  lemma OnceEach(s: System)
    requires CallsOk(s)
    ensures LookedUpOnce(s.history) && AnsweredOnce(s.returned)
  {
  }

  lemma AnsweredCall(s: System, m: Contents, n: nat, i: nat)
    requires CallsOk(s) && n > 0 && i < |s.returned| && AnsweredByMap(s, m, n, s.returned[i])
    ensures CallAnswered(s, m, n, s.returned[i])
  {
    hide MapStep, After, OpenOk, UnderWay, Owing;
    assert EntryBegun(s, s.returned[i].at) && ReturnOk(s, s.returned[i]);
  }

  lemma AllSettled(s: System, m: Contents)
    requires CallsOk(s) && ConcurrentStore.Inv(s, m) && forall t :: t in s.locals ==> s.locals[t].AtRest?
    ensures |s.files| > 0 && Settled(s, m, |s.files|)
  {
    hide LocksOk, ThreadsOk, LaidOut, Legal, After, Abs, NotLookedUp, Unanswered;
    hide StoreModel.Inv, EntriesOk, OpenOk, EntryBegun, ReturnOk;
    assert EntriesOk(s.store) by { EntriesHold(s.store); }
    forall id | 0 <= id < |s.begun| ensures !NotLookedUp(s, id) { assert UnderWay(s, id); }
    forall at | 0 <= at < |s.history| ensures !Unanswered(s, at) { assert Owing(s, at); }
  }
}
