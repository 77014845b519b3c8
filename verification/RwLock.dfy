/** The read/write lock: three counters under one mutex and one condition variable.

    A call is cut into the atomic sections that run between acquiring the mutex and either
    waiting on the condition or releasing the mutex. `State` holds the counters and, for every
    thread, where it is in the lock's code. Any number of threads may take part, a sleeping
    thread may wake up spuriously at any time, and a woken thread tests its condition again
    only when it has reacquired the mutex, so that any other thread may run in between. */
module RwLock {
  type Tid = nat

  datatype Phase =
    | Idle
    | ReadWait(signalled: bool)   // inside pthread_cond_wait of rwlock_rdlock
    | Reading
    | WriteWait(signalled: bool)  // inside pthread_cond_wait of rwlock_wrlock
    | Writing

  datatype State = State(toBeWrite: int, write: int, read: int, phase: map<Tid, Phase>)

  datatype Event = ReadLock | ReadRetry | ReadUnlock | WriteLock | WriteRetry | WriteUnlock | Spurious

  // ---------- one atomic section ----------

  function Signal(p: Phase): Phase {
    match p
    case ReadWait(_) => ReadWait(true)
    case WriteWait(_) => WriteWait(true)
    case _ => p
  }

  /** pthread_cond_broadcast: every thread asleep on the condition is woken. */
  function Broadcast(s: State): State {
    s.(phase := map t | t in s.phase :: Signal(s.phase[t]))
  }

  /** The test of the reader's wait loop. */
  function TestRead(s: State, t: Tid): State {
    s.(phase := s.phase[t := if s.write > 0 then ReadWait(false) else Reading])
  }

  /** The test of the writer's wait loop, with what follows the loop. */
  function TestWrite(s: State, t: Tid): State {
    if s.read > 0 || s.write > 0
    then s.(phase := s.phase[t := WriteWait(false)])
    else s.(toBeWrite := s.toBeWrite - 1, write := s.write + 1, phase := s.phase[t := Writing])
  }

  function EndRead(s: State, t: Tid): State {
    var s1 := s.(read := s.read - 1, phase := s.phase[t := Idle]);
    if s1.read == 0 && s1.toBeWrite > 0 then Broadcast(s1) else s1
  }

  function EndWrite(s: State, t: Tid): State {
    var s1 := s.(write := s.write - 1, phase := s.phase[t := Idle]);
    if s1.read > 0 || s1.toBeWrite > 0 then Broadcast(s1) else s1
  }

  /** Which section a thread may run next. The caller releases only what it holds. */
  predicate Enabled(s: State, t: Tid, e: Event) {
    && t in s.phase
    && match e
       case ReadLock => s.phase[t] == Idle
       case ReadRetry => s.phase[t] == ReadWait(true)
       case ReadUnlock => s.phase[t] == Reading
       case WriteLock => s.phase[t] == Idle
       case WriteRetry => s.phase[t] == WriteWait(true)
       case WriteUnlock => s.phase[t] == Writing
       case Spurious => s.phase[t] == ReadWait(false) || s.phase[t] == WriteWait(false)
  }

  function Apply(s: State, t: Tid, e: Event): State
    requires Enabled(s, t, e)
  {
    match e
    case ReadLock => TestRead(s.(read := s.read + 1), t)
    case ReadRetry => TestRead(s, t)
    case ReadUnlock => EndRead(s, t)
    case WriteLock => TestWrite(s.(toBeWrite := s.toBeWrite + 1), t)
    case WriteRetry => TestWrite(s, t)
    case WriteUnlock => EndWrite(s, t)
    case Spurious => s.(phase := s.phase[t := Signal(s.phase[t])])
  }

  function Init(threads: set<Tid>): State {
    State(0, 0, 0, map t | t in threads :: Idle)
  }

  // ---------- what every reachable state keeps ----------

  /** Readers waiting or active: the threads `read_queue_len` is there to count. */
  function Readers(s: State): set<Tid> {
    set t | t in s.phase && (s.phase[t].ReadWait? || s.phase[t].Reading?)
  }

  function WaitingWriters(s: State): set<Tid> {
    set t | t in s.phase && s.phase[t].WriteWait?
  }

  function Writers(s: State): set<Tid> {
    set t | t in s.phase && s.phase[t].Writing?
  }

  ghost predicate Counted(s: State) {
    && s.read == |Readers(s)|
    && s.toBeWrite == |WaitingWriters(s)|
    && s.write == |Writers(s)|
  }

  /** At most one writer, and never a writer beside an active reader. */
  ghost predicate Exclusive(s: State) {
    && (forall t, u :: t in s.phase && u in s.phase && s.phase[t].Writing? && s.phase[u].Writing? ==> t == u)
    && (forall t, u :: t in s.phase && u in s.phase && s.phase[t].Writing? ==> !s.phase[u].Reading?)
  }

  /** A thread that sleeps without a pending signal has someone left to wake it. */
  ghost predicate NoLostWakeup(s: State) {
    && (forall t :: t in s.phase && s.phase[t] == ReadWait(false) ==> s.write > 0)
    && (forall t :: t in s.phase && s.phase[t] == WriteWait(false) ==> s.read > 0 || s.write > 0)
  }

  ghost predicate Inv(s: State) {
    Counted(s) && Exclusive(s) && NoLostWakeup(s)
  }

  lemma InitInv(threads: set<Tid>)
    ensures Inv(Init(threads))
  {
    var s := Init(threads);
    assert Readers(s) == {} && WaitingWriters(s) == {} && Writers(s) == {};
  }

  function CountsAsReader(p: Phase): nat {
    if p.ReadWait? || p.Reading? then 1 else 0
  }

  function CountsAsWaitingWriter(p: Phase): nat {
    if p.WriteWait? then 1 else 0
  }

  function CountsAsWriter(p: Phase): nat {
    if p.Writing? then 1 else 0
  }

  lemma SplitOff(a: set<Tid>, t: Tid)
    ensures |a| == |a - {t}| + (if t in a then 1 else 0)
  {
    if t !in a { assert a - {t} == a; }
  }

  lemma MoveReader(s: State, t: Tid, p: Phase)
    requires t in s.phase
    ensures |Readers(s.(phase := s.phase[t := p]))| == |Readers(s)| - CountsAsReader(s.phase[t]) + CountsAsReader(p)
  {
    var s1 := s.(phase := s.phase[t := p]);
    SplitOff(Readers(s), t);
    SplitOff(Readers(s1), t);
    assert Readers(s1) - {t} == Readers(s) - {t};
  }

  lemma MoveWaitingWriter(s: State, t: Tid, p: Phase)
    requires t in s.phase
    ensures |WaitingWriters(s.(phase := s.phase[t := p]))| == |WaitingWriters(s)| - CountsAsWaitingWriter(s.phase[t]) + CountsAsWaitingWriter(p)
  {
    var s1 := s.(phase := s.phase[t := p]);
    SplitOff(WaitingWriters(s), t);
    SplitOff(WaitingWriters(s1), t);
    assert WaitingWriters(s1) - {t} == WaitingWriters(s) - {t};
  }

  lemma MoveWriter(s: State, t: Tid, p: Phase)
    requires t in s.phase
    ensures |Writers(s.(phase := s.phase[t := p]))| == |Writers(s)| - CountsAsWriter(s.phase[t]) + CountsAsWriter(p)
  {
    var s1 := s.(phase := s.phase[t := p]);
    SplitOff(Writers(s), t);
    SplitOff(Writers(s1), t);
    assert Writers(s1) - {t} == Writers(s) - {t};
  }

  /** How the three populations move when one thread changes phase. */
  lemma MoveCounts(s: State, t: Tid, p: Phase)
    requires t in s.phase
    ensures var s1 := s.(phase := s.phase[t := p]);
            && |Readers(s1)| == |Readers(s)| - CountsAsReader(s.phase[t]) + CountsAsReader(p)
            && |WaitingWriters(s1)| == |WaitingWriters(s)| - CountsAsWaitingWriter(s.phase[t]) + CountsAsWaitingWriter(p)
            && |Writers(s1)| == |Writers(s)| - CountsAsWriter(s.phase[t]) + CountsAsWriter(p)
  {
    MoveReader(s, t, p);
    MoveWaitingWriter(s, t, p);
    MoveWriter(s, t, p);
  }

  lemma BroadcastCounts(s: State)
    ensures Readers(Broadcast(s)) == Readers(s)
    ensures WaitingWriters(Broadcast(s)) == WaitingWriters(s)
    ensures Writers(Broadcast(s)) == Writers(s)
  {
  }

  /** A positive counter names a thread, and a member makes the counter positive. */
  lemma CountersName(s: State)
    requires Counted(s)
    ensures s.read > 0 <==> exists t :: t in Readers(s)
    ensures s.write > 0 <==> exists t :: t in Writers(s)
    ensures s.toBeWrite > 0 <==> exists t :: t in WaitingWriters(s)
  {
    if s.read > 0 { assert Readers(s) != {}; }
    if s.write > 0 { assert Writers(s) != {}; }
    if s.toBeWrite > 0 { assert WaitingWriters(s) != {}; }
  }

  lemma CountsPreserved(s: State, t: Tid, e: Event)
    requires Inv(s) && Enabled(s, t, e)
    ensures Counted(Apply(s, t, e))
  {
    var s' := Apply(s, t, e);
    match e {
      case ReadLock => MoveCounts(s, t, s'.phase[t]);
      case ReadRetry => MoveCounts(s, t, s'.phase[t]);
      case WriteLock => MoveCounts(s, t, s'.phase[t]);
      case WriteRetry => MoveCounts(s, t, s'.phase[t]);
      case Spurious => MoveCounts(s, t, s'.phase[t]);
      case ReadUnlock =>
        MoveCounts(s, t, Idle);
        BroadcastCounts(s.(read := s.read - 1, phase := s.phase[t := Idle]));
      case WriteUnlock =>
        MoveCounts(s, t, Idle);
        BroadcastCounts(s.(write := s.write - 1, phase := s.phase[t := Idle]));
    }
  }

  /** What the counters say about who holds the lock. */
  lemma HoldersCounted(s: State)
    requires Counted(s)
    ensures s.write <= 0 ==> forall u :: u in s.phase ==> !s.phase[u].Writing?
    ensures s.read <= 0 ==> forall u :: u in s.phase ==> !s.phase[u].Reading?
  {
    CountersName(s);
    assert forall u :: u in s.phase && s.phase[u].Writing? ==> u in Writers(s);
    assert forall u :: u in s.phase && s.phase[u].Reading? ==> u in Readers(s);
  }

  lemma ExclusionPreserved(s: State, t: Tid, e: Event)
    requires Inv(s) && Enabled(s, t, e)
    ensures Exclusive(Apply(s, t, e))
  {
    hide Counted, NoLostWakeup;
    HoldersCounted(s);
    match e
    case ReadLock => TestReadExclusive(s.(read := s.read + 1), t);
    case ReadRetry => TestReadExclusive(s, t);
    case WriteLock => TestWriteExclusive(s.(toBeWrite := s.toBeWrite + 1), t);
    case WriteRetry => TestWriteExclusive(s, t);
    case ReadUnlock => LeaveExclusive(s, t);
    case WriteUnlock => LeaveExclusive(s, t);
    case Spurious =>
  }

  lemma TestReadExclusive(s: State, t: Tid)
    requires Exclusive(s) && t in s.phase && !s.phase[t].Writing?
    requires s.write <= 0 ==> forall u :: u in s.phase ==> !s.phase[u].Writing?
    ensures Exclusive(TestRead(s, t))
  {
  }

  lemma TestWriteExclusive(s: State, t: Tid)
    requires Exclusive(s) && t in s.phase
    requires s.write <= 0 ==> forall u :: u in s.phase ==> !s.phase[u].Writing?
    requires s.read <= 0 ==> forall u :: u in s.phase ==> !s.phase[u].Reading?
    ensures Exclusive(TestWrite(s, t))
  {
  }

  lemma LeaveExclusive(s: State, t: Tid)
    requires Exclusive(s) && t in s.phase
    ensures Exclusive(EndRead(s, t)) && Exclusive(EndWrite(s, t))
  {
    SignalKeepsHolding();
    assert Exclusive(s.(phase := s.phase[t := Idle]));
  }

  lemma SignalKeepsHolding()
    ensures forall p :: Signal(p).Writing? == p.Writing? && Signal(p).Reading? == p.Reading?
  {
  }

  lemma WakeupsPreserved(s: State, t: Tid, e: Event)
    requires Inv(s) && Enabled(s, t, e)
    ensures NoLostWakeup(Apply(s, t, e))
  {
    var s' := Apply(s, t, e);
    CountsPreserved(s, t, e);
    CountersName(s');
    forall u | u in s'.phase && s'.phase[u] == ReadWait(false)
      ensures s'.write > 0
    {
      assert u in Readers(s');
    }
    forall u | u in s'.phase && s'.phase[u] == WriteWait(false)
      ensures s'.read > 0 || s'.write > 0
    {
      assert u in WaitingWriters(s');
    }
  }

  lemma StepInv(s: State, t: Tid, e: Event)
    requires Inv(s) && Enabled(s, t, e)
    ensures Inv(Apply(s, t, e)) && Apply(s, t, e).phase.Keys == s.phase.Keys
  {
    CountsPreserved(s, t, e);
    ExclusionPreserved(s, t, e);
    WakeupsPreserved(s, t, e);
  }

  // ---------- every run ----------

  datatype Move = Move(t: Tid, e: Event)

  ghost predicate ValidRun(s: State, run: seq<Move>)
    decreases |run|
  {
    run != [] ==> Enabled(s, run[0].t, run[0].e) && ValidRun(Apply(s, run[0].t, run[0].e), run[1..])
  }

  ghost function Final(s: State, run: seq<Move>): State
    requires ValidRun(s, run)
    decreases |run|
  {
    if run == [] then s else Final(Apply(s, run[0].t, run[0].e), run[1..])
  }

  /** The invariant holds at the end of every run, so in every reachable state. */
  lemma {:induction false} RunInv(s: State, run: seq<Move>)
    requires Inv(s) && ValidRun(s, run)
    ensures Inv(Final(s, run)) && Final(s, run).phase.Keys == s.phase.Keys
    decreases |run|
  {
    if run != [] {
      StepInv(s, run[0].t, run[0].e);
      RunInv(Apply(s, run[0].t, run[0].e), run[1..]);
    }
  }

  /** From the initial state, for any set of threads and any schedule: exclusion and no lost wakeup. */
  lemma ReachableSafe(threads: set<Tid>, run: seq<Move>)
    requires ValidRun(Init(threads), run)
    ensures var s := Final(Init(threads), run);
            && s.read == |Readers(s)|
            && |Writers(s)| <= 1
            && (forall t, u :: t in s.phase && u in s.phase && s.phase[t].Writing? ==> !s.phase[u].Reading?)
            && (forall t :: t in s.phase && s.phase[t] == ReadWait(false) ==> s.write > 0)
            && (forall t :: t in s.phase && s.phase[t] == WriteWait(false) ==> s.read > 0 || s.write > 0)
  {
    InitInv(threads);
    RunInv(Init(threads), run);
    AtMostOneWriter(Final(Init(threads), run));
  }

  lemma AtMostOneWriter(s: State)
    requires Exclusive(s)
    ensures |Writers(s)| <= 1
  {
    if t :| t in Writers(s) {
      assert Writers(s) == {t};
    }
  }

  // ---------- who gets in, and who is woken ----------

  /** A thread outside may always ask; it gets in at once for reading exactly when nobody writes, and
      for writing exactly when nobody writes, reads or waits to read. */
  lemma Admission(s: State, t: Tid)
    requires Inv(s) && t in s.phase && s.phase[t] == Idle
    ensures Enabled(s, t, ReadLock) && Enabled(s, t, WriteLock)
    ensures var p := Apply(s, t, ReadLock).phase[t];
            if Writers(s) == {} then p == Reading else p == ReadWait(false)
    ensures var p := Apply(s, t, WriteLock).phase[t];
            if Writers(s) == {} && Readers(s) == {} then p == Writing else p == WriteWait(false)
  {
    CountersName(s);
  }

  /** A woken thread may test again, and gets in or sleeps on under the same conditions. */
  lemma SecondTry(s: State, t: Tid)
    requires Inv(s) && t in s.phase
    ensures s.phase[t] == ReadWait(true) ==>
              Enabled(s, t, ReadRetry) && Apply(s, t, ReadRetry).phase[t] == if Writers(s) == {} then Reading else ReadWait(false)
    ensures s.phase[t] == WriteWait(true) ==>
              Enabled(s, t, WriteRetry) && Apply(s, t, WriteRetry).phase[t] == if Writers(s) == {} && Readers(s) == {} then Writing else WriteWait(false)
  {
    CountersName(s);
  }

  /** A holder may always leave. When a writer does, nobody is left asleep; when the last reader
      does, no writer is. */
  lemma Leaving(s: State, t: Tid)
    requires Inv(s) && t in s.phase
    ensures s.phase[t] == Writing ==>
              Enabled(s, t, WriteUnlock) && Apply(s, t, WriteUnlock).phase[t] == Idle
              && forall u :: u in s.phase ==> Apply(s, t, WriteUnlock).phase[u] != ReadWait(false) && Apply(s, t, WriteUnlock).phase[u] != WriteWait(false)
    ensures s.phase[t] == Reading ==>
              Enabled(s, t, ReadUnlock) && Apply(s, t, ReadUnlock).phase[t] == Idle
              && (Readers(s) == {t} ==> forall u :: u in s.phase ==> Apply(s, t, ReadUnlock).phase[u] != WriteWait(false))
  {
    if s.phase[t] == Writing {
      StepInv(s, t, WriteUnlock);
      assert t in Writers(s);
      AtMostOneWriter(s);
      AloneInSet(Writers(s), t);
      LeftSet(s, t);
    } else if s.phase[t] == Reading {
      CountersName(s);
      StepInv(s, t, ReadUnlock);
      if Readers(s) == {t} { LastReader(s, t); }
    }
  }

  lemma AloneInSet(a: set<Tid>, t: Tid)
    requires t in a && |a| <= 1
    ensures |a| == 1
  {
    SplitOff(a, t);
  }

  lemma LeftSet(s: State, t: Tid)
    requires Inv(s) && t in s.phase && s.phase[t] == Writing && |Writers(s)| == 1
    ensures forall u :: u in s.phase ==> EndWrite(s, t).phase[u] != ReadWait(false) && EndWrite(s, t).phase[u] != WriteWait(false)
  {
    CountersName(s);
    forall u | u in s.phase
      ensures EndWrite(s, t).phase[u] != ReadWait(false) && EndWrite(s, t).phase[u] != WriteWait(false)
    {
      if s.phase[u].ReadWait? { assert u in Readers(s); }
      if s.phase[u].WriteWait? { assert u in WaitingWriters(s); }
    }
  }

  lemma LastReader(s: State, t: Tid)
    requires Inv(s) && t in s.phase && s.phase[t] == Reading && Readers(s) == {t}
    ensures forall u :: u in s.phase ==> EndRead(s, t).phase[u] != WriteWait(false)
  {
    CountersName(s);
    forall u | u in s.phase
      ensures EndRead(s, t).phase[u] != WriteWait(false)
    {
      if s.phase[u].WriteWait? { assert u in WaitingWriters(s); }
    }
  }

  /** A sleeping thread may wake for no reason at any time; that changes nothing else. */
  lemma SpuriousWakeup(s: State, t: Tid)
    requires t in s.phase && (s.phase[t] == ReadWait(false) || s.phase[t] == WriteWait(false))
    ensures Enabled(s, t, Spurious)
    ensures Apply(s, t, Spurious) == s.(phase := s.phase[t := if s.phase[t].ReadWait? then ReadWait(true) else WriteWait(true)])
  {
  }

  // ---------- progress ----------

  /** A move that needs nobody's permission: a holder leaves, or a woken thread tests again. */
  predicate Progress(e: Event) {
    e.ReadUnlock? || e.WriteUnlock? || e.ReadRetry? || e.WriteRetry?
  }

  /** Whenever a thread is inside the lock's code, some thread holds it or is runnable. */
  lemma NoDeadlock(s: State, t: Tid) returns (m: Move)
    requires Inv(s) && t in s.phase && s.phase[t] != Idle
    ensures Progress(m.e) && Enabled(s, m.t, m.e)
  {
    CountersName(s);
    if s.write > 0 {
      var w :| w in Writers(s);
      m := Move(w, WriteUnlock);
    } else if s.read > 0 {
      var r :| r in Readers(s);
      m := Move(r, if s.phase[r].Reading? then ReadUnlock else ReadRetry);
    } else {
      assert t !in Readers(s) && t !in Writers(s);
      m := Move(t, WriteRetry);
    }
  }

  function Busy(s: State): set<Tid> {
    set t | t in s.phase && s.phase[t] != Idle
  }

  function Woken(s: State): set<Tid> {
    set t | t in s.phase && (s.phase[t] == ReadWait(true) || s.phase[t] == WriteWait(true))
  }

  /** Work left when no thread asks for the lock anew. */
  function Work(s: State): nat {
    |Busy(s)| * (|s.phase.Keys| + 1) + |Woken(s)|
  }

  lemma Subset(a: set<Tid>, b: set<Tid>)
    requires a <= b
    ensures |a| <= |b|
  {
    assert b == a + (b - a);
  }

  lemma ProgressDecreasesWork(s: State, m: Move)
    requires Enabled(s, m.t, m.e) && Progress(m.e)
    ensures Work(Apply(s, m.t, m.e)) < Work(s)
  {
    hide Broadcast, Signal, Work;
    var s' := Apply(s, m.t, m.e);
    SameThreads(s, m.t, m.e);
    if m.e.ReadUnlock? || m.e.WriteUnlock? {
      LeaveBusy(s, m.t, m.e);
      LessBusy(s, s');
    } else {
      TestBusy(s, m.t, m.e);
      LessWoken(s, s');
    }
  }

  lemma SameThreads(s: State, t: Tid, e: Event)
    requires Enabled(s, t, e)
    ensures Apply(s, t, e).phase.Keys == s.phase.Keys
  {
  }

  lemma LeaveBusy(s: State, t: Tid, e: Event)
    requires Enabled(s, t, e) && (e.ReadUnlock? || e.WriteUnlock?)
    ensures Busy(Apply(s, t, e)) == Busy(s) - {t} && t in Busy(s)
  {
  }

  lemma TestBusy(s: State, t: Tid, e: Event)
    requires Enabled(s, t, e) && (e.ReadRetry? || e.WriteRetry?)
    ensures Busy(Apply(s, t, e)) == Busy(s)
    ensures Woken(Apply(s, t, e)) == Woken(s) - {t} && t in Woken(s)
  {
  }

  lemma LessBusy(s: State, s': State)
    requires s'.phase.Keys == s.phase.Keys && exists t :: t in Busy(s) && Busy(s') == Busy(s) - {t}
    ensures Work(s') < Work(s)
  {
    var t :| t in Busy(s) && Busy(s') == Busy(s) - {t};
    var n := |s.phase.Keys| + 1;
    SplitOff(Busy(s), t);
    Subset(Woken(s'), s'.phase.Keys);
    assert |Busy(s)| * n == |Busy(s')| * n + n;
  }

  lemma LessWoken(s: State, s': State)
    requires s'.phase.Keys == s.phase.Keys && Busy(s') == Busy(s) && exists t :: t in Woken(s) && Woken(s') == Woken(s) - {t}
    ensures Work(s') < Work(s)
  {
    var t :| t in Woken(s) && Woken(s') == Woken(s) - {t};
    SplitOff(Woken(s), t);
  }

  ghost predicate OnlyProgress(run: seq<Move>) {
    forall i :: 0 <= i < |run| ==> Progress(run[i].e)
  }

  /** Once no new request or spurious wakeup comes, every schedule is finite, and when it can go
      no further every thread has been through the lock: nobody is left waiting. */
  lemma {:induction false} EveryoneServed(s: State, run: seq<Move>)
    requires Inv(s) && ValidRun(s, run) && OnlyProgress(run)
    ensures |run| <= Work(s)
    ensures (forall t, e :: Progress(e) ==> !Enabled(Final(s, run), t, e)) ==> Busy(Final(s, run)) == {}
    decreases |run|
  {
    if run == [] {
      if t :| t in Busy(s) {
        var m := NoDeadlock(s, t);
      }
    } else {
      var m := run[0];
      var s' := Apply(s, m.t, m.e);
      StepInv(s, m.t, m.e);
      ProgressDecreasesWork(s, m);
      assert forall i :: 0 <= i < |run[1..]| ==> run[1..][i] == run[i + 1];
      EveryoneServed(s', run[1..]);
    }
  }

  // ---------- reader preference ----------

  /** While a reader is counted nobody acquires for writing. */
  lemma NoWriterOvertakes(s: State, r: Tid, t: Tid, e: Event)
    requires Inv(s) && r in Readers(s) && Enabled(s, t, e)
    ensures Writers(Apply(s, t, e)) <= Writers(s)
    ensures !(t == r && e.ReadUnlock?) ==> r in Readers(Apply(s, t, e))
  {
    CountersName(s);
  }

  /** Over any run in which reader `r` has not yet left, no new writer gets in; so once the one
      writer that was inside when `r` was counted leaves, `r` is awake and its next test admits it. */
  lemma {:induction false} ReaderWaitsForOneWriter(s: State, run: seq<Move>, r: Tid)
    requires Inv(s) && ValidRun(s, run) && r in Readers(s)
    requires forall i :: 0 <= i < |run| ==> run[i] != Move(r, ReadUnlock)
    ensures Writers(Final(s, run)) <= Writers(s) && |Writers(s)| <= 1
    ensures r in Readers(Final(s, run))
    ensures Writers(Final(s, run)) == {} ==>
              var f := Final(s, run);
              f.phase[r].Reading? || (Enabled(f, r, ReadRetry) && Apply(f, r, ReadRetry).phase[r].Reading?)
    decreases |run|
  {
    AtMostOneWriter(s);
    if run == [] {
      CountersName(s);
    } else {
      var m := run[0];
      assert m != Move(r, ReadUnlock);
      StepInv(s, m.t, m.e);
      NoWriterOvertakes(s, r, m.t, m.e);
      assert forall i :: 0 <= i < |run[1..]| ==> run[1..][i] == run[i + 1];
      ReaderWaitsForOneWriter(Apply(s, m.t, m.e), run[1..], r);
    }
  }

  // ---------- the lock object ----------

  /** struct rwlock_t. The phases are what the threads' own stacks remember. */
  class Lock {
    var toBeWriteQueueLen: int
    var writeQueueLen: int
    var readQueueLen: int
    ghost var phase: map<Tid, Phase>

    ghost function Model(): State
      reads this
    {
      State(toBeWriteQueueLen, writeQueueLen, readQueueLen, phase)
    }

    constructor (ghost threads: set<Tid>)
      ensures Model() == Init(threads) && Inv(Model())
    {
      toBeWriteQueueLen, writeQueueLen, readQueueLen := 0, 0, 0;
      phase := Init(threads).phase;
      new;
      InitInv(threads);
    }

    /** rwlock_rdlock up to its first wait or its return. */
    method ReadLock(ghost t: Tid) returns (acquired: bool)
      requires Inv(Model()) && Enabled(Model(), t, Event.ReadLock)
      modifies this
      ensures Inv(Model()) && Model() == Apply(old(Model()), t, Event.ReadLock)
      ensures acquired == phase[t].Reading?
    {
      StepInv(Model(), t, Event.ReadLock);
      readQueueLen := readQueueLen + 1;
      acquired := !(writeQueueLen > 0);
      phase := phase[t := if acquired then Reading else ReadWait(false)];
    }

    /** rwlock_rdlock from a wakeup to its next wait or its return. */
    method ReadRetry(ghost t: Tid) returns (acquired: bool)
      requires Inv(Model()) && Enabled(Model(), t, Event.ReadRetry)
      modifies this
      ensures Inv(Model()) && Model() == Apply(old(Model()), t, Event.ReadRetry)
      ensures acquired == phase[t].Reading?
    {
      StepInv(Model(), t, Event.ReadRetry);
      acquired := !(writeQueueLen > 0);
      phase := phase[t := if acquired then Reading else ReadWait(false)];
    }

    method ReadUnlock(ghost t: Tid)
      requires Inv(Model()) && Enabled(Model(), t, Event.ReadUnlock)
      modifies this
      ensures Inv(Model()) && Model() == Apply(old(Model()), t, Event.ReadUnlock)
    {
      StepInv(Model(), t, Event.ReadUnlock);
      readQueueLen := readQueueLen - 1;
      phase := phase[t := Idle];
      if readQueueLen == 0 && toBeWriteQueueLen > 0 {
        WakeAll();
      }
    }

    /** rwlock_wrlock up to its first wait or its return. */
    method WriteLock(ghost t: Tid) returns (acquired: bool)
      requires Inv(Model()) && Enabled(Model(), t, Event.WriteLock)
      modifies this
      ensures Inv(Model()) && Model() == Apply(old(Model()), t, Event.WriteLock)
      ensures acquired == phase[t].Writing?
    {
      StepInv(Model(), t, Event.WriteLock);
      toBeWriteQueueLen := toBeWriteQueueLen + 1;
      acquired := !(readQueueLen > 0 || writeQueueLen > 0);
      if acquired {
        toBeWriteQueueLen := toBeWriteQueueLen - 1;
        writeQueueLen := writeQueueLen + 1;
      }
      phase := phase[t := if acquired then Writing else WriteWait(false)];
    }

    /** rwlock_wrlock from a wakeup to its next wait or its return. */
    method WriteRetry(ghost t: Tid) returns (acquired: bool)
      requires Inv(Model()) && Enabled(Model(), t, Event.WriteRetry)
      modifies this
      ensures Inv(Model()) && Model() == Apply(old(Model()), t, Event.WriteRetry)
      ensures acquired == phase[t].Writing?
    {
      StepInv(Model(), t, Event.WriteRetry);
      acquired := !(readQueueLen > 0 || writeQueueLen > 0);
      if acquired {
        toBeWriteQueueLen := toBeWriteQueueLen - 1;
        writeQueueLen := writeQueueLen + 1;
      }
      phase := phase[t := if acquired then Writing else WriteWait(false)];
    }

    method WriteUnlock(ghost t: Tid)
      requires Inv(Model()) && Enabled(Model(), t, Event.WriteUnlock)
      modifies this
      ensures Inv(Model()) && Model() == Apply(old(Model()), t, Event.WriteUnlock)
    {
      StepInv(Model(), t, Event.WriteUnlock);
      writeQueueLen := writeQueueLen - 1;
      phase := phase[t := Idle];
      if readQueueLen > 0 || toBeWriteQueueLen > 0 {
        WakeAll();
      }
    }

    /** pthread_cond_broadcast on the lock's condition. */
    ghost method WakeAll()
      modifies this`phase
      ensures Model() == Broadcast(old(Model()))
    {
      phase := Broadcast(Model()).phase;
    }
  }
}
