/** Every call on the concurrent store comes to an end. */
module ConcurrentProgress {
  import opened StoreModel
  import opened StoreRuns
  import opened WriterSteps
  import opened ConcurrentStore
  import opened ConcurrentRuns
  import RwLock

  // ---------- work left ----------

  /** How many moves, failing tests of a lock's condition aside, a call still has before it. */
  function Steps(l: Local): nat {
    match l
    case AtRest => 0
    case Entering(_, _) => 29
    case Hit(_, _) => 4
    case Locking(_, _) => 3
    case Holding(_, _) => 2
    case Got(_, _, _) => 1
    case Missed(_) => 1
    case Running(_, _, rest, _, asked) => 2 * |rest| + (if asked then 1 else 2)
  }

  /** One token for every such move. */
  function Tokens(s: System): set<(Tid, nat)> {
    set t, i: nat | t in s.locals && i < Steps(s.locals[t]) :: (t, i)
  }

  predicate IsWoken(l: RwLock.State, t: Tid) {
    t in l.phase && (l.phase[t] == RwLock.ReadWait(true) || l.phase[t] == RwLock.WriteWait(true))
  }

  /** The woken threads, with the file lock they are going to test. */
  function WokenAt(s: System): set<(nat, Tid)> {
    set b: nat, t | b < |s.files| && t in s.locals && IsWoken(s.files[b], t) :: (b, t)
  }

  function WokenAtIndex(s: System): set<Tid> {
    set t | t in s.locals && IsWoken(s.index, t)
  }

  function Places(s: System): set<(nat, Tid)> {
    set b: nat, t | b < |s.files| && t in s.locals :: (b, t)
  }

  /** The most threads that can be awake and about to test. */
  function MostWoken(s: System): nat {
    |Places(s)| + |s.locals.Keys|
  }

  function WokenCount(s: System): nat {
    |WokenAt(s)| + |WokenAtIndex(s)|
  }

  function Weigh(tokens: nat, most: nat, woken: nat): nat {
    tokens * (most + 1) + woken
  }

  function Work(s: System): nat {
    Weigh(|Tokens(s)|, MostWoken(s), WokenCount(s))
  }

  lemma WeighSteps(tokens: nat, tokens': nat, most: nat, woken: nat, woken': nat)
    requires tokens' < tokens && woken' <= most
    ensures Weigh(tokens', most, woken') < Weigh(tokens, most, woken)
  {
    assert tokens * (most + 1) == (tokens - 1) * (most + 1) + (most + 1);
    Monotone(tokens', tokens - 1, most + 1);
  }

  lemma {:induction false} Monotone(a: nat, b: nat, c: nat)
    requires a <= b
    ensures a * c <= b * c
  {
  }

  lemma SmallerSet<T>(a: set<T>, b: set<T>)
    requires a <= b
    ensures |a| <= |b|
    ensures a != b ==> |a| < |b|
  {
    assert b == a + (b - a);
    if a != b {
      var x :| x in b && x !in a;
      assert x in b - a;
    }
  }

  lemma WokenBound(s: System)
    ensures WokenCount(s) <= MostWoken(s)
  {
    SmallerSet(WokenAt(s), Places(s));
    SmallerSet(WokenAtIndex(s), s.locals.Keys);
  }

  // ---------- each useful move does some of it ----------

  lemma ProgramLength(s: Store, op: Op)
    ensures |Program(s, op)| <= 13
  {
    hide ClassFor, ClassSize, FixKey;
  }

  predicate IsTest(m: Move) {
    m.IndexAgain? || m.FileAgain?
  }

  /** A move that is not a test of a lock's condition brings its call forward. */
  lemma MoveSteps(s: System, t: Tid, m: Move)
    requires CanMove(s, t, m) && Useful(m) && !IsTest(m)
    ensures var s' := Next(s, t, m);
            && t in s'.locals && Steps(s'.locals[t]) < Steps(s.locals[t])
            && s'.locals == s.locals[t := s'.locals[t]]
  {
    hide RwLock.Apply, RwLock.Enabled, Do, MapStep, Program, Step, StartRegs, CanFile, HeldAfter, At;
    if m.Lookup? { ProgramLength(s.store, s.locals[t].op); }
  }

  lemma FewerTokens(s: System, s': System, t: Tid)
    requires t in s.locals && t in s'.locals && s'.locals == s.locals[t := s'.locals[t]] && Steps(s'.locals[t]) < Steps(s.locals[t])
    ensures |Tokens(s')| < |Tokens(s)|
  {
    hide Steps;
    assert (t, Steps(s'.locals[t])) in Tokens(s) && (t, Steps(s'.locals[t])) !in Tokens(s');
    SmallerSet(Tokens(s'), Tokens(s));
  }

  /** A woken thread that tests is woken no more, and wakes nobody. */
  lemma TestSleeps(l: RwLock.State, t: Tid, e: RwLock.Event, u: Tid)
    requires RwLock.Enabled(l, t, e) && (e.ReadRetry? || e.WriteRetry?)
    ensures IsWoken(l, t) && !IsWoken(RwLock.Apply(l, t, e), t)
    ensures u != t ==> IsWoken(RwLock.Apply(l, t, e), u) == IsWoken(l, u)
  {
  }

  lemma TestMove(s: System, t: Tid, m: Move)
    requires CanMove(s, t, m) && Useful(m) && IsTest(m)
    ensures var s' := Next(s, t, m);
            s'.locals == s.locals && |s'.files| == |s.files| && WokenCount(s') < WokenCount(s)
  {
    hide RwLock.Apply, RwLock.Enabled, IsWoken;
    var s' := Next(s, t, m);
    match m
    case IndexAgain(e) =>
      forall u ensures u != t ==> IsWoken(s'.index, u) == IsWoken(s.index, u) { TestSleeps(s.index, t, e, u); }
      TestSleeps(s.index, t, e, t);
      assert t in WokenAtIndex(s) && t !in WokenAtIndex(s');
      SmallerSet(WokenAtIndex(s'), WokenAtIndex(s));
      assert WokenAt(s') == WokenAt(s);
    case FileAgain(b, e) =>
      forall u ensures u != t ==> IsWoken(s'.files[b], u) == IsWoken(s.files[b], u) { TestSleeps(s.files[b], t, e, u); }
      TestSleeps(s.files[b], t, e, t);
      assert (b, t) in WokenAt(s) && (b, t) !in WokenAt(s');
      SmallerSet(WokenAt(s'), WokenAt(s));
      assert WokenAtIndex(s') == WokenAtIndex(s);
  }

  lemma SamePlaces(s: System, s': System)
    requires s'.locals.Keys == s.locals.Keys && |s'.files| == |s.files|
    ensures MostWoken(s') == MostWoken(s)
  {
    assert forall t :: t in s.locals <==> t in s'.locals;
    assert Places(s') == Places(s);
  }

  lemma MoveWorks(s: System, t: Tid, m: Move)
    requires CanMove(s, t, m) && Useful(m)
    ensures Work(Next(s, t, m)) < Work(s)
  {
    hide CanMove, Next, Weigh, Tokens, MostWoken, WokenCount, Steps;
    var s' := Next(s, t, m);
    NextFiles(s, t, m);
    WokenBound(s');
    if IsTest(m) {
      TestMove(s, t, m);
      SamePlaces(s, s');
      SameTokens(s, s');
      WeighWoken(|Tokens(s)|, MostWoken(s), WokenCount(s'), WokenCount(s));
    } else {
      MoveSteps(s, t, m);
      Moves(s, t, m);
      SamePlaces(s, s');
      FewerTokens(s, s', t);
      WeighSteps(|Tokens(s)|, |Tokens(s')|, MostWoken(s), WokenCount(s), WokenCount(s'));
    }
  }

  lemma Moves(s: System, t: Tid, m: Move)
    requires CanMove(s, t, m)
    ensures t in s.locals
  {
  }

  lemma SameTokens(s: System, s': System)
    requires s'.locals == s.locals
    ensures Tokens(s') == Tokens(s)
  {
  }

  lemma WeighWoken(tokens: nat, most: nat, woken: nat, woken': nat)
    requires woken < woken'
    ensures Weigh(tokens, most, woken) < Weigh(tokens, most, woken')
  {
  }

  // ---------- every call ends ----------

  ghost predicate OnlyUseful(run: seq<Turn>) {
    forall i :: 0 <= i < |run| ==> Useful(run[i].m)
  }

  /** Once no new calls start and nobody wakes up for nothing, every schedule ends after a number of
      moves fixed at its beginning; and when it can go no further, every thread is at rest, so every
      call has been answered. */
  lemma {:induction false} EveryCallEnds(s: System, m: Contents, run: seq<Turn>)
    requires ConcurrentStore.Inv(s, m) && ValidRun(s, run) && OnlyUseful(run)
    ensures |run| <= Work(s)
    ensures (forall t, move :: Useful(move) ==> !CanMove(Final(s, run), t, move)) ==>
              forall t :: t in Final(s, run).locals ==> Final(s, run).locals[t].AtRest?
    decreases |run|
  {
    hide ConcurrentStore.Inv, CanMove, Next, Work;
    if run == [] {
      if t :| t in s.locals && !s.locals[t].AtRest? {
        var turn := SomeoneCanMove(s, m, t);
      }
    } else {
      var turn := run[0];
      assert Useful(turn.m);
      KeepMove(s, turn.t, turn.m, m);
      MoveWorks(s, turn.t, turn.m);
      assert forall i :: 0 <= i < |run[1..]| ==> run[1..][i] == run[i + 1];
      EveryCallEnds(Next(s, turn.t, turn.m), m, run[1..]);
    }
  }
}
