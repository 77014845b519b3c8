/** Store, journal writer, journal reader and replay put together: what can be read back from a
    flushed journal rebuilds the index. */
module Recovery {
  import opened Bytes
  import opened StoreModel
  import opened StoreRuns
  import opened IndexLog
  import DataFile

  /** Replay of items as the reader hands them out. */
  function ReplayRawItem(index: map<Key, IndexValue>, item: RawItem): map<Key, IndexValue> {
    if item.op == 3 then index - {item.key}
    else if item.op == 1 || item.op == 2 then index[item.key := item.value]
    else index
  }

  function ReplayRaw(index: map<Key, IndexValue>, items: seq<RawItem>): map<Key, IndexValue>
    decreases |items|
  {
    if items == [] then index else ReplayRawItem(ReplayRaw(index, items[..|items| - 1]), items[|items| - 1])
  }

  lemma {:induction false} ReplayRawIsReplay(index: map<Key, IndexValue>, items: seq<LogItem>)
    ensures ReplayRaw(index, Raws(items)) == Replay(index, items)
    decreases |items|
  {
    if items != [] {
      var n := |items| - 1;
      ReplayRawIsReplay(index, items[..n]);
      assert Raws(items)[..n] == Raws(items[..n]);
    }
  }

  /** What a fetched record says about the slots: 1 took the slot that was next in line, 2 took
      none, 3 gave one back. */
  function ReplayRawSlot(files: seq<DataFile.FileState>, item: RawItem): Option<seq<DataFile.FileState>> {
    var b := item.value.blockId;
    if b >= |files| then None
    else if item.op == 1 then
      if DataFile.NextOffset(files[b]) == item.value.offset then Some(files[b := Bare(DataFile.Take(files[b]))]) else None
    else if item.op == 2 then Some(files)
    else if item.op == 3 then Some(files[b := Bare(DataFile.Release(files[b], item.value.offset))])
    else None
  }

  function ReplayRawSlots(files: seq<DataFile.FileState>, items: seq<RawItem>): Option<seq<DataFile.FileState>>
    decreases |items|
  {
    if items == [] then Some(files)
    else
      match ReplayRawSlots(files, items[..|items| - 1])
      case None => None
      case Some(fs) => ReplayRawSlot(fs, items[|items| - 1])
  }

  lemma {:induction false} ReplayRawSlotsIsReplay(files: seq<DataFile.FileState>, items: seq<LogItem>)
    ensures ReplayRawSlots(files, Raws(items)) == ReplaySlots(files, items)
    decreases |items|
  {
    hide DataFile.Take, DataFile.NextOffset, DataFile.Release;
    if items != [] {
      var n := |items| - 1;
      ReplayRawSlotsIsReplay(files, items[..n]);
      assert Raws(items)[..n] == Raws(items[..n]);
    }
  }

  function Fetches(n: nat): (r: seq<Event>)
    ensures |r| == n && forall i :: 0 <= i < n ==> r[i] == DoFetch
  {
    seq(n, _ => DoFetch)
  }

  lemma RunOneMore(s: System, events: seq<Event>, e: Event)
    ensures SystemRun(s, events + [e]) == SystemStep(SystemRun(s, events), e)
  {
    assert (events + [e])[..|events|] == events;
  }

  /** Each fetch moves one item on until all flushed items are out. */
  lemma {:induction false} FetchMany(start: System, events: seq<Event>, n: nat)
    requires SystemOk(SystemRun(start, events))
    requires |Somes(SystemRun(start, events).fetched)| + n <= |Flat(SystemRun(start, events).journal.blocks)|
    ensures var s0 := SystemRun(start, events);
            var s := SystemRun(start, events + Fetches(n));
            SystemOk(s) && s.journal == s0.journal && |Somes(s.fetched)| == |Somes(s0.fetched)| + n
    decreases n
  {
    hide FetchStep, FileBytes, InStep, Flat, SystemRun, Somes;
    if n == 0 {
      assert events + Fetches(0) == events;
    } else {
      FetchMany(start, events, n - 1);
      var before := events + Fetches(n - 1);
      assert events + Fetches(n) == before + [DoFetch];
      RunOneMore(start, before, DoFetch);
      var s1 := SystemRun(start, before);
      var b, i :| InStep(s1, b, i);
      FetchOk(s1, b, i);
      SomesAppend(s1.fetched, FetchStep(FileBytes(s1.journal.blocks), s1.reader).1);
    }
  }

  lemma {:induction false} AppendedFetches(events: seq<Event>, n: nat)
    ensures Appended(events + Fetches(n)) == Appended(events)
    decreases n
  {
    if n == 0 {
      assert events + Fetches(0) == events;
    } else {
      assert events + Fetches(n) == (events + Fetches(n - 1)) + [DoFetch];
      assert (events + Fetches(n))[..|events + Fetches(n)| - 1] == events + Fetches(n - 1);
      AppendedFetches(events, n - 1);
    }
  }

  lemma FlushedAll(events: seq<Event>)
    requires forall k :: 0 <= k < |events| ==> EventOk(events[k])
    ensures var s := SystemRun(StartSystem(), events + [DoFlush]);
            SystemOk(s) && Flat(s.journal.blocks) == Appended(events) && s.journal.pending == []
    ensures Appended(events + [DoFlush]) == Appended(events)
  {
    var all := events + [DoFlush];
    assert all[..|events|] == events;
    EveryInterleaving(all);
    EveryInterleaving(events);
    var s0 := SystemRun(StartSystem(), events);
    var b, i :| InStep(s0, b, i);
    WriterKeepsFlush(s0.journal);
  }

  /** Take any session of calls on a store, log its journal through the double-buffered writer with
      any interleaving of flushes and early fetches, flush at the end, and read the rest: replaying
      what was read, by its numbers, over the index and the allocators at open gives those at the
      end. */
  lemma RecoverIndex(s0: Store, calls: seq<Op>, events: seq<Event>)
    requires Inv(s0) && Ranged(s0) && s0.journal == []
    requires Appended(events) == Run(s0, calls).0.journal
    requires forall k :: 0 <= k < |events| ==> EventOk(events[k])
    ensures var flushed := SystemRun(StartSystem(), events + [DoFlush]);
            var rest := |Appended(events)| - |Somes(flushed.fetched)|;
            && rest >= 0
            && var fetched := Somes(SystemRun(StartSystem(), events + [DoFlush] + Fetches(rest)).fetched);
               && ReplayRaw(s0.index, fetched) == Run(s0, calls).0.index
               && ReplayRawSlots(Allocators(s0.files), fetched) == Some(Allocators(Run(s0, calls).0.files))
  {
    hide Run, Journaled, Fetches, SystemRun, Appended, SystemOk, Flat, Somes, ReplayRaw, ReplayRawSlots, Replay, ReplaySlots, Inv, Encodable, Allocators, SayAll;
    var journal := Appended(events);
    SessionStart(s0);
    RunLogged(s0.index, Allocators(s0.files), s0, calls);
    FlushedAll(events);
    var all := events + [DoFlush];
    EveryInterleaving(all);
    var flushed := SystemRun(StartSystem(), all);
    assert |Somes(flushed.fetched)| <= |Raws(journal)|;
    var rest := |journal| - |Somes(flushed.fetched)|;
    FetchMany(StartSystem(), all, rest);
    AppendedFetches(all, rest);
    FetchesOk(all, rest);
    EveryInterleaving(all + Fetches(rest));
    var end := SystemRun(StartSystem(), all + Fetches(rest));
    assert Somes(end.fetched) == Raws(journal);
    ReplayRawIsReplay(s0.index, journal);
    ReplayRawSlotsIsReplay(Allocators(s0.files), journal);
    JournaledIndex(s0.index, Allocators(s0.files), Run(s0, calls).0);
  }

  lemma FetchesOk(events: seq<Event>, n: nat)
    requires forall k :: 0 <= k < |events| ==> EventOk(events[k])
    ensures var all := events + Fetches(n); forall k :: 0 <= k < |all| ==> EventOk(all[k])
  {
  }

  lemma JournaledIndex(index0: map<Key, IndexValue>, files0: seq<DataFile.FileState>, s: Store)
    requires Journaled(index0, files0, s)
    ensures s.index == Replay(index0, s.journal)
    ensures ReplaySlots(files0, s.journal) == Some(Allocators(s.files))
  {
  }
}
