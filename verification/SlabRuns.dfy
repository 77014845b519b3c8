/** The slab allocator over whole runs of allocations and frees. */
module SlabRuns {
  import opened Bytes
  import opened SlabClasses
  import opened SlabModel

  // ---------- memory taken from the system ----------

  function SlabCount(classes: seq<ClassState>): nat {
    if classes == [] then 0 else SlabCount(classes[..|classes| - 1]) + |classes[|classes| - 1].slabList|
  }

  /** Classes that own a slab. */
  function Owners(classes: seq<ClassState>): nat {
    if classes == [] then 0 else Owners(classes[..|classes| - 1]) + (if classes[|classes| - 1].slabList != [] then 1 else 0)
  }

  /** The counter is exact, and a limit is overrun by at most the first slab of each class. */
  ghost predicate MemoryOk(s: Slab) {
    && s.memMalloced == POWER_BLOCK * SlabCount(s.classes)
    && (s.memLimit != 0 ==> s.memMalloced <= s.memLimit + POWER_BLOCK * Owners(s.classes))
  }

  lemma {:induction false} CountUpdate(classes: seq<ClassState>, i: nat, c: ClassState)
    requires i < |classes|
    ensures SlabCount(classes[i := c]) == SlabCount(classes) - |classes[i].slabList| + |c.slabList|
    ensures Owners(classes[i := c]) == Owners(classes) - (if classes[i].slabList != [] then 1 else 0) + (if c.slabList != [] then 1 else 0)
    decreases |classes|
  {
    var n := |classes| - 1;
    var classes' := classes[i := c];
    if i < n {
      assert classes'[..n] == classes[..n][i := c];
      CountUpdate(classes[..n], i, c);
    } else {
      assert classes'[..n] == classes[..n];
    }
  }

  ghost predicate AllAccounted(s: Slab) {
    forall i :: 1 <= i < |s.classes| ==> Accounted(s, i)
  }

  ghost predicate Inv(s: Slab) {
    SlabOk(s) && MemoryOk(s) && AllAccounted(s)
  }

  // ---------- the parts of an allocation ----------

  function Put(s: Slab, i: nat, c: ClassState): Slab
    requires i < |s.classes|
  {
    s.(classes := s.classes[i := c])
  }

  lemma PutKeepsSizes(s: Slab, i: nat, c: ClassState)
    requires i < |s.classes| && c.size == s.classes[i].size
    ensures Sizes(Put(s, i, c)) == Sizes(s)
  {
  }

  /** Replacing a class by one with the same slabs leaves the page layout as it is. */
  lemma PutKeepsPages(s: Slab, i: nat, c: ClassState)
    requires i < |s.classes| && c.slabList == s.classes[i].slabList && PagesApart(s) && BigApart(s)
    ensures PagesApart(Put(s, i, c)) && BigApart(Put(s, i, c))
  {
    var s' := Put(s, i, c);
    assert forall l, j :: IsPage(s', l, j) ==> IsPage(s, l, j) && Page(s', l, j) == Page(s, l, j);
  }

  lemma NewPageKeepsPages(s: Slab, i: nat, page: nat)
    requires 1 <= i < |s.classes| && PagesApart(s) && BigApart(s) && Supply(s, page, POWER_BLOCK)
    ensures PagesApart(Put(s, i, NewSlab(s.classes[i], page))) && BigApart(Put(s, i, NewSlab(s.classes[i], page)))
  {
    var s' := Put(s, i, NewSlab(s.classes[i], page));
    var n := |s.classes[i].slabList|;
    forall l: nat, j: nat | IsPage(s', l, j)
      ensures if l == i && j == n then Page(s', l, j) == page else IsPage(s, l, j) && Page(s', l, j) == Page(s, l, j)
    {
    }
  }

  /** A fresh slab is entered for a class that has run dry. */
  lemma NewSlabStep(s: Slab, i: nat, page: nat)
    requires SlabOk(s) && 1 <= i < |s.classes| && s.classes[i].endPtr == 0 && s.classes[i].slots == [] && Supply(s, page, POWER_BLOCK)
    ensures SlabOk(Put(s, i, NewSlab(s.classes[i], page)))
  {
    hide ClassOk, Carved, TableOk, Sizes, PagesApart, BigApart, ClassId, LiveIn;
    var c := s.classes[i];
    var c' := NewSlab(c, page);
    var s' := Put(s, i, c');
    PutKeepsSizes(s, i, c');
    NewPageKeepsPages(s, i, page);
    SupplyForClass(s, i, page);
    NewSlabKeeps(c, page);
    forall a | a in s'.live
      ensures LiveOk(s', a)
    {
      assert LiveOk(s, a);
    }
    forall l | 1 <= l < |s'.classes|
      ensures Balanced(s', l)
    {
      assert Balanced(s, l);
      SameLive(s, s', l);
      if l == i { Distribute(|c.slabList|, c.perslab); }
    }
  }

  lemma SupplyForClass(s: Slab, i: nat, page: nat)
    requires 1 <= i < |s.classes| && Supply(s, page, POWER_BLOCK)
    ensures forall j :: 0 <= j < |s.classes[i].slabList| ==> Apart(s.classes[i].slabList[j], POWER_BLOCK, page, POWER_BLOCK)
  {
    forall j | 0 <= j < |s.classes[i].slabList|
      ensures Apart(s.classes[i].slabList[j], POWER_BLOCK, page, POWER_BLOCK)
    {
      assert IsPage(s, i, j);
      assert Apart(Page(s, i, j), POWER_BLOCK, page, POWER_BLOCK);
    }
  }

  lemma Distribute(n: nat, p: nat)
    ensures (n + 1) * p == n * p + p
  {
  }

  lemma SameLive(s: Slab, s': Slab, i: nat)
    requires s'.live == s.live
    ensures LiveIn(s', i) == LiveIn(s, i)
  {
  }

  lemma OneMoreLive(s: Slab, s': Slab, head: nat, i: nat, l: nat)
    requires head !in s.live && s'.live == s.live[head := i]
    ensures |LiveIn(s', l)| == |LiveIn(s, l)| + (if l == i then 1 else 0)
  {
    if l == i {
      assert LiveIn(s', l) == LiveIn(s, l) + {head};
    } else {
      assert LiveIn(s', l) == LiveIn(s, l);
    }
  }

  lemma OneLessLive(s: Slab, s': Slab, head: nat, l: nat)
    requires head in s.live && s'.live == s.live - {head}
    ensures |LiveIn(s', l)| == |LiveIn(s, l)| - (if l == s.live[head] then 1 else 0)
  {
    if l == s.live[head] {
      assert LiveIn(s', l) == LiveIn(s, l) - {head};
    } else {
      assert LiveIn(s', l) == LiveIn(s, l);
    }
  }

  /** A chunk place in class `i` that is not in use there is in use nowhere. */
  lemma PlaceIsFree(s: Slab, i: nat, head: nat)
    requires SlabOk(s) && 1 <= i < |s.classes| && s.classes[i].size > 0 && InPage(s.classes[i], head)
    requires head in s.live ==> s.live[head] != i
    ensures head !in s.live && head !in s.big
  {
    hide ClassOk, Carved, TableOk, Sizes, PagesApart, BigApart, ClassId, InPage, Balanced;
    if head in s.live {
      assert LiveOk(s, head);
      var l := s.live[head];
      ChunkPlace(s.classes[l], head);
      ClassSizePositive(s.classes[l]);
      TwoPlaces(s, i, head, l, head);
    }
    if head in s.big {
      PlaceAndBig(s, i, head, head);
    }
  }

  /** The state after a chunk has been handed out by class `i`. */
  function HandOut(s: Slab, i: nat, c: ClassState, head: nat, total: nat): Slab
    requires i < |s.classes|
  {
    Put(s, i, c).(heads := s.heads[head := Head(false, total)], live := s.live[head := i])
  }

  /** Handing out a chunk that was not in use: from the stack, or from the end of the page. */
  lemma HandOutStep(s: Slab, i: nat, c: ClassState, head: nat, total: nat)
    requires SlabOk(s) && 1 <= i < |s.classes| && total > 0 && ClassId(Sizes(s), total) == i
    requires ClassOk(c) && c.size == s.classes[i].size && c.perslab == s.classes[i].perslab && c.slabList == s.classes[i].slabList
    requires head !in s.live && head !in s.big
    requires forall a :: a in s.live && s.live[a] == i ==> Carved(c, a) && a !in c.slots
    requires Carved(c, head) && head !in c.slots
    requires |c.slots| + EndFree(c) + 1 == |s.classes[i].slots| + EndFree(s.classes[i])
    ensures SlabOk(HandOut(s, i, c, head, total))
  {
    hide ClassOk, Carved, TableOk, Sizes, PagesApart, BigApart, ClassId, LiveIn, EndFree;
    var s' := HandOut(s, i, c, head, total);
    PutKeepsSizes(s, i, c);
    PutKeepsPages(s, i, c);
    assert Sizes(s') == Sizes(s) by { SameSizes(s', Put(s, i, c)); }
    SamePages(Put(s, i, c), s');
    forall a | a in s'.live
      ensures LiveOk(s', a)
    {
      if a != head { assert LiveOk(s, a); }
    }
    forall l | 1 <= l < |s'.classes|
      ensures Balanced(s', l)
    {
      assert Balanced(s, l);
      OneMoreLive(s, s', head, i, l);
    }
  }

  lemma SameSizes(s: Slab, s': Slab)
    requires s.classes == s'.classes
    ensures Sizes(s) == Sizes(s')
  {
  }

  /** Neither the map nor the header of a chunk has a say in where pages and big blocks are. */
  lemma SamePages(s: Slab, s': Slab)
    requires s.classes == s'.classes && s.big == s'.big && PagesApart(s) && BigApart(s)
    requires forall a :: a in s.big && a in s.heads ==> a in s'.heads && s'.heads[a] == s.heads[a]
    ensures PagesApart(s') && BigApart(s')
  {
    assert forall i, j :: IsPage(s', i, j) ==> IsPage(s, i, j) && Page(s', i, j) == Page(s, i, j);
  }

  /** The counter is not part of the layout. */
  lemma CounterIsFree(s: Slab, m: nat)
    requires SlabOk(s)
    ensures SlabOk(s.(memMalloced := m))
  {
    hide ClassOk, Carved, TableOk, Sizes, PagesApart, BigApart, ClassId, LiveIn;
    var s' := s.(memMalloced := m);
    SameSizes(s, s');
    SamePages(s, s');
    forall a | a in s'.live
      ensures LiveOk(s', a)
    {
      assert LiveOk(s, a);
    }
    forall l | 1 <= l < |s'.classes|
      ensures Balanced(s', l)
    {
      assert Balanced(s, l);
      SameLive(s, s', l);
    }
  }

  // ---------- an allocation ----------

  /** How many bytes an allocation asks the system for; 0 when it does not. */
  function Asks(s: Slab, size: nat): nat
    requires |s.classes| >= 1
  {
    var id := ClassId(Sizes(s), Total(size));
    if id < POWER_SMALLEST then 0
    else if id >= |s.classes| then Total(size)
    else if s.classes[id].endPtr != 0 || s.classes[id].slots != [] || LimitReached(s, s.classes[id]) then 0
    else POWER_BLOCK
  }

  /** The system's answer keeps clear of what it handed out before. */
  ghost predicate Answered(s: Slab, size: nat, page: nat)
    requires |s.classes| >= 1
  {
    Asks(s, size) > 0 ==> Supply(s, page, Asks(s, size))
  }

  lemma CanAlloc(s: Slab)
    requires ClassesOk(s)
    ensures |s.classes| >= 3
    ensures Callable(s)
  {
  }

  /** Taking a chunk off the free stack. */
  lemma PopStep(s: Slab, i: nat, total: nat)
    requires SlabOk(s) && 1 <= i < |s.classes| && total > 0 && ClassId(Sizes(s), total) == i
    requires s.classes[i].slots != []
    ensures var c := s.classes[i]; var head := c.slots[|c.slots| - 1];
            && SlabOk(HandOut(s, i, PopSlot(c), head, total))
            && head !in s.live && head !in s.big && head > 0 && head % 8 == 0
  {
    hide TableOk, Sizes, PagesApart, BigApart, ClassId, LiveIn, Carved, InPage, Balanced;
    var c := s.classes[i];
    var head := c.slots[|c.slots| - 1];
    var c' := PopSlot(c);
    PopKeeps(c);
    ChunkPlace(c, head);
    NotLiveHere(s, i, head);
    PlaceIsFree(s, i, head);
    LiveChunksOf(s, i);
    HandOutStep(s, i, c', head, total);
  }

  lemma PopKeeps(c: ClassState)
    requires ClassOk(c) && c.slots != []
    ensures ClassOk(PopSlot(c)) && c.slots[|c.slots| - 1] !in PopSlot(c).slots
    ensures forall a :: Carved(PopSlot(c), a) <==> Carved(c, a)
  {
    SameCarved(c, PopSlot(c));
  }

  lemma SameCarved(c: ClassState, c': ClassState)
    requires c' == c.(slots := c'.slots)
    ensures forall a :: Carved(c', a) <==> Carved(c, a)
  {
    forall a: nat
      ensures Carved(c', a) <==> Carved(c, a)
    {
      assert forall j: nat, k: nat :: CarvedAt(c', a, j, k) <==> CarvedAt(c, a, j, k);
    }
  }

  lemma NotLiveHere(s: Slab, i: nat, head: nat)
    requires SlabOk(s) && 1 <= i < |s.classes| && (head in s.classes[i].slots || !Carved(s.classes[i], head))
    ensures head in s.live ==> s.live[head] != i
  {
    if head in s.live { assert LiveOk(s, head); }
  }

  lemma LiveChunksOf(s: Slab, i: nat)
    requires SlabOk(s) && 1 <= i < |s.classes|
    ensures forall a :: a in s.live && s.live[a] == i ==> Carved(s.classes[i], a) && a !in s.classes[i].slots
  {
    forall a | a in s.live && s.live[a] == i
      ensures Carved(s.classes[i], a) && a !in s.classes[i].slots
    {
      assert LiveOk(s, a);
    }
  }

  /** Taking the chunk at the end of the current page. */
  lemma CarveStep(s: Slab, i: nat, total: nat)
    requires SlabOk(s) && 1 <= i < |s.classes| && total > 0 && ClassId(Sizes(s), total) == i
    requires s.classes[i].slots == [] && s.classes[i].endPtr != 0 && s.classes[i].endFree > 0
    ensures var c := s.classes[i]; var head := c.endPtr;
            && SlabOk(HandOut(s, i, Carve(c), head, total))
            && head !in s.live && head !in s.big && head % 8 == 0
  {
    hide TableOk, Sizes, PagesApart, BigApart, ClassId, LiveIn, Carved, InPage, Balanced, ClassOk;
    var c := s.classes[i];
    var head := c.endPtr;
    CarveKeeps(c);
    ChunkPlace(Carve(c), head);
    ClassSizePositive(c);
    SameInPage(c, Carve(c), head);
    NotLiveHere(s, i, head);
    PlaceIsFree(s, i, head);
    LiveChunksOf(s, i);
    HandOutStep(s, i, Carve(c), head, total);
  }

  lemma SameInPage(c: ClassState, c': ClassState, a: nat)
    requires c.size == c'.size && c.slabList == c'.slabList
    ensures InPage(c', a) == InPage(c, a)
  {
  }

  /** A block beyond the largest class, straight from the system. */
  lemma BigStep(s: Slab, page: nat, n: nat)
    requires SlabOk(s) && n > 0 && Supply(s, page, n)
    ensures page !in s.live && page !in s.big
    ensures SlabOk(s.(heads := s.heads[page := Head(true, n % 0x1_0000_0000)], big := s.big[page := n]))
  {
    hide ClassOk, Carved, TableOk, Sizes, PagesApart, ClassId, LiveIn, InPage;
    var s' := s.(heads := s.heads[page := Head(true, n % 0x1_0000_0000)], big := s.big[page := n]);
    SameSizes(s, s');
    SamePageList(s, s');
    if page in s.live {
      assert LiveOk(s, page);
      ChunkPlace(s.classes[s.live[page]], page);
      ClassSizePositive(s.classes[s.live[page]]);
      PlaceAndSupply(s, s.live[page], page, page, n);
    }
    BigAppend(s, page, n);
    forall a | a in s'.live
      ensures LiveOk(s', a)
    {
      assert LiveOk(s, a);
    }
    forall l | 1 <= l < |s'.classes|
      ensures Balanced(s', l)
    {
      assert Balanced(s, l);
      SameLive(s, s', l);
    }
  }

  lemma SamePageList(s: Slab, s': Slab)
    requires s.classes == s'.classes && PagesApart(s)
    ensures PagesApart(s')
  {
    assert forall i, j :: IsPage(s', i, j) ==> IsPage(s, i, j) && Page(s', i, j) == Page(s, i, j);
  }

  lemma PlaceAndSupply(s: Slab, i: nat, a: nat, page: nat, n: nat)
    requires Supply(s, page, n) && n > 0 && 1 <= i < |s.classes| && s.classes[i].size > 0 && InPage(s.classes[i], a)
    ensures a != page
  {
    var j :| 0 <= j < |s.classes[i].slabList| && s.classes[i].slabList[j] <= a && a + s.classes[i].size <= s.classes[i].slabList[j] + POWER_BLOCK;
    assert IsPage(s, i, j);
    assert Apart(Page(s, i, j), POWER_BLOCK, page, n);
  }

  lemma BigAppend(s: Slab, page: nat, n: nat)
    requires BigApart(s) && Supply(s, page, n) && n > 0
    ensures page !in s.big
    ensures BigApart(s.(heads := s.heads[page := Head(true, n % 0x1_0000_0000)], big := s.big[page := n]))
  {
    var s' := s.(heads := s.heads[page := Head(true, n % 0x1_0000_0000)], big := s.big[page := n]);
    assert forall i, j :: IsPage(s', i, j) ==> IsPage(s, i, j) && Page(s', i, j) == Page(s, i, j);
  }

  /** The heads of all blocks in use. */
  function Blocks(s: Slab): set<nat> {
    s.live.Keys + s.big.Keys
  }

  /** An allocation keeps the allocator in order. It fails only for a total of 0 or at the limit,
      and then changes nothing; otherwise it returns an aligned pointer to one new block of at
      least the total, and leaves every other block as it was. */
  lemma AllocKeeps(s: Slab, size: nat, page: nat)
    requires Inv(s)
    requires |s.classes| >= 1 && Answered(s, size, page)
    ensures Callable(s)
    ensures var (s', ptr) := Alloc(s, size, page);
            && SlabOk(s')
            && (ptr == 0 ==> s' == s)
            && (ptr != 0 ==> ptr % 8 == 0 && InUse(s', ptr) && Granted(s, s', ptr - HEAD_SIZE, Total(size)))
  {
    hide ClassOk, Carved, TableOk, Sizes, PagesApart, BigApart, ClassId, LiveIn, InPage, Balanced, SlabOk, Supply, Total;
    assert ClassesOk(s) by { InvParts(s); }
    CanAlloc(s);
    InvParts(s);
    var total := Total(size);
    var id := ClassId(Sizes(s), total);
    ClassIdOfTable(s, total);
    var (s', ptr) := Alloc(s, size, page);
    if id < POWER_SMALLEST {
    } else if id >= |s.classes| {
      SupplyIs(s, page, total);
      BigStep(s, page, total);
      assert Blocks(s') == Blocks(s) + {page};
    } else {
      StockedAlloc(s, size, page);
    }
  }

  /** One new block at `head`, of at least `total` bytes, with its header; the others keep place, size
      and header. */
  ghost predicate Granted(s: Slab, s': Slab, head: nat, total: nat) {
    && head !in Blocks(s) && Blocks(s') == Blocks(s) + {head}
    && (head in s'.live ==> s'.live[head] < |s'.classes| && s'.classes[s'.live[head]].size >= total)
    && (head in s'.big ==> s'.big[head] >= total)
    && head in s'.heads && s'.heads[head] == Head(head in s'.big, total % 0x1_0000_0000)
    && (forall a :: a in s.heads && a != head ==> a in s'.heads && s'.heads[a] == s.heads[a])
    && |s'.classes| == |s.classes|
    && (forall i :: 0 <= i < |s.classes| ==> s'.classes[i].size == s.classes[i].size)
    && (forall a :: a in s.live ==> a in s'.live && s'.live[a] == s.live[a])
    && (forall a :: a in s.big ==> a in s'.big && s'.big[a] == s.big[a])
  }

  lemma InvParts(s: Slab)
    requires SlabOk(s)
    ensures ClassesOk(s) && PagesApart(s) && BigApart(s)
  {
  }

  lemma SupplyIs(s: Slab, page: nat, n: nat)
    requires Supply(s, page, n)
    ensures page > 0 && page % 8 == 0
  {
  }

  lemma ClassIdOfTable(s: Slab, total: nat)
    requires ClassesOk(s)
    ensures |Sizes(s)| == |s.classes| >= 3
    ensures ClassId(Sizes(s), total) < POWER_SMALLEST <==> total == 0
    ensures ClassId(Sizes(s), total) < |s.classes| ==> total <= POWER_BLOCK
    ensures 1 <= ClassId(Sizes(s), total) < |s.classes| ==> total <= s.classes[ClassId(Sizes(s), total)].size
  {
    if total > 0 {
      ClassIdMeans(Sizes(s), total);
      if ClassId(Sizes(s), total) < |s.classes| { SizeOf(s, ClassId(Sizes(s), total)); }
    }
  }

  lemma StockedAlloc(s: Slab, size: nat, page: nat)
    requires SlabOk(s) && ClassesOk(s) && |s.classes| >= 3 && Answered(s, size, page)
    requires Callable(s)
    requires 1 <= ClassId(Sizes(s), Total(size)) < |s.classes|
    ensures var (s', ptr) := Alloc(s, size, page);
            && SlabOk(s')
            && (ptr == 0 ==> s' == s)
            && (ptr != 0 ==> ptr % 8 == 0 && InUse(s', ptr) && Granted(s, s', ptr - HEAD_SIZE, Total(size)))
  {
    hide ClassOk, Carved, TableOk, Sizes, PagesApart, BigApart, ClassId, LiveIn, InPage, Balanced, SlabOk, Total, ClassesOk, LiveOk;
    var total := Total(size);
    var id := ClassId(Sizes(s), total);
    ClassIdOfTable(s, total);
    var c := s.classes[id];
    var st := Stocked(s, c, page);
    if st.Some? {
      var c1 := st.value;
      var s1 := Put(s, id, c1);
      if c1 != c {
        NewSlabStep(s, id, page);
        PutKeepsSizes(s, id, c1);
      } else {
        assert s1.classes == s.classes;
        assert s1 == s;
      }
      var (s', ptr) := Alloc(s, size, page);
      if c1.slots != [] {
        PopStep(s1, id, total);
        SameUpToCounter(s, s1, s', id, PopSlot(c1), c1.slots[|c1.slots| - 1], total);
      } else {
        CarveStep(s1, id, total);
        SameUpToCounter(s, s1, s', id, Carve(c1), c1.endPtr, total);
      }
    }
  }

  lemma SameUpToCounter(s: Slab, s1: Slab, s': Slab, id: nat, c2: ClassState, head: nat, total: nat)
    requires 1 <= id < |s.classes| == |s1.classes| && s1 == Put(s, id, s1.classes[id])
    requires c2.size == s.classes[id].size && total <= c2.size && total < 0x1_0000_0000
    requires SlabOk(HandOut(s1, id, c2, head, total)) && head !in s.live && head !in s.big
    requires s'.memLimit == s.memLimit && s'.classes == s.classes[id := c2] && s'.big == s.big
    requires s'.heads == s.heads[head := Head(false, total)] && s'.live == s.live[head := id]
    ensures SlabOk(s') && Granted(s, s', head, total)
  {
    hide SlabOk;
    var r := HandOut(s1, id, c2, head, total);
    assert r.classes == s'.classes;
    CounterIsFree(r, s'.memMalloced);
    assert r.(memMalloced := s'.memMalloced) == s';
    assert Blocks(s') == Blocks(s) + {head};
  }

  /** Allocation returns NULL in two cases only: the total wrapped to 0, or every place for a chunk
      in every slab of the class that fits is in use, and one more slab would exceed the limit. */
  lemma AllocFails(s: Slab, size: nat, page: nat)
    requires Inv(s)
    ensures Callable(s)
    ensures Alloc(s, size, page).1 == 0 <==>
              Total(size) == 0 || exists i: nat :: FitsClass(s, i, Total(size)) && NoRoom(s, i) && LimitInTheWay(s, i)
  {
    hide ClassOk, Carved, TableOk, Sizes, PagesApart, BigApart, ClassId, LiveIn, Total, LiveOk, NoRoom, AllAccounted, SlabCount;
    InvCallable(s);
    var total := Total(size);
    var id := ClassId(Sizes(s), total);
    ClassIdOfTable(s, total);
    if total > 0 {
      OnlyClass(s, total);
      if id < |s.classes| {
        assert FitsClass(s, id, total);
        LimitIs(s, id);
        RoomIff(s, id);
        assert NoRoom(s, id) && LimitInTheWay(s, id) <==> Stocked(s, s.classes[id], page).None?;
      }
    }
  }

  /** Class `i` is the least that holds `total` bytes. */
  ghost predicate FitsClass(s: Slab, i: nat, total: nat) {
    1 <= i < |s.classes| && s.classes[i - 1].size < total <= s.classes[i].size
  }

  /** Wherever a chunk of the class fits into one of its slabs, there is one in use. */
  ghost predicate NoRoom(s: Slab, i: nat) {
    forall j: nat, k: nat :: IsPage(s, i, j) && Addr(Page(s, i, j), s.classes[i].size, k) + s.classes[i].size <= Page(s, i, j) + POWER_BLOCK ==>
      Addr(Page(s, i, j), s.classes[i].size, k) in s.live && s.live[Addr(Page(s, i, j), s.classes[i].size, k)] == i
  }

  /** The class has a slab, and one slab more in all would be more than the limit allows. */
  ghost predicate LimitInTheWay(s: Slab, i: nat) {
    i < |s.classes| && s.memLimit != 0 && s.classes[i].slabList != [] && POWER_BLOCK * (SlabCount(s.classes) + 1) > s.memLimit
  }

  lemma LimitIs(s: Slab, i: nat)
    requires MemoryOk(s) && i < |s.classes|
    ensures LimitInTheWay(s, i) <==> LimitReached(s, s.classes[i])
  {
  }

  /** A class that owns a slab has no room exactly when nothing is on its stack or left at the end. */
  lemma RoomIff(s: Slab, i: nat)
    requires Inv(s) && 1 <= i < |s.classes|
    ensures s.classes[i].slabList != [] ==> (NoRoom(s, i) <==> s.classes[i].slots == [] && s.classes[i].endPtr == 0)
  {
    hide ClassOk, Carved, PagesApart, BigApart, LiveIn, LiveOk, NoRoom, ClassesOk;
    var c := s.classes[i];
    assert ClassOk(c) by { InvParts(s); ClassIsOk(s, i); }
    if c.slots != [] {
      FreeIsRoom(s, i);
    } else if c.endPtr != 0 {
      EndIsRoom(s, i);
    } else {
      FullHasNoRoom(s, i);
    }
  }

  lemma PlaceInSlab(page: nat, size: nat, k: nat, perslab: nat)
    requires Addr(0, size, perslab) <= POWER_BLOCK < Addr(0, size, perslab + 1)
    ensures Addr(page, size, k) + size <= page + POWER_BLOCK <==> k < perslab
  {
    if k < perslab {
      AddrOrder(0, size, k, perslab);
    } else {
      AddrNext(0, size, k);
      if k > perslab { AddrOrder(0, size, perslab + 1, k + 1); }
    }
  }

  lemma FreeIsRoom(s: Slab, i: nat)
    requires SlabOk(s) && 1 <= i < |s.classes| && s.classes[i].slots != []
    ensures !NoRoom(s, i)
  {
    hide Addr, PagesApart, BigApart;
    var c := s.classes[i];
    var a := c.slots[0];
    assert ClassOk(c) && Carved(c, a);
    var j: nat, k: nat :| CarvedAt(c, a, j, k);
    PlaceInSlab(c.slabList[j], c.size, k, c.perslab);
    assert IsPage(s, i, j) && Page(s, i, j) == c.slabList[j];
    NotLiveHere(s, i, a);
  }

  lemma EndIsRoom(s: Slab, i: nat)
    requires SlabOk(s) && 1 <= i < |s.classes| && s.classes[i].endPtr != 0
    ensures !NoRoom(s, i)
  {
    hide Addr, PagesApart, BigApart;
    var c := s.classes[i];
    assert ClassOk(c);
    var j, k := |c.slabList| - 1, c.perslab - c.endFree;
    PlaceInSlab(c.slabList[j], c.size, k, c.perslab);
    CarvedBefore(c, c.endPtr);
    assert IsPage(s, i, j) && Page(s, i, j) == c.slabList[j];
    NotLiveHere(s, i, c.endPtr);
  }

  lemma FullHasNoRoom(s: Slab, i: nat)
    requires AllAccounted(s) && 1 <= i < |s.classes| && ClassOk(s.classes[i]) && s.classes[i].slots == [] && s.classes[i].endPtr == 0
    ensures NoRoom(s, i)
  {
    hide Addr, ClassOk;
    var c := s.classes[i];
    assert Accounted(s, i);
    forall j: nat, k: nat | IsPage(s, i, j) && Addr(Page(s, i, j), c.size, k) + c.size <= Page(s, i, j) + POWER_BLOCK
      ensures Addr(Page(s, i, j), c.size, k) in s.live && s.live[Addr(Page(s, i, j), c.size, k)] == i
    {
      SlabSizes(c);
      PlaceInSlab(c.slabList[j], c.size, k, c.perslab);
      assert CarvedAt(c, Addr(c.slabList[j], c.size, k), j, k);
      assert Carved(c, Addr(c.slabList[j], c.size, k));
    }
  }

  lemma SlabSizes(c: ClassState)
    requires ClassOk(c)
    ensures Addr(0, c.size, c.perslab) <= POWER_BLOCK < Addr(0, c.size, c.perslab + 1)
  {
  }

  lemma OnlyClass(s: Slab, total: nat)
    requires ClassesOk(s) && total > 0
    ensures forall i: nat :: FitsClass(s, i, total) <==> i == ClassId(Sizes(s), total) && i < |s.classes|
  {
    ClassIdMeans(Sizes(s), total);
    forall i: nat
      ensures FitsClass(s, i, total) <==> i == ClassId(Sizes(s), total) && i < |s.classes|
    {
      if 1 <= i < |s.classes| {
        SizeOf(s, i - 1);
        SizeOf(s, i);
      }
    }
  }

  /** The counter stays exact and within the limit. */
  lemma AllocMemory(s: Slab, size: nat, page: nat)
    requires MemoryOk(s) && Callable(s)
    ensures MemoryOk(Alloc(s, size, page).0)
  {
    hide ClassId, Sizes, Total;
    var id := ClassId(Sizes(s), Total(size));
    var s' := Alloc(s, size, page).0;
    if 1 <= id < |s.classes| && Stocked(s, s.classes[id], page).Some? {
      CountUpdate(s.classes, id, s'.classes[id]);
    }
  }

  /** Accounts of the other classes do not change with one class. */
  lemma OthersAccounted(s: Slab, s': Slab, id: nat)
    requires AllAccounted(s) && 1 <= id < |s.classes| && |s'.classes| == |s.classes|
    requires forall i :: 1 <= i < |s.classes| && i != id ==> s'.classes[i] == s.classes[i]
    requires forall a :: a in s.live && s.live[a] != id ==> a in s'.live && s'.live[a] == s.live[a]
    requires Accounted(s', id)
    ensures AllAccounted(s')
  {
    hide Carved;
    forall i | 1 <= i < |s'.classes|
      ensures Accounted(s', i)
    {
      if i != id { assert Accounted(s, i); }
    }
  }

  /** Handing out a chunk moves it from the stack, or from the end of the page, to those in use. */
  lemma HandOutAccounted(s: Slab, i: nat, c: ClassState, head: nat, total: nat)
    requires AllAccounted(s) && 1 <= i < |s.classes|
    requires forall a :: Carved(c, a) ==> Carved(s.classes[i], a) || a == head
    requires forall a :: a in s.classes[i].slots ==> a in c.slots || a == head
    requires head in s.live ==> s.live[head] == i
    ensures AllAccounted(HandOut(s, i, c, head, total))
  {
    hide Carved;
    var s' := HandOut(s, i, c, head, total);
    assert Accounted(s, i);
    forall a | Carved(c, a)
      ensures (a in s'.live && s'.live[a] == i) || a in c.slots
    {
    }
    OthersAccounted(s, s', i);
  }

  lemma SlabAccounted(s: Slab, i: nat, page: nat)
    requires AllAccounted(s) && 1 <= i < |s.classes|
    requires forall a :: Carved(NewSlab(s.classes[i], page), a) <==> Carved(s.classes[i], a)
    ensures AllAccounted(Put(s, i, NewSlab(s.classes[i], page)))
  {
    hide Carved;
    assert Accounted(s, i);
    OthersAccounted(s, Put(s, i, NewSlab(s.classes[i], page)), i);
  }

  lemma SameAccounted(s: Slab, s': Slab)
    requires AllAccounted(s) && s'.classes == s.classes && s'.live == s.live
    ensures AllAccounted(s')
  {
    hide Carved;
    forall i | 1 <= i < |s'.classes| ensures Accounted(s', i) { assert Accounted(s, i); }
  }

  lemma AllocAccounted(s: Slab, size: nat, page: nat)
    requires SlabOk(s) && AllAccounted(s) && |s.classes| >= 1 && Answered(s, size, page)
    ensures Callable(s) && AllAccounted(Alloc(s, size, page).0)
  {
    hide ClassOk, Carved, TableOk, Sizes, PagesApart, BigApart, ClassId, LiveIn, Balanced, SlabOk, Total, ClassesOk, LiveOk, AllAccounted;
    assert ClassesOk(s) by { InvParts(s); }
    CanAlloc(s);
    var total := Total(size);
    var id := ClassId(Sizes(s), total);
    var s' := Alloc(s, size, page).0;
    ClassIdOfTable(s, total);
    if id >= |s.classes| {
      SameAccounted(s, s');
    } else if id >= POWER_SMALLEST && Stocked(s, s.classes[id], page).Some? {
      var c := s.classes[id];
      ClassIsOk(s, id);
      var c1 := Stocked(s, c, page).value;
      var s1 := Put(s, id, c1);
      if c1 != c {
        NewSlabStep(s, id, page);
        SupplyForClass(s, id, page);
        NewSlabKeeps(c, page);
        SlabAccounted(s, id, page);
      } else {
        assert s1.classes == s.classes;
        SameAccounted(s, s1);
      }
      PutKeepsSizes(s, id, c1);
      assert s1 == s || c1 != c;
      ChunkAccounted(s1, id, total);
      var c2 := if c1.slots != [] then PopSlot(c1) else Carve(c1);
      var head := if c1.slots != [] then c1.slots[|c1.slots| - 1] else c1.endPtr;
      assert s'.classes == HandOut(s1, id, c2, head, total).classes;
      SameAccounted(HandOut(s1, id, c2, head, total), s');
    }
  }

  lemma ClassIsOk(s: Slab, i: nat)
    requires ClassesOk(s) && 1 <= i < |s.classes|
    ensures ClassOk(s.classes[i])
  {
  }

  lemma ChunkAccounted(s: Slab, i: nat, total: nat)
    requires SlabOk(s) && AllAccounted(s) && 1 <= i < |s.classes| && total > 0 && ClassId(Sizes(s), total) == i
    requires s.classes[i].slots != [] || (s.classes[i].endPtr != 0 && s.classes[i].endFree > 0)
    ensures var c := s.classes[i];
            var head := if c.slots != [] then c.slots[|c.slots| - 1] else c.endPtr;
            AllAccounted(HandOut(s, i, if c.slots != [] then PopSlot(c) else Carve(c), head, total))
  {
    hide TableOk, Sizes, PagesApart, BigApart, ClassId, LiveIn, Carved, InPage, Balanced, AllAccounted, SlabOk;
    var c := s.classes[i];
    assert ClassOk(c) by { InvParts(s); ClassIsOk(s, i); }
    if c.slots != [] {
      PopStep(s, i, total);
      PopKeeps(c);
      HandOutAccounted(s, i, PopSlot(c), c.slots[|c.slots| - 1], total);
    } else {
      CarveStep(s, i, total);
      CarveKeeps(c);
      HandOutAccounted(s, i, Carve(c), c.endPtr, total);
    }
  }

  lemma FreeAccounted(s: Slab, ptr: nat)
    requires SlabOk(s) && AllAccounted(s) && (ptr != 0 ==> InUse(s, ptr))
    ensures |s.classes| >= 1 && AllAccounted(Free(s, ptr))
  {
    hide ClassOk, Carved, TableOk, Sizes, PagesApart, BigApart, ClassId, LiveIn, InPage, Balanced, ClassesOk, LiveOk, SlabOk, AllAccounted;
    InvParts(s);
    ClassIdOfTable(s, 0);
    if ptr != 0 {
      var head := ptr - HEAD_SIZE;
      NotBoth(s, head);
      if head in s.live {
        FreeFindsClass(s, ptr);
        PushAccounted(s, head);
      } else {
        SameAccounted(s, Free(s, ptr));
      }
    }
  }

  lemma PushAccounted(s: Slab, head: nat)
    requires AllAccounted(s) && head in s.live && 1 <= s.live[head] < |s.classes|
    ensures var i := s.live[head];
            AllAccounted(s.(classes := s.classes[i := PushSlot(s.classes[i], head)], live := s.live - {head}))
  {
    hide Carved;
    var i := s.live[head];
    var c := PushSlot(s.classes[i], head);
    var s' := s.(classes := s.classes[i := c], live := s.live - {head});
    assert Accounted(s, i);
    SameCarvedHere(s.classes[i], c);
    forall a | Carved(c, a)
      ensures (a in s'.live && s'.live[a] == i) || a in c.slots
    {
      if a in s.classes[i].slots { InStack(s.classes[i].slots, head, a); }
    }
    OthersAccounted(s, s', i);
  }

  lemma InStack(slots: seq<nat>, head: nat, a: nat)
    requires a in slots
    ensures a in slots + [head]
  {
  }

  lemma SameCarvedHere(c: ClassState, c': ClassState)
    requires c' == c.(slots := c'.slots)
    ensures forall a :: Carved(c', a) <==> Carved(c, a)
  {
    SameCarved(c, c');
  }

  // ---------- freeing ----------

  lemma PushKeeps(c: ClassState, head: nat)
    requires ClassOk(c) && Carved(c, head) && head !in c.slots
    ensures ClassOk(PushSlot(c, head))
    ensures forall a :: Carved(PushSlot(c, head), a) <==> Carved(c, a)
  {
    hide Addr;
    SameCarved(c, PushSlot(c, head));
  }

  /** The class looked up again from the header, cut to an unsigned char, is the class the chunk
      was carved from, so that is the stack the chunk goes back to. */
  lemma FreeFindsClass(s: Slab, ptr: nat)
    requires SlabOk(s) && ptr >= HEAD_SIZE && ptr - HEAD_SIZE in s.live
    ensures InUse(s, ptr) && 1 <= s.live[ptr - HEAD_SIZE] < |s.classes|
    ensures var head := ptr - HEAD_SIZE; var i := s.live[head];
            Free(s, ptr) == s.(classes := s.classes[i := PushSlot(s.classes[i], head)], live := s.live - {head})
  {
    hide ClassOk, Carved, PagesApart, BigApart, ClassId, LiveIn, Balanced;
    var head := ptr - HEAD_SIZE;
    assert LiveOk(s, head);
    assert |Sizes(s)| == |s.classes| <= 201;
  }

  /** What was freed last is what the next request of its class gets, without asking the system. */
  lemma FreedComesNext(s: Slab, ptr: nat, size: nat, page: nat)
    requires Inv(s) && ptr >= HEAD_SIZE && ptr - HEAD_SIZE in s.live
    requires FitsClass(s, s.live[ptr - HEAD_SIZE], Total(size))
    ensures InUse(s, ptr) && |s.classes| >= 1
    ensures Callable(Free(s, ptr)) && Asks(Free(s, ptr), size) == 0
    ensures Alloc(Free(s, ptr), size, page).1 == ptr
  {
    hide SlabOk, MemoryOk, AllAccounted, Alloc, ClassId, Total, Sizes, Callable, FitsClass, ClassesOk;
    var head := ptr - HEAD_SIZE;
    FreeFindsClass(s, ptr);
    FreeKeeps(s, ptr);
    FreeAccounted(s, ptr);
    var s' := Free(s, ptr);
    InvCallable(s');
    assert ClassesOk(s') by { InvParts(s'); }
    SameFit(s, s', s.live[head], Total(size));
    FromStack(s', size, page, s.live[head]);
  }

  lemma SameFit(s: Slab, s': Slab, i: nat, total: nat)
    requires ClassesOk(s') && FitsClass(s, i, total) && |s'.classes| == |s.classes|
    requires forall l :: 0 <= l < |s.classes| ==> s'.classes[l].size == s.classes[l].size
    ensures i == ClassId(Sizes(s'), total)
  {
    hide ClassId, ClassOk, TableOk;
    assert FitsClass(s', i, total);
    OnlyClass(s', total);
  }

  lemma FromStack(s: Slab, size: nat, page: nat, id: nat)
    requires Callable(s) && ClassId(Sizes(s), Total(size)) == id && 1 <= id < |s.classes| && s.classes[id].slots != []
    ensures Asks(s, size) == 0
    ensures Alloc(s, size, page).1 == s.classes[id].slots[|s.classes[id].slots| - 1] + HEAD_SIZE
  {
    hide ClassId, Total;
  }

  /** Freeing keeps the allocator in order and gives back that block and no other. */
  lemma FreeKeeps(s: Slab, ptr: nat)
    requires SlabOk(s) && (ptr != 0 ==> InUse(s, ptr))
    ensures |s.classes| >= 1
    ensures var s' := Free(s, ptr);
            && SlabOk(s')
            && (ptr == 0 ==> s' == s)
            && (ptr != 0 ==> Blocks(s') == Blocks(s) - {ptr - HEAD_SIZE})
            && (MemoryOk(s) ==> MemoryOk(s'))
  {
    hide ClassOk, Carved, TableOk, Sizes, PagesApart, BigApart, ClassId, LiveIn, InPage, Balanced, ClassesOk, LiveOk, SlabOk;
    InvParts(s);
    ClassIdOfTable(s, 0);
    if ptr != 0 {
      var head := ptr - HEAD_SIZE;
      NotBoth(s, head);
      var s' := Free(s, ptr);
      if head in s.live {
        FreeFindsClass(s, ptr);
        FreeLiveStep(s, head);
        CountUpdate(s.classes, s.live[head], s'.classes[s.live[head]]);
        assert Blocks(s') == Blocks(s) - {head};
      } else {
        FreeBigStep(s, head);
        assert Blocks(s') == Blocks(s) - {head};
      }
    }
  }

  lemma NotBoth(s: Slab, head: nat)
    requires SlabOk(s)
    ensures !(head in s.live && head in s.big)
    ensures head in s.big ==> head in s.heads && s.heads[head].isMalloc
    ensures head in s.live ==> head in s.heads && !s.heads[head].isMalloc
  {
    hide ClassOk, Carved, TableOk, Sizes, PagesApart, ClassId, LiveIn, Balanced;
    if head in s.live { assert LiveOk(s, head); }
  }

  lemma FreeLiveStep(s: Slab, head: nat)
    requires SlabOk(s) && head in s.live
    ensures 1 <= s.live[head] < |s.classes|
    ensures var i := s.live[head];
            SlabOk(s.(classes := s.classes[i := PushSlot(s.classes[i], head)], live := s.live - {head}))
  {
    hide ClassOk, Carved, TableOk, Sizes, PagesApart, BigApart, ClassId, LiveIn, InPage;
    assert LiveOk(s, head);
    var i := s.live[head];
    var c := PushSlot(s.classes[i], head);
    var s' := s.(classes := s.classes[i := c], live := s.live - {head});
    PushKeeps(s.classes[i], head);
    PutKeepsSizes(s, i, c);
    PutKeepsPages(s, i, c);
    SameSizes(s', Put(s, i, c));
    SamePages(Put(s, i, c), s');
    forall a | a in s'.live
      ensures LiveOk(s', a)
    {
      assert LiveOk(s, a);
    }
    forall l | 1 <= l < |s'.classes|
      ensures Balanced(s', l)
    {
      assert Balanced(s, l);
      OneLessLive(s, s', head, l);
    }
  }

  lemma FreeBigStep(s: Slab, head: nat)
    requires SlabOk(s) && head in s.big
    ensures SlabOk(s.(big := s.big - {head}))
  {
    hide ClassOk, Carved, TableOk, Sizes, PagesApart, BigApart, ClassId, LiveIn, InPage;
    var s' := s.(big := s.big - {head});
    SameSizes(s, s');
    SamePageList(s, s');
    BigRemove(s, head);
    forall a | a in s'.live
      ensures LiveOk(s', a)
    {
      assert LiveOk(s, a);
    }
    forall l | 1 <= l < |s'.classes|
      ensures Balanced(s', l)
    {
      assert Balanced(s, l);
      SameLive(s, s', l);
    }
  }

  lemma BigRemove(s: Slab, head: nat)
    requires BigApart(s)
    ensures BigApart(s.(big := s.big - {head}))
  {
    var s' := s.(big := s.big - {head});
    assert forall i, j :: IsPage(s', i, j) ==> IsPage(s, i, j) && Page(s', i, j) == Page(s, i, j);
  }

  // ---------- the first state ----------

  function PerSlab(size: nat): nat {
    if size == 0 then 0 else POWER_BLOCK / size
  }

  /** slab_init: the table with empty classes. */
  function Init(sizes: seq<nat>, limit: nat): Slab {
    Slab(seq(|sizes|, i requires 0 <= i < |sizes| => ClassState(sizes[i], PerSlab(sizes[i]), [], 0, 0, [])), limit, 0, map[], map[], map[])
  }

  /** A slab is cut into as many chunks as fit. */
  lemma PerSlabFits(size: nat)
    requires 0 < size <= POWER_BLOCK
    ensures PerSlab(size) > 0 && Addr(0, size, PerSlab(size)) <= POWER_BLOCK < Addr(0, size, PerSlab(size) + 1)
  {
    assert POWER_BLOCK % size < size;
    assert POWER_BLOCK == size * (POWER_BLOCK / size) + POWER_BLOCK % size;
  }

  lemma {:induction false} NothingCounted(classes: seq<ClassState>)
    requires forall i :: 0 <= i < |classes| ==> classes[i].slabList == []
    ensures SlabCount(classes) == 0 && Owners(classes) == 0
    decreases |classes|
  {
    if classes != [] { NothingCounted(classes[..|classes| - 1]); }
  }

  lemma InitInv(sizes: seq<nat>, limit: nat)
    requires TableOk(sizes)
    ensures Inv(Init(sizes, limit)) && Blocks(Init(sizes, limit)) == {}
  {
    hide Addr, PerSlab;
    var s := Init(sizes, limit);
    assert Sizes(s) == sizes;
    forall i | 1 <= i < |sizes|
      ensures ClassOk(s.classes[i]) && Balanced(s, i)
    {
      PerSlabFits(sizes[i]);
      assert LiveIn(s, i) == {};
    }
    NothingCounted(s.classes);
  }

  // ---------- whole runs ----------

  datatype Op = Request(size: nat, page: nat) | GiveBack(ptr: nat)

  /** A caller frees only what it was given, and the system's answers are good. */
  ghost predicate Allowed(s: Slab, op: Op) {
    && |s.classes| >= 1
    && match op
       case Request(size, page) => Answered(s, size, page)
       case GiveBack(ptr) => ptr != 0 ==> InUse(s, ptr)
  }

  ghost function Step(s: Slab, op: Op): Slab
    requires Callable(s) && Allowed(s, op)
  {
    match op
    case Request(size, page) => Alloc(s, size, page).0
    case GiveBack(ptr) => Free(s, ptr)
  }

  lemma StepKeeps(s: Slab, op: Op)
    requires Inv(s) && Allowed(s, op)
    ensures Callable(s) && Inv(Step(s, op)) && Step(s, op).memLimit == s.memLimit
  {
    hide SlabOk, MemoryOk, Callable, AllAccounted;
    assert Callable(s) by { InvCallable(s); }
    match op
    case Request(size, page) =>
      AllocKeeps(s, size, page);
      AllocMemory(s, size, page);
      AllocAccounted(s, size, page);
    case GiveBack(ptr) =>
      FreeKeeps(s, ptr);
      FreeAccounted(s, ptr);
  }

  lemma InvCallable(s: Slab)
    requires Inv(s)
    ensures Callable(s)
  {
    InvParts(s);
    CanAlloc(s);
  }

  ghost predicate Possible(s: Slab, ops: seq<Op>)
    decreases |ops|
  {
    ops == [] || (Callable(s) && Allowed(s, ops[0]) && Possible(Step(s, ops[0]), ops[1..]))
  }

  ghost function Run(s: Slab, ops: seq<Op>): Slab
    requires Possible(s, ops)
    decreases |ops|
  {
    if ops == [] then s else Run(Step(s, ops[0]), ops[1..])
  }

  /** Over every run the chunks in use are disjoint and in place, every class's chunks are
      accounted for, and memory taken stays within the limit plus one slab per owning class. */
  lemma {:induction false} RunKeeps(s: Slab, ops: seq<Op>)
    requires Inv(s) && Possible(s, ops)
    ensures Inv(Run(s, ops)) && Run(s, ops).memLimit == s.memLimit
    decreases |ops|
  {
    hide Inv, Allowed, Step;
    if ops != [] {
      StepKeeps(s, ops[0]);
      RunKeeps(Step(s, ops[0]), ops[1..]);
    }
  }

  /** From slab_init on: after any run, any two blocks in use are disjoint and the memory taken
      from the system for slabs is within bounds. */
  lemma RunFromInit(sizes: seq<nat>, limit: nat, ops: seq<Op>)
    requires TableOk(sizes) && Possible(Init(sizes, limit), ops)
    ensures var s := Run(Init(sizes, limit), ops);
            && Inv(s)
            && (forall a, b :: a in Blocks(s) && b in Blocks(s) && a != b ==> BlockApart(s, a, b))
            && s.memMalloced == POWER_BLOCK * SlabCount(s.classes)
            && (limit != 0 ==> s.memMalloced <= limit + POWER_BLOCK * Owners(s.classes))
            && (forall i :: 1 <= i < |s.classes| ==> Balanced(s, i))
  {
    hide ClassesOk, PagesApart, BigApart, LiveOk, Balanced, BlockApart, Possible, Run;
    InitInv(sizes, limit);
    RunKeeps(Init(sizes, limit), ops);
    var s := Run(Init(sizes, limit), ops);
    forall a, b | a in Blocks(s) && b in Blocks(s) && a != b
      ensures BlockApart(s, a, b)
    {
      DisjointBlocks(s, a, b);
    }
  }

  ghost predicate BlockApart(s: Slab, a: nat, b: nat) {
    && (a in s.live ==> s.live[a] < |s.classes|) && (b in s.live ==> s.live[b] < |s.classes|)
    && (a in s.live || a in s.big) && (b in s.live || b in s.big)
    && Apart(a, BlockSize(s, a), b, BlockSize(s, b))
  }

  lemma DisjointBlocks(s: Slab, a: nat, b: nat)
    requires SlabOk(s) && a in Blocks(s) && b in Blocks(s) && a != b
    ensures BlockApart(s, a, b)
  {
    hide SlabOk;
    BlocksDisjoint(s, a, b);
  }

  /** The block returned holds header and request if and only if adding the header to the request
      does not wrap around in a size_t. */
  lemma AllocServes(s: Slab, size: nat, page: nat)
    requires Inv(s) && |s.classes| >= 1 && Answered(s, size, page) && size < SIZE_RANGE
    ensures Callable(s)
    ensures var (s', ptr) := Alloc(s, size, page);
            ptr != 0 ==>
              && InUse(s', ptr) && (ptr - HEAD_SIZE in s'.live ==> s'.live[ptr - HEAD_SIZE] < |s'.classes|)
              && (BlockSize(s', ptr - HEAD_SIZE) >= size + HEAD_SIZE <==> size < SIZE_RANGE - HEAD_SIZE)
  {
    hide ClassesOk, ClassId, Sizes, SlabOk, MemoryOk, Total, Alloc, Callable;
    AllocKeeps(s, size, page);
    TotalIs(size);
    if size >= SIZE_RANGE - HEAD_SIZE {
      WrappedAlloc(s, size, page);
    }
  }

  const SIZE_RANGE: nat := 0x1_0000_0000_0000_0000

  /** A request whose total has wrapped is served from a class, whatever its size. */
  lemma WrappedAlloc(s: Slab, size: nat, page: nat)
    requires SlabOk(s) && Callable(s) && Total(size) <= POWER_BLOCK
    ensures var (s', ptr) := Alloc(s, size, page);
            ptr != 0 ==>
              var head := ptr - HEAD_SIZE;
              head >= 0 && head in s'.live && s'.live[head] < |s'.classes| && s'.classes[s'.live[head]].size <= POWER_BLOCK
  {
    hide ClassId, Sizes, Total, SlabOk, Callable, ClassesOk;
    assert ClassesOk(s) by { InvParts(s); }
    AtHand(s);
    var total := Total(size);
    var id := ClassId(Sizes(s), total);
    ClassIdOfTable(s, total);
    SmallInTable(s, total);
    if id >= POWER_SMALLEST {
      ClassSizeBound(s, id);
    }
  }

  lemma AtHand(s: Slab)
    requires Callable(s)
    ensures |s.classes| >= 1
    ensures forall i :: 1 <= i < |s.classes| ==> s.classes[i].perslab > 0
    ensures forall i :: 1 <= i < |s.classes| && s.classes[i].endPtr != 0 ==> s.classes[i].endFree > 0
  {
  }

  lemma SmallInTable(s: Slab, total: nat)
    requires ClassesOk(s) && total <= POWER_BLOCK
    ensures |Sizes(s)| == |s.classes| && ClassId(Sizes(s), total) < |s.classes|
  {
    if total > 0 { ClassIdMeans(Sizes(s), total); }
  }

  lemma ClassSizeBound(s: Slab, i: nat)
    requires ClassesOk(s) && i < |s.classes|
    ensures s.classes[i].size <= POWER_BLOCK
  {
    SizeOf(s, i);
    SizeOf(s, |s.classes| - 1);
  }

  /** From 2^64 - 7 on the blocks are too small: that request gets the smallest chunk. One byte less
      gets NULL. */
  lemma WrapExample(sizes: seq<nat>, limit: nat, page: nat)
    requires TableOk(sizes) && Supply(Init(sizes, limit), page, POWER_BLOCK)
    ensures var s := Init(sizes, limit);
            && Callable(s)
            && Alloc(s, SIZE_RANGE - 8, page).1 == 0
            && var (s', ptr) := Alloc(s, SIZE_RANGE - 7, page);
               ptr == page + HEAD_SIZE && page in s'.live && s'.live[page] < |s'.classes| && BlockSize(s', page) == sizes[1]
  {
    hide TableOk, Increasing, PerSlab, Supply;
    var s := Init(sizes, limit);
    InitInv(sizes, limit);
    InvCallable(s);
    assert Sizes(s) == sizes;
    FirstClass(sizes);
    assert page > 0 by { SupplyIs(s, page, POWER_BLOCK); }
    assert Total(SIZE_RANGE - 8) == 0 && Total(SIZE_RANGE - 7) == 1;
  }

  lemma FirstClass(sizes: seq<nat>)
    requires TableOk(sizes)
    ensures |sizes| >= 3 && ClassId(sizes, 1) == 1
  {
    ClassIdMeans(sizes, 1);
    assert sizes[0] < 1 <= sizes[1];
  }

  /** Two requests of 8 bytes under a limit of one slab: they get neighbouring chunks of 16 bytes, and
      262,142 more are left. */
  lemma TwoSmallRequests(sizes: seq<nat>, page: nat, other: nat)
    requires TableOk(sizes) && sizes[1] == 16 && Supply(Init(sizes, 0x40_0000), page, 0x40_0000)
    ensures var s := Init(sizes, 0x40_0000);
            && Callable(s)
            && var (s1, p1) := Alloc(s, 8, page);
               && Callable(s1) && |s1.classes| > 1
               && var (s2, p2) := Alloc(s1, 8, other);
                  && p1 == page + 8 && p2 == page + 24
                  && |s2.classes| > 1 && s2.classes[1].endFree == 262_142 && s2.memMalloced == 0x40_0000
  {
    hide TableOk, Supply, Init, Alloc, Callable, Inv, Sizes;
    var s := Init(sizes, 0x40_0000);
    InitInv(sizes, 0x40_0000);
    InvCallable(s);
    SixteenBytes(sizes);
    InitClass(sizes, 0x40_0000, 1);
    FirstAnswer(s, page);
    FromNewSlab(s, 8, page, 1);
    var s1 := Alloc(s, 8, page).0;
    StepKeeps(s, Request(8, page));
    InvCallable(s1);
    FromPage(s1, 8, other, 1);
  }

  lemma InitClass(sizes: seq<nat>, limit: nat, i: nat)
    requires i < |sizes|
    ensures var s := Init(sizes, limit);
            && |s.classes| == |sizes| && Sizes(s) == sizes && s.memLimit == limit && s.memMalloced == 0
            && s.classes[i] == ClassState(sizes[i], PerSlab(sizes[i]), [], 0, 0, [])
  {
    assert Sizes(Init(sizes, limit)) == sizes;
  }

  /** A class without chunks, below the limit: the page's first chunk. */
  lemma FromNewSlab(s: Slab, size: nat, page: nat, id: nat)
    requires Callable(s) && ClassId(Sizes(s), Total(size)) == id && 1 <= id < |s.classes| && page > 0
    requires s.classes[id].slots == [] && s.classes[id].endPtr == 0 && s.classes[id].slabList == [] && s.classes[id].perslab > 1
    ensures var (s', ptr) := Alloc(s, size, page); var c := s.classes[id];
            && ptr == page + HEAD_SIZE && |s'.classes| == |s.classes| && Sizes(s') == Sizes(s)
            && s'.memMalloced == s.memMalloced + POWER_BLOCK
            && s'.classes[id] == c.(endPtr := page + c.size, endFree := c.perslab - 1, slabList := [page])
  {
    hide ClassId, Total;
    var c := s.classes[id];
    var s' := Alloc(s, size, page).0;
    assert Stocked(s, c, page) == Some(NewSlab(c, page));
    assert c.slabList + [page] == [page];
    assert Sizes(s') == Sizes(s);
  }

  /** A class with chunks left at the end of its page and an empty stack: the next chunk. */
  lemma FromPage(s: Slab, size: nat, page: nat, id: nat)
    requires Callable(s) && ClassId(Sizes(s), Total(size)) == id && 1 <= id < |s.classes|
    requires s.classes[id].slots == [] && s.classes[id].endPtr != 0
    ensures var (s', ptr) := Alloc(s, size, page); var c := s.classes[id];
            && ptr == c.endPtr + HEAD_SIZE && |s'.classes| == |s.classes| && s'.memMalloced == s.memMalloced
            && s'.classes[id] == Carve(c)
  {
    hide ClassId, Total;
  }

  lemma SixteenBytes(sizes: seq<nat>)
    requires TableOk(sizes) && sizes[1] == 16
    ensures |sizes| >= 3 && ClassId(sizes, Total(8)) == 1 && PerSlab(16) == 262_144
  {
    ClassIdMeans(sizes, 16);
    assert sizes[0] < 16 <= sizes[1];
  }

  lemma FirstAnswer(s: Slab, page: nat)
    requires |s.classes| >= 1 && Supply(s, page, 0x40_0000) && ClassId(Sizes(s), Total(8)) < |s.classes|
    ensures page > 0 && Answered(s, 8, page) && Allowed(s, Request(8, page))
  {
    hide Supply, ClassId, Total;
    SupplyIs(s, page, 0x40_0000);
  }
}
