/** The slab allocator as a function of its state: pages carved into chunks, a stack of freed
    chunks per class, and a memory limit. Addresses are numbers; the system allocator's answer
    is a parameter. One thread. */
module SlabModel {
  import opened Bytes
  import opened SlabClasses

  const HEAD_SIZE: nat := 8

  /** slabclass_t. `endPtr` is 0 for NULL; `slots` holds the first sl_curr entries. */
  datatype ClassState = ClassState(size: nat, perslab: nat, slots: seq<nat>, endPtr: nat, endFree: nat, slabList: seq<nat>)

  /** slabhead_t, stored in front of every block handed out. */
  datatype Head = Head(isMalloc: bool, size: nat)

  /** `heads` is the memory of the headers. `live` maps the head of every chunk in use to the
      class it was carved from, `big` the head of every malloc(3) block in use to its size. */
  datatype Slab = Slab(classes: seq<ClassState>, memLimit: nat, memMalloced: nat,
                       heads: map<nat, Head>, live: map<nat, nat>, big: map<nat, nat>)

  function Sizes(s: Slab): (r: seq<nat>)
    ensures |r| == |s.classes| && forall i :: 0 <= i < |r| ==> r[i] == s.classes[i].size
  {
    seq(|s.classes|, i requires 0 <= i < |s.classes| => s.classes[i].size)
  }

  // ---------- the operations ----------

  /** do_slabs_newslab, after the limit test. */
  function NewSlab(c: ClassState, page: nat): ClassState {
    c.(endPtr := page, endFree := c.perslab, slabList := c.slabList + [page])
  }

  predicate LimitReached(s: Slab, c: ClassState) {
    s.memLimit != 0 && s.memMalloced + POWER_BLOCK > s.memLimit && c.slabList != []
  }

  function PopSlot(c: ClassState): ClassState
    requires c.slots != []
  {
    c.(slots := c.slots[..|c.slots| - 1])
  }

  function Carve(c: ClassState): ClassState
    requires c.endFree > 0
  {
    c.(endFree := c.endFree - 1, endPtr := if c.endFree - 1 != 0 then c.endPtr + c.size else 0)
  }

  function PushSlot(c: ClassState, head: nat): ClassState {
    c.(slots := c.slots + [head])
  }

  /** The size a request is served with: the header is added in a size_t. */
  function Total(size: nat): nat {
    (size + HEAD_SIZE) % 0x1_0000_0000_0000_0000
  }

  lemma TotalIs(size: nat)
    ensures Total(size) == (size + HEAD_SIZE) % 0x1_0000_0000_0000_0000
  {
  }

  /** The class with a chunk at hand, or with a fresh slab; None when the limit forbids one. */
  function Stocked(s: Slab, c: ClassState, page: nat): Option<ClassState> {
    if c.endPtr != 0 || c.slots != [] then Some(c)
    else if LimitReached(s, c) then None
    else Some(NewSlab(c, page))
  }

  predicate Callable(s: Slab) {
    && |s.classes| >= 1
    && (forall i :: 1 <= i < |s.classes| ==> s.classes[i].perslab > 0)
    && (forall i :: 1 <= i < |s.classes| && s.classes[i].endPtr != 0 ==> s.classes[i].endFree > 0)
  }

  /** _slab_alloc: the pointer, 0 for NULL. `page` is what valloc or malloc returns if asked. */
  function Alloc(s: Slab, size: nat, page: nat): (Slab, nat)
    requires Callable(s)
  {
    var total := Total(size);
    var id := ClassId(Sizes(s), total);
    if id < POWER_SMALLEST then (s, 0)
    else if id >= |s.classes| then
      (s.(heads := s.heads[page := Head(true, total % 0x1_0000_0000)], big := s.big[page := total]), page + HEAD_SIZE)
    else
      var c := s.classes[id];
      match Stocked(s, c, page)
      case None => (s, 0)
      case Some(c1) =>
        var head := if c1.slots != [] then c1.slots[|c1.slots| - 1] else c1.endPtr;
        var c2 := if c1.slots != [] then PopSlot(c1) else Carve(c1);
        (s.(classes := s.classes[id := c2],
            memMalloced := s.memMalloced + POWER_BLOCK * (|c2.slabList| - |c.slabList|),
            heads := s.heads[head := Head(false, total)],
            live := s.live[head := id]), head + HEAD_SIZE)
  }

  /** The pointer was returned by an allocation and not freed since. */
  predicate InUse(s: Slab, ptr: nat) {
    ptr >= HEAD_SIZE && (ptr - HEAD_SIZE in s.live || ptr - HEAD_SIZE in s.big) && ptr - HEAD_SIZE in s.heads
  }

  /** _slab_free: the class is looked up again from the header, into an unsigned char. */
  function Free(s: Slab, ptr: nat): Slab
    requires ptr != 0 ==> InUse(s, ptr)
    requires |s.classes| >= 1
  {
    if ptr == 0 then s
    else
      var head := ptr - HEAD_SIZE;
      if s.heads[head].isMalloc then s.(big := s.big - {head})
      else
        var id := ClassId(Sizes(s), s.heads[head].size) % 256;
        if id < POWER_SMALLEST || id >= |s.classes| then s
        else s.(classes := s.classes[id := PushSlot(s.classes[id], head)], live := s.live - {head})
  }

  // ---------- chunks ----------

  function Addr(base: nat, size: nat, k: nat): nat {
    base + size * k
  }

  lemma AddrNext(base: nat, size: nat, k: nat)
    ensures Addr(base, size, k + 1) == Addr(base, size, k) + size
    ensures Addr(base, size, 0) == base
  {
  }

  lemma {:induction false} AddrOrder(base: nat, size: nat, i: nat, j: nat)
    requires i < j
    ensures Addr(base, size, i) + size <= Addr(base, size, j)
    decreases j
  {
    AddrNext(base, size, j - 1);
    if i < j - 1 {
      AddrOrder(base, size, i, j - 1);
    }
  }

  lemma {:induction false} AddrAligned(base: nat, size: nat, k: nat)
    requires base % 8 == 0 && size % 8 == 0
    ensures Addr(base, size, k) % 8 == 0
    decreases k
  {
    hide Addr;
    if k > 0 {
      AddrNext(base, size, k - 1);
      AddrAligned(base, size, k - 1);
    } else {
      AddrNext(base, size, 0);
    }
  }

  /** Chunk `k` of a page lies inside the page. */
  lemma AddrInPage(base: nat, size: nat, k: nat, perslab: nat)
    requires k < perslab && Addr(0, size, perslab) <= POWER_BLOCK
    ensures base <= Addr(base, size, k) && Addr(base, size, k) + size <= base + POWER_BLOCK
  {
    AddrOrder(0, size, k, perslab);
  }

  predicate Apart(a: nat, n: nat, b: nat, m: nat) {
    a + n <= b || b + m <= a
  }

  /** How many chunks of page `j` have been handed out at least once. */
  function CarvedCount(c: ClassState, j: nat): int {
    if j == |c.slabList| - 1 && c.endPtr != 0 then c.perslab - c.endFree else c.perslab
  }

  ghost predicate CarvedAt(c: ClassState, a: nat, j: nat, k: nat) {
    j < |c.slabList| && k < CarvedCount(c, j) && a == Addr(c.slabList[j], c.size, k)
  }

  ghost predicate Carved(c: ClassState, a: nat) {
    exists j, k :: CarvedAt(c, a, j, k)
  }

  ghost predicate PagesOk(pages: seq<nat>) {
    && (forall j :: 0 <= j < |pages| ==> pages[j] > 0 && pages[j] % 8 == 0)
    && (forall i, j :: 0 <= i < j < |pages| ==> Apart(pages[i], POWER_BLOCK, pages[j], POWER_BLOCK))
  }

  ghost predicate EndOk(c: ClassState) {
    c.endPtr != 0 ==>
      && c.slabList != []
      && 0 < c.endFree <= c.perslab
      && c.endPtr == Addr(c.slabList[|c.slabList| - 1], c.size, c.perslab - c.endFree)
  }

  ghost predicate ClassOk(c: ClassState) {
    && c.size > 0 && c.size % 8 == 0 && c.perslab > 0
    && Addr(0, c.size, c.perslab) <= POWER_BLOCK < Addr(0, c.size, c.perslab + 1)
    && PagesOk(c.slabList)
    && EndOk(c)
    && Distinct(c.slots)
    && forall i :: 0 <= i < |c.slots| ==> Carved(c, c.slots[i])
  }

  /** Different chunks of one class share no byte. */
  lemma ChunksApart(c: ClassState, a: nat, b: nat)
    requires ClassOk(c) && Carved(c, a) && Carved(c, b) && a != b
    ensures Apart(a, c.size, b, c.size)
  {
    hide Addr;
    var j: nat, k: nat :| CarvedAt(c, a, j, k);
    var l: nat, m: nat :| CarvedAt(c, b, l, m);
    AddrInPage(c.slabList[j], c.size, k, c.perslab);
    AddrInPage(c.slabList[l], c.size, m, c.perslab);
    if j == l {
      if k < m { AddrOrder(c.slabList[j], c.size, k, m); } else { AddrOrder(c.slabList[j], c.size, m, k); }
    }
  }

  /** A chunk is inside one of its class's pages and 8-byte aligned. */
  lemma ChunkPlace(c: ClassState, a: nat)
    requires ClassOk(c) && Carved(c, a)
    ensures a > 0 && a % 8 == 0
    ensures InPage(c, a)
  {
    hide Addr;
    var j: nat, k: nat :| CarvedAt(c, a, j, k);
    AddrInPage(c.slabList[j], c.size, k, c.perslab);
    AddrAligned(c.slabList[j], c.size, k);
  }

  ghost predicate InPage(c: ClassState, a: nat) {
    exists j :: 0 <= j < |c.slabList| && c.slabList[j] <= a && a + c.size <= c.slabList[j] + POWER_BLOCK
  }

  lemma PagesAppend(pages: seq<nat>, page: nat)
    requires PagesOk(pages) && page > 0 && page % 8 == 0
    requires forall j :: 0 <= j < |pages| ==> Apart(pages[j], POWER_BLOCK, page, POWER_BLOCK)
    ensures PagesOk(pages + [page])
  {
  }

  /** A new slab, taken only when nothing is left, keeps the class and hands nothing out yet. */
  lemma NewSlabKeeps(c: ClassState, page: nat)
    requires ClassOk(c) && c.endPtr == 0 && page > 0 && page % 8 == 0
    requires forall j :: 0 <= j < |c.slabList| ==> Apart(c.slabList[j], POWER_BLOCK, page, POWER_BLOCK)
    ensures ClassOk(NewSlab(c, page))
    ensures forall a :: Carved(NewSlab(c, page), a) <==> Carved(c, a)
  {
    hide Addr;
    var c' := NewSlab(c, page);
    AddrNext(page, c.size, 0);
    PagesAppend(c.slabList, page);
    forall a: nat
      ensures Carved(c', a) <==> Carved(c, a)
    {
      if Carved(c, a) {
        var j: nat, k: nat :| CarvedAt(c, a, j, k);
        assert CarvedAt(c', a, j, k);
      }
      if Carved(c', a) {
        var j: nat, k: nat :| CarvedAt(c', a, j, k);
        assert CarvedAt(c, a, j, k);
      }
    }
  }

  /** Carving hands out exactly the chunk at the end pointer, which was not in circulation. */
  lemma CarveKeeps(c: ClassState)
    requires ClassOk(c) && c.endPtr != 0
    ensures ClassOk(Carve(c))
    ensures !Carved(c, c.endPtr)
    ensures forall a :: Carved(Carve(c), a) <==> Carved(c, a) || a == c.endPtr
  {
    hide Addr, PagesOk;
    var c' := Carve(c);
    var last := |c.slabList| - 1;
    var next := c.perslab - c.endFree;
    AddrNext(c.slabList[last], c.size, next);
    CarvedBefore(c, c.endPtr);
    assert CarvedAt(c', c.endPtr, last, next);
    forall a: nat
      ensures Carved(c', a) <==> Carved(c, a) || a == c.endPtr
    {
      if Carved(c, a) {
        var j: nat, k: nat :| CarvedAt(c, a, j, k);
        assert CarvedAt(c', a, j, k);
      }
      if Carved(c', a) && a != c.endPtr {
        var j: nat, k: nat :| CarvedAt(c', a, j, k);
        assert CarvedAt(c, a, j, k);
      }
    }
  }

  lemma CarvedBefore(c: ClassState, a: nat)
    requires ClassOk(c) && c.endPtr != 0 && a == c.endPtr
    ensures !Carved(c, a)
  {
    hide Addr;
    if Carved(c, a) {
      var j: nat, k: nat :| CarvedAt(c, a, j, k);
      var last, next := |c.slabList| - 1, c.perslab - c.endFree;
      AddrInPage(c.slabList[j], c.size, k, c.perslab);
      AddrInPage(c.slabList[last], c.size, next, c.perslab);
      if j == last {
        AddrOrder(c.slabList[last], c.size, k, next);
      }
    }
  }

  // ---------- the whole allocator ----------

  ghost predicate IsPage(s: Slab, i: nat, j: nat) {
    1 <= i < |s.classes| && j < |s.classes[i].slabList|
  }

  function Page(s: Slab, i: nat, j: nat): nat
    requires IsPage(s, i, j)
  {
    s.classes[i].slabList[j]
  }

  /** No two slabs overlap, whichever classes they serve. */
  ghost predicate PagesApart(s: Slab) {
    forall i, j, l, m :: IsPage(s, i, j) && IsPage(s, l, m) && (i != l || j != m) ==>
      Apart(Page(s, i, j), POWER_BLOCK, Page(s, l, m), POWER_BLOCK)
  }

  /** Blocks from malloc(3) keep clear of the slabs and of each other. */
  ghost predicate BigApart(s: Slab) {
    && (forall a, i, j :: a in s.big && IsPage(s, i, j) ==> Apart(a, s.big[a], Page(s, i, j), POWER_BLOCK))
    && (forall a, b :: a in s.big && b in s.big && a != b ==> Apart(a, s.big[a], b, s.big[b]))
    && (forall a :: a in s.big ==> s.big[a] > 0 && a in s.heads && s.heads[a].isMalloc)
  }

  /** A chunk in use: handed out by its class, not on the free stack, and its header names a size
      that belongs to that class. */
  ghost predicate LiveOk(s: Slab, a: nat) {
    && a in s.live && 1 <= s.live[a] < |s.classes|
    && Carved(s.classes[s.live[a]], a)
    && a !in s.classes[s.live[a]].slots
    && a in s.heads && !s.heads[a].isMalloc
    && s.heads[a].size > 0
    && ClassId(Sizes(s), s.heads[a].size) == s.live[a]
  }

  function LiveIn(s: Slab, i: nat): set<nat> {
    set a | a in s.live && s.live[a] == i
  }

  function EndFree(c: ClassState): nat {
    if c.endPtr != 0 then c.endFree else 0
  }

  ghost predicate Balanced(s: Slab, i: nat)
    requires i < |s.classes|
  {
    var c := s.classes[i];
    |LiveIn(s, i)| + |c.slots| + EndFree(c) == |c.slabList| * c.perslab
  }

  /** Every chunk carved so far is in use or on the free stack. */
  ghost predicate Accounted(s: Slab, i: nat)
    requires i < |s.classes|
  {
    forall a :: Carved(s.classes[i], a) ==> (a in s.live && s.live[a] == i) || a in s.classes[i].slots
  }

  ghost predicate ClassesOk(s: Slab) {
    && TableOk(Sizes(s))
    && forall i :: 1 <= i < |s.classes| ==> ClassOk(s.classes[i])
  }

  ghost predicate SlabOk(s: Slab) {
    && ClassesOk(s)
    && PagesApart(s)
    && BigApart(s)
    && (forall a :: a in s.live ==> LiveOk(s, a))
    && (forall i :: 1 <= i < |s.classes| ==> Balanced(s, i))
  }

  /** What the system allocator promises about the block it returns. */
  ghost predicate Supply(s: Slab, page: nat, n: nat) {
    && page > 0 && page % 8 == 0
    && (forall i, j :: IsPage(s, i, j) ==> Apart(Page(s, i, j), POWER_BLOCK, page, n))
    && (forall a :: a in s.big ==> Apart(a, s.big[a], page, n))
  }

  // ---------- what a state that is in order promises its callers ----------

  function BlockSize(s: Slab, a: nat): nat
    requires a in s.live ==> s.live[a] < |s.classes|
    requires a in s.live || a in s.big
  {
    if a in s.live then s.classes[s.live[a]].size else s.big[a]
  }

  /** Any two blocks in use are disjoint, chunks and malloc(3) blocks alike. */
  lemma BlocksDisjoint(s: Slab, a: nat, b: nat)
    requires SlabOk(s) && a != b
    requires (a in s.live || a in s.big) && (b in s.live || b in s.big)
    ensures a in s.live ==> s.live[a] < |s.classes|
    ensures b in s.live ==> s.live[b] < |s.classes|
    ensures Apart(a, BlockSize(s, a), b, BlockSize(s, b))
  {
    hide ClassOk, Carved, TableOk, Sizes, Balanced, PagesApart, BigApart, InPage;
    if a in s.live && b in s.live {
      assert LiveOk(s, a) && LiveOk(s, b);
      if s.live[a] == s.live[b] {
        ChunksApart(s.classes[s.live[a]], a, b);
      } else {
        ChunkPlace(s.classes[s.live[a]], a);
        ChunkPlace(s.classes[s.live[b]], b);
        TwoPlaces(s, s.live[a], a, s.live[b], b);
      }
    } else if a in s.live {
      assert LiveOk(s, a);
      ChunkPlace(s.classes[s.live[a]], a);
      ClassSizePositive(s.classes[s.live[a]]);
      PlaceAndBig(s, s.live[a], a, b);
    } else if b in s.live {
      assert LiveOk(s, b);
      ChunkPlace(s.classes[s.live[b]], b);
      ClassSizePositive(s.classes[s.live[b]]);
      PlaceAndBig(s, s.live[b], b, a);
    } else {
      BigAndBig(s, a, b);
    }
  }

  lemma BigAndBig(s: Slab, a: nat, b: nat)
    requires BigApart(s) && a in s.big && b in s.big && a != b
    ensures Apart(a, s.big[a], b, s.big[b])
  {
  }

  lemma TwoPlaces(s: Slab, i: nat, a: nat, l: nat, b: nat)
    requires PagesApart(s) && 1 <= i < |s.classes| && 1 <= l < |s.classes| && i != l
    requires InPage(s.classes[i], a) && InPage(s.classes[l], b)
    ensures Apart(a, s.classes[i].size, b, s.classes[l].size)
  {
    var j :| 0 <= j < |s.classes[i].slabList| && s.classes[i].slabList[j] <= a && a + s.classes[i].size <= s.classes[i].slabList[j] + POWER_BLOCK;
    var m :| 0 <= m < |s.classes[l].slabList| && s.classes[l].slabList[m] <= b && b + s.classes[l].size <= s.classes[l].slabList[m] + POWER_BLOCK;
    assert IsPage(s, i, j) && IsPage(s, l, m);
    assert Apart(Page(s, i, j), POWER_BLOCK, Page(s, l, m), POWER_BLOCK);
  }

  lemma PlaceAndBig(s: Slab, i: nat, a: nat, b: nat)
    requires BigApart(s) && 1 <= i < |s.classes| && s.classes[i].size > 0 && InPage(s.classes[i], a) && b in s.big
    ensures Apart(a, s.classes[i].size, b, s.big[b]) && a != b
  {
    var j :| 0 <= j < |s.classes[i].slabList| && s.classes[i].slabList[j] <= a && a + s.classes[i].size <= s.classes[i].slabList[j] + POWER_BLOCK;
    assert IsPage(s, i, j);
    assert Apart(b, s.big[b], Page(s, i, j), POWER_BLOCK);
  }

  lemma ClassSizePositive(c: ClassState)
    requires ClassOk(c)
    ensures c.size > 0
  {
  }

  /** A chunk in use lies within one slab of its class, is 8-byte aligned, and is at least of the
      size its header records. */
  lemma LiveChunk(s: Slab, a: nat)
    requires SlabOk(s) && a in s.live
    ensures 1 <= s.live[a] < |s.classes| && a in s.heads
    ensures var c := s.classes[s.live[a]];
            && a % 8 == 0
            && InPage(c, a)
            && s.heads[a].size <= c.size
  {
    hide ClassOk, Carved, TableOk, Sizes, Balanced, PagesApart, BigApart, InPage;
    assert LiveOk(s, a);
    ChunkPlace(s.classes[s.live[a]], a);
    ClassIdMeans(Sizes(s), s.heads[a].size);
    SizeOf(s, s.live[a]);
  }

  lemma SizeOf(s: Slab, i: nat)
    requires i < |s.classes|
    ensures |Sizes(s)| == |s.classes| && Sizes(s)[i] == s.classes[i].size
  {
  }
}
