/** The slab allocator as it runs: class descriptors updated in place. */
module Slab {
  import opened Bytes
  import opened SlabClasses
  import opened SlabModel
  import opened SlabRuns

  /** slabclass_t. The two arrays that grow by realloc are sequences: `slots` holds the first
      sl_curr entries of the free stack, `slabList` the first `slabs` of the slab list. */
  class SlabClass {
    var size: nat
    var perslab: nat
    var slots: seq<nat>
    var endPagePtr: nat
    var endPageFree: nat
    var slabList: seq<nat>

    ghost function Model(): ClassState
      reads this
    {
      ClassState(size, perslab, slots, endPagePtr, endPageFree, slabList)
    }

    constructor (size: nat, perslab: nat)
      ensures Model() == ClassState(size, perslab, [], 0, 0, [])
    {
      this.size, this.perslab := size, perslab;
      slots, slabList := [], [];
      endPagePtr, endPageFree := 0, 0;
    }
  }

  /** slabclass, mem_limit, mem_malloced, and the headers in memory. */
  class Allocator {
    const slabclass: seq<SlabClass>
    var memLimit: nat
    var memMalloced: nat
    var heads: map<nat, Head>
    ghost var live: map<nat, nat>
    ghost var big: map<nat, nat>

    ghost predicate Valid()
      reads this
    {
      forall i, j :: 0 <= i < j < |slabclass| ==> slabclass[i] != slabclass[j]
    }

    ghost function Model(): SlabModel.Slab
      reads this, slabclass
    {
      SlabModel.Slab(Models(slabclass), memLimit, memMalloced, heads, live, big)
    }

    static ghost function Models(cs: seq<SlabClass>): (r: seq<ClassState>)
      reads cs
      ensures |r| == |cs| && forall i :: 0 <= i < |cs| ==> r[i] == cs[i].Model()
    {
      seq(|cs|, i requires 0 <= i < |cs| reads cs => cs[i].Model())
    }

    function SizeColumn(): seq<nat>
      reads this, slabclass
    {
      seq(|slabclass|, i requires 0 <= i < |slabclass| reads this, slabclass => slabclass[i].size)
    }

    lemma Ready()
      requires Valid() && SlabOk(Model())
      ensures SizeColumn() == Sizes(Model()) && TableOk(Sizes(Model())) && Callable(Model()) && |slabclass| >= 3
    {
      hide TableOk;
      InvParts(Model());
      CanAlloc(Model());
    }

    lemma InUseMeans(ptr: nat)
      ensures InUse(Model(), ptr) ==> (ptr - HEAD_SIZE in live || ptr - HEAD_SIZE in big) && ptr >= HEAD_SIZE && ptr - HEAD_SIZE in heads
    {
    }

    /** What Free does, by the kind of block. */
    static lemma FreeIs(s: SlabModel.Slab, ptr: nat)
      requires SlabOk(s) && (ptr != 0 ==> InUse(s, ptr))
      ensures |s.classes| >= 1
      ensures ptr == 0 ==> SlabModel.Free(s, ptr) == s
      ensures ptr != 0 && s.heads[ptr - HEAD_SIZE].isMalloc ==> SlabModel.Free(s, ptr) == s.(big := s.big - {ptr - HEAD_SIZE})
      ensures ptr != 0 && !s.heads[ptr - HEAD_SIZE].isMalloc ==>
                var head := ptr - HEAD_SIZE;
                var i := ClassId(Sizes(s), s.heads[head].size) % 256;
                && 1 <= i < |s.classes|
                && SlabModel.Free(s, ptr) == s.(classes := s.classes[i := PushSlot(s.classes[i], head)], live := s.live - {head})
    {
      hide ClassId, TableOk, Sizes, ClassesOk, PagesApart, BigApart, Carved, Balanced, SlabOk;
      assert 201 >= |s.classes| >= 1 && |Sizes(s)| == |s.classes| by { ClassIdBound(s); }
      if ptr != 0 {
        NotBoth(s, ptr - HEAD_SIZE);
        if !s.heads[ptr - HEAD_SIZE].isMalloc { LiveClass(s, ptr - HEAD_SIZE); }
      }
    }

    static lemma ClassIdBound(s: SlabModel.Slab)
      requires SlabOk(s)
      ensures 201 >= |s.classes| >= 1 && |Sizes(s)| == |s.classes|
    {
    }

    static lemma LiveClass(s: SlabModel.Slab, head: nat)
      requires SlabOk(s) && head in s.live && head in s.heads
      ensures 1 <= ClassId(Sizes(s), s.heads[head].size) < |s.classes|
    {
      assert LiveOk(s, head);
    }

    /** slab_init */
    constructor (limit: nat, factor: real)
      requires factor > 1.0
      ensures Valid() && (forall c :: c in slabclass ==> fresh(c))
      ensures factor >= 17.0 / 16.0 ==> Inv(Model()) && Blocks(Model()) == {}
      ensures exists sizes :: TableShape(sizes, factor) && Model() == Init(sizes, limit)
    {
      hide Inv, TableShape, TableOk, Increasing, Blocks, PerSlab;
      var sizes := SlabInit(factor);
      var classes := MakeClasses(sizes);
      slabclass := classes;
      memLimit, memMalloced := limit, 0;
      heads, live, big := map[], map[], map[];
      new;
      assert Model() == Init(sizes, limit);
      if factor >= 17.0 / 16.0 { InitInv(sizes, limit); }
    }

    /** do_slabs_newslab; `page` is what the system answers. */
    method NewSlab(id: nat, page: nat) returns (ok: bool)
      requires Valid() && id < |slabclass|
      modifies this, slabclass[id]
      ensures ok == !LimitReached(old(Model()), old(Model()).classes[id])
      ensures !ok ==> Model() == old(Model())
      ensures ok ==> Model() == Put(old(Model()), id, SlabModel.NewSlab(old(Model()).classes[id], page)).(memMalloced := old(memMalloced) + POWER_BLOCK)
    {
      var p := slabclass[id];
      if memLimit != 0 && memMalloced + POWER_BLOCK > memLimit && |p.slabList| > 0 {
        return false;
      }
      p.endPagePtr := page;
      p.endPageFree := p.perslab;
      p.slabList := p.slabList + [page];
      memMalloced := memMalloced + POWER_BLOCK;
      assert Model().classes == old(Model()).classes[id := p.Model()];
      return true;
    }

    /** Takes a chunk, off the free stack if it has one, else from the end of the page, and writes
        its header. */
    method TakeChunk(id: nat, total: nat) returns (head: nat)
      requires Valid() && id < |slabclass|
      requires slabclass[id].slots != [] || slabclass[id].endPageFree > 0
      modifies this, slabclass[id]
      ensures var c := old(Model()).classes[id];
              && head == (if c.slots != [] then c.slots[|c.slots| - 1] else c.endPtr)
              && Model() == HandOut(old(Model()), id, if c.slots != [] then PopSlot(c) else Carve(c), head, total)
    {
      var p := slabclass[id];
      if p.slots != [] {
        head := p.slots[|p.slots| - 1];
        p.slots := p.slots[..|p.slots| - 1];
      } else {
        head := p.endPagePtr;
        p.endPageFree := p.endPageFree - 1;
        if p.endPageFree != 0 {
          p.endPagePtr := p.endPagePtr + p.size;
        } else {
          p.endPagePtr := 0;
        }
      }
      heads := heads[head := Head(false, total)];
      live := live[head := id];
      assert Model().classes == old(Model()).classes[id := p.Model()];
    }

    /** Allocation that takes no chunk. */
    static lemma AllocWithout(s: SlabModel.Slab, size: nat, page: nat)
      requires SlabOk(s)
      ensures Callable(s) && |s.classes| >= 3 && |Sizes(s)| == |s.classes|
      ensures var total := Total(size);
              var id := ClassId(Sizes(s), total);
              && (id < POWER_SMALLEST ==> SlabModel.Alloc(s, size, page) == (s, 0))
              && (id >= |s.classes| ==>
                  SlabModel.Alloc(s, size, page) == (s.(heads := s.heads[page := Head(true, total % 0x1_0000_0000)], big := s.big[page := total]), page + HEAD_SIZE))
              && (1 <= id < |s.classes| && s.classes[id].endPtr == 0 && s.classes[id].slots == [] && LimitReached(s, s.classes[id]) ==>
                  SlabModel.Alloc(s, size, page) == (s, 0))
    {
      hide ClassId, TableOk, SlabOk, Sizes, Total;
      InvParts(s);
      CanAlloc(s);
      SizeOf(s, 0);
    }

    /** Allocation that takes a chunk in state `s1`, where the class is stocked. */
    static lemma AllocWith(s: SlabModel.Slab, size: nat, page: nat, s1: SlabModel.Slab)
      requires SlabOk(s) && |Sizes(s)| == |s.classes| && Callable(s)
      requires 1 <= ClassId(Sizes(s), Total(size)) < |s.classes|
      requires var id := ClassId(Sizes(s), Total(size));
               if s.classes[id].endPtr != 0 || s.classes[id].slots != [] then s1 == s
               else !LimitReached(s, s.classes[id]) && s1 == Put(s, id, SlabModel.NewSlab(s.classes[id], page)).(memMalloced := s.memMalloced + POWER_BLOCK)
      ensures var total := Total(size);
              var id := ClassId(Sizes(s), total);
              && id < |s1.classes|
              && (s1.classes[id].slots == [] ==> s1.classes[id].endFree > 0)
              && var c1 := s1.classes[id];
                 var head := if c1.slots != [] then c1.slots[|c1.slots| - 1] else c1.endPtr;
                 var c2 := if c1.slots != [] then PopSlot(c1) else Carve(c1);
                 SlabModel.Alloc(s, size, page) == (HandOut(s1, id, c2, head, total), head + HEAD_SIZE)
    {
      hide ClassId, TableOk, SlabOk, Sizes, Total;
      var id := ClassId(Sizes(s), Total(size));
      assert s1.classes == s.classes[id := s1.classes[id]];
      assert Stocked(s, s.classes[id], page) == Some(s1.classes[id]);
      assert s.classes[id].perslab > 0;
      var c1 := s1.classes[id];
      var c2 := if c1.slots != [] then PopSlot(c1) else Carve(c1);
      assert s1.classes[id := c2] == s.classes[id := c2];
    }

    /** _slab_alloc; `page` is what the system answers if it is asked. Returns 0 for NULL. */
    method Alloc(size: nat, page: nat) returns (ptr: nat)
      requires Valid() && SlabOk(Model())
      modifies this, slabclass
      ensures Callable(old(Model())) && (Model(), ptr) == SlabModel.Alloc(old(Model()), size, page)
    {
      hide ClassId, TableOk, SlabOk, Sizes, Total, SlabModel.Alloc, SlabModel.Callable, SlabModel.NewSlab, Carve, PopSlot, HandOut;
      AllocWithout(Model(), size, page);
      assert SizeColumn() == Sizes(Model()) && TableOk(Sizes(Model())) && Callable(Model()) by { Ready(); }
      assert Total(size) == (size + HEAD_SIZE) % 0x1_0000_0000_0000_0000 by { TotalIs(size); }
      var total := (size + HEAD_SIZE) % 0x1_0000_0000_0000_0000;
      var id := SlabClsid(SizeColumn(), total);
      if id < POWER_SMALLEST {
        return 0;
      } else if id >= |slabclass| {
        heads := heads[page := Head(true, total % 0x1_0000_0000)];
        big := big[page := total];
        assert Model().classes == old(Model()).classes;
        return page + HEAD_SIZE;
      }
      var p := slabclass[id];
      assert Model().classes[id] == p.Model();
      if !(p.endPagePtr != 0 || p.slots != []) {
        var ok := NewSlab(id, page);
        if !ok {
          return 0;
        }
      }
      ghost var s1 := Model();
      AllocWith(old(Model()), size, page, s1);
      var head := TakeChunk(id, total);
      return head + HEAD_SIZE;
    }

    /** _slab_free */
    method Free(ptr: nat)
      requires Valid() && SlabOk(Model()) && (ptr != 0 ==> InUse(Model(), ptr))
      modifies this, slabclass
      ensures |old(Model()).classes| >= 3 && Model() == SlabModel.Free(old(Model()), ptr)
    {
      hide ClassId, TableOk, SlabOk, Sizes, InUse, SlabModel.Free;
      InUseMeans(ptr);
      assert SizeColumn() == Sizes(Model()) && TableOk(Sizes(Model())) && |slabclass| >= 3 by { Ready(); }
      FreeIs(Model(), ptr);
      if ptr == 0 {
        return;
      }
      var head := ptr - HEAD_SIZE;
      if heads[head].isMalloc {
        big := big - {head};
        assert Model().classes == old(Model()).classes;
        return;
      }
      var clsid := SlabClsid(SizeColumn(), heads[head].size);
      var id := clsid % 256;
      if id < POWER_SMALLEST {
        return;
      }
      var p := slabclass[id];
      p.slots := p.slots + [head];
      live := live - {head};
      assert Model().classes == old(Model()).classes[id := p.Model()];
    }

    static method MakeClasses(sizes: seq<nat>) returns (classes: seq<SlabClass>)
      ensures |classes| == |sizes|
      ensures forall k :: 0 <= k < |classes| ==> fresh(classes[k])
      ensures forall k :: 0 <= k < |classes| ==> classes[k].Model() == ClassState(sizes[k], PerSlab(sizes[k]), [], 0, 0, [])
      ensures forall j, k :: 0 <= j < k < |classes| ==> classes[j] != classes[k]
    {
      classes := [];
      for i := 0 to |sizes|
        invariant |classes| == i
        invariant forall k :: 0 <= k < i ==> fresh(classes[k])
        invariant forall k :: 0 <= k < i ==> classes[k].Model() == ClassState(sizes[k], PerSlab(sizes[k]), [], 0, 0, [])
        invariant forall j, k :: 0 <= j < k < i ==> classes[j] != classes[k]
      {
        var c := new SlabClass(sizes[i], if sizes[i] == 0 then 0 else POWER_BLOCK / sizes[i]);
        classes := classes + [c];
      }
    }
  }
}
