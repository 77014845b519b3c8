/** The size classes of the slab allocator: the table slab_init builds and the look-up over it. */
module SlabClasses {
  const POWER_SMALLEST: nat := 1
  const POWER_LARGEST: nat := 200
  const POWER_BLOCK: nat := 0x40_0000
  const CHUNK_ALIGN_BYTES: nat := 8
  const TINY_SIZE: nat := 16

  function Align(size: nat): (r: nat)
    ensures r % CHUNK_ALIGN_BYTES == 0 && size <= r < size + CHUNK_ALIGN_BYTES
  {
    if size % CHUNK_ALIGN_BYTES != 0 then size + (CHUNK_ALIGN_BYTES - size % CHUNK_ALIGN_BYTES) else size
  }

  /** `(int)((double)size * factor)`, in exact arithmetic. */
  function Grown(size: nat, factor: real): nat
    requires factor > 1.0
  {
    GrownPositive(size, factor);
    (size as real * factor).Floor
  }

  lemma GrownPositive(size: nat, factor: real)
    requires factor > 1.0
    ensures size as real * factor >= size as real
  {
  }

  lemma AlignIs(size: nat)
    ensures Align(size) == if size % CHUNK_ALIGN_BYTES != 0 then size + (CHUNK_ALIGN_BYTES - size % CHUNK_ALIGN_BYTES) else size
    ensures size <= POWER_BLOCK / 2 ==> Align(size) <= POWER_BLOCK / 2
  {
  }

  lemma GrownBigger(size: nat, factor: real)
    requires factor > 1.0
    ensures Grown(size, factor) >= size
  {
    GrownPositive(size, factor);
    var x := size as real * factor;
    assert x.Floor as real > x - 1.0 >= size as real - 1.0;
  }

  /** `sizes[i]` is slabclass[i].size for 0 <= i <= power_largest. */
  ghost predicate Increasing(sizes: seq<nat>) {
    forall i, j :: 0 <= i < j < |sizes| ==> sizes[i] < sizes[j]
  }

  /** `b` is `a` times the factor, cut to an integer and rounded up to a multiple of 8. */
  ghost predicate NextSize(a: nat, b: nat, factor: real) {
    var grown := (a as real * factor).Floor;
    b % 8 == 0 && grown <= b < grown + 8
  }

  lemma NextSizeIs(a: nat, b: nat, factor: real)
    requires factor > 1.0
    ensures NextSize(a, b, factor) <==> b == Align(Grown(a, factor))
  {
  }

  /** What slab_init promises its table to be, whatever the growth factor. */
  ghost predicate TableShape(sizes: seq<nat>, factor: real)
    requires factor > 1.0
  {
    var last := |sizes| - 1;
    && 2 <= last <= 200
    && sizes[0] == 0 && sizes[1] == TINY_SIZE && sizes[last] == POWER_BLOCK
    && (forall i :: 1 <= i < last ==> sizes[i] % CHUNK_ALIGN_BYTES == 0 && TINY_SIZE <= sizes[i] <= POWER_BLOCK / 2)
    && (forall i :: 1 <= i < last - 1 ==> NextSize(sizes[i], sizes[i + 1], factor))
    && (last == 200 || (sizes[last - 1] as real * factor).Floor > POWER_BLOCK / 2)
  }

  /** What the look-up and the allocator need of the table. */
  ghost predicate TableOk(sizes: seq<nat>) {
    && 3 <= |sizes| <= POWER_LARGEST + 1
    && sizes[0] == 0 && sizes[|sizes| - 1] == POWER_BLOCK
    && Increasing(sizes)
    && forall i :: 0 <= i < |sizes| ==> sizes[i] % CHUNK_ALIGN_BYTES == 0
  }

  /** slab_init, the table part. */
  method SlabInit(factor: real) returns (sizes: seq<nat>)
    requires factor > 1.0
    ensures TableShape(sizes, factor)
    ensures factor >= 17.0 / 16.0 <==> Increasing(sizes)
    ensures factor >= 17.0 / 16.0 ==> TableOk(sizes)
  {
    hide Grown, Align, NextSize;
    sizes := [0];
    var i := POWER_SMALLEST;
    var size := TINY_SIZE;
    while i < POWER_LARGEST && size <= POWER_BLOCK / 2
      invariant 1 <= i == |sizes| <= POWER_LARGEST && sizes[0] == 0
      invariant i == 1 ==> size == TINY_SIZE
      invariant i > 1 ==> sizes[1] == TINY_SIZE && size == Grown(sizes[i - 1], factor)
      invariant forall j :: 1 <= j < i ==> sizes[j] % CHUNK_ALIGN_BYTES == 0 && TINY_SIZE <= sizes[j] <= POWER_BLOCK / 2
      invariant forall j :: 1 <= j < i - 1 ==> NextSize(sizes[j], sizes[j + 1], factor)
      decreases POWER_LARGEST - i
    {
      ghost var grown := size;
      if size % CHUNK_ALIGN_BYTES != 0 {
        size := size + (CHUNK_ALIGN_BYTES - size % CHUNK_ALIGN_BYTES);
      }
      AlignIs(grown);
      if i > 1 {
        GrownBigger(sizes[i - 1], factor);
        NextSizeIs(sizes[i - 1], size, factor);
      }
      sizes := sizes + [size];
      size := Grown(size, factor);
      i := i + 1;
    }
    if i > 1 { GrownIs(sizes[i - 1], factor); }
    sizes := sizes + [POWER_BLOCK];
    if factor >= 17.0 / 16.0 {
      GrowthIncreases(sizes, factor);
    } else {
      SlowGrowthSticks(sizes, factor);
    }
  }

  lemma GrownIs(size: nat, factor: real)
    requires factor > 1.0
    ensures Grown(size, factor) == (size as real * factor).Floor
  {
  }

  lemma FactorStep(size: nat, factor: real)
    requires size >= TINY_SIZE && factor >= 17.0 / 16.0
    ensures Grown(size, factor) >= size + 1
  {
    var s := size as real;
    assert s * factor >= s * (17.0 / 16.0);
    assert s * (17.0 / 16.0) >= s + 1.0;
  }

  lemma {:induction false} StepsIncrease(sizes: seq<nat>, factor: real, i: nat, j: nat)
    requires factor >= 17.0 / 16.0 && TableShape(sizes, factor) && 1 <= i < j < |sizes| - 1
    ensures sizes[i] < sizes[j]
    decreases j
  {
    FactorStep(sizes[j - 1], factor);
    NextSizeIs(sizes[j - 1], sizes[j], factor);
    if i < j - 1 {
      StepsIncrease(sizes, factor, i, j - 1);
    }
  }

  lemma GrowthIncreases(sizes: seq<nat>, factor: real)
    requires factor >= 17.0 / 16.0 && TableShape(sizes, factor)
    ensures Increasing(sizes)
  {
    forall i, j | 0 <= i < j < |sizes|
      ensures sizes[i] < sizes[j]
    {
      if 1 <= i && j < |sizes| - 1 {
        StepsIncrease(sizes, factor, i, j);
      }
    }
  }

  /** Below 17/16 the first class grows into itself. */
  lemma SlowGrowthSticks(sizes: seq<nat>, factor: real)
    requires 1.0 < factor < 17.0 / 16.0 && TableShape(sizes, factor)
    ensures !Increasing(sizes)
  {
    assert 16.0 * factor < 17.0;
    assert Grown(TINY_SIZE, factor) == 16;
    if |sizes| - 1 > 2 {
      NextSizeIs(sizes[1], sizes[2], factor);
      assert sizes[2] == Align(Grown(sizes[1], factor)) == 16;
    }
  }

  /** With the factor 1.25 the classes begin 16, 24, 32, 40, 56 and end in 4 MB. */
  lemma QuarterGrowth(sizes: seq<nat>)
    requires TableShape(sizes, 1.25) && |sizes| > 6
    ensures sizes[..6] == [0, 16, 24, 32, 40, 56] && sizes[|sizes| - 1] == 4 * 1024 * 1024
  {
    assert NextSize(16, sizes[2], 1.25);
    assert NextSize(24, sizes[3], 1.25);
    assert NextSize(32, sizes[4], 1.25);
    assert NextSize(40, sizes[5], 1.25);
  }

  // ---------- the look-up ----------

  function LinearFrom(sizes: seq<nat>, i: nat, size: nat): nat
    requires i <= |sizes|
    decreases |sizes| - i
  {
    if i == |sizes| then i else if size > sizes[i] then LinearFrom(sizes, i + 1, size) else i
  }

  /** The class for a request: 0 for none, power_largest + 1 when it is too large. */
  function ClassId(sizes: seq<nat>, size: nat): nat
    requires |sizes| >= 1
  {
    if size == 0 then 0 else LinearFrom(sizes, POWER_SMALLEST, size)
  }

  lemma {:induction false} LinearIsLeast(sizes: seq<nat>, i: nat, size: nat)
    requires i <= |sizes|
    ensures var r := LinearFrom(sizes, i, size);
            && i <= r <= |sizes|
            && (r < |sizes| ==> size <= sizes[r])
            && forall j :: i <= j < r ==> sizes[j] < size
    decreases |sizes| - i
  {
    if i < |sizes| && size > sizes[i] {
      LinearIsLeast(sizes, i + 1, size);
    }
  }

  /** The least class that fits, which is the only one whose size and whose predecessor's size
      enclose the request; one past the table exactly when nothing fits. */
  lemma ClassIdMeans(sizes: seq<nat>, size: nat)
    requires TableOk(sizes) && size > 0
    ensures var r := ClassId(sizes, size);
            && 1 <= r <= |sizes|
            && (r < |sizes| ==> sizes[r - 1] < size <= sizes[r])
            && (r == |sizes| <==> size > POWER_BLOCK)
            && forall j :: 1 <= j < |sizes| && sizes[j - 1] < size <= sizes[j] ==> j == r
  {
    LinearIsLeast(sizes, 1, size);
    var r := ClassId(sizes, size);
    forall j | 1 <= j < |sizes| && sizes[j - 1] < size <= sizes[j]
      ensures j == r
    {
    }
  }

  /** slab_clsid without BSEARCH_BLOCK. */
  method SlabClsidLinear(sizes: seq<nat>, size: nat) returns (res: nat)
    requires TableOk(sizes)
    ensures res == ClassId(sizes, size)
  {
    if size == 0 {
      return 0;
    }
    var powerLargest := |sizes| - 1;
    res := POWER_SMALLEST;
    while size > sizes[res]
      invariant 1 <= res <= powerLargest && ClassId(sizes, size) == LinearFrom(sizes, res, size)
      decreases |sizes| - res
    {
      if res == powerLargest {
        return powerLargest + 1;
      }
      res := res + 1;
    }
  }

  /** slab_clsid with BSEARCH_BLOCK: it ends, and it agrees with the linear scan. */
  method SlabClsid(sizes: seq<nat>, size: nat) returns (r: nat)
    requires TableOk(sizes)
    ensures r == ClassId(sizes, size)
  {
    if size == 0 {
      return 0;
    }
    ClassIdMeans(sizes, size);
    var powerLargest := |sizes| - 1;
    var left, right := 1, powerLargest;
    var res := (left + right) / 2;
    while left <= right
      invariant 1 <= left <= powerLargest + 1 && 0 <= right <= powerLargest
      invariant res == (left + right) / 2
      invariant left > 1 ==> sizes[left - 1] < size
      invariant right < powerLargest ==> size <= sizes[right]
      decreases right - left + 1
    {
      if size < sizes[res] {
        if size > sizes[res - 1] {
          return res;
        } else {
          right := res - 1;
          res := (left + right) / 2;
        }
      } else if size > sizes[res] {
        left := res + 1;
        res := (left + right) / 2;
      } else {
        return res;
      }
    }
    return powerLargest + 1;
  }
}
