/** Bob Jenkins' lookup3 hash on a little-endian machine: three loops that read the key in words,
    half words or bytes, and the one function they all compute. Registers are 32 bits wide. */
module BobHash {
  import opened Bytes

  datatype Regs = Regs(a: u32, b: u32, c: u32)

  // ---------- uint32_t ----------

  function Pow2(n: nat): nat {
    if n == 0 then 1 else 2 * Pow2(n - 1)
  }

  /** Bitwise exclusive or of the low `n` bits. */
  function XorBits(x: nat, y: nat, n: nat): (r: nat)
    ensures r < Pow2(n)
  {
    if n == 0 then 0 else (x % 2 + y % 2) % 2 + 2 * XorBits(x / 2, y / 2, n - 1)
  }

  function OrBits(x: nat, y: nat, n: nat): (r: nat)
    ensures r < Pow2(n)
  {
    if n == 0 then 0 else (if x % 2 == 1 || y % 2 == 1 then 1 else 0) + 2 * OrBits(x / 2, y / 2, n - 1)
  }

  lemma {:induction false} XorBitsTwice(x: nat, y: nat, n: nat)
    requires x < Pow2(n)
    ensures XorBits(XorBits(x, y, n), y, n) == x
  {
    if n > 0 {
      hide XorBits, Pow2;
      HalfBelow(x, n);
      XorBitsTwice(x / 2, y / 2, n - 1);
      var low, high := (x % 2 + y % 2) % 2, XorBits(x / 2, y / 2, n - 1);
      XorBitsStep(x, y, n);
      BitAndRest(low, high);
      XorBitsStep(low + 2 * high, y, n);
      Bits(x);
      Bits(y);
      BitTwice(x % 2, y % 2);
    }
  }

  lemma Bits(x: nat)
    ensures x % 2 < 2 && x == x % 2 + 2 * (x / 2)
  {
  }

  lemma XorBitsStep(x: nat, y: nat, n: nat)
    requires n > 0
    ensures XorBits(x, y, n) == (x % 2 + y % 2) % 2 + 2 * XorBits(x / 2, y / 2, n - 1)
  {
  }

  lemma HalfBelow(x: nat, n: nat)
    requires n > 0 && x < Pow2(n)
    ensures x / 2 < Pow2(n - 1)
  {
  }

  lemma BitTwice(p: nat, q: nat)
    requires p < 2 && q < 2
    ensures ((p + q) % 2 + q) % 2 == p
  {
  }

  lemma BitAndRest(low: nat, high: nat)
    requires low < 2
    ensures (low + 2 * high) / 2 == high && (low + 2 * high) % 2 == low
  {
  }

  lemma Pow32()
    ensures Pow2(32) == 0x1_0000_0000
  {
    assert Pow2(8) == 0x100;
    assert Pow2(16) == 0x1_0000;
    assert Pow2(24) == 0x100_0000;
  }

  // ---------- mix and final ----------

  function Add(x: u32, y: u32): u32 { (x + y) % 0x1_0000_0000 }

  function Sub(x: u32, y: u32): u32 { (x - y) % 0x1_0000_0000 }

  function Xor(x: u32, y: u32): u32 { Pow32(); XorBits(x, y, 32) }

  function Or(x: u32, y: u32): u32 { Pow32(); OrBits(x, y, 32) }

  function Shl(x: u32, k: nat): u32 { (x * Pow2(k)) % 0x1_0000_0000 }

  function Shr(x: u32, k: nat): u32 { if k == 0 then x else Shr(x / 2, k - 1) }

  /** (x << k) | (x >> (32 - k)) */
  function Rot(x: u32, k: nat): u32
    requires k < 32
  {
    Or(Shl(x, k), Shr(x, 32 - k))
  }

  lemma AddSub(x: u32, y: u32)
    ensures Sub(Add(x, y), y) == x && Add(Sub(x, y), y) == x
  {
  }

  lemma XorTwice(x: u32, y: u32)
    ensures Xor(Xor(x, y), y) == x
  {
    hide XorBits, Pow2;
    Pow32();
    XorBitsTwice(x, y, 32);
  }

  /** One line of mix: `x -= z; x ^= rot(z, k); z += y;` */
  function MixLine(x: u32, y: u32, z: u32, k: nat): (u32, u32)
    requires k < 32
  {
    (Xor(Sub(x, z), Rot(z, k)), Add(z, y))
  }

  function UnmixLine(x: u32, y: u32, z: u32, k: nat): (u32, u32)
    requires k < 32
  {
    (Add(Xor(x, Rot(Sub(z, y), k)), Sub(z, y)), Sub(z, y))
  }

  function Mix(r: Regs): Regs {
    var (a1, c1) := MixLine(r.a, r.b, r.c, 4);
    var (b1, a2) := MixLine(r.b, c1, a1, 6);
    var (c2, b2) := MixLine(c1, a2, b1, 8);
    var (a3, c3) := MixLine(a2, b2, c2, 16);
    var (b3, a4) := MixLine(b2, c3, a3, 19);
    var (c4, b4) := MixLine(c3, a4, b3, 4);
    Regs(a4, b4, c4)
  }

  /** The lines of mix undone, last first. */
  function Unmix(r: Regs): Regs {
    var (c3, b3) := UnmixLine(r.c, r.a, r.b, 4);
    var (b2, a3) := UnmixLine(b3, c3, r.a, 19);
    var (a2, c2) := UnmixLine(a3, b2, c3, 16);
    var (c1, b1) := UnmixLine(c2, a2, b2, 8);
    var (b, a1) := UnmixLine(b1, c1, a2, 6);
    var (a, c) := UnmixLine(a1, b, c1, 4);
    Regs(a, b, c)
  }

  /** One half line of final: `x ^= y; x -= rot(y, k);` */
  function FinalLine(x: u32, y: u32, k: nat): u32
    requires k < 32
  {
    Sub(Xor(x, y), Rot(y, k))
  }

  function UnfinalLine(x: u32, y: u32, k: nat): u32
    requires k < 32
  {
    Xor(Add(x, Rot(y, k)), y)
  }

  function Final(r: Regs): Regs {
    var c1 := FinalLine(r.c, r.b, 14);
    var a1 := FinalLine(r.a, c1, 11);
    var b1 := FinalLine(r.b, a1, 25);
    var c2 := FinalLine(c1, b1, 16);
    var a2 := FinalLine(a1, c2, 4);
    var b2 := FinalLine(b1, a2, 14);
    Regs(a2, b2, FinalLine(c2, b2, 24))
  }

  function Unfinal(r: Regs): Regs {
    var c2 := UnfinalLine(r.c, r.b, 24);
    var b1 := UnfinalLine(r.b, r.a, 14);
    var a1 := UnfinalLine(r.a, c2, 4);
    var c1 := UnfinalLine(c2, b1, 16);
    var b := UnfinalLine(b1, a1, 25);
    var a := UnfinalLine(a1, c1, 11);
    Regs(a, b, UnfinalLine(c1, b, 14))
  }

  lemma MixLineInverse(x: u32, y: u32, z: u32, k: nat)
    requires k < 32
    ensures var (x', z') := MixLine(x, y, z, k); UnmixLine(x', y, z', k) == (x, z)
    ensures var (x', z') := UnmixLine(x, y, z, k); MixLine(x', y, z', k) == (x, z)
  {
    hide Rot, Add, Sub, Xor;
    AddSub(z, y);
    AddSub(x, z);
    AddSub(Xor(x, Rot(Sub(z, y), k)), Sub(z, y));
    XorTwice(Sub(x, z), Rot(z, k));
    XorTwice(x, Rot(Sub(z, y), k));
  }

  lemma FinalLineInverse(x: u32, y: u32, k: nat)
    requires k < 32
    ensures UnfinalLine(FinalLine(x, y, k), y, k) == x
    ensures FinalLine(UnfinalLine(x, y, k), y, k) == x
  {
    hide Rot, Add, Sub, Xor;
    XorTwice(x, y);
    XorTwice(Add(x, Rot(y, k)), y);
    AddSub(Xor(x, y), Rot(y, k));
    AddSub(x, Rot(y, k));
  }

  /** mix maps triples one to one onto triples. */
  lemma MixBijection(r: Regs)
    ensures Unmix(Mix(r)) == r
    ensures Mix(Unmix(r)) == r
  {
    hide MixLine, UnmixLine;
    var (a1, c1) := MixLine(r.a, r.b, r.c, 4);
    var (b1, a2) := MixLine(r.b, c1, a1, 6);
    var (c2, b2) := MixLine(c1, a2, b1, 8);
    var (a3, c3) := MixLine(a2, b2, c2, 16);
    var (b3, a4) := MixLine(b2, c3, a3, 19);
    MixLineInverse(r.a, r.b, r.c, 4);
    MixLineInverse(r.b, c1, a1, 6);
    MixLineInverse(c1, a2, b1, 8);
    MixLineInverse(a2, b2, c2, 16);
    MixLineInverse(b2, c3, a3, 19);
    MixLineInverse(c3, a4, b3, 4);
    UnmixThenMix(r);
  }

  lemma UnmixThenMix(r: Regs)
    ensures Mix(Unmix(r)) == r
  {
    hide MixLine, UnmixLine;
    var (c3, b3) := UnmixLine(r.c, r.a, r.b, 4);
    var (b2, a3) := UnmixLine(b3, c3, r.a, 19);
    var (a2, c2) := UnmixLine(a3, b2, c3, 16);
    var (c1, b1) := UnmixLine(c2, a2, b2, 8);
    var (b, a1) := UnmixLine(b1, c1, a2, 6);
    MixLineInverse(r.c, r.a, r.b, 4);
    MixLineInverse(b3, c3, r.a, 19);
    MixLineInverse(a3, b2, c3, 16);
    MixLineInverse(c2, a2, b2, 8);
    MixLineInverse(b1, c1, a2, 6);
    MixLineInverse(a1, b, c1, 4);
  }

  /** So does final. */
  lemma FinalBijection(r: Regs)
    ensures Unfinal(Final(r)) == r
    ensures Final(Unfinal(r)) == r
  {
    hide FinalLine, UnfinalLine;
    var c1 := FinalLine(r.c, r.b, 14);
    var a1 := FinalLine(r.a, c1, 11);
    var b1 := FinalLine(r.b, a1, 25);
    var c2 := FinalLine(c1, b1, 16);
    var a2 := FinalLine(a1, c2, 4);
    var b2 := FinalLine(b1, a2, 14);
    FinalLineInverse(r.c, r.b, 14);
    FinalLineInverse(r.a, c1, 11);
    FinalLineInverse(r.b, a1, 25);
    FinalLineInverse(c1, b1, 16);
    FinalLineInverse(a1, c2, 4);
    FinalLineInverse(b1, a2, 14);
    FinalLineInverse(c2, b2, 24);
    UnfinalThenFinal(r);
  }

  lemma UnfinalThenFinal(r: Regs)
    ensures Final(Unfinal(r)) == r
  {
    hide FinalLine, UnfinalLine;
    var c2 := UnfinalLine(r.c, r.b, 24);
    var b1 := UnfinalLine(r.b, r.a, 14);
    var a1 := UnfinalLine(r.a, c2, 4);
    var c1 := UnfinalLine(c2, b1, 16);
    var b := UnfinalLine(b1, a1, 25);
    var a := UnfinalLine(a1, c1, 11);
    FinalLineInverse(r.c, r.b, 24);
    FinalLineInverse(r.b, r.a, 14);
    FinalLineInverse(r.a, c2, 4);
    FinalLineInverse(c2, b1, 16);
    FinalLineInverse(b1, a1, 25);
    FinalLineInverse(a1, c1, 11);
    FinalLineInverse(c1, b, 14);
  }

  // ---------- words out of bytes ----------

  /** Four bytes as the 32-bit number a little-endian machine reads. */
  function Glue(b0: byte, b1: byte, b2: byte, b3: byte): u32 {
    b0 + 0x100 * b1 + 0x1_0000 * b2 + 0x100_0000 * b3
  }

  /** Two bytes as a 16-bit number. */
  function Half(b0: byte, b1: byte): (r: u32)
    ensures r < 0x1_0000
  {
    b0 + 0x100 * b1
  }

  lemma ShiftsAre(x: u32)
    ensures Shl(x, 8) == (0x100 * x) % 0x1_0000_0000
    ensures Shl(x, 16) == (0x1_0000 * x) % 0x1_0000_0000
    ensures Shl(x, 24) == (0x100_0000 * x) % 0x1_0000_0000
  {
    assert Pow2(8) == 0x100;
    assert Pow2(16) == 0x1_0000;
    assert Pow2(24) == 0x100_0000;
  }

  /** Two half words, `k[0] + (((uint32_t)k[1]) << 16)`, are one word. */
  lemma HalvesGlue(b0: byte, b1: byte, b2: byte, b3: byte)
    ensures Add(Half(b0, b1), Shl(Half(b2, b3), 16)) == Glue(b0, b1, b2, b3)
    ensures Half(b0, b1) == Glue(b0, b1, 0, 0)
  {
    hide Shl;
    ShiftsAre(Half(b2, b3));
  }

  /** What the masks 0xffffff, 0xffff and 0xff leave of a word. */
  lemma MasksGlue(b0: byte, b1: byte, b2: byte, b3: byte)
    ensures Glue(b0, b1, b2, b3) % 0x100_0000 == Glue(b0, b1, b2, 0)
    ensures Glue(b0, b1, b2, b3) % 0x1_0000 == Glue(b0, b1, 0, 0)
    ensures Glue(b0, b1, b2, b3) % 0x100 == Glue(b0, 0, 0, 0)
  {
    LowDigits(b0 + 0x100 * b1 + 0x1_0000 * b2, b3, 0x100_0000);
    LowDigits(b0 + 0x100 * b1, b2 + 0x100 * b3, 0x1_0000);
    LowDigits(b0, b1 + 0x100 * b2 + 0x1_0000 * b3, 0x100);
  }

  lemma LowDigits(x: nat, y: nat, m: nat)
    requires x < m
    ensures (x + m * y) % m == x
  {
    Quotient(x + m * y, m, y, x);
  }

  lemma Quotient(n: nat, m: nat, q: nat, r: nat)
    requires r < m && n == m * q + r
    ensures n % m == r
  {
    var q', r' := n / m, n % m;
    assert n == m * q' + r';
    if q' < q { Times(m, q', q); }
    if q < q' { Times(m, q, q'); }
  }

  lemma {:induction false} Times(m: nat, a: nat, b: nat)
    requires a < b
    ensures m * b >= m * a + m
    decreases b
  {
    assert m * b == m * (b - 1) + m;
    if a < b - 1 { Times(m, a, b - 1); }
  }

  /** Adding a word byte by byte, from either end. */
  lemma BytesAdd(a: u32, b0: byte, b1: byte, b2: byte, b3: byte)
    ensures Add(Add(Add(Add(a, b0), Shl(b1, 8)), Shl(b2, 16)), Shl(b3, 24)) == Add(a, Glue(b0, b1, b2, b3))
    ensures Add(Add(Add(Add(a, Shl(b3, 24)), Shl(b2, 16)), Shl(b1, 8)), b0) == Add(a, Glue(b0, b1, b2, b3))
  {
    hide Shl, Add;
    ShiftsSmall(b1);
    ShiftsSmall(b2);
    ShiftsSmall(b3);
    AddFour(a, b0, 0x100 * b1, 0x1_0000 * b2, 0x100_0000 * b3);
    AddFour(a, 0x100_0000 * b3, 0x1_0000 * b2, 0x100 * b1, b0);
  }

  lemma ShiftsSmall(x: byte)
    ensures Shl(x, 8) == 0x100 * x && Shl(x, 16) == 0x1_0000 * x && Shl(x, 24) == 0x100_0000 * x
  {
    hide Shl;
    ShiftsAre(x);
  }

  lemma AddFour(a: u32, w: nat, x: nat, y: nat, z: nat)
    requires w + x + y + z < 0x1_0000_0000
    ensures Add(Add(Add(Add(a, w), x), y), z) == Add(a, w + x + y + z)
  {
    hide Add;
    AddUp(a, w, x);
    AddUp(a, w + x, y);
    AddUp(a, w + x + y, z);
  }

  lemma AddUp(a: u32, x: u32, y: u32)
    requires x + y < 0x1_0000_0000
    ensures Add(Add(a, x), y) == Add(a, x + y)
  {
  }

  // ---------- what the hash is ----------

  function ByteAt(key: seq<byte>, i: nat): byte {
    if i < |key| then key[i] else 0
  }

  /** The word at byte `i` of a key that goes on in zeros. */
  function WordAt(key: seq<byte>, i: nat): u32 {
    Glue(ByteAt(key, i), ByteAt(key, i + 1), ByteAt(key, i + 2), ByteAt(key, i + 3))
  }

  function Absorb(r: Regs, key: seq<byte>): Regs {
    Regs(Add(r.a, WordAt(key, 0)), Add(r.b, WordAt(key, 4)), Add(r.c, WordAt(key, 8)))
  }

  /** Twelve bytes at a time; mix between blocks, final after the last. */
  function Digest(r: Regs, key: seq<byte>): Regs
    decreases |key|
  {
    if key == [] then r
    else if |key| <= 12 then Final(Absorb(r, key))
    else Digest(Mix(Absorb(r, key)), key[12..])
  }

  function Seed(length: nat, initval: u32): u32 {
    Add(Add(0xfeedbeef, length % 0x1_0000_0000), initval)
  }

  function HashOf(key: seq<byte>, initval: u32): u32 {
    var s := Seed(|key|, initval);
    Digest(Regs(s, s, s), key).c
  }

  function HashOf2(key: seq<byte>, pc: u32, pb: u32): (u32, u32) {
    var s := Seed(|key|, pc);
    var r := Digest(Regs(s, s, Add(s, pb)), key);
    (r.c, r.b)
  }

  /** An empty key is not mixed: its hash is the start value. */
  lemma EmptyKey(initval: u32, pb: u32)
    ensures HashOf([], initval) == (0xfeedbeef + initval) % 0x1_0000_0000
    ensures HashOf2([], initval, pb) == ((0xfeedbeef + initval + pb) % 0x1_0000_0000, (0xfeedbeef + initval) % 0x1_0000_0000)
  {
  }

  /** With a second seed of 0 the primary result is the plain hash. */
  lemma SecondSeedZero(key: seq<byte>, pc: u32)
    ensures HashOf2(key, pc, 0).0 == HashOf(key, pc)
  {
    hide Digest;
    var s := Seed(|key|, pc);
    assert Add(s, 0) == s;
  }

  // ---------- what three kinds of reads see of a key in memory ----------

  function Read32(mem: seq<byte>, i: nat): u32
    requires i + 4 <= |mem|
  {
    Glue(mem[i], mem[i + 1], mem[i + 2], mem[i + 3])
  }

  function Read16(mem: seq<byte>, i: nat): u32
    requires i + 2 <= |mem|
  {
    Half(mem[i], mem[i + 1])
  }

  function Rest(mem: seq<byte>, k: nat, n: nat): seq<byte>
    requires k + n <= |mem|
  {
    mem[k..k + n]
  }

  /** A word read, masked where the key ends inside it. */
  lemma WordReads(mem: seq<byte>, k: nat, n: nat, i: nat)
    requires k + n <= |mem|
    ensures i + 4 <= n ==> WordAt(Rest(mem, k, n), i) == Read32(mem, k + i)
    ensures i + 3 == n && k + i + 4 <= |mem| ==> WordAt(Rest(mem, k, n), i) == Read32(mem, k + i) % 0x100_0000
    ensures i + 2 == n && k + i + 4 <= |mem| ==> WordAt(Rest(mem, k, n), i) == Read32(mem, k + i) % 0x1_0000
    ensures i + 1 == n && k + i + 4 <= |mem| ==> WordAt(Rest(mem, k, n), i) == Read32(mem, k + i) % 0x100
    ensures i >= n ==> WordAt(Rest(mem, k, n), i) == 0
  {
    hide Glue;
    assert Glue(0, 0, 0, 0) == 0 by { GlueZero(); }
    if i < n && k + i + 4 <= |mem| { MasksGlue(mem[k + i], mem[k + i + 1], mem[k + i + 2], mem[k + i + 3]); }
  }

  lemma GlueZero()
    ensures Glue(0, 0, 0, 0) == 0
  {
  }

  lemma HalfReads(a: u32, mem: seq<byte>, k: nat, n: nat, i: nat)
    requires k + n <= |mem|
    ensures i + 4 <= n ==> Add(Read16(mem, k + i), Shl(Read16(mem, k + i + 2), 16)) == WordAt(Rest(mem, k, n), i)
    ensures i + 3 == n ==> Add(Add(a, Shl(mem[k + i + 2], 16)), Read16(mem, k + i)) == Add(a, WordAt(Rest(mem, k, n), i))
    ensures i + 2 == n ==> Read16(mem, k + i) == WordAt(Rest(mem, k, n), i)
    ensures i + 1 == n ==> mem[k + i] == WordAt(Rest(mem, k, n), i)
    ensures i >= n ==> WordAt(Rest(mem, k, n), i) == 0
  {
    hide Shl, Add, Glue, Half;
    var key := Rest(mem, k, n);
    GlueShort(a, ByteAt(key, i), ByteAt(key, i + 1), ByteAt(key, i + 2));
    HalvesGlue(ByteAt(key, i), ByteAt(key, i + 1), ByteAt(key, i + 2), ByteAt(key, i + 3));
  }

  lemma GlueShort(a: u32, b0: byte, b1: byte, b2: byte)
    ensures Add(Add(a, Shl(b2, 16)), Half(b0, b1)) == Add(a, Glue(b0, b1, b2, 0))
    ensures b0 == Glue(b0, 0, 0, 0) && Glue(0, 0, 0, 0) == 0
  {
    hide Shl, Add;
    ShiftsSmall(b2);
    var high: nat := b2;
    AddUp(a, 0x1_0000 * high, Half(b0, b1));
  }

  /** A word added byte by byte, highest first, as the falling-through cases do. */
  lemma ByteReads(a: u32, key: seq<byte>, i: nat)
    ensures Add(Add(Add(Add(a, Shl(ByteAt(key, i + 3), 24)), Shl(ByteAt(key, i + 2), 16)), Shl(ByteAt(key, i + 1), 8)), ByteAt(key, i)) ==
              Add(a, WordAt(key, i))
    ensures Add(Add(Add(Add(a, ByteAt(key, i)), Shl(ByteAt(key, i + 1), 8)), Shl(ByteAt(key, i + 2), 16)), Shl(ByteAt(key, i + 3), 24)) ==
              Add(a, WordAt(key, i))
  {
    hide Add, Shl, Glue;
    BytesAdd(a, ByteAt(key, i), ByteAt(key, i + 1), ByteAt(key, i + 2), ByteAt(key, i + 3));
  }

  lemma AddZero(a: u32)
    ensures Add(a, 0) == a
    ensures Shl(0, 8) == 0 && Shl(0, 16) == 0 && Shl(0, 24) == 0
  {
    hide Shl;
    ShiftsSmall(0);
  }

  // ---------- the three loops ----------

  /** The key is aligned to 4 bytes. The last read may take in bytes behind the key, up to the end
      of the aligned word; `mem` has to reach that far, and what it holds there has no effect. */
  method DigestByWords(mem: seq<byte>, length: nat, r0: Regs) returns (r: Regs)
    requires (length + 3) / 4 * 4 <= |mem|
    ensures r == Digest(r0, mem[..length])
  {
    hide Add, Shl, Glue, Mix, Final, Digest;
    var a, b, c := r0.a, r0.b, r0.c;
    var k, n := 0, length;
    assert Rest(mem, 0, length) == mem[..length];
    while n > 12
      invariant k + n == length
      invariant k % 4 == 0
      invariant Digest(Regs(a, b, c), Rest(mem, k, n)) == Digest(r0, mem[..length])
    {
      WordReads(mem, k, n, 0);
      WordReads(mem, k, n, 4);
      WordReads(mem, k, n, 8);
      DigestStep(Regs(a, b, c), mem, k, n);
      a := Add(a, Read32(mem, k));
      b := Add(b, Read32(mem, k + 4));
      c := Add(c, Read32(mem, k + 8));
      var m := Mix(Regs(a, b, c));
      a, b, c := m.a, m.b, m.c;
      n := n - 12;
      k := k + 12;
    }
    r := TailByWords(mem, k, n, Regs(a, b, c));
  }

  lemma DigestStep(r: Regs, mem: seq<byte>, k: nat, n: nat)
    requires n > 12 && k + n <= |mem|
    ensures Digest(r, Rest(mem, k, n)) == Digest(Mix(Absorb(r, Rest(mem, k, n))), Rest(mem, k + 12, n - 12))
  {
    hide Mix, Final, Absorb;
    assert Rest(mem, k, n)[12..] == Rest(mem, k + 12, n - 12);
  }

  lemma DigestLast(r: Regs, key: seq<byte>)
    requires 0 < |key| <= 12
    ensures Digest(r, key) == Final(Absorb(r, key))
  {
  }

  lemma DigestNone(r: Regs)
    ensures Digest(r, []) == r
  {
  }

  /** The switch over the last 0 to 12 bytes, reading words under masks. */
  method TailByWords(mem: seq<byte>, k: nat, n: nat, r0: Regs) returns (r: Regs)
    requires n <= 12 && k % 4 == 0 && k + (n + 3) / 4 * 4 <= |mem|
    ensures r == Digest(r0, Rest(mem, k, n))
  {
    hide Add, Shl, Glue, Mix, Final, Digest, WordAt, Read32;
    WordReads(mem, k, n, 0);
    WordReads(mem, k, n, 4);
    WordReads(mem, k, n, 8);
    AddZero(r0.b);
    AddZero(r0.c);
    var a, b, c := r0.a, r0.b, r0.c;
    match n {
      case 12 =>
        c := Add(c, Read32(mem, k + 8));
        b := Add(b, Read32(mem, k + 4));
        a := Add(a, Read32(mem, k));
      case 11 =>
        c := Add(c, Read32(mem, k + 8) % 0x100_0000);
        b := Add(b, Read32(mem, k + 4));
        a := Add(a, Read32(mem, k));
      case 10 =>
        c := Add(c, Read32(mem, k + 8) % 0x1_0000);
        b := Add(b, Read32(mem, k + 4));
        a := Add(a, Read32(mem, k));
      case 9 =>
        c := Add(c, Read32(mem, k + 8) % 0x100);
        b := Add(b, Read32(mem, k + 4));
        a := Add(a, Read32(mem, k));
      case 8 =>
        b := Add(b, Read32(mem, k + 4));
        a := Add(a, Read32(mem, k));
      case 7 =>
        b := Add(b, Read32(mem, k + 4) % 0x100_0000);
        a := Add(a, Read32(mem, k));
      case 6 =>
        b := Add(b, Read32(mem, k + 4) % 0x1_0000);
        a := Add(a, Read32(mem, k));
      case 5 =>
        b := Add(b, Read32(mem, k + 4) % 0x100);
        a := Add(a, Read32(mem, k));
      case 4 =>
        a := Add(a, Read32(mem, k));
      case 3 =>
        a := Add(a, Read32(mem, k) % 0x100_0000);
      case 2 =>
        a := Add(a, Read32(mem, k) % 0x1_0000);
      case 1 =>
        a := Add(a, Read32(mem, k) % 0x100);
      case _ =>
        assert Rest(mem, k, n) == [];
        DigestNone(r0);
        return r0;
    }
    DigestLast(r0, Rest(mem, k, n));
    r := Final(Regs(a, b, c));
  }

  /** The key is aligned to 2 bytes. */
  method DigestByHalves(mem: seq<byte>, length: nat, r0: Regs) returns (r: Regs)
    requires length <= |mem|
    ensures r == Digest(r0, mem[..length])
  {
    hide Add, Shl, Glue, Mix, Final, Digest, WordAt, Read16;
    var a, b, c := r0.a, r0.b, r0.c;
    var k, n := 0, length;
    assert Rest(mem, 0, length) == mem[..length];
    while n > 12
      invariant k + n == length
      invariant Digest(Regs(a, b, c), Rest(mem, k, n)) == Digest(r0, mem[..length])
    {
      HalfReads(a, mem, k, n, 0);
      HalfReads(b, mem, k, n, 4);
      HalfReads(c, mem, k, n, 8);
      DigestStep(Regs(a, b, c), mem, k, n);
      a := Add(a, Add(Read16(mem, k), Shl(Read16(mem, k + 2), 16)));
      b := Add(b, Add(Read16(mem, k + 4), Shl(Read16(mem, k + 6), 16)));
      c := Add(c, Add(Read16(mem, k + 8), Shl(Read16(mem, k + 10), 16)));
      var m := Mix(Regs(a, b, c));
      a, b, c := m.a, m.b, m.c;
      n := n - 12;
      k := k + 12;
    }
    r := TailByHalves(mem, k, n, Regs(a, b, c));
  }

  method TailByHalves(mem: seq<byte>, k: nat, n: nat, r0: Regs) returns (r: Regs)
    requires n <= 12 && k + n <= |mem|
    ensures r == Digest(r0, Rest(mem, k, n))
  {
    hide Add, Shl, Glue, Mix, Final, Digest, WordAt, Read16;
    var a, b, c := r0.a, r0.b, r0.c;
    HalfReads(a, mem, k, n, 0);
    HalfReads(b, mem, k, n, 4);
    HalfReads(c, mem, k, n, 8);
    AddZero(b);
    AddZero(c);
    match n {
      case 12 =>
        c := Add(c, Add(Read16(mem, k + 8), Shl(Read16(mem, k + 10), 16)));
        b := Add(b, Add(Read16(mem, k + 4), Shl(Read16(mem, k + 6), 16)));
        a := Add(a, Add(Read16(mem, k), Shl(Read16(mem, k + 2), 16)));
      case 11 =>
        c := Add(c, Shl(mem[k + 10], 16));
        c := Add(c, Read16(mem, k + 8));
        b := Add(b, Add(Read16(mem, k + 4), Shl(Read16(mem, k + 6), 16)));
        a := Add(a, Add(Read16(mem, k), Shl(Read16(mem, k + 2), 16)));
      case 10 =>
        c := Add(c, Read16(mem, k + 8));
        b := Add(b, Add(Read16(mem, k + 4), Shl(Read16(mem, k + 6), 16)));
        a := Add(a, Add(Read16(mem, k), Shl(Read16(mem, k + 2), 16)));
      case 9 =>
        c := Add(c, mem[k + 8]);
        b := Add(b, Add(Read16(mem, k + 4), Shl(Read16(mem, k + 6), 16)));
        a := Add(a, Add(Read16(mem, k), Shl(Read16(mem, k + 2), 16)));
      case 8 =>
        b := Add(b, Add(Read16(mem, k + 4), Shl(Read16(mem, k + 6), 16)));
        a := Add(a, Add(Read16(mem, k), Shl(Read16(mem, k + 2), 16)));
      case 7 =>
        b := Add(b, Shl(mem[k + 6], 16));
        b := Add(b, Read16(mem, k + 4));
        a := Add(a, Add(Read16(mem, k), Shl(Read16(mem, k + 2), 16)));
      case 6 =>
        b := Add(b, Read16(mem, k + 4));
        a := Add(a, Add(Read16(mem, k), Shl(Read16(mem, k + 2), 16)));
      case 5 =>
        b := Add(b, mem[k + 4]);
        a := Add(a, Add(Read16(mem, k), Shl(Read16(mem, k + 2), 16)));
      case 4 =>
        a := Add(a, Add(Read16(mem, k), Shl(Read16(mem, k + 2), 16)));
      case 3 =>
        a := Add(a, Shl(mem[k + 2], 16));
        a := Add(a, Read16(mem, k));
      case 2 =>
        a := Add(a, Read16(mem, k));
      case 1 =>
        a := Add(a, mem[k]);
      case _ =>
        assert Rest(mem, k, n) == [];
        DigestNone(r0);
        return r0;
    }
    DigestLast(r0, Rest(mem, k, n));
    r := Final(Regs(a, b, c));
  }

  /** The key has any alignment. */
  method DigestByBytes(mem: seq<byte>, length: nat, r0: Regs) returns (r: Regs)
    requires length <= |mem|
    ensures r == Digest(r0, mem[..length])
  {
    hide Add, Shl, Glue, Mix, Final, Digest, WordAt;
    var a, b, c := r0.a, r0.b, r0.c;
    var k, n := 0, length;
    assert Rest(mem, 0, length) == mem[..length];
    while n > 12
      invariant k + n == length
      invariant Digest(Regs(a, b, c), Rest(mem, k, n)) == Digest(r0, mem[..length])
    {
      ByteReads(a, Rest(mem, k, n), 0);
      ByteReads(b, Rest(mem, k, n), 4);
      ByteReads(c, Rest(mem, k, n), 8);
      DigestStep(Regs(a, b, c), mem, k, n);
      a := Add(a, mem[k]);
      a := Add(a, Shl(mem[k + 1], 8));
      a := Add(a, Shl(mem[k + 2], 16));
      a := Add(a, Shl(mem[k + 3], 24));
      b := Add(b, mem[k + 4]);
      b := Add(b, Shl(mem[k + 5], 8));
      b := Add(b, Shl(mem[k + 6], 16));
      b := Add(b, Shl(mem[k + 7], 24));
      c := Add(c, mem[k + 8]);
      c := Add(c, Shl(mem[k + 9], 8));
      c := Add(c, Shl(mem[k + 10], 16));
      c := Add(c, Shl(mem[k + 11], 24));
      var m := Mix(Regs(a, b, c));
      a, b, c := m.a, m.b, m.c;
      n := n - 12;
      k := k + 12;
    }
    r := TailByBytes(mem[k..k + n], Regs(a, b, c));
  }

  /** The last 0 to 12 bytes, every case falling through to the next. */
  method TailByBytes(k: seq<byte>, r0: Regs) returns (r: Regs)
    requires |k| <= 12
    ensures r == Digest(r0, k)
  {
    hide Add, Shl, Glue, Mix, Final, Digest, WordAt;
    var a, b, c := r0.a, r0.b, r0.c;
    if |k| == 0 {
      DigestNone(r0);
      return r0;
    }
    c := TailWord(k, 8, c);
    b := TailWord(k, 4, b);
    a := TailWord(k, 0, a);
    DigestLast(r0, k);
    r := Final(Regs(a, b, c));
  }

  /** Four neighbouring cases of that switch. */
  method TailWord(k: seq<byte>, i: nat, x: u32) returns (y: u32)
    ensures y == Add(x, WordAt(k, i))
  {
    hide Add, Shl, Glue, WordAt;
    ByteReads(x, k, i);
    AddZero(x);
    y := x;
    if |k| >= i + 4 { y := Add(y, Shl(k[i + 3], 24)); }
    AddZero(y);
    if |k| >= i + 3 { y := Add(y, Shl(k[i + 2], 16)); }
    AddZero(y);
    if |k| >= i + 2 { y := Add(y, Shl(k[i + 1], 8)); }
    AddZero(y);
    if |k| >= i + 1 { y := Add(y, k[i]); }
  }

  /** hashlittle: one result whichever way the key at `address` has to be read. */
  method HashLittle(mem: seq<byte>, address: nat, length: nat, initval: u32) returns (hash: u32)
    requires length <= |mem| && (address % 4 == 0 ==> (length + 3) / 4 * 4 <= |mem|)
    ensures hash == HashOf(mem[..length], initval)
  {
    hide Add, Digest;
    var s := Add(Add(0xfeedbeef, length % 0x1_0000_0000), initval);
    var r := Regs(s, s, s);
    if address % 4 == 0 {
      r := DigestByWords(mem, length, r);
    } else if address % 2 == 0 {
      r := DigestByHalves(mem, length, r);
    } else {
      r := DigestByBytes(mem, length, r);
    }
    hash := r.c;
  }

  /** hashlittle2 */
  method HashLittle2(mem: seq<byte>, address: nat, length: nat, pc: u32, pb: u32) returns (pc': u32, pb': u32)
    requires length <= |mem| && (address % 4 == 0 ==> (length + 3) / 4 * 4 <= |mem|)
    ensures (pc', pb') == HashOf2(mem[..length], pc, pb)
    ensures pb == 0 ==> pc' == HashOf(mem[..length], pc)
  {
    hide Add, Digest;
    SecondSeedZero(mem[..length], pc);
    var s := Add(Add(0xfeedbeef, length % 0x1_0000_0000), pc);
    var r := Regs(s, s, Add(s, pb));
    if address % 4 == 0 {
      r := DigestByWords(mem, length, r);
    } else if address % 2 == 0 {
      r := DigestByHalves(mem, length, r);
    } else {
      r := DigestByBytes(mem, length, r);
    }
    pc', pb' := r.c, r.b;
  }

  // ---------- keys that are arrays of words ----------

  function BytesOf(k: seq<u32>): (r: seq<byte>)
    ensures |r| == 4 * |k|
  {
    if k == [] then [] else Encode(k[0], 4) + BytesOf(k[1..])
  }

  lemma WordOf(w: u32)
    ensures var e := Encode(w, 4); Glue(e[0], e[1], e[2], e[3]) == w
  {
    assert Encode(w, 4) == [w % 256, w / 256 % 256, w / 256 / 256 % 256, w / 256 / 256 / 256 % 256];
  }

  lemma {:induction false} BytesOfAt(k: seq<u32>, i: nat)
    requires i < |k|
    ensures WordAt(BytesOf(k), 4 * i) == k[i]
    decreases i
  {
    hide Glue, Encode;
    if i == 0 {
      WordOf(k[0]);
    } else {
      BytesOfAt(k[1..], i - 1);
    }
  }

  lemma BytesOfPast(k: seq<u32>, i: nat)
    requires i >= |k|
    ensures WordAt(BytesOf(k), 4 * i) == 0
  {
    hide Glue, BytesOf;
    GlueZero();
  }

  lemma BytesOfNext(k: seq<u32>)
    requires k != []
    ensures BytesOf(k)[4..] == BytesOf(k[1..])
  {
    hide Encode;
  }

  lemma BytesOfRest(k: seq<u32>)
    requires |k| >= 3
    ensures BytesOf(k)[12..] == BytesOf(k[3..])
  {
    hide BytesOf;
    BytesOfNext(k);
    BytesOfNext(k[1..]);
    BytesOfNext(k[2..]);
    assert k[1..][1..] == k[2..] && k[2..][1..] == k[3..];
    assert BytesOf(k)[4..][4..][4..] == BytesOf(k)[12..];
  }

  /** hashword: the hash of the same key seen as bytes. */
  method HashWord(k: seq<u32>, initval: u32) returns (hash: u32)
    ensures hash == HashOf(BytesOf(k), initval)
  {
    hide Add, Shl, Glue, Mix, Final, Digest, WordAt, BytesOf;
    LengthInBytes(|k|);
    var s := Add(Add(0xfeedbeef, Shl(|k| % 0x1_0000_0000, 2)), initval);
    var a, b, c := s, s, s;
    var i := 0;
    assert k[0..] == k;
    while |k| - i > 3
      invariant 0 <= i <= |k|
      invariant Digest(Regs(a, b, c), BytesOf(k[i..])) == Digest(Regs(s, s, s), BytesOf(k))
      decreases |k| - i
    {
      WordStep(Regs(a, b, c), k[i..]);
      a := Add(a, k[i]);
      b := Add(b, k[i + 1]);
      c := Add(c, k[i + 2]);
      var m := Mix(Regs(a, b, c));
      a, b, c := m.a, m.b, m.c;
      assert k[i..][3..] == k[i + 3..];
      i := i + 3;
    }
    WordTail(Regs(a, b, c), k[i..]);
    if |k| - i >= 3 { c := Add(c, k[i + 2]); }
    if |k| - i >= 2 { b := Add(b, k[i + 1]); }
    if |k| - i >= 1 {
      a := Add(a, k[i]);
      var f := Final(Regs(a, b, c));
      c := f.c;
    }
    hash := c;
  }

  lemma LengthInBytes(n: nat)
    ensures Shl(n % 0x1_0000_0000, 2) == (4 * n) % 0x1_0000_0000
  {
    assert Pow2(2) == 4;
  }

  lemma WordStep(r: Regs, k: seq<u32>)
    requires |k| > 3
    ensures Digest(r, BytesOf(k)) == Digest(Mix(Regs(Add(r.a, k[0]), Add(r.b, k[1]), Add(r.c, k[2]))), BytesOf(k[3..]))
  {
    hide Add, Mix, Final, WordAt;
    BytesOfAt(k, 0);
    BytesOfAt(k, 1);
    BytesOfAt(k, 2);
    BytesOfRest(k);
  }

  lemma WordTail(r: Regs, k: seq<u32>)
    requires |k| <= 3
    ensures k == [] ==> Digest(r, BytesOf(k)) == r
    ensures k != [] ==>
      Digest(r, BytesOf(k)) == Final(Regs(Add(r.a, k[0]), if |k| >= 2 then Add(r.b, k[1]) else r.b, if |k| >= 3 then Add(r.c, k[2]) else r.c))
  {
    hide Add, Mix, Final, WordAt;
    if k != [] {
      BytesOfAt(k, 0);
      if |k| >= 2 { BytesOfAt(k, 1); } else { BytesOfPast(k, 1); }
      if |k| >= 3 { BytesOfAt(k, 2); } else { BytesOfPast(k, 2); }
      AddZero(r.b);
      AddZero(r.c);
    }
  }

  // ---------- nothing is lost but at the very end ----------

  lemma AddCancels(x: u32, y: u32, w: u32)
    requires Add(x, w) == Add(y, w)
    ensures x == y
  {
    hide Add, Sub;
    AddSub(x, w);
    AddSub(y, w);
  }

  lemma AddLeft(x: u32, v: u32, w: u32)
    requires Add(x, v) == Add(x, w)
    ensures v == w
  {
    assert Add(x, v) == Add(v, x) && Add(x, w) == Add(w, x);
    AddCancels(v, w, x);
  }

  lemma GlueInjective(a0: byte, a1: byte, a2: byte, a3: byte, b0: byte, b1: byte, b2: byte, b3: byte)
    requires Glue(a0, a1, a2, a3) == Glue(b0, b1, b2, b3)
    ensures a0 == b0 && a1 == b1 && a2 == b2 && a3 == b3
  {
    var x, y := a1 + 0x100 * a2 + 0x1_0000 * a3, b1 + 0x100 * b2 + 0x1_0000 * b3;
    LowByte(a0, x, b0, y);
    LowByte(a1, a2 + 0x100 * a3, b1, b2 + 0x100 * b3);
    LowByte(a2, a3, b2, b3);
  }

  lemma LowByte(a: byte, x: int, b: byte, y: int)
    requires a + 0x100 * x == b + 0x100 * y
    ensures a == b && x == y
  {
  }

  lemma WordInjective(x: seq<byte>, y: seq<byte>, i: nat)
    requires WordAt(x, i) == WordAt(y, i)
    ensures forall j :: i <= j < i + 4 ==> ByteAt(x, j) == ByteAt(y, j)
  {
    hide Glue;
    GlueInjective(ByteAt(x, i), ByteAt(x, i + 1), ByteAt(x, i + 2), ByteAt(x, i + 3),
                  ByteAt(y, i), ByteAt(y, i + 1), ByteAt(y, i + 2), ByteAt(y, i + 3));
  }

  /** The registers remember the twelve bytes just taken in. */
  lemma AbsorbRemembers(r: Regs, x: seq<byte>, y: seq<byte>)
    requires |x| == |y| && Absorb(r, x) == Absorb(r, y)
    ensures forall j :: 0 <= j < 12 && j < |x| ==> x[j] == y[j]
  {
    hide Add, WordAt;
    AddLeft(r.a, WordAt(x, 0), WordAt(y, 0));
    AddLeft(r.b, WordAt(x, 4), WordAt(y, 4));
    AddLeft(r.c, WordAt(x, 8), WordAt(y, 8));
    WordInjective(x, y, 0);
    WordInjective(x, y, 4);
    WordInjective(x, y, 8);
    forall j | 0 <= j < 12 && j < |x|
      ensures x[j] == y[j]
    {
      assert ByteAt(x, j) == ByteAt(y, j);
    }
  }

  /** Different registers stay different, whatever is hashed into them. */
  lemma {:induction false} RegistersStayApart(r: Regs, s: Regs, key: seq<byte>)
    requires r != s
    ensures Digest(r, key) != Digest(s, key)
    decreases |key|
  {
    hide Add, Mix, Final, Unmix, Unfinal, WordAt;
    if key != [] {
      if Absorb(r, key) == Absorb(s, key) {
        AddCancels(r.a, s.a, WordAt(key, 0));
        AddCancels(r.b, s.b, WordAt(key, 4));
        AddCancels(r.c, s.c, WordAt(key, 8));
        assert false;
      }
      if |key| <= 12 {
        FinalBijection(Absorb(r, key));
        FinalBijection(Absorb(s, key));
      } else {
        MixBijection(Absorb(r, key));
        MixBijection(Absorb(s, key));
        RegistersStayApart(Mix(Absorb(r, key)), Mix(Absorb(s, key)), key[12..]);
      }
    }
  }

  /** Keys of one length that differ only inside one block of twelve bytes leave the three
      registers different: collisions between them come from reporting one register, never
      from the mixing. */
  lemma {:induction false} BlockChangeShows(r: Regs, x: seq<byte>, y: seq<byte>, j: nat)
    requires |x| == |y| && 12 * j < |x| && x != y
    requires forall i :: 0 <= i < |x| && (i < 12 * j || i >= 12 * j + 12) ==> x[i] == y[i]
    ensures Digest(r, x) != Digest(r, y)
    decreases j
  {
    hide Mix, Final, Unmix, Unfinal, Absorb;
    if j == 0 {
      if Absorb(r, x) == Absorb(r, y) {
        AbsorbRemembers(r, x, y);
        assert false;
      }
      if |x| <= 12 {
        FinalBijection(Absorb(r, x));
        FinalBijection(Absorb(r, y));
      } else {
        MixBijection(Absorb(r, x));
        MixBijection(Absorb(r, y));
        assert x[12..] == y[12..];
        RegistersStayApart(Mix(Absorb(r, x)), Mix(Absorb(r, y)), x[12..]);
      }
    } else {
      SameFirstBlock(r, x, y);
      assert x == x[..12] + x[12..] && y == y[..12] + y[12..] && x[..12] == y[..12];
      BlockChangeShows(Mix(Absorb(r, x)), x[12..], y[12..], j - 1);
    }
  }

  lemma SameFirstBlock(r: Regs, x: seq<byte>, y: seq<byte>)
    requires |x| == |y| >= 12 && forall i :: 0 <= i < 12 ==> x[i] == y[i]
    ensures Absorb(r, x) == Absorb(r, y)
  {
    hide Add, Glue;
  }
}
