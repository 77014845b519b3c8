/** The macros of lookup3 in the machine's own shifts, ors and exclusive ors on 32-bit words, and
    the arithmetic the hash is modelled with: they are the same. */
module HashMacros {
  import opened Bytes
  import opened BobHash

  // ---------- 32-bit words and the numbers they hold ----------

  function Even(x: bv32): bv32 { x << 1 }

  function Odd(x: bv32): bv32 { (x << 1) | 1 }

  function Push(x: bv32, bit: nat): bv32 {
    if bit == 1 then Odd(x) else Even(x)
  }

  predicate LowBit(x: bv32) { x & 1 == 1 }

  function Half(x: bv32): bv32 { x >> 1 }

  /** The low `width` binary digits of a number, as a word. */
  function Bits(n: nat, width: nat): bv32 {
    if width == 0 then 0 else Push(Bits(n / 2, width - 1), n % 2)
  }

  /** The number that the low `width` digits of a word stand for. */
  function Num(b: bv32, width: nat): nat {
    if width == 0 then 0 else (if LowBit(b) then 1 else 0) + 2 * Num(Half(b), width - 1)
  }

  function Mask(width: nat): bv32 {
    if width == 0 then 0 else Push(Mask(width - 1), 1)
  }

  function Word(x: u32): bv32 {
    Bits(x, 32)
  }

  function Number(b: bv32): u32 {
    NumBelow(b, 32);
    Pow32();
    Num(b, 32)
  }

  lemma {:induction false} NumBelow(b: bv32, width: nat)
    ensures Num(b, width) < Pow2(width)
  {
    if width > 0 { NumBelow(Half(b), width - 1); }
  }

  predicate Within(b: bv32, m: bv32) {
    b & m == b
  }

  lemma EvenWithin(x: bv32, m: bv32)
    requires Within(x, m)
    ensures Within(Even(x), Odd(m))
  {
  }

  lemma OddWithin(x: bv32, m: bv32)
    requires Within(x, m)
    ensures Within(Odd(x), Odd(m))
  {
  }

  lemma PushWithin(x: bv32, m: bv32, bit: nat)
    requires Within(x, m)
    ensures Within(Push(x, bit), Push(m, 1))
  {
    hide Within, Even, Odd;
    if bit == 1 { OddWithin(x, m); } else { EvenWithin(x, m); }
  }

  lemma {:induction false} BitsWithin(n: nat, width: nat)
    ensures Within(Bits(n, width), Mask(width))
  {
    hide Push, Within;
    if width > 0 {
      BitsWithin(n / 2, width - 1);
      PushWithin(Bits(n / 2, width - 1), Mask(width - 1), n % 2);
    } else {
      ZeroWithin(0);
    }
  }

  lemma ZeroWithin(m: bv32)
    ensures Within(0, m)
  {
  }

  lemma Masks()
    ensures Mask(31) == 0x7fff_ffff
  {
    assert Mask(6) == 0x3f;
    assert Mask(12) == 0xfff;
    assert Mask(18) == 0x3_ffff;
    assert Mask(25) == 0x1ff_ffff;
  }

  lemma EvenPop(x: bv32)
    requires Within(x, 0x7fff_ffff)
    ensures Half(Even(x)) == x && !LowBit(Even(x))
  {
  }

  lemma OddPop(x: bv32)
    requires Within(x, 0x7fff_ffff)
    ensures Half(Odd(x)) == x && LowBit(Odd(x))
  {
  }

  /** Pushing a digit onto a word whose top digit is free loses nothing. */
  lemma PushPop(x: bv32, bit: nat)
    requires Within(x, 0x7fff_ffff)
    ensures Half(Push(x, bit)) == x && (LowBit(Push(x, bit)) <==> bit == 1)
  {
    hide Within, Even, Odd, Half, LowBit;
    if bit == 1 { OddPop(x); } else { EvenPop(x); }
  }

  lemma {:induction false} MaskGrows(width: nat)
    ensures Within(Mask(width), Mask(width + 1))
  {
    hide Push, Within;
    if width > 0 {
      MaskGrows(width - 1);
      PushWithin(Mask(width - 1), Mask(width), 1);
    } else {
      ZeroWithin(Mask(1));
    }
  }

  lemma {:induction false} SmallMask(width: nat)
    requires width <= 31
    ensures Within(Mask(width), 0x7fff_ffff)
    decreases 31 - width
  {
    hide Mask, Within;
    Masks();
    if width < 31 {
      SmallMask(width + 1);
      MaskGrows(width);
      Transitive(Mask(width), Mask(width + 1), 0x7fff_ffff);
    } else {
      AllWithin();
    }
  }

  lemma AllWithin()
    ensures Within(0x7fff_ffff, 0x7fff_ffff)
  {
  }

  lemma Transitive(x: bv32, m: bv32, l: bv32)
    requires Within(x, m) && Within(m, l)
    ensures Within(x, l)
  {
  }

  /** Up to 31 digits leave the top digit free. */
  lemma TopFree(n: nat, width: nat)
    requires width <= 31
    ensures Within(Bits(n, width), 0x7fff_ffff)
  {
    hide Bits, Mask, Within;
    BitsWithin(n, width);
    SmallMask(width);
    Transitive(Bits(n, width), Mask(width), 0x7fff_ffff);
  }

  lemma {:induction false} NumOfBits(n: nat, width: nat)
    requires width <= 32 && n < Pow2(width)
    ensures Num(Bits(n, width), width) == n
  {
    hide Push, Within, Pow2, LowBit, Half, Even, Odd;
    if width > 0 {
      HalfBelow(n, width);
      NumOfBits(n / 2, width - 1);
      TopFree(n / 2, width - 1);
      PushPop(Bits(n / 2, width - 1), n % 2);
    } else {
      assert Pow2(0) == 1 by { PowZero(); }
    }
  }

  lemma PowZero()
    ensures Pow2(0) == 1
  {
  }

  /** A register value and its word determine each other. */
  lemma NumberOfWord(x: u32)
    ensures Number(Word(x)) == x
  {
    hide Bits, Num, Pow2;
    Pow32();
    NumOfBits(x, 32);
  }

  // ---------- exclusive or, or, and ----------

  lemma EvenIs(x: bv32)
    ensures Even(x) == x << 1
  {
  }

  lemma OddIs(x: bv32)
    ensures Odd(x) == (x << 1) | 1
  {
  }

  function XorW(x: bv32, y: bv32): bv32 { x ^ y }

  lemma XorIs(x: bv32, y: bv32)
    ensures XorW(x, y) == x ^ y
  {
  }

  lemma RawXorEE(x: bv32, y: bv32)
    ensures (x << 1) ^ (y << 1) == (x ^ y) << 1
  {
  }

  lemma XorEE(x: bv32, y: bv32)
    ensures XorW(Even(x), Even(y)) == Even(XorW(x, y))
  {
    hide *;
    EvenIs(x);
    EvenIs(y);
    EvenIs(x ^ y);
    XorIs(x, y);
    XorIs(Even(x), Even(y));
    RawXorEE(x, y);
  }

  lemma RawXorEO(x: bv32, y: bv32)
    ensures (x << 1) ^ ((y << 1) | 1) == ((x ^ y) << 1) | 1
  {
  }

  lemma XorEO(x: bv32, y: bv32)
    ensures XorW(Even(x), Odd(y)) == Odd(XorW(x, y))
  {
    hide *;
    EvenIs(x);
    OddIs(y);
    OddIs(x ^ y);
    XorIs(x, y);
    XorIs(Even(x), Odd(y));
    RawXorEO(x, y);
  }

  lemma RawXorOE(x: bv32, y: bv32)
    ensures ((x << 1) | 1) ^ (y << 1) == ((x ^ y) << 1) | 1
  {
  }

  lemma XorOE(x: bv32, y: bv32)
    ensures XorW(Odd(x), Even(y)) == Odd(XorW(x, y))
  {
    hide *;
    OddIs(x);
    EvenIs(y);
    OddIs(x ^ y);
    XorIs(x, y);
    XorIs(Odd(x), Even(y));
    RawXorOE(x, y);
  }

  lemma RawXorOO(x: bv32, y: bv32)
    ensures ((x << 1) | 1) ^ ((y << 1) | 1) == (x ^ y) << 1
  {
  }

  lemma XorOO(x: bv32, y: bv32)
    ensures XorW(Odd(x), Odd(y)) == Even(XorW(x, y))
  {
    hide *;
    OddIs(x);
    OddIs(y);
    EvenIs(x ^ y);
    XorIs(x, y);
    XorIs(Odd(x), Odd(y));
    RawXorOO(x, y);
  }

  lemma PushXor(x: bv32, p: nat, y: bv32, q: nat)
    requires p < 2 && q < 2
    ensures XorW(Push(x, p), Push(y, q)) == Push(XorW(x, y), (p + q) % 2)
  {
    hide Even, Odd, XorW;
    XorEE(x, y);
    XorEO(x, y);
    XorOE(x, y);
    XorOO(x, y);
  }

  function OrW(x: bv32, y: bv32): bv32 { x | y }

  lemma OrIs(x: bv32, y: bv32)
    ensures OrW(x, y) == x | y
  {
  }

  lemma RawOrEE(x: bv32, y: bv32)
    ensures (x << 1) | (y << 1) == (x | y) << 1
  {
  }

  lemma OrEE(x: bv32, y: bv32)
    ensures OrW(Even(x), Even(y)) == Even(OrW(x, y))
  {
    hide *;
    EvenIs(x);
    EvenIs(y);
    EvenIs(x | y);
    OrIs(x, y);
    OrIs(Even(x), Even(y));
    RawOrEE(x, y);
  }

  lemma RawOrEO(x: bv32, y: bv32)
    ensures (x << 1) | ((y << 1) | 1) == ((x | y) << 1) | 1
  {
  }

  lemma OrEO(x: bv32, y: bv32)
    ensures OrW(Even(x), Odd(y)) == Odd(OrW(x, y))
  {
    hide *;
    EvenIs(x);
    OddIs(y);
    OddIs(x | y);
    OrIs(x, y);
    OrIs(Even(x), Odd(y));
    RawOrEO(x, y);
  }

  lemma RawOrOE(x: bv32, y: bv32)
    ensures ((x << 1) | 1) | (y << 1) == ((x | y) << 1) | 1
  {
  }

  lemma OrOE(x: bv32, y: bv32)
    ensures OrW(Odd(x), Even(y)) == Odd(OrW(x, y))
  {
    hide *;
    OddIs(x);
    EvenIs(y);
    OddIs(x | y);
    OrIs(x, y);
    OrIs(Odd(x), Even(y));
    RawOrOE(x, y);
  }

  lemma RawOrOO(x: bv32, y: bv32)
    ensures ((x << 1) | 1) | ((y << 1) | 1) == ((x | y) << 1) | 1
  {
  }

  lemma OrOO(x: bv32, y: bv32)
    ensures OrW(Odd(x), Odd(y)) == Odd(OrW(x, y))
  {
    hide *;
    OddIs(x);
    OddIs(y);
    OddIs(x | y);
    OrIs(x, y);
    OrIs(Odd(x), Odd(y));
    RawOrOO(x, y);
  }

  lemma PushOr(x: bv32, p: nat, y: bv32, q: nat)
    requires p < 2 && q < 2
    ensures OrW(Push(x, p), Push(y, q)) == Push(OrW(x, y), if p == 1 || q == 1 then 1 else 0)
  {
    hide Even, Odd, OrW;
    OrEE(x, y);
    OrEO(x, y);
    OrOE(x, y);
    OrOO(x, y);
  }

  function AndW(x: bv32, y: bv32): bv32 { x & y }

  lemma AndIs(x: bv32, y: bv32)
    ensures AndW(x, y) == x & y
  {
  }

  lemma RawAndEO(x: bv32, y: bv32)
    ensures (x << 1) & ((y << 1) | 1) == (x & y) << 1
  {
  }

  lemma AndEO(x: bv32, y: bv32)
    ensures AndW(Even(x), Odd(y)) == Even(AndW(x, y))
  {
    hide *;
    EvenIs(x);
    OddIs(y);
    EvenIs(x & y);
    AndIs(x, y);
    AndIs(Even(x), Odd(y));
    RawAndEO(x, y);
  }

  lemma RawAndOO(x: bv32, y: bv32)
    ensures ((x << 1) | 1) & ((y << 1) | 1) == ((x & y) << 1) | 1
  {
  }

  lemma AndOO(x: bv32, y: bv32)
    ensures AndW(Odd(x), Odd(y)) == Odd(AndW(x, y))
  {
    hide *;
    OddIs(x);
    OddIs(y);
    OddIs(x & y);
    AndIs(x, y);
    AndIs(Odd(x), Odd(y));
    RawAndOO(x, y);
  }

  lemma PushAnd(x: bv32, m: bv32, bit: nat)
    ensures AndW(Push(x, bit), Push(m, 1)) == Push(AndW(x, m), bit)
  {
    hide Even, Odd, AndW;
    AndEO(x, m);
    AndOO(x, m);
  }

  lemma BitsStep(n: nat, width: nat)
    requires width > 0
    ensures Bits(n, width) == Push(Bits(n / 2, width - 1), n % 2)
  {
  }

  lemma {:induction false} BitsOfXor(x: nat, y: nat, width: nat)
    ensures Bits(XorBits(x, y, width), width) == XorW(Bits(x, width), Bits(y, width))
  {
    if width > 0 {
      hide Push, Bits, XorBits, XorW;
      var low, high := (x % 2 + y % 2) % 2, XorBits(x / 2, y / 2, width - 1);
      XorBitsStep(x, y, width);
      BitAndRest(low, high);
      BitsStep(low + 2 * high, width);
      BitsStep(x, width);
      BitsStep(y, width);
      BitsOfXor(x / 2, y / 2, width - 1);
      PushXor(Bits(x / 2, width - 1), x % 2, Bits(y / 2, width - 1), y % 2);
    }
  }

  lemma OrBitsStep(x: nat, y: nat, n: nat)
    requires n > 0
    ensures OrBits(x, y, n) == (if x % 2 == 1 || y % 2 == 1 then 1 else 0) + 2 * OrBits(x / 2, y / 2, n - 1)
  {
  }

  lemma {:induction false} BitsOfOr(x: nat, y: nat, width: nat)
    ensures Bits(OrBits(x, y, width), width) == OrW(Bits(x, width), Bits(y, width))
  {
    if width > 0 {
      hide Push, Bits, OrBits, OrW;
      var low: nat, high := if x % 2 == 1 || y % 2 == 1 then 1 else 0, OrBits(x / 2, y / 2, width - 1);
      OrBitsStep(x, y, width);
      BitAndRest(low, high);
      BitsStep(low + 2 * high, width);
      BitsStep(x, width);
      BitsStep(y, width);
      BitsOfOr(x / 2, y / 2, width - 1);
      PushOr(Bits(x / 2, width - 1), x % 2, Bits(y / 2, width - 1), y % 2);
    }
  }

  // ---------- shifts ----------

  /** Only the low digits count. */
  lemma {:induction false} LowDigitsOnly(n: nat, width: nat)
    ensures AndW(Bits(n, width + 1), Mask(width)) == Bits(n, width)
  {
    hide Push, AndW, Bits;
    BitsStep(n, width + 1);
    if width > 0 {
      LowDigitsOnly(n / 2, width - 1);
      BitsStep(n, width);
      PushAnd(Bits(n / 2, width), Mask(width - 1), n % 2);
    } else {
      AndZero(Bits(n, 1));
      BitsNone(n);
    }
  }

  lemma BitsNone(n: nat)
    ensures Bits(n, 0) == 0
  {
  }

  lemma AndZero(x: bv32)
    ensures AndW(x, 0) == 0
  {
  }

  lemma TopLost(x: bv32)
    ensures Even(AndW(x, 0x7fff_ffff)) == Even(x)
  {
  }

  /** Doubling modulo 2^32 is a shift to the left. */
  lemma WordOfDouble(x: u32)
    ensures Word((2 * x) % 0x1_0000_0000) == Even(Word(x))
  {
    hide Bits, Mask, Even, Odd, AndW;
    var h := x % 0x8000_0000;
    assert (2 * x) % 0x1_0000_0000 == 2 * h;
    BitsStep(2 * h, 32);
    LowBits(x, 31, 0x8000_0000);
    LowDigitsOnly(x, 31);
    Masks();
    TopLost(Bits(x, 32));
  }

  lemma LowBits(n: nat, width: nat, m: nat)
    requires m > 0 && (m == Pow2(width) || (width == 31 && m == 0x8000_0000))
    ensures Bits(n % m, width) == Bits(n, width)
  {
    if width == 31 { Pow31(); }
    LowBitsPow(n, width);
  }

  lemma Pow31()
    ensures Pow2(31) == 0x8000_0000
  {
    Pow32();
  }

  lemma {:induction false} LowBitsPow(n: nat, width: nat)
    ensures Pow2(width) > 0 && Bits(n % Pow2(width), width) == Bits(n, width)
  {
    PowPositive(width);
    if width > 0 {
      hide Push, Bits, Pow2;
      PowPositive(width - 1);
      PowStep(width);
      HalfOfRest(n, Pow2(width - 1));
      BitsStep(n, width);
      BitsStep(n % Pow2(width), width);
      LowBitsPow(n / 2, width - 1);
    }
  }

  lemma {:induction false} PowPositive(n: nat)
    ensures Pow2(n) > 0
  {
    if n > 0 { PowPositive(n - 1); }
  }

  lemma PowStep(n: nat)
    requires n > 0
    ensures Pow2(n) == 2 * Pow2(n - 1)
  {
  }

  lemma HalfOfRest(n: nat, m: nat)
    requires m > 0
    ensures (n % (2 * m)) / 2 == (n / 2) % m && (n % (2 * m)) % 2 == n % 2
  {
    var q, r := n / 2 / m, (n / 2) % m;
    Division(n / 2, m);
    Division(n, 2);
    assert n == (2 * m) * q + (2 * r + n % 2);
    Quotient(n, 2 * m, q, 2 * r + n % 2);
  }

  lemma Division(n: nat, m: nat)
    requires m > 0
    ensures n == m * (n / m) + n % m && n % m < m
  {
  }

  lemma {:induction false} LeadingZero(n: nat, width: nat)
    requires n < Pow2(width)
    ensures Bits(n, width + 1) == Bits(n, width)
  {
    hide Push, Pow2;
    if width > 0 {
      HalfBelow(n, width);
      LeadingZero(n / 2, width - 1);
    } else {
      PowZero();
      NoDigits();
    }
  }

  lemma NoDigits()
    ensures Bits(0, 1) == 0
  {
  }

  /** Halving is a shift to the right. */
  lemma WordOfHalf(x: u32)
    ensures Word(x / 2) == Half(Word(x))
  {
    hide Bits, Push, Pow2, Within, Half;
    Pow31();
    LeadingZero(x / 2, 31);
    BitsStep(x, 32);
    TopFree(x / 2, 31);
    PushPop(Bits(x / 2, 31), x % 2);
  }

  /** `k` single shifts. */
  function Left(x: bv32, k: nat): bv32 {
    if k == 0 then x else Even(Left(x, k - 1))
  }

  function Right(x: bv32, k: nat): bv32 {
    if k == 0 then x else Right(Half(x), k - 1)
  }

  lemma ShlStep(x: u32, k: nat)
    requires k > 0
    ensures Shl(x, k) == (2 * Shl(x, k - 1)) % 0x1_0000_0000
  {
    hide Pow2;
    PowStep(k);
    DoubleRest(x * Pow2(k - 1));
    assert x * Pow2(k) == 2 * (x * Pow2(k - 1));
  }

  lemma DoubleRest(n: nat)
    ensures (2 * n) % 0x1_0000_0000 == (2 * (n % 0x1_0000_0000)) % 0x1_0000_0000
  {
    var q, r := n / 0x1_0000_0000, n % 0x1_0000_0000;
    var carry := if 2 * r < 0x1_0000_0000 then 0 else 1;
    Quotient(2 * n, 0x1_0000_0000, 2 * q + carry, 2 * r - 0x1_0000_0000 * carry);
    Quotient(2 * r, 0x1_0000_0000, carry, 2 * r - 0x1_0000_0000 * carry);
  }

  lemma {:induction false} WordOfShl(x: u32, k: nat)
    ensures Word(Shl(x, k)) == Left(Word(x), k)
  {
    hide Word, Even, Shl;
    if k > 0 {
      ShlStep(x, k);
      WordOfShl(x, k - 1);
      WordOfDouble(Shl(x, k - 1));
    } else {
      ShlNone(x);
    }
  }

  lemma ShlNone(x: u32)
    ensures Shl(x, 0) == x
  {
  }

  lemma {:induction false} WordOfShr(x: u32, k: nat)
    ensures Word(Shr(x, k)) == Right(Word(x), k)
    decreases k
  {
    hide Word, Half;
    if k > 0 {
      WordOfHalf(x);
      WordOfShr(x / 2, k - 1);
    }
  }

  lemma WordOfXor(x: u32, y: u32)
    ensures Word(Xor(x, y)) == Word(x) ^ Word(y)
  {
    hide Bits, XorBits, XorW;
    BitsOfXor(x, y, 32);
    XorIs(Word(x), Word(y));
  }

  lemma WordOfOr(x: u32, y: u32)
    ensures Word(Or(x, y)) == Word(x) | Word(y)
  {
    hide Bits, OrBits, OrW;
    BitsOfOr(x, y, 32);
    OrIs(Word(x), Word(y));
  }

  /** The rotation of a word by the shifts of the macro, one digit at a time. */
  lemma WordOfRot(x: u32, k: nat)
    requires 0 < k < 32
    ensures Word(Rot(x, k)) == Left(Word(x), k) | Right(Word(x), 32 - k)
  {
    hide Word, Left, Right, Shl, Shr, Or;
    WordOfShl(x, k);
    WordOfShr(x, 32 - k);
    WordOfOr(Shl(x, k), Shr(x, 32 - k));
  }

  // ---------- single shifts add up to the machine's ----------

  /** The number `n` as a shift amount. */
  predicate Amount(n: nat, k: bv8) {
    if n == 0 then k == 0 else 0 < k < 33 && Amount(n - 1, k - 1)
  }

  function LeftBy(x: bv32, k: bv8): bv32
    requires k < 33
  {
    x << k
  }

  function RightBy(x: bv32, k: bv8): bv32
    requires k < 33
  {
    x >> k
  }

  lemma LeftByStep(x: bv32, k: bv8)
    requires 0 < k < 33
    ensures Even(LeftBy(x, k - 1)) == LeftBy(x, k)
  {
    OneMoreLeft(x, k);
  }

  lemma OneMoreLeft(x: bv32, k: bv8)
    requires 0 < k < 33
    ensures (x << (k - 1)) << 1 == x << k
  {
  }

  lemma RightByStep(x: bv32, k: bv8)
    requires 0 < k < 33
    ensures RightBy(Half(x), k - 1) == RightBy(x, k)
  {
    OneMoreRight(x, k);
  }

  lemma OneMoreRight(x: bv32, k: bv8)
    requires 0 < k < 33
    ensures (x >> 1) >> (k - 1) == x >> k
  {
  }

  lemma ByNone(x: bv32)
    ensures LeftBy(x, 0) == x && RightBy(x, 0) == x
  {
  }

  lemma {:induction false} LeftIs(x: bv32, n: nat, k: bv8)
    requires Amount(n, k)
    ensures k < 33 && Left(x, n) == LeftBy(x, k)
    decreases n
  {
    hide Even, LeftBy;
    if n > 0 {
      LeftIs(x, n - 1, k - 1);
      LeftByStep(x, k);
    } else {
      ByNone(x);
    }
  }

  lemma {:induction false} RightIs(x: bv32, n: nat, k: bv8)
    requires Amount(n, k)
    ensures k < 33 && Right(x, n) == RightBy(x, k)
    decreases n
  {
    hide Half, RightBy;
    if n > 0 {
      RightIs(Half(x), n - 1, k - 1);
      RightByStep(x, k);
    } else {
      ByNone(x);
    }
  }

  /** `#define rot(x,k) (((x)<<(k)) | ((x)>>(32-(k))))` */
  function RotMacro(x: bv32, k: bv8): bv32
    requires k < 33
  {
    (x << k) | (x >> (32 - k))
  }

  lemma RotParts(x: bv32, k: bv8)
    requires k < 33
    ensures RotMacro(x, k) == LeftBy(x, k) | RightBy(x, 32 - k)
  {
  }

  lemma RotIsMacro(x: u32, n: nat, k: bv8)
    requires 0 < n < 32 && Amount(n, k) && k < 33 && Amount(32 - n, 32 - k)
    ensures Word(Rot(x, n)) == RotMacro(Word(x), k)
  {
    hide Word, Left, Right, LeftBy, RightBy, Rot, RotMacro, Amount;
    WordOfRot(x, n);
    LeftIs(Word(x), n, k);
    RightIs(Word(x), 32 - n, 32 - k);
    RotParts(Word(x), k);
  }

  lemma Amounts()
    ensures Amount(4, 4) && Amount(6, 6) && Amount(8, 8) && Amount(11, 11) && Amount(14, 14) && Amount(16, 16)
    ensures Amount(19, 19) && Amount(24, 24) && Amount(25, 25)
    ensures Amount(28, 28) && Amount(26, 26) && Amount(21, 21) && Amount(18, 18) && Amount(13, 13) && Amount(7, 7)
  {
    assert Amount(1, 1) && Amount(2, 2) && Amount(3, 3) && Amount(4, 4) && Amount(5, 5) && Amount(6, 6) && Amount(7, 7);
    assert Amount(8, 8) && Amount(9, 9) && Amount(10, 10) && Amount(11, 11) && Amount(12, 12) && Amount(13, 13) && Amount(14, 14);
    assert Amount(15, 15) && Amount(16, 16) && Amount(17, 17) && Amount(18, 18) && Amount(19, 19) && Amount(20, 20) && Amount(21, 21);
    assert Amount(22, 22) && Amount(23, 23) && Amount(24, 24) && Amount(25, 25) && Amount(26, 26) && Amount(27, 27) && Amount(28, 28);
  }

  /** All rotations that the hash uses. */
  lemma Rotations(x: u32)
    ensures Word(Rot(x, 4)) == RotMacro(Word(x), 4) && Word(Rot(x, 6)) == RotMacro(Word(x), 6)
    ensures Word(Rot(x, 8)) == RotMacro(Word(x), 8) && Word(Rot(x, 11)) == RotMacro(Word(x), 11)
    ensures Word(Rot(x, 14)) == RotMacro(Word(x), 14) && Word(Rot(x, 16)) == RotMacro(Word(x), 16)
    ensures Word(Rot(x, 19)) == RotMacro(Word(x), 19) && Word(Rot(x, 24)) == RotMacro(Word(x), 24)
    ensures Word(Rot(x, 25)) == RotMacro(Word(x), 25)
  {
    hide Word, Rot, RotMacro, Amount;
    Amounts();
    RotIsMacro(x, 4, 4);
    RotIsMacro(x, 6, 6);
    RotIsMacro(x, 8, 8);
    RotIsMacro(x, 11, 11);
    RotIsMacro(x, 14, 14);
    RotIsMacro(x, 16, 16);
    RotIsMacro(x, 19, 19);
    RotIsMacro(x, 24, 24);
    RotIsMacro(x, 25, 25);
  }

  // ---------- mix and final as the source writes them ----------

  // uint32_t addition and subtraction, written out.
  function Plus(x: u32, y: u32): u32 {
    (x + y) % 0x1_0000_0000
  }

  function Minus(x: u32, y: u32): u32 {
    (x - y) % 0x1_0000_0000
  }

  lemma XorWordIs(x: u32, y: u32)
    ensures Number(Word(x) ^ Word(y)) == Xor(x, y)
  {
    hide Word, Number, Xor;
    WordOfXor(x, y);
    NumberOfWord(Xor(x, y));
  }

  /** `x ^ y` on the numbers the words hold. */
  function XorMacro(x: u32, y: u32): u32 {
    Number(Word(x) ^ Word(y))
  }

  function RotNumber(x: u32, k: bv8): u32
    requires k < 33
  {
    Number(RotMacro(Word(x), k))
  }

  lemma XorMacroIs(x: u32, y: u32)
    ensures XorMacro(x, y) == Xor(x, y)
  {
    hide Word, Number, Xor;
    XorWordIs(x, y);
  }

  lemma RotNumberIs(x: u32, n: nat, k: bv8)
    requires 0 < n < 32 && k < 33 && Word(Rot(x, n)) == RotMacro(Word(x), k)
    ensures RotNumber(x, k) == Rot(x, n)
  {
    hide Word, Number, Rot, RotMacro;
    NumberOfWord(Rot(x, n));
  }

  /** The rotations in mix. */
  lemma MixRotations(x: u32)
    ensures RotNumber(x, 4) == Rot(x, 4) && RotNumber(x, 6) == Rot(x, 6) && RotNumber(x, 8) == Rot(x, 8)
    ensures RotNumber(x, 16) == Rot(x, 16) && RotNumber(x, 19) == Rot(x, 19)
  {
    hide Word, RotNumber, Rot, RotMacro;
    Rotations(x);
    RotNumberIs(x, 4, 4);
    RotNumberIs(x, 6, 6);
    RotNumberIs(x, 8, 8);
    RotNumberIs(x, 16, 16);
    RotNumberIs(x, 19, 19);
  }

  /** The rotations in final. */
  lemma FinalRotations(x: u32)
    ensures RotNumber(x, 14) == Rot(x, 14) && RotNumber(x, 11) == Rot(x, 11) && RotNumber(x, 25) == Rot(x, 25)
    ensures RotNumber(x, 16) == Rot(x, 16) && RotNumber(x, 4) == Rot(x, 4) && RotNumber(x, 24) == Rot(x, 24)
  {
    hide Word, RotNumber, Rot, RotMacro;
    Rotations(x);
    RotNumberIs(x, 14, 14);
    RotNumberIs(x, 11, 11);
    RotNumberIs(x, 25, 25);
    RotNumberIs(x, 16, 16);
    RotNumberIs(x, 4, 4);
    RotNumberIs(x, 24, 24);
  }

  lemma MixLineIs(x: u32, y: u32, z: u32, n: nat, k: bv8)
    requires n < 32 && k < 33 && RotNumber(z, k) == Rot(z, n)
    ensures (XorMacro(Minus(x, z), RotNumber(z, k)), Plus(z, y)) == MixLine(x, y, z, n)
  {
    hide XorMacro, RotNumber, Xor, Rot;
    XorMacroIs(Minus(x, z), Rot(z, n));
  }

  lemma FinalLineIs(x: u32, y: u32, n: nat, k: bv8)
    requires n < 32 && k < 33 && RotNumber(y, k) == Rot(y, n)
    ensures Minus(XorMacro(x, y), RotNumber(y, k)) == FinalLine(x, y, n)
  {
    hide XorMacro, RotNumber, Xor, Rot;
    XorMacroIs(x, y);
  }

  /** The macro mix, statement by statement. */
  method MixMacro(r: Regs) returns (s: Regs)
    ensures s == Mix(r)
  {
    hide XorMacro, RotNumber, Rot, MixLine, Plus, Minus;
    var a, b, c := r.a, r.b, r.c;
    MixRotations(c);
    MixLineIs(a, b, c, 4, 4);
    a := Minus(a, c); a := XorMacro(a, RotNumber(c, 4)); c := Plus(c, b);
    MixRotations(a);
    MixLineIs(b, c, a, 6, 6);
    b := Minus(b, a); b := XorMacro(b, RotNumber(a, 6)); a := Plus(a, c);
    MixRotations(b);
    MixLineIs(c, a, b, 8, 8);
    c := Minus(c, b); c := XorMacro(c, RotNumber(b, 8)); b := Plus(b, a);
    MixRotations(c);
    MixLineIs(a, b, c, 16, 16);
    a := Minus(a, c); a := XorMacro(a, RotNumber(c, 16)); c := Plus(c, b);
    MixRotations(a);
    MixLineIs(b, c, a, 19, 19);
    b := Minus(b, a); b := XorMacro(b, RotNumber(a, 19)); a := Plus(a, c);
    MixRotations(b);
    MixLineIs(c, a, b, 4, 4);
    c := Minus(c, b); c := XorMacro(c, RotNumber(b, 4)); b := Plus(b, a);
    s := Regs(a, b, c);
  }

  /** The macro final, statement by statement. */
  method FinalMacro(r: Regs) returns (s: Regs)
    ensures s == Final(r)
  {
    hide XorMacro, RotNumber, Rot, FinalLine, Minus;
    var a, b, c := r.a, r.b, r.c;
    FinalRotations(b);
    FinalLineIs(c, b, 14, 14);
    c := XorMacro(c, b); c := Minus(c, RotNumber(b, 14));
    FinalRotations(c);
    FinalLineIs(a, c, 11, 11);
    a := XorMacro(a, c); a := Minus(a, RotNumber(c, 11));
    FinalRotations(a);
    FinalLineIs(b, a, 25, 25);
    b := XorMacro(b, a); b := Minus(b, RotNumber(a, 25));
    FinalRotations(b);
    FinalLineIs(c, b, 16, 16);
    c := XorMacro(c, b); c := Minus(c, RotNumber(b, 16));
    FinalRotations(c);
    FinalLineIs(a, c, 4, 4);
    a := XorMacro(a, c); a := Minus(a, RotNumber(c, 4));
    FinalRotations(a);
    FinalLineIs(b, a, 14, 14);
    b := XorMacro(b, a); b := Minus(b, RotNumber(a, 14));
    FinalRotations(b);
    FinalLineIs(c, b, 24, 24);
    c := XorMacro(c, b); c := Minus(c, RotNumber(b, 24));
    s := Regs(a, b, c);
  }

  // ---------- the rotation and the exclusive or, bit by bit ----------

  /** Bit `i` of a number. */
  function Bit(n: nat, i: nat): nat {
    if i == 0 then n % 2 else Bit(n / 2, i - 1)
  }

  lemma {:induction false} BitOfXor(x: nat, y: nat, n: nat, i: nat)
    requires i < n
    ensures Bit(XorBits(x, y, n), i) == (Bit(x, i) + Bit(y, i)) % 2
  {
    hide XorBits;
    var low, high := (x % 2 + y % 2) % 2, XorBits(x / 2, y / 2, n - 1);
    XorBitsStep(x, y, n);
    BitAndRest(low, high);
    if i > 0 { BitOfXor(x / 2, y / 2, n - 1, i - 1); }
  }

  /** With the low `k` places of one operand empty and the other below them, or is plus. */
  lemma {:induction false} OrIsPlus(u: nat, w: nat, k: nat, n: nat)
    requires w < Pow2(k) && Pow2(k) * u + w < Pow2(n)
    ensures OrBits(Pow2(k) * u, w, n) == Pow2(k) * u + w
    decreases n
  {
    if n == 0 {
      PowPositive(k);
    } else if k == 0 {
      OrWithNothing(u, n);
    } else {
      hide OrBits, Pow2;
      PowStep(k);
      PowStep(n);
      var h := Pow2(k - 1) * u;
      assert Pow2(k) * u == 2 * h;
      OrBitsStep(2 * h, w, n);
      OrIsPlus(u, w / 2, k - 1, n - 1);
    }
  }

  lemma {:induction false} OrWithNothing(u: nat, n: nat)
    requires u < Pow2(n)
    ensures OrBits(u, 0, n) == u
  {
    if n > 0 {
      hide OrBits, Pow2;
      HalfBelow(u, n);
      OrBitsStep(u, 0, n);
      OrWithNothing(u / 2, n - 1);
    }
  }

  lemma {:induction false} PowSum(a: nat, b: nat)
    ensures Pow2(a) * Pow2(b) == Pow2(a + b)
    decreases b
  {
    if b > 0 {
      PowSum(a, b - 1);
      assert Pow2(a) * Pow2(b) == 2 * (Pow2(a) * Pow2(b - 1));
    }
  }

  lemma {:induction false} ShrIsQuotient(x: u32, k: nat)
    ensures Pow2(k) > 0 && Shr(x, k) == x / Pow2(k)
    decreases k
  {
    PowPositive(k);
    if k > 0 {
      hide Pow2;
      ShrIsQuotient(x / 2, k - 1);
      PowStep(k);
      PowPositive(k - 1);
      QuotientTwice(x, Pow2(k - 1));
    } else {
      PowZero();
    }
  }

  lemma QuotientTwice(n: nat, m: nat)
    requires m > 0
    ensures n / (2 * m) == (n / 2) / m
  {
    var q, r := n / 2 / m, (n / 2) % m;
    Division(n / 2, m);
    Division(n, 2);
    assert n == (2 * m) * q + (2 * r + n % 2);
    QuotientIs(n, 2 * m, q, 2 * r + n % 2);
  }

  lemma QuotientIs(n: nat, m: nat, q: nat, r: nat)
    requires r < m && n == m * q + r
    ensures n / m == q
  {
    var q' := n / m;
    Division(n, m);
    if q' < q { Times(m, q', q); }
    if q < q' { Times(m, q, q'); }
  }

  /** A rotation moves the high `k` digits below the others: the product with 2^k, and what it
      pushes out at the top. */
  lemma RotIs(x: u32, k: nat)
    requires 0 < k < 32
    ensures Pow2(32 - k) > 0 && Rot(x, k) == (x * Pow2(k)) % 0x1_0000_0000 + x / Pow2(32 - k)
  {
    hide Pow2, OrBits;
    var p, q := Pow2(k), Pow2(32 - k);
    PowPositive(32 - k);
    PowPositive(k);
    Pow32();
    PowSum(k, 32 - k);
    ShrIsQuotient(x, 32 - k);
    Division(x, q);
    var u, w := x % q, x / q;
    ProductRest(x, p, q);
    assert Shl(x, k) == p * u;
    Fitting(x, p, q);
    OrIsPlus(u, w, k, 32);
  }

  lemma ProductRest(x: nat, p: nat, q: nat)
    requires q > 0 && p * q == 0x1_0000_0000
    ensures (x * p) % 0x1_0000_0000 == p * (x % q)
  {
    var u, w := x % q, x / q;
    Division(x, q);
    assert x * p == (p * q) * w + p * u;
    Times(p, u, q);
    Quotient(x * p, 0x1_0000_0000, w, p * u);
  }

  lemma Fitting(x: u32, p: nat, q: nat)
    requires q > 0 && p * q == 0x1_0000_0000
    ensures x / q < p && p * (x % q) + x / q < 0x1_0000_0000
  {
    Division(x, q);
    var w := x / q;
    if w >= p { TimesMore(q, p, w); }
    Times(p, x % q, q);
  }

  lemma TimesMore(m: nat, a: nat, b: nat)
    requires a <= b
    ensures m * b >= m * a
  {
    if a < b { Times(m, a, b); }
  }

  lemma {:induction false} BitOfSum(u: nat, w: nat, k: nat, i: nat)
    requires w < Pow2(k)
    ensures Bit(Pow2(k) * u + w, i) == if i < k then Bit(w, i) else Bit(u, i - k)
    decreases k
  {
    if k > 0 {
      hide Pow2;
      PowStep(k);
      HalfBelow(w, k);
      var h := Pow2(k - 1) * u;
      BitAndRest(w % 2, h + w / 2);
      assert Pow2(k) * u + w == w % 2 + 2 * (h + w / 2);
      if i > 0 { BitOfSum(u, w / 2, k - 1, i - 1); }
    } else {
      PowZero();
    }
  }

  /** Bit `i` of a register is bit `(i + k) % 32` of its rotation by `k`. */
  lemma BitOfRot(x: u32, k: nat, i: nat)
    requires 0 < k < 32 && i < 32
    ensures Bit(Rot(x, k), (i + k) % 32) == Bit(x, i)
  {
    hide Pow2, Rot, Bit;
    var p, q := Pow2(k), Pow2(32 - k);
    RotIs(x, k);
    Pow32();
    PowSum(k, 32 - k);
    ProductRest(x, p, q);
    Fitting(x, p, q);
    Division(x, q);
    BitOfSum(x % q, x / q, k, (i + k) % 32);
    BitOfSum(x / q, x % q, 32 - k, i);
  }
}
