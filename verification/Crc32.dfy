/** CRC-32: the table-driven loop against bit-at-a-time division, and what the code detects. */
module Crc32 {
  import opened Bytes

  const Poly: bv32 := 0xEDB88320

  function Xor(a: bv32, b: bv32): bv32 { a ^ b }

  // ---------- the definition: one message bit at a time ----------

  /** One step of the reflected shift register. */
  function Shift(r: bv32): bv32 {
    if r & 1 == 1 then Xor(r >> 1, Poly) else r >> 1
  }

  /** Divides in the `n` low bits of `b`, the lowest first, as in section 8 of RFC 1952. */
  function DivideBits(r: bv32, b: bv32, n: nat): bv32
    decreases n
  {
    if n == 0 then r else DivideBits(Shift(Xor(r, b & 1)), b >> 1, n - 1)
  }

  function Divide(r: bv32, data: seq<bv8>): bv32
    decreases |data|
  {
    if data == [] then r else Divide(DivideBits(r, data[0] as bv32, 8), data[1..])
  }

  /** The CRC of RFC 1952: the register starts at all ones and is complemented at the end. */
  function Crc(data: seq<bv8>): bv32 {
    Xor(Divide(0xFFFFFFFF, data), 0xFFFFFFFF)
  }

  // ---------- linearity of the register step ----------

  lemma XorIs(a: bv32, b: bv32)
    ensures Xor(a, b) == a ^ b
  {
  }

  lemma HalfOfXor(r: bv32, x: bv32)
    ensures (r ^ x) >> 1 == (r >> 1) ^ (x >> 1)
  {
  }

  lemma LowXor(r: bv32, x: bv32)
    ensures Xor(r, x) & 1 == 1 <==> (r & 1 == 1) != (x & 1 == 1)
  {
  }

  lemma ShiftXor(r: bv32, x: bv32)
    ensures Xor(r, x) >> 1 == Xor(r >> 1, x >> 1)
  {
    hide *;
    XorIs(r, x);
    XorIs(r >> 1, x >> 1);
    HalfOfXor(r, x);
  }

  lemma XorAssociates(x: bv32, y: bv32, z: bv32)
    ensures Xor(Xor(x, y), z) == Xor(x, Xor(y, z))
  {
  }

  lemma XorCommutes(x: bv32, y: bv32)
    ensures Xor(x, y) == Xor(y, x)
  {
  }

  lemma XorZero(x: bv32, y: bv32)
    ensures Xor(x, 0) == x && Xor(0, x) == x
    ensures Xor(x, y) == 0 <==> x == y
  {
    XorIs(x, y);
    EqualBits(x, y);
  }

  lemma EqualBits(x: bv32, y: bv32)
    ensures x ^ y == 0 <==> x == y
  {
  }

  lemma XorLaws(a: bv32, b: bv32, p: bv32)
    ensures Xor(Xor(a, p), b) == Xor(Xor(a, b), p)
    ensures Xor(a, Xor(b, p)) == Xor(Xor(a, b), p)
    ensures Xor(Xor(a, p), Xor(b, p)) == Xor(a, b)
  {
    hide *;
    XorAssociates(a, p, b);
    XorAssociates(a, b, p);
    XorCommutes(p, b);
    XorAssociates(a, p, Xor(b, p));
    XorAssociates(p, p, b);
    XorZero(p, p);
    XorZero(b, b);
  }

  lemma ShiftLinear(r: bv32, x: bv32)
    ensures Shift(Xor(r, x)) == Xor(Shift(r), Shift(x))
  {
    hide Xor;
    LowXor(r, x);
    ShiftXor(r, x);
    XorLaws(r >> 1, x >> 1, Poly);
  }

  function ShiftN(r: bv32, n: nat): bv32
    decreases n
  {
    if n == 0 then r else ShiftN(Shift(r), n - 1)
  }

  /** Any number of register steps is linear over exclusive or. */
  lemma {:induction false} ShiftNLinear(r: bv32, x: bv32, n: nat)
    ensures ShiftN(Xor(r, x), n) == Xor(ShiftN(r, n), ShiftN(x, n))
    decreases n
  {
    hide Xor, Shift;
    if n > 0 {
      ShiftLinear(r, x);
      ShiftNLinear(Shift(r), Shift(x), n - 1);
    }
  }

  // ---------- the table, in rows of sixteen ----------

  function Row0(j: bv8): bv32 {
    match j
    case 0 => 0x00000000 case 1 => 0x77073096 case 2 => 0xEE0E612C case 3 => 0x990951BA
    case 4 => 0x076DC419 case 5 => 0x706AF48F case 6 => 0xE963A535 case 7 => 0x9E6495A3
    case 8 => 0x0EDB8832 case 9 => 0x79DCB8A4 case 10 => 0xE0D5E91E case 11 => 0x97D2D988
    case 12 => 0x09B64C2B case 13 => 0x7EB17CBD case 14 => 0xE7B82D07 case _ => 0x90BF1D91
  }

  function Row1(j: bv8): bv32 {
    match j
    case 0 => 0x1DB71064 case 1 => 0x6AB020F2 case 2 => 0xF3B97148 case 3 => 0x84BE41DE
    case 4 => 0x1ADAD47D case 5 => 0x6DDDE4EB case 6 => 0xF4D4B551 case 7 => 0x83D385C7
    case 8 => 0x136C9856 case 9 => 0x646BA8C0 case 10 => 0xFD62F97A case 11 => 0x8A65C9EC
    case 12 => 0x14015C4F case 13 => 0x63066CD9 case 14 => 0xFA0F3D63 case _ => 0x8D080DF5
  }

  function Row2(j: bv8): bv32 {
    match j
    case 0 => 0x3B6E20C8 case 1 => 0x4C69105E case 2 => 0xD56041E4 case 3 => 0xA2677172
    case 4 => 0x3C03E4D1 case 5 => 0x4B04D447 case 6 => 0xD20D85FD case 7 => 0xA50AB56B
    case 8 => 0x35B5A8FA case 9 => 0x42B2986C case 10 => 0xDBBBC9D6 case 11 => 0xACBCF940
    case 12 => 0x32D86CE3 case 13 => 0x45DF5C75 case 14 => 0xDCD60DCF case _ => 0xABD13D59
  }

  function Row3(j: bv8): bv32 {
    match j
    case 0 => 0x26D930AC case 1 => 0x51DE003A case 2 => 0xC8D75180 case 3 => 0xBFD06116
    case 4 => 0x21B4F4B5 case 5 => 0x56B3C423 case 6 => 0xCFBA9599 case 7 => 0xB8BDA50F
    case 8 => 0x2802B89E case 9 => 0x5F058808 case 10 => 0xC60CD9B2 case 11 => 0xB10BE924
    case 12 => 0x2F6F7C87 case 13 => 0x58684C11 case 14 => 0xC1611DAB case _ => 0xB6662D3D
  }

  function Row4(j: bv8): bv32 {
    match j
    case 0 => 0x76DC4190 case 1 => 0x01DB7106 case 2 => 0x98D220BC case 3 => 0xEFD5102A
    case 4 => 0x71B18589 case 5 => 0x06B6B51F case 6 => 0x9FBFE4A5 case 7 => 0xE8B8D433
    case 8 => 0x7807C9A2 case 9 => 0x0F00F934 case 10 => 0x9609A88E case 11 => 0xE10E9818
    case 12 => 0x7F6A0DBB case 13 => 0x086D3D2D case 14 => 0x91646C97 case _ => 0xE6635C01
  }

  function Row5(j: bv8): bv32 {
    match j
    case 0 => 0x6B6B51F4 case 1 => 0x1C6C6162 case 2 => 0x856530D8 case 3 => 0xF262004E
    case 4 => 0x6C0695ED case 5 => 0x1B01A57B case 6 => 0x8208F4C1 case 7 => 0xF50FC457
    case 8 => 0x65B0D9C6 case 9 => 0x12B7E950 case 10 => 0x8BBEB8EA case 11 => 0xFCB9887C
    case 12 => 0x62DD1DDF case 13 => 0x15DA2D49 case 14 => 0x8CD37CF3 case _ => 0xFBD44C65
  }

  function Row6(j: bv8): bv32 {
    match j
    case 0 => 0x4DB26158 case 1 => 0x3AB551CE case 2 => 0xA3BC0074 case 3 => 0xD4BB30E2
    case 4 => 0x4ADFA541 case 5 => 0x3DD895D7 case 6 => 0xA4D1C46D case 7 => 0xD3D6F4FB
    case 8 => 0x4369E96A case 9 => 0x346ED9FC case 10 => 0xAD678846 case 11 => 0xDA60B8D0
    case 12 => 0x44042D73 case 13 => 0x33031DE5 case 14 => 0xAA0A4C5F case _ => 0xDD0D7CC9
  }

  function Row7(j: bv8): bv32 {
    match j
    case 0 => 0x5005713C case 1 => 0x270241AA case 2 => 0xBE0B1010 case 3 => 0xC90C2086
    case 4 => 0x5768B525 case 5 => 0x206F85B3 case 6 => 0xB966D409 case 7 => 0xCE61E49F
    case 8 => 0x5EDEF90E case 9 => 0x29D9C998 case 10 => 0xB0D09822 case 11 => 0xC7D7A8B4
    case 12 => 0x59B33D17 case 13 => 0x2EB40D81 case 14 => 0xB7BD5C3B case _ => 0xC0BA6CAD
  }

  function Row8(j: bv8): bv32 {
    match j
    case 0 => 0xEDB88320 case 1 => 0x9ABFB3B6 case 2 => 0x03B6E20C case 3 => 0x74B1D29A
    case 4 => 0xEAD54739 case 5 => 0x9DD277AF case 6 => 0x04DB2615 case 7 => 0x73DC1683
    case 8 => 0xE3630B12 case 9 => 0x94643B84 case 10 => 0x0D6D6A3E case 11 => 0x7A6A5AA8
    case 12 => 0xE40ECF0B case 13 => 0x9309FF9D case 14 => 0x0A00AE27 case _ => 0x7D079EB1
  }

  function Row9(j: bv8): bv32 {
    match j
    case 0 => 0xF00F9344 case 1 => 0x8708A3D2 case 2 => 0x1E01F268 case 3 => 0x6906C2FE
    case 4 => 0xF762575D case 5 => 0x806567CB case 6 => 0x196C3671 case 7 => 0x6E6B06E7
    case 8 => 0xFED41B76 case 9 => 0x89D32BE0 case 10 => 0x10DA7A5A case 11 => 0x67DD4ACC
    case 12 => 0xF9B9DF6F case 13 => 0x8EBEEFF9 case 14 => 0x17B7BE43 case _ => 0x60B08ED5
  }

  function Row10(j: bv8): bv32 {
    match j
    case 0 => 0xD6D6A3E8 case 1 => 0xA1D1937E case 2 => 0x38D8C2C4 case 3 => 0x4FDFF252
    case 4 => 0xD1BB67F1 case 5 => 0xA6BC5767 case 6 => 0x3FB506DD case 7 => 0x48B2364B
    case 8 => 0xD80D2BDA case 9 => 0xAF0A1B4C case 10 => 0x36034AF6 case 11 => 0x41047A60
    case 12 => 0xDF60EFC3 case 13 => 0xA867DF55 case 14 => 0x316E8EEF case _ => 0x4669BE79
  }

  function Row11(j: bv8): bv32 {
    match j
    case 0 => 0xCB61B38C case 1 => 0xBC66831A case 2 => 0x256FD2A0 case 3 => 0x5268E236
    case 4 => 0xCC0C7795 case 5 => 0xBB0B4703 case 6 => 0x220216B9 case 7 => 0x5505262F
    case 8 => 0xC5BA3BBE case 9 => 0xB2BD0B28 case 10 => 0x2BB45A92 case 11 => 0x5CB36A04
    case 12 => 0xC2D7FFA7 case 13 => 0xB5D0CF31 case 14 => 0x2CD99E8B case _ => 0x5BDEAE1D
  }

  function Row12(j: bv8): bv32 {
    match j
    case 0 => 0x9B64C2B0 case 1 => 0xEC63F226 case 2 => 0x756AA39C case 3 => 0x026D930A
    case 4 => 0x9C0906A9 case 5 => 0xEB0E363F case 6 => 0x72076785 case 7 => 0x05005713
    case 8 => 0x95BF4A82 case 9 => 0xE2B87A14 case 10 => 0x7BB12BAE case 11 => 0x0CB61B38
    case 12 => 0x92D28E9B case 13 => 0xE5D5BE0D case 14 => 0x7CDCEFB7 case _ => 0x0BDBDF21
  }

  function Row13(j: bv8): bv32 {
    match j
    case 0 => 0x86D3D2D4 case 1 => 0xF1D4E242 case 2 => 0x68DDB3F8 case 3 => 0x1FDA836E
    case 4 => 0x81BE16CD case 5 => 0xF6B9265B case 6 => 0x6FB077E1 case 7 => 0x18B74777
    case 8 => 0x88085AE6 case 9 => 0xFF0F6A70 case 10 => 0x66063BCA case 11 => 0x11010B5C
    case 12 => 0x8F659EFF case 13 => 0xF862AE69 case 14 => 0x616BFFD3 case _ => 0x166CCF45
  }

  function Row14(j: bv8): bv32 {
    match j
    case 0 => 0xA00AE278 case 1 => 0xD70DD2EE case 2 => 0x4E048354 case 3 => 0x3903B3C2
    case 4 => 0xA7672661 case 5 => 0xD06016F7 case 6 => 0x4969474D case 7 => 0x3E6E77DB
    case 8 => 0xAED16A4A case 9 => 0xD9D65ADC case 10 => 0x40DF0B66 case 11 => 0x37D83BF0
    case 12 => 0xA9BCAE53 case 13 => 0xDEBB9EC5 case 14 => 0x47B2CF7F case _ => 0x30B5FFE9
  }

  function Row15(j: bv8): bv32 {
    match j
    case 0 => 0xBDBDF21C case 1 => 0xCABAC28A case 2 => 0x53B39330 case 3 => 0x24B4A3A6
    case 4 => 0xBAD03605 case 5 => 0xCDD70693 case 6 => 0x54DE5729 case 7 => 0x23D967BF
    case 8 => 0xB3667A2E case 9 => 0xC4614AB8 case 10 => 0x5D681B02 case 11 => 0x2A6F2B94
    case 12 => 0xB40BBE37 case 13 => 0xC30C8EA1 case 14 => 0x5A05DF1B case _ => 0x2D02EF8D
  }

  /** crc32_tab. */
  function Table(x: bv8): bv32 {
    match x >> 4
    case 0 => Row0(x & 15) case 1 => Row1(x & 15) case 2 => Row2(x & 15) case 3 => Row3(x & 15)
    case 4 => Row4(x & 15) case 5 => Row5(x & 15) case 6 => Row6(x & 15) case 7 => Row7(x & 15)
    case 8 => Row8(x & 15) case 9 => Row9(x & 15) case 10 => Row10(x & 15) case 11 => Row11(x & 15)
    case 12 => Row12(x & 15) case 13 => Row13(x & 15) case 14 => Row14(x & 15) case _ => Row15(x & 15)
  }

  function Steps8(r: bv32): bv32 {
    Shift(Shift(Shift(Shift(Shift(Shift(Shift(Shift(r))))))))
  }

  lemma EightSteps(r: bv32)
    ensures ShiftN(r, 8) == Steps8(r)
  {
    hide Shift;
    assert ShiftN(r, 8) == ShiftN(Shift(Shift(Shift(Shift(r)))), 4);
  }

  // Each row repeats the first one, moved by its own first entry.
  lemma Row1Splits(j: bv8) requires j < 16 ensures Row1(j) == Xor(Row1(0), Row0(j)) {}
  lemma Row2Splits(j: bv8) requires j < 16 ensures Row2(j) == Xor(Row2(0), Row0(j)) {}
  lemma Row3Splits(j: bv8) requires j < 16 ensures Row3(j) == Xor(Row3(0), Row0(j)) {}
  lemma Row4Splits(j: bv8) requires j < 16 ensures Row4(j) == Xor(Row4(0), Row0(j)) {}
  lemma Row5Splits(j: bv8) requires j < 16 ensures Row5(j) == Xor(Row5(0), Row0(j)) {}
  lemma Row6Splits(j: bv8) requires j < 16 ensures Row6(j) == Xor(Row6(0), Row0(j)) {}
  lemma Row7Splits(j: bv8) requires j < 16 ensures Row7(j) == Xor(Row7(0), Row0(j)) {}
  lemma Row8Splits(j: bv8) requires j < 16 ensures Row8(j) == Xor(Row8(0), Row0(j)) {}
  lemma Row9Splits(j: bv8) requires j < 16 ensures Row9(j) == Xor(Row9(0), Row0(j)) {}
  lemma Row10Splits(j: bv8) requires j < 16 ensures Row10(j) == Xor(Row10(0), Row0(j)) {}
  lemma Row11Splits(j: bv8) requires j < 16 ensures Row11(j) == Xor(Row11(0), Row0(j)) {}
  lemma Row12Splits(j: bv8) requires j < 16 ensures Row12(j) == Xor(Row12(0), Row0(j)) {}
  lemma Row13Splits(j: bv8) requires j < 16 ensures Row13(j) == Xor(Row13(0), Row0(j)) {}
  lemma Row14Splits(j: bv8) requires j < 16 ensures Row14(j) == Xor(Row14(0), Row0(j)) {}
  lemma Row15Splits(j: bv8) requires j < 16 ensures Row15(j) == Xor(Row15(0), Row0(j)) {}

  lemma Row1Head() ensures Row1(0) == Steps8(16) {}
  lemma Row2Head() ensures Row2(0) == Steps8(32) {}
  lemma Row3Head() ensures Row3(0) == Steps8(48) {}
  lemma Row4Head() ensures Row4(0) == Steps8(64) {}
  lemma Row5Head() ensures Row5(0) == Steps8(80) {}
  lemma Row6Head() ensures Row6(0) == Steps8(96) {}
  lemma Row7Head() ensures Row7(0) == Steps8(112) {}
  lemma Row8Head() ensures Row8(0) == Steps8(128) {}
  lemma Row9Head() ensures Row9(0) == Steps8(144) {}
  lemma Row10Head() ensures Row10(0) == Steps8(160) {}
  lemma Row11Head() ensures Row11(0) == Steps8(176) {}
  lemma Row12Head() ensures Row12(0) == Steps8(192) {}
  lemma Row13Head() ensures Row13(0) == Steps8(208) {}
  lemma Row14Head() ensures Row14(0) == Steps8(224) {}
  lemma Row15Head() ensures Row15(0) == Steps8(240) {}

  lemma Row0Low(j: bv8) requires j < 8 ensures Row0(j) == Steps8(j as bv32) {}
  lemma Row0High(j: bv8) requires 8 <= j < 16 ensures Row0(j) == Steps8(j as bv32) {}

  lemma Row0Steps(j: bv8)
    requires j < 16
    ensures Row0(j) == ShiftN(j as bv32, 8)
  {
    hide Steps8, Row0, Shift;
    EightSteps(j as bv32);
    if j < 8 { Row0Low(j); } else { Row0High(j); }
  }

  lemma Nibbles(x: bv8, high: bv8)
    requires x >> 4 == high
    ensures x as bv32 == Xor((high as bv32) << 4, (x & 15) as bv32)
    ensures x & 15 < 16
  {
  }

  /** One row: if its first entry is right, all of it is. */
  lemma RowFromHead(x: bv8, high: bv8, base: bv32)
    requires x >> 4 == high && (high as bv32) << 4 == base
    ensures ShiftN(x as bv32, 8) == Xor(Steps8(base), Row0(x & 15))
  {
    hide Xor, Steps8, Shift, ShiftN, Row0;
    Nibbles(x, high);
    Row0Steps(x & 15);
    ShiftNLinear(base, (x & 15) as bv32, 8);
    EightSteps(base);
  }

  lemma TableRows0(x: bv8)
    requires 1 <= x >> 4 < 6
    ensures Table(x) == ShiftN(x as bv32, 8)
  {
    hide Xor, Shift, Steps8, ShiftN, Row0, Row1, Row2, Row3, Row4, Row5, Row6, Row7, Row8, Row9, Row10, Row11, Row12, Row13, Row14, Row15;
    Nibbles(x, x >> 4);
    var k, j := x >> 4, x & 15;
    if k == 1 {
      Row1Splits(j); Row1Head(); RowFromHead(x, 1, 16);
    } else if k == 2 {
      Row2Splits(j); Row2Head(); RowFromHead(x, 2, 32);
    } else if k == 3 {
      Row3Splits(j); Row3Head(); RowFromHead(x, 3, 48);
    } else if k == 4 {
      Row4Splits(j); Row4Head(); RowFromHead(x, 4, 64);
    } else {
      Row5Splits(j); Row5Head(); RowFromHead(x, 5, 80);
    }
  }

  lemma TableRows1(x: bv8)
    requires 6 <= x >> 4 < 11
    ensures Table(x) == ShiftN(x as bv32, 8)
  {
    hide Xor, Shift, Steps8, ShiftN, Row0, Row1, Row2, Row3, Row4, Row5, Row6, Row7, Row8, Row9, Row10, Row11, Row12, Row13, Row14, Row15;
    Nibbles(x, x >> 4);
    var k, j := x >> 4, x & 15;
    if k == 6 {
      Row6Splits(j); Row6Head(); RowFromHead(x, 6, 96);
    } else if k == 7 {
      Row7Splits(j); Row7Head(); RowFromHead(x, 7, 112);
    } else if k == 8 {
      Row8Splits(j); Row8Head(); RowFromHead(x, 8, 128);
    } else if k == 9 {
      Row9Splits(j); Row9Head(); RowFromHead(x, 9, 144);
    } else {
      Row10Splits(j); Row10Head(); RowFromHead(x, 10, 160);
    }
  }

  lemma TableRows2(x: bv8)
    requires 11 <= x >> 4
    ensures Table(x) == ShiftN(x as bv32, 8)
  {
    hide Xor, Shift, Steps8, ShiftN, Row0, Row1, Row2, Row3, Row4, Row5, Row6, Row7, Row8, Row9, Row10, Row11, Row12, Row13, Row14, Row15;
    Nibbles(x, x >> 4);
    var k, j := x >> 4, x & 15;
    if k == 11 {
      Row11Splits(j); Row11Head(); RowFromHead(x, 11, 176);
    } else if k == 12 {
      Row12Splits(j); Row12Head(); RowFromHead(x, 12, 192);
    } else if k == 13 {
      Row13Splits(j); Row13Head(); RowFromHead(x, 13, 208);
    } else if k == 14 {
      Row14Splits(j); Row14Head(); RowFromHead(x, 14, 224);
    } else {
      Row15Splits(j); Row15Head(); RowFromHead(x, 15, 240);
    }
  }

  /** Every entry of the table is eight register steps of its own index. */
  lemma TableIsEightSteps(x: bv8)
    ensures Table(x) == ShiftN(x as bv32, 8)
  {
    if x >> 4 == 0 {
      FirstRow(x);
      Row0Steps(x);
    } else {
      hide *;
      if x >> 4 < 6 {
        TableRows0(x);
      } else if x >> 4 < 11 {
        TableRows1(x);
      } else {
        TableRows2(x);
      }
    }
  }

  lemma FirstRow(x: bv8)
    requires x >> 4 == 0
    ensures x < 16 && Table(x) == Row0(x)
  {
    assert x & 15 == x;
  }

  // ---------- the loop is the division ----------

  function Drop(b: bv32, n: nat): bv32
    decreases n
  {
    if n == 0 then b else Drop(b >> 1, n - 1)
  }

  lemma SplitLowBit(b: bv32)
    ensures ((b >> 1) << 1) & 1 == 0 && ((b >> 1) << 1) >> 1 == b >> 1
    ensures b == Xor((b >> 1) << 1, b & 1)
  {
  }

  lemma FeedBit(r: bv32, b: bv32)
    ensures Shift(Xor(r, b)) == Xor(Shift(Xor(r, b & 1)), b >> 1)
  {
    hide Xor;
    SplitLowBit(b);
    var high := (b >> 1) << 1;
    XorAssociates(r, high, b & 1);
    XorCommutes(high, b & 1);
    XorAssociates(r, b & 1, high);
    ShiftLinear(Xor(r, b & 1), high);
  }

  /** Feeding in `n` bits one at a time is adding them to the register at once and stepping `n` times. */
  lemma {:induction false} BitsAtOnce(r: bv32, b: bv32, n: nat)
    ensures ShiftN(Xor(r, b), n) == Xor(DivideBits(r, b, n), Drop(b, n))
    decreases n
  {
    hide Xor, Shift;
    if n > 0 {
      FeedBit(r, b);
      BitsAtOnce(Shift(Xor(r, b & 1)), b >> 1, n - 1);
    }
  }

  lemma DropByte(b: bv8)
    ensures Drop(b as bv32, 8) == 0
  {
    var x := b as bv32;
    assert Drop(x, 8) == Drop(x >> 1 >> 1 >> 1 >> 1, 4) == x >> 1 >> 1 >> 1 >> 1 >> 1 >> 1 >> 1 >> 1;
  }

  lemma ByteAtOnce(r: bv32, b: bv8)
    ensures DivideBits(r, b as bv32, 8) == ShiftN(Xor(r, b as bv32), 8)
  {
    hide Xor, Shift, ShiftN, DivideBits, Drop;
    BitsAtOnce(r, b as bv32, 8);
    DropByte(b);
    XorZero(DivideBits(r, b as bv32, 8), 0);
  }

  predicate LowClear(x: bv32, n: nat)
    decreases n
  {
    n == 0 || (x & 1 == 0 && LowClear(x >> 1, n - 1))
  }

  lemma {:induction false} EvenSteps(x: bv32, n: nat)
    requires LowClear(x, n)
    ensures ShiftN(x, n) == Drop(x, n)
    decreases n
  {
    hide Xor;
    if n > 0 {
      EvenSteps(x >> 1, n - 1);
    }
  }

  lemma EightBits(x: bv32)
    requires x & 0xFF == 0
    ensures x & 1 == 0 && (x >> 1) & 1 == 0 && (x >> 1 >> 1) & 1 == 0 && (x >> 1 >> 1 >> 1) & 1 == 0
    ensures var y := x >> 1 >> 1 >> 1 >> 1;
            y & 1 == 0 && (y >> 1) & 1 == 0 && (y >> 1 >> 1) & 1 == 0 && (y >> 1 >> 1 >> 1) & 1 == 0
    ensures x >> 8 == x >> 1 >> 1 >> 1 >> 1 >> 1 >> 1 >> 1 >> 1
  {
  }

  /** A register whose low byte is clear just moves down. */
  lemma AlignedSteps(x: bv32)
    requires x & 0xFF == 0
    ensures ShiftN(x, 8) == x >> 8
  {
    hide Xor, Shift, ShiftN;
    EightBits(x);
    var y := x >> 1 >> 1 >> 1 >> 1;
    assert LowClear(y, 4);
    assert LowClear(x, 8);
    EvenSteps(x, 8);
    assert Drop(x, 8) == Drop(y, 4) == y >> 1 >> 1 >> 1 >> 1;
  }

  lemma SplitLowByte(y: bv32)
    ensures y == Xor(((y & 0xFF) as bv8) as bv32, (y >> 8) << 8)
    ensures ((y >> 8) << 8) & 0xFF == 0 && ((y >> 8) << 8) >> 8 == y >> 8
  {
  }

  /** The table does eight steps of a register in one look-up. */
  lemma LookUp(y: bv32)
    ensures Xor(Table((y & 0xFF) as bv8), y >> 8) == ShiftN(y, 8)
  {
    hide Xor, Table, Shift, ShiftN;
    var lo := (y & 0xFF) as bv8;
    SplitLowByte(y);
    TableIsEightSteps(lo);
    ShiftNLinear(lo as bv32, (y >> 8) << 8, 8);
    AlignedSteps((y >> 8) << 8);
  }

  /** The body of the loop of crc32_calc. */
  function Update(r: bv32, b: bv8): bv32 {
    Xor(Table((Xor(r, b as bv32) & 0xFF) as bv8), r >> 8)
  }

  lemma ByteBelow(r: bv32, b: bv8)
    ensures Xor(r, b as bv32) >> 8 == r >> 8
  {
  }

  lemma UpdateIsDivision(r: bv32, b: bv8)
    ensures Update(r, b) == DivideBits(r, b as bv32, 8)
  {
    hide Xor, Table, Shift, ShiftN, DivideBits;
    ByteBelow(r, b);
    LookUp(Xor(r, b as bv32));
    ByteAtOnce(r, b);
  }

  lemma {:induction false} DivideAppend(r: bv32, a: seq<bv8>, b: seq<bv8>)
    ensures Divide(r, a + b) == Divide(Divide(r, a), b)
    decreases |a|
  {
    hide DivideBits;
    if a == [] {
      assert a + b == b;
    } else {
      assert (a + b)[1..] == a[1..] + b;
      DivideAppend(DivideBits(r, a[0] as bv32, 8), a[1..], b);
    }
  }

  lemma DivideNext(r: bv32, a: seq<bv8>, b: bv8)
    ensures Divide(r, a + [b]) == Update(Divide(r, a), b)
  {
    hide DivideBits, Update;
    DivideAppend(r, a, [b]);
    UpdateIsDivision(Divide(r, a), b);
    assert Divide(Divide(r, a), [b]) == Divide(DivideBits(Divide(r, a), b as bv32, 8), []);
  }

  lemma CrcIs(data: seq<bv8>)
    ensures Crc(data) == Xor(Divide(0xFFFFFFFF, data), 0xFFFFFFFF)
  {
    hide Xor, Divide;
  }

  /** crc32_calc. */
  method Crc32Calc(buf: array<bv8>) returns (crc: bv32)
    ensures crc == Crc(buf[..])
  {
    crc := 0xFFFFFFFF;
    var p := 0;
    assert crc == Divide(0xFFFFFFFF, buf[..p]);
    hide *;
    while p < buf.Length
      invariant 0 <= p <= buf.Length
      invariant crc == Divide(0xFFFFFFFF, buf[..p])
    {
      assert buf[..p + 1] == buf[..p] + [buf[p]];
      DivideNext(0xFFFFFFFF, buf[..p], buf[p]);
      crc := Update(crc, buf[p]);
      p := p + 1;
    }
    assert buf[..p] == buf[..];
    CrcIs(buf[..]);
    crc := Xor(crc, 0xFFFFFFFF);
  }

  // ---------- the check value ----------

  lemma Digit1() ensures Update(0xFFFFFFFF, 0x31) == 0x7C231048 {}
  lemma Digit2() ensures Update(0x7C231048, 0x32) == 0xB0ACBB32 {}
  lemma Digit3() ensures Update(0xB0ACBB32, 0x33) == 0x77B79C2D {}
  lemma Digit4() ensures Update(0x77B79C2D, 0x34) == 0x641C1F5C {}
  lemma Digit5() ensures Update(0x641C1F5C, 0x35) == 0x340AC5E3 {}
  lemma Digit6() ensures Update(0x340AC5E3, 0x36) == 0xF68D2C9E {}
  lemma Digit7() ensures Update(0xF68D2C9E, 0x37) == 0xAFFC9660 {}
  lemma Digit8() ensures Update(0xAFFC9660, 0x38) == 0x651F2550 {}
  lemma Digit9() ensures Update(0x651F2550, 0x39) == 0x340BC6D9 {}

  lemma DivideFirst(r: bv32, data: seq<bv8>)
    requires data != []
    ensures Divide(r, data) == Divide(Update(r, data[0]), data[1..])
  {
    hide Update, DivideBits;
    UpdateIsDivision(r, data[0]);
  }

  /** The CRC of the digits 1 to 9 is the check value that goes with CRC-32. */
  lemma CheckValue()
    ensures Crc([0x31, 0x32, 0x33, 0x34, 0x35, 0x36, 0x37, 0x38, 0x39]) == 0xCBF43926
  {
    hide *;
    var d: seq<bv8> := [0x31, 0x32, 0x33, 0x34, 0x35, 0x36, 0x37, 0x38, 0x39];
    Digit1(); Digit2(); Digit3(); Digit4(); Digit5(); Digit6(); Digit7(); Digit8(); Digit9();
    DivideFirst(0xFFFFFFFF, d[0..]);
    DivideFirst(0x7C231048, d[1..]);
    DivideFirst(0xB0ACBB32, d[2..]);
    DivideFirst(0x77B79C2D, d[3..]);
    DivideFirst(0x641C1F5C, d[4..]);
    DivideFirst(0x340AC5E3, d[5..]);
    DivideFirst(0xF68D2C9E, d[6..]);
    DivideFirst(0xAFFC9660, d[7..]);
    DivideFirst(0x651F2550, d[8..]);
    assert d[0..] == d && d[9..] == [];
    DivideNothing(0x340BC6D9);
    CrcIs(d);
    XorIs(0x340BC6D9, 0xFFFFFFFF);
  }

  lemma DivideNothing(r: bv32)
    ensures Divide(r, []) == r
  {
  }

  // ---------- what the code detects ----------

  lemma ShiftOnlyZeroToZero(x: bv32)
    requires Shift(x) == 0
    ensures x == 0
  {
    assert (x >> 1) & 0x8000_0000 == 0;
  }

  lemma ShiftInjective(x: bv32, y: bv32)
    requires Shift(x) == Shift(y)
    ensures x == y
  {
    hide Xor, Shift;
    ShiftLinear(x, y);
    XorZero(Shift(x), Shift(y));
    ShiftOnlyZeroToZero(Xor(x, y));
    XorZero(x, y);
  }

  /** Register steps lose nothing: they are invertible. */
  lemma {:induction false} StepsInjective(x: bv32, y: bv32, n: nat)
    requires ShiftN(x, n) == ShiftN(y, n)
    ensures x == y
    decreases n
  {
    hide Shift;
    if n > 0 {
      StepsInjective(Shift(x), Shift(y), n - 1);
      ShiftInjective(x, y);
    }
  }

  lemma XorCancels(x: bv32, y: bv32, b: bv32)
    requires Xor(x, b) == Xor(y, b)
    ensures x == y
  {
    hide Xor;
    XorLaws(x, y, b);
    XorZero(Xor(x, b), Xor(y, b));
    XorZero(x, y);
  }

  lemma ByteKeepsDifference(r: bv32, s: bv32, b: bv8)
    requires r != s
    ensures DivideBits(r, b as bv32, 8) != DivideBits(s, b as bv32, 8)
  {
    hide *;
    ByteAtOnce(r, b);
    ByteAtOnce(s, b);
    if DivideBits(r, b as bv32, 8) == DivideBits(s, b as bv32, 8) {
      StepsInjective(Xor(r, b as bv32), Xor(s, b as bv32), 8);
      XorCancels(r, s, b as bv32);
    }
  }

  /** Different registers stay different over the same bytes. */
  lemma {:induction false} DifferenceStays(r: bv32, s: bv32, data: seq<bv8>)
    requires r != s
    ensures Divide(r, data) != Divide(s, data)
    decreases |data|
  {
    hide DivideBits;
    if data != [] {
      ByteKeepsDifference(r, s, data[0]);
      DifferenceStays(DivideBits(r, data[0] as bv32, 8), DivideBits(s, data[0] as bv32, 8), data[1..]);
    }
  }

  function Cons(b: bv8, w: bv32): bv32 {
    Xor(b as bv32, w << 8)
  }

  /** Up to four bytes as one little-endian register value. */
  function Word(data: seq<bv8>): bv32
    decreases |data|
  {
    if data == [] then 0 else Cons(data[0], Word(data[1..]))
  }

  predicate Fits(w: bv32, n: nat) {
    w <= (if n == 0 then 0 else if n == 1 then 0xFF else if n == 2 then 0xFFFF else 0xFFFFFF)
  }

  lemma ConsFits(b: bv8, w: bv32, n: nat)
    requires n < 3 && Fits(w, n)
    ensures Fits(Cons(b, w), n + 1)
  {
  }

  lemma FitsMore(w: bv32, n: nat)
    requires n <= 3 && Fits(w, n)
    ensures w <= 0xFFFFFF
  {
  }

  lemma {:induction false} WordFits(data: seq<bv8>)
    requires |data| <= 3
    ensures Fits(Word(data), |data|)
    decreases |data|
  {
    if data != [] {
      hide Cons, Fits;
      WordFits(data[1..]);
      ConsFits(data[0], Word(data[1..]), |data| - 1);
    }
  }

  lemma FirstByte(b: bv8, w: bv32)
    ensures (Cons(b, w) & 0xFF) as bv8 == b
  {
  }

  lemma RestBytes(b: bv8, w: bv32)
    requires w <= 0xFFFFFF
    ensures Cons(b, w) >> 8 == w
  {
  }

  lemma ConsInjective(b: bv8, w: bv32, b': bv8, w': bv32)
    requires w <= 0xFFFFFF && w' <= 0xFFFFFF && Cons(b, w) == Cons(b', w')
    ensures b == b' && w == w'
  {
    hide Cons;
    FirstByte(b, w); FirstByte(b', w');
    RestBytes(b, w); RestBytes(b', w');
  }

  lemma {:induction false} WordInjective(v: seq<bv8>, w: seq<bv8>)
    requires |v| == |w| <= 4 && Word(v) == Word(w)
    ensures v == w
    decreases |v|
  {
    if v != [] {
      hide Cons, Fits;
      WordFits(v[1..]);
      WordFits(w[1..]);
      FitsMore(Word(v[1..]), |v| - 1);
      FitsMore(Word(w[1..]), |v| - 1);
      ConsInjective(v[0], Word(v[1..]), w[0], Word(w[1..]));
      WordInjective(v[1..], w[1..]);
      assert v == [v[0]] + v[1..] && w == [w[0]] + w[1..];
    }
  }

  lemma MoveUp(w: bv32)
    requires w <= 0xFFFFFF
    ensures (w << 8) & 0xFF == 0 && (w << 8) >> 8 == w
  {
  }

  /** Later bytes may be added before the first one is stepped through. */
  lemma AddEarly(r: bv32, b: bv8, w: bv32)
    requires w <= 0xFFFFFF
    ensures Xor(ShiftN(Xor(r, b as bv32), 8), w) == ShiftN(Xor(r, Cons(b, w)), 8)
  {
    hide Xor, Shift, ShiftN;
    MoveUp(w);
    ShiftNLinear(Xor(r, b as bv32), w << 8, 8);
    AlignedSteps(w << 8);
    XorAssociates(r, b as bv32, w << 8);
  }

  lemma {:induction false} StepsAdd(r: bv32, m: nat, n: nat)
    ensures ShiftN(r, m + n) == ShiftN(ShiftN(r, m), n)
    decreases m
  {
    hide Shift;
    if m > 0 {
      StepsAdd(Shift(r), m - 1, n);
    }
  }

  lemma FirstOf(r: bv32, data: seq<bv8>)
    requires data != []
    ensures Divide(r, data) == Divide(DivideBits(r, data[0] as bv32, 8), data[1..])
    ensures Word(data) == Cons(data[0], Word(data[1..]))
  {
  }

  /** Up to four bytes act as one word added to the register before all the steps. */
  lemma {:induction false} BytesAtOnce(r: bv32, data: seq<bv8>)
    requires |data| <= 4
    ensures Divide(r, data) == ShiftN(Xor(r, Word(data)), 8 * |data|)
    decreases |data|
  {
    hide Xor, Shift, ShiftN, DivideBits, Divide, Word, Cons, Fits;
    if data == [] {
      NoBytes(r);
    } else {
      var n := |data| - 1;
      var rest := Word(data[1..]);
      WordFits(data[1..]);
      FitsMore(rest, n);
      FirstOf(r, data);
      BytesAtOnce(DivideBits(r, data[0] as bv32, 8), data[1..]);
      OneAndRest(r, data[0], rest, 8 * n);
      assert 8 * |data| == 8 + 8 * n;
    }
  }

  lemma NoBytes(r: bv32)
    ensures Divide(r, []) == ShiftN(Xor(r, Word([])), 0)
  {
    hide Xor;
    XorZero(r, 0);
  }

  lemma OneAndRest(r: bv32, b: bv8, rest: bv32, n: nat)
    requires rest <= 0xFFFFFF
    ensures ShiftN(Xor(DivideBits(r, b as bv32, 8), rest), n) == ShiftN(Xor(r, Cons(b, rest)), 8 + n)
  {
    hide Xor, Shift, ShiftN, DivideBits, Cons;
    ByteAtOnce(r, b);
    AddEarly(r, b, rest);
    StepsAdd(Xor(r, Cons(b, rest)), 8, n);
  }

  lemma WindowDetected(r: bv32, v: seq<bv8>, w: seq<bv8>)
    requires |v| == |w| <= 4 && v != w
    ensures Divide(r, v) != Divide(r, w)
  {
    hide Xor, Shift, ShiftN, Word;
    BytesAtOnce(r, v);
    BytesAtOnce(r, w);
    if Divide(r, v) == Divide(r, w) {
      StepsInjective(Xor(r, Word(v)), Xor(r, Word(w)), 8 * |v|);
      XorCommutes(r, Word(v));
      XorCommutes(r, Word(w));
      XorCancels(Word(v), Word(w), r);
      WordInjective(v, w);
    }
  }

  /** Any two messages that differ only within four consecutive bytes have different CRCs. */
  lemma BurstDetected(pre: seq<bv8>, v: seq<bv8>, w: seq<bv8>, post: seq<bv8>)
    requires |v| == |w| <= 4 && v != w
    ensures Crc(pre + v + post) != Crc(pre + w + post)
  {
    hide Xor;
    var r := Divide(0xFFFFFFFF, pre);
    WindowDetected(r, v, w);
    DifferenceStays(Divide(r, v), Divide(r, w), post);
    DivideAppend(0xFFFFFFFF, pre, v);
    DivideAppend(0xFFFFFFFF, pre, w);
    DivideAppend(0xFFFFFFFF, pre + v, post);
    DivideAppend(0xFFFFFFFF, pre + w, post);
    if Crc(pre + v + post) == Crc(pre + w + post) {
      XorCancels(Divide(0xFFFFFFFF, pre + v + post), Divide(0xFFFFFFFF, pre + w + post), 0xFFFFFFFF);
    }
  }

  // ---------- checksums of byte strings ----------

  function Push(x: bv8, bit: nat): bv8 {
    (x << 1) | (if bit == 1 then 1 else 0)
  }

  /** The low `width` binary digits of a number. */
  function BitsOf(n: nat, width: nat): bv8 {
    if width == 0 then 0 else Push(BitsOf(n / 2, width - 1), n % 2)
  }

  /** The number that `width` binary digits stand for. */
  function NumberOf(b: bv8, width: nat): nat {
    if width == 0 then 0 else (if b & 1 == 1 then 1 else 0) + 2 * NumberOf(b >> 1, width - 1)
  }

  predicate Narrow(x: bv8, width: nat) {
    x <= (if width == 0 then 0 else if width == 1 then 1 else if width == 2 then 3 else if width == 3 then 7
          else if width == 4 then 15 else if width == 5 then 31 else if width == 6 then 63 else if width == 7 then 127 else 255)
  }

  lemma PushNarrow(x: bv8, bit: nat, width: nat)
    requires width < 8 && Narrow(x, width) && bit < 2
    ensures Narrow(Push(x, bit), width + 1)
    ensures Push(x, bit) >> 1 == x && (Push(x, bit) & 1 == 1 <==> bit == 1)
  {
  }

  lemma {:induction false} BitsRoundTrip(n: nat, width: nat)
    requires width <= 8 && n < PowerBelow(width)
    ensures Narrow(BitsOf(n, width), width) && NumberOf(BitsOf(n, width), width) == n
  {
    hide Push, Narrow;
    if width > 0 {
      PowerSteps(width);
      BitsRoundTrip(n / 2, width - 1);
      PushNarrow(BitsOf(n / 2, width - 1), n % 2, width - 1);
    } else {
      NoBits();
    }
  }

  function PowerBelow(width: nat): nat {
    if width == 0 then 1 else 2 * PowerBelow(width - 1)
  }

  lemma PowerSteps(width: nat)
    requires 0 < width <= 8
    ensures PowerBelow(8) == 256 && PowerBelow(width) == 2 * PowerBelow(width - 1)
  {
    assert PowerBelow(4) == 16;
  }

  lemma NoBits()
    ensures Narrow(0, 0)
  {
  }

  /** A byte as its eight bits. */
  function ToBits(n: byte): bv8 {
    BitsOf(n, 8)
  }

  lemma SameByte(n: byte)
    ensures NumberOf(ToBits(n), 8) == n
  {
    PowerSteps(8);
    BitsRoundTrip(n, 8);
  }

  /** A register as the number it holds. */
  function ToNumber(w: bv32): (n: u32)
    ensures n as bv32 == w
  {
    w as u32
  }

  function Message(data: seq<byte>): (r: seq<bv8>)
    ensures |r| == |data| && forall i :: 0 <= i < |data| ==> r[i] == ToBits(data[i])
  {
    seq(|data|, i requires 0 <= i < |data| => ToBits(data[i]))
  }

  /** The CRC of a byte string, as the integer stored beside it. */
  function Checksum(data: seq<byte>): u32 {
    ToNumber(Crc(Message(data)))
  }

  lemma MessageInjective(v: seq<byte>, w: seq<byte>)
    requires Message(v) == Message(w)
    ensures v == w
  {
    hide ToBits, Message;
    assert |v| == |Message(v)| == |Message(w)| == |w|;
    forall i | 0 <= i < |v|
      ensures v[i] == w[i]
    {
      assert Message(v)[i] == Message(w)[i];
      SameByte(v[i]);
      SameByte(w[i]);
    }
  }

  lemma MessageConcat(v: seq<byte>, w: seq<byte>)
    ensures Message(v + w) == Message(v) + Message(w)
  {
    hide ToBits;
  }

  /** The checksums that the store and the journal keep tell apart any two byte strings that differ
      only within four consecutive bytes. */
  lemma ChecksumDetects(pre: seq<byte>, v: seq<byte>, w: seq<byte>, post: seq<byte>)
    requires |v| == |w| <= 4 && v != w
    ensures Checksum(pre + v + post) != Checksum(pre + w + post)
  {
    hide ToBits, ToNumber, Crc, Message;
    MessageConcat(pre + v, post);
    MessageConcat(pre, v);
    MessageConcat(pre + w, post);
    MessageConcat(pre, w);
    if Message(v) == Message(w) { MessageInjective(v, w); }
    BurstDetected(Message(pre), Message(v), Message(w), Message(post));
    assert ToNumber(Crc(Message(pre + v + post))) as bv32 == Crc(Message(pre + v + post));
    assert ToNumber(Crc(Message(pre + w + post))) as bv32 == Crc(Message(pre + w + post));
  }

  lemma DigitBits()
    ensures ToBits(49) == 0x31 && ToBits(50) == 0x32 && ToBits(51) == 0x33 && ToBits(52) == 0x34 && ToBits(53) == 0x35
    ensures ToBits(54) == 0x36 && ToBits(55) == 0x37 && ToBits(56) == 0x38 && ToBits(57) == 0x39
  {
    assert BitsOf(3, 4) == 3;
    assert BitsOf(6, 5) == 6 && BitsOf(7, 5) == 7;
    assert BitsOf(12, 6) == 12 && BitsOf(13, 6) == 13 && BitsOf(14, 6) == 14;
    assert BitsOf(24, 7) == 24 && BitsOf(25, 7) == 25 && BitsOf(26, 7) == 26 && BitsOf(27, 7) == 27 && BitsOf(28, 7) == 28;
  }

  lemma DigitBytes()
    ensures Message([49, 50, 51, 52, 53, 54, 55, 56, 57]) == [0x31, 0x32, 0x33, 0x34, 0x35, 0x36, 0x37, 0x38, 0x39]
  {
    hide ToBits;
    DigitBits();
  }

  lemma CheckAsNumber()
    ensures ToNumber(0xCBF43926) == 0xCBF4_3926
  {
  }

  /** The same for the checksum that is stored. */
  lemma CheckNumber()
    ensures Checksum([49, 50, 51, 52, 53, 54, 55, 56, 57]) == 0xCBF4_3926
  {
    hide Crc, Message, ToNumber;
    CheckValue();
    DigitBytes();
    CheckAsNumber();
  }
}
