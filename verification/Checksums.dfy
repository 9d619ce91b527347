/** What the checksum of a frame detects, and the bytes on disk themselves
    (src/codec.rs:18-29, 84-122, 337-366; src/wal.rs:23-31, 100-133). */
module Checksums {
  import opened Values
  import opened Codec

  // ---- the register: facts about 32 bits -----------------------------------

  function Up8(x: bv32): bv32 { x << 8 }
  function Up1(x: bv32): bv32 { x << 1 }

  /** Whether all set bits are among the lowest 31, 24, 16 or 8. */
  predicate Below31(x: bv32) { x < 0x8000_0000 }
  predicate Below24(x: bv32) { x < 0x100_0000 }
  predicate Below16(x: bv32) { x < 0x1_0000 }
  predicate Below8(x: bv32) { x < 0x100 }

  /** The polynomial has its top bit set, so the top bit of the result tells which
      way the step went, and no two states are taken to one. */
  lemma {:induction false} StepInjective(a: bv32, b: bv32)
    requires CrcBit(a) == CrcBit(b)
    ensures a == b
  {
  }

  /** A step is linear in what is above its lowest bit. */
  lemma {:induction false} StepLinear(a: bv32, b: bv32)
    requires Below31(b)
    ensures CrcBit(Xor(a, Up1(b))) == Xor(CrcBit(a), b)
  {
    StepOfShifted(a, b);
    hide CrcBit;
  }

  lemma {:induction false} StepOfShifted(a: bv32, b: bv32)
    requires b < 0x8000_0000
    ensures CrcBit(a ^ (b << 1)) == CrcBit(a) ^ b
  {
  }

  lemma {:induction false} EightUps(b: bv32)
    requires Below24(b)
    ensures var (b1, b2, b3) := (Up1(b), Up1(Up1(b)), Up1(Up1(Up1(b))));
      var (b4, b5, b6, b7) := (Up1(b3), Up1(Up1(b3)), Up1(Up1(Up1(b3))), Up1(Up1(Up1(Up1(b3)))));
      && Up8(b) == Up1(b7) && Below31(b) && Below31(b1) && Below31(b2) && Below31(b3)
      && Below31(b4) && Below31(b5) && Below31(b6) && Below31(b7)
  {
  }

  lemma {:induction false} XorLaws(a: bv32, b: bv32, c: bv32)
    ensures Xor(a, Xor(b, c)) == Xor(Xor(a, b), c) && Xor(a, 0) == a
    ensures Xor(a, c) == Xor(b, c) ==> a == b
    ensures Xor(a, b) == Xor(a, c) ==> b == c
  {
    XorOfBits(a, b, c);
  }

  lemma {:induction false} XorOfBits(a: bv32, b: bv32, c: bv32)
    ensures a ^ (b ^ c) == (a ^ b) ^ c && a ^ 0 == a
    ensures a ^ c == b ^ c ==> a == b
    ensures a ^ b == a ^ c ==> b == c
  {
  }

  lemma {:induction false} UpSizes(a: bv32, u: bv32)
    requires Below8(a)
    ensures Below8(u) ==> Below16(Xor(a, Up8(u)))
    ensures Below16(u) ==> Below24(Xor(a, Up8(u)))
    ensures Below24(a) && Xor(a, Up8(0)) == a
  {
  }

  lemma {:induction false} SplitsUp(a: bv32, b: bv32, u: bv32, v: bv32)
    requires Below8(a) && Below8(b) && Below24(u) && Below24(v) && Xor(a, Up8(u)) == Xor(b, Up8(v))
    ensures a == b && u == v
  {
  }

  lemma {:induction false} AsBitsBelow(a: Byte)
    ensures Below8(AsBits(a))
  {
  }

  lemma {:induction false} SameOctet(a: bv8, b: bv8)
    requires a as bv32 == b as bv32
    ensures a == b
  {
  }

  lemma {:induction false} AsBitsInjective(a: Byte, b: Byte)
    requires AsBits(a) == AsBits(b)
    ensures a == b
  {
    hide Octet;
    SameOctet(Octet(a), Octet(b));
    OctetInjective(a, b);
  }

  lemma {:induction false} LowInjective(x: bv32, y: bv32)
    requires LowByte(x) == LowByte(y)
    ensures x & 0xFF == y & 0xFF
  {
    var (a, b) := ((x & 0xFF) as bv8, (y & 0xFF) as bv8);
    assert a as int == b as int;
    assert a == b;
    assert a as bv32 == x & 0xFF && b as bv32 == y & 0xFF;
  }

  lemma {:induction false} Digits(a0: Byte, a1: Byte, a2: Byte, a3: Byte, b0: Byte, b1: Byte, b2: Byte, b3: Byte)
    requires a0 + 0x100 * a1 + 0x1_0000 * a2 + 0x100_0000 * a3 == b0 + 0x100 * b1 + 0x1_0000 * b2 + 0x100_0000 * b3
    ensures a0 == b0 && a1 == b1 && a2 == b2 && a3 == b3
  {
  }

  lemma {:induction false} SameBytes(x: bv32, y: bv32)
    requires AsNat(x) == AsNat(y)
    ensures LowByte(x) == LowByte(y) && LowByte(Down8(x)) == LowByte(Down8(y))
    ensures LowByte(Down8(Down8(x))) == LowByte(Down8(Down8(y)))
    ensures LowByte(Down8(Down8(Down8(x)))) == LowByte(Down8(Down8(Down8(y))))
  {
    hide LowByte;
    hide Down8;
    var (x1, y1) := (Down8(x), Down8(y));
    var (x2, y2) := (Down8(x1), Down8(y1));
    var (x3, y3) := (Down8(x2), Down8(y2));
    Digits(LowByte(x), LowByte(x1), LowByte(x2), LowByte(x3), LowByte(y), LowByte(y1), LowByte(y2), LowByte(y3));
  }

  lemma {:induction false} DownBytes(x: bv32, y: bv32)
    requires x & 0xFF == y & 0xFF && Down8(x) & 0xFF == Down8(y) & 0xFF
    requires Down8(Down8(x)) & 0xFF == Down8(Down8(y)) & 0xFF && Down8(Down8(Down8(x))) & 0xFF == Down8(Down8(Down8(y))) & 0xFF
    ensures x == y
  {
    hide Down8;
    TopByte(x);
    TopByte(y);
    Regained(Down8(Down8(x)), Down8(Down8(y)));
    Regained(Down8(x), Down8(y));
    Regained(x, y);
  }

  lemma {:induction false} Regained(x: bv32, y: bv32)
    requires x & 0xFF == y & 0xFF && Down8(x) == Down8(y)
    ensures x == y
  {
  }

  lemma {:induction false} TopByte(x: bv32)
    ensures Down8(Down8(Down8(x))) & 0xFF == Down8(Down8(Down8(x)))
  {
  }

  lemma {:induction false} NatInjective(x: bv32, y: bv32)
    requires AsNat(x) == AsNat(y)
    ensures x == y
  {
    hide AsNat;
    hide LowByte;
    hide Down8;
    SameBytes(x, y);
    LowInjective(x, y);
    LowInjective(Down8(x), Down8(y));
    LowInjective(Down8(Down8(x)), Down8(Down8(y)));
    LowInjective(Down8(Down8(Down8(x))), Down8(Down8(Down8(y))));
    DownBytes(x, y);
  }

  // ---- several steps -------------------------------------------------------

  lemma {:induction false} BitsInjective(a: bv32, b: bv32, n: nat)
    requires CrcBits(a, n) == CrcBits(b, n)
    ensures a == b
    decreases n
  {
    hide CrcBit;
    if n > 0 {
      BitsInjective(CrcBit(a), CrcBit(b), n - 1);
      StepInjective(a, b);
    }
  }

  lemma {:induction false} BitsCompose(a: bv32, m: nat, n: nat)
    ensures CrcBits(CrcBits(a, m), n) == CrcBits(a, m + n)
    decreases m
  {
    hide CrcBit;
    if m > 0 { BitsCompose(CrcBit(a), m - 1, n); }
  }

  function UpBy(b: bv32, n: nat): bv32 { if n == 0 then b else Up1(UpBy(b, n - 1)) }

  ghost predicate RoomFor(b: bv32, n: nat) { forall i :: 0 <= i < n ==> Below31(UpBy(b, i)) }

  lemma {:induction false} BitsLinear(a: bv32, b: bv32, n: nat)
    requires RoomFor(b, n)
    ensures CrcBits(Xor(a, UpBy(b, n)), n) == Xor(CrcBits(a, n), b)
    decreases n
  {
    hide CrcBit;
    hide Xor;
    hide Up1;
    hide Below31;
    if n > 0 {
      assert Below31(UpBy(b, n - 1));
      StepLinear(a, UpBy(b, n - 1));
      BitsLinear(CrcBit(a), b, n - 1);
    }
  }

  lemma {:induction false} UpEight(b: bv32)
    requires Below24(b)
    ensures UpBy(b, 8) == Up8(b) && RoomFor(b, 8)
  {
    EightUps(b);
    hide Up1;
    hide Up8;
    hide Below31;
    hide Below24;
    var u1 := UpBy(b, 1);
    var u2 := UpBy(b, 2);
    var u3 := UpBy(b, 3);
    var u4 := UpBy(b, 4);
    var u5 := UpBy(b, 5);
    var u6 := UpBy(b, 6);
    var u7 := UpBy(b, 7);
    assert UpBy(b, 0) == b && u1 == Up1(b) && u2 == Up1(u1) && u3 == Up1(u2) && u4 == Up1(u3) && u5 == Up1(u4) && u6 == Up1(u5) && u7 == Up1(u6);
    forall i | 0 <= i < 8 ensures Below31(UpBy(b, i)) { }
  }

  /** Eight steps shift a higher byte down without touching it. */
  lemma {:induction false} ByteLinear(a: bv32, b: bv32)
    requires Below24(b)
    ensures CrcBits(Xor(a, Up8(b)), 8) == Xor(CrcBits(a, 8), b)
  {
    UpEight(b);
    BitsLinear(a, b, 8);
    hide *;
  }

  // ---- one to four bytes ---------------------------------------------------

  /** Up to four bytes as one little-endian word. */
  function Word(x: Bytes): bv32 { if x == [] then 0 else Xor(AsBits(x[0]), Up8(Word(x[1..]))) }

  lemma {:induction false} WordSmall(x: Bytes)
    ensures |x| <= 1 ==> Below8(Word(x))
    ensures |x| <= 2 ==> Below16(Word(x))
    ensures |x| <= 3 ==> Below24(Word(x))
  {
    if x == [] {
      UpSizes(0, 0);
    } else {
      AsBitsBelow(x[0]);
      WordSmall(x[1..]);
      UpSizes(AsBits(x[0]), Word(x[1..]));
      hide AsBits;
      hide Xor;
      hide Up8;
    }
  }

  /** The register takes in up to four bytes as if they came at once. */
  lemma {:induction false} TakenAtOnce(c: bv32, x: Bytes)
    requires |x| <= 4
    ensures CrcFrom(c, x) == CrcBits(Xor(c, Word(x)), 8 * |x|)
    decreases |x|
  {
    hide CrcBits;
    hide AsBits;
    hide Xor;
    hide Up8;
    if x == [] {
      XorLaws(c, 0, 0);
      BitsNone(c);
    } else {
      var (b, rest) := (AsBits(x[0]), x[1..]);
      var w := Word(rest);
      WordSmall(rest);
      TakenAtOnce(CrcBits(Xor(c, b), 8), rest);
      ByteLinear(Xor(c, b), w);
      BitsCompose(Xor(Xor(c, b), Up8(w)), 8, 8 * |rest|);
      XorLaws(c, b, Up8(w));
    }
  }

  lemma {:induction false} BitsNone(a: bv32)
    ensures CrcBits(a, 0) == a
  {
  }

  lemma {:induction false} WordInjective(x: Bytes, y: Bytes)
    requires |x| == |y| <= 4 && Word(x) == Word(y)
    ensures x == y
  {
    hide AsBits;
    hide Xor;
    hide Up8;
    if x != [] {
      var (a, b, u, v) := (AsBits(x[0]), AsBits(y[0]), Word(x[1..]), Word(y[1..]));
      AsBitsBelow(x[0]);
      AsBitsBelow(y[0]);
      WordSmall(x[1..]);
      WordSmall(y[1..]);
      SplitsUp(a, b, u, v);
      AsBitsInjective(x[0], y[0]);
      WordInjective(x[1..], y[1..]);
      assert x == [x[0]] + x[1..] && y == [y[0]] + y[1..];
    }
  }

  // ---- the whole checksum --------------------------------------------------

  lemma {:induction false} CrcAppend(c: bv32, a: Bytes, b: Bytes)
    ensures CrcFrom(c, a + b) == CrcFrom(CrcFrom(c, a), b)
    decreases |a|
  {
    hide CrcBits;
    hide AsBits;
    hide Xor;
    if a == [] {
      assert a + b == b;
    } else {
      assert (a + b)[1..] == a[1..] + b;
      CrcAppend(CrcBits(Xor(c, AsBits(a[0])), 8), a[1..], b);
    }
  }

  lemma {:induction false} FromInjective(c: bv32, d: bv32, data: Bytes)
    requires CrcFrom(c, data) == CrcFrom(d, data)
    ensures c == d
    decreases |data|
  {
    hide CrcBits;
    hide AsBits;
    hide Xor;
    if data != [] {
      var b := AsBits(data[0]);
      FromInjective(CrcBits(Xor(c, b), 8), CrcBits(Xor(d, b), 8), data[1..]);
      BitsInjective(Xor(c, b), Xor(d, b), 8);
      XorLaws(c, d, b);
    }
  }

  lemma {:induction false} Through(a: Bytes, x: Bytes, b: Bytes)
    ensures CrcFrom(ONES, a + x + b) == CrcFrom(CrcFrom(CrcFrom(ONES, a), x), b)
  {
    hide CrcFrom;
    CrcAppend(ONES, a + x, b);
    CrcAppend(ONES, a, x);
  }

  /** Any damage within four consecutive bytes changes the checksum. */
  lemma {:induction false} CrcDetects(a: Bytes, x: Bytes, y: Bytes, b: Bytes)
    requires |x| == |y| <= 4 && x != y
    ensures Crc32(a + x + b) != Crc32(a + y + b)
  {
    hide CrcFrom;
    hide CrcBits;
    hide AsNat;
    hide Word;
    hide Xor;
    if Crc32(a + x + b) == Crc32(a + y + b) {
      var c := CrcFrom(ONES, a);
      var (p, q) := (CrcFrom(ONES, a + x + b), CrcFrom(ONES, a + y + b));
      NatInjective(Xor(ONES, p), Xor(ONES, q));
      XorLaws(ONES, p, q);
      Through(a, x, b);
      Through(a, y, b);
      FromInjective(CrcFrom(c, x), CrcFrom(c, y), b);
      TakenAtOnce(c, x);
      TakenAtOnce(c, y);
      BitsInjective(Xor(c, Word(x)), Xor(c, Word(y)), 8 * |x|);
      XorLaws(c, Word(x), Word(y));
      WordInjective(x, y);
    }
  }

  /** A frame damaged within four consecutive bytes of its payload is rejected, and so
      is one whose checksum is damaged in any way. */
  lemma {:induction false} DamageRejected(a: Bytes, x: Bytes, y: Bytes, b: Bytes, rest: Bytes, crc: Bytes)
    requires |x| == |y| <= 4 && x != y && |a + x + b| < U32
    requires |crc| == 4 && crc != Le(Crc32(a + x + b), 4)
    ensures var (n, good) := (Le(|a + x + b|, 4), Le(Crc32(a + x + b), 4));
      && Frame(a + x + b) == n + good + (a + x + b)
      && Unframe(n + good + (a + y + b) + rest) == Err(BadChecksum)
      && Unframe(n + crc + (a + x + b) + rest) == Err(BadChecksum)
  {
    hide Crc32;
    hide Le;
    hide UnLe;
    hide Pow256;
    hide Unframe;
    var (p, q) := (a + x + b, a + y + b);
    CrcDetects(a, x, y, b);
    Widths();
    UnLeLe(Crc32(p), 4);
    UnLeLe(|p|, 4);
    LeUnLe(crc);
    FrameRead(Le(|p|, 4), Le(Crc32(p), 4), q, rest);
    FrameRead(Le(|p|, 4), crc, p, rest);
  }

  lemma {:induction false} FrameRead(n: Bytes, crc: Bytes, p: Bytes, rest: Bytes)
    requires |n| == 4 && |crc| == 4 && UnLe(n) == |p| && UnLe(crc) != Crc32(p)
    ensures Unframe(n + crc + p + rest) == Err(BadChecksum)
  {
    hide Crc32;
    hide UnLe;
    Fields(n, crc, p, rest);
  }

  lemma {:induction false} Fields(n: Bytes, crc: Bytes, p: Bytes, rest: Bytes)
    requires |n| == 4 && |crc| == 4
    ensures var bs := n + crc + p + rest; |bs| >= 8 + |p| && bs[..4] == n && bs[4..8] == crc && bs[8..8 + |p|] == p
  {
  }

  // ---- which checksum it is ------------------------------------------------

  lemma {:induction false} EightBits(c: bv32)
    ensures CrcBits(c, 8) == CrcBit(CrcBit(CrcBit(CrcBit(CrcBit(CrcBit(CrcBit(CrcBit(c))))))))
  {
    hide CrcBit;
    var c1 := CrcBit(c);
    assert CrcBits(c, 8) == CrcBits(c1, 7);
    var c2 := CrcBit(c1);
    assert CrcBits(c1, 7) == CrcBits(c2, 6);
    var c3 := CrcBit(c2);
    assert CrcBits(c2, 6) == CrcBits(c3, 5);
    var c4 := CrcBit(c3);
    assert CrcBits(c3, 5) == CrcBits(c4, 4);
    var c5 := CrcBit(c4);
    assert CrcBits(c4, 4) == CrcBits(c5, 3);
    var c6 := CrcBit(c5);
    assert CrcBits(c5, 3) == CrcBits(c6, 2);
  }

  const NINE: Bytes := [0x31, 0x32, 0x33, 0x34, 0x35, 0x36, 0x37, 0x38, 0x39]

  lemma {:induction false} TakesIn(c: bv32, i: nat, b: Byte, x: bv32, d: bv32)
    requires i < |NINE| && NINE[i] == b && Xor(c, AsBits(b)) == x
    requires CrcBit(CrcBit(CrcBit(CrcBit(CrcBit(CrcBit(CrcBit(CrcBit(x)))))))) == d
    ensures CrcFrom(c, NINE[i..]) == CrcFrom(d, NINE[i + 1..])
  {
    EightBits(x);
    hide CrcBit;
    hide CrcBits;
    hide Xor;
    hide AsBits;
    assert NINE[i..][1..] == NINE[i + 1..];
  }

  lemma {:induction false} FirstThree()
    ensures CrcFrom(0xFFFF_FFFF, NINE[0..]) == CrcFrom(0x77B7_9C2D, NINE[3..])
  {
    hide CrcFrom;
    TakesIn(0xFFFF_FFFF, 0, 0x31, 0xFFFF_FFCE, 0x7C23_1048);
    TakesIn(0x7C23_1048, 1, 0x32, 0x7C23_107A, 0xB0AC_BB32);
    TakesIn(0xB0AC_BB32, 2, 0x33, 0xB0AC_BB01, 0x77B7_9C2D);
  }

  lemma {:induction false} NextThree()
    ensures CrcFrom(0x77B7_9C2D, NINE[3..]) == CrcFrom(0xF68D_2C9E, NINE[6..])
  {
    hide CrcFrom;
    TakesIn(0x77B7_9C2D, 3, 0x34, 0x77B7_9C19, 0x641C_1F5C);
    TakesIn(0x641C_1F5C, 4, 0x35, 0x641C_1F69, 0x340A_C5E3);
    TakesIn(0x340A_C5E3, 5, 0x36, 0x340A_C5D5, 0xF68D_2C9E);
  }

  lemma {:induction false} LastThree()
    ensures CrcFrom(0xF68D_2C9E, NINE[6..]) == CrcFrom(0x340B_C6D9, NINE[9..])
  {
    hide CrcFrom;
    TakesIn(0xF68D_2C9E, 6, 0x37, 0xF68D_2CA9, 0xAFFC_9660);
    TakesIn(0xAFFC_9660, 7, 0x38, 0xAFFC_9658, 0x651F_2550);
    TakesIn(0x651F_2550, 8, 0x39, 0x651F_2569, 0x340B_C6D9);
  }

  lemma {:induction false} NineTaken()
    ensures CrcFrom(ONES, NINE) == 0x340B_C6D9
  {
    hide CrcFrom;
    FirstThree();
    NextThree();
    LastThree();
    assert NINE[0..] == NINE && NINE[9..] == [];
    TakenAll(0x340B_C6D9);
  }

  lemma {:induction false} TakenAll(c: bv32)
    ensures CrcFrom(c, []) == c
  {
  }

  lemma {:induction false} CheckBytes()
    ensures LowByte(0xCBF4_3926) == 0x26 && LowByte(0xCB_F439) == 0x39 && LowByte(0xCBF4) == 0xF4 && LowByte(0xCB) == 0xCB
  {
  }

  lemma {:induction false} CheckShifts()
    ensures Xor(ONES, 0x340B_C6D9) == 0xCBF4_3926
    ensures Down8(0xCBF4_3926) == 0xCB_F439 && Down8(0xCB_F439) == 0xCBF4 && Down8(0xCBF4) == 0xCB
  {
  }

  /** The check value of the standard, the checksum of the digits one to nine: it settles
      polynomial, bit order and both inversions. */
  lemma {:induction false} CheckValue()
    ensures Crc32(NINE) == 0xCBF4_3926
  {
    hide CrcFrom;
    hide Xor;
    hide LowByte;
    hide Down8;
    NineTaken();
    CheckShifts();
    CheckBytes();
  }
}
