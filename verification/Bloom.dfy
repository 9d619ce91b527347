/** The Bloom filter over a part's keys (src/bloom.rs). */
module Bloom {
  import opened Values
  import opened Wrappers
  import opened Decimals
  import opened Zonemap

  const BITS_PER_KEY: nat := 10
  const NUM_HASHES: nat := 7

  // ---- hashing -------------------------------------------------------------

  /** The SplitMix64 finaliser, in wrapping 64-bit arithmetic. */
  function Finalise(z: bv64): bv64 {
    var a := (z ^ (z >> 30)) * 0xBF58_476D_1CE4_E5B9;
    var b := (a ^ (a >> 27)) * 0x94D0_49BB_1331_11EB;
    b ^ (b >> 31)
  }

  function Hash1(key: bv64): bv64 { Finalise(key + 0x9E37_79B9_7F4A_7C15) }

  function Hash2(key: bv64): bv64 { Finalise(Hash1(key) + 0x9E37_79B9_7F4A_7C15) | 1 }

  function BitIndex(key: bv64, i: nat, numBits: nat): (b: nat)
    requires numBits > 0 && i < NUM_HASHES
    ensures b < numBits
  {
    ((Hash1(key) + (i as bv64) * Hash2(key)) as nat) % numBits
  }

  // ---- bits in words -------------------------------------------------------

  function Mask(j: nat): bv64
    requires j < 64
  {
    (1 as bv64) << (j as bv6)
  }

  predicate Hit(w: bv64, mask: bv64) { w & mask != 0 }

  function With(w: bv64, mask: bv64): bv64 { w | mask }

  predicate BitSet(words: seq<bv64>, b: nat)
    requires b < 64 * |words|
  {
    Hit(words[b / 64], Mask(b % 64))
  }

  function SetBit(words: seq<bv64>, b: nat): (r: seq<bv64>)
    requires b < 64 * |words|
    ensures |r| == |words|
  {
    words[b / 64 := With(words[b / 64], Mask(b % 64))]
  }

  lemma {:induction false} ShiftsApart(i: bv6, j: bv6)
    ensures Hit((1 as bv64) << i, (1 as bv64) << j) <==> i == j
  {
  }

  lemma {:induction false} SixBits(i: nat)
    requires i < 64
    ensures (i as bv6) as nat == i
  {
  }

  lemma {:induction false} MasksApart(i: nat, j: nat)
    requires i < 64 && j < 64
    ensures Hit(Mask(i), Mask(j)) <==> i == j
  {
    hide Hit;
    SixBits(i);
    SixBits(j);
    ShiftsApart(i as bv6, j as bv6);
  }

  lemma {:induction false} HitKept(w: bv64, m: bv64, k: bv64)
    requires Hit(w, k) || Hit(m, k)
    ensures Hit(With(w, m), k)
  {
  }

  lemma {:induction false} HitFrom(w: bv64, m: bv64, k: bv64)
    requires Hit(With(w, m), k)
    ensures Hit(w, k) || Hit(m, k)
  {
  }

  /** Setting a bit sets it, clears none and sets no other. */
  lemma {:induction false} SetBitSets(words: seq<bv64>, b: nat, c: nat)
    requires b < 64 * |words| && c < 64 * |words|
    ensures BitSet(SetBit(words, b), c) <==> c == b || BitSet(words, c)
  {
    hide Mask;
    hide Hit;
    hide With;
    MasksApart(b % 64, c % 64);
    var (w, m, k) := (words[b / 64], Mask(b % 64), Mask(c % 64));
    if Hit(With(w, m), k) { HitFrom(w, m, k); }
    if Hit(w, k) || Hit(m, k) { HitKept(w, m, k); }
  }

  /** All of a key's bits are set. */
  ghost predicate Covers(words: seq<bv64>, key: bv64)
    requires |words| > 0
  {
    forall i :: 0 <= i < NUM_HASHES ==> BitSet(words, BitIndex(key, i, 64 * |words|))
  }

  /** Some key hashes to this bit. */
  ghost predicate Taken(keys: set<bv64>, b: nat, numBits: nat)
    requires numBits > 0
  {
    exists k, i :: k in keys && 0 <= i < NUM_HASHES && BitIndex(k, i, numBits) == b
  }

  /** No bit is set but those of the keys. */
  ghost predicate OnlyThese(words: seq<bv64>, keys: set<bv64>)
    requires |words| > 0
  {
    forall b: nat :: b < 64 * |words| && BitSet(words, b) ==> Taken(keys, b, 64 * |words|)
  }

  ghost predicate AllTaken(keys: set<bv64>, probe: bv64, numBits: nat)
    requires numBits > 0
  {
    forall i :: 0 <= i < NUM_HASHES ==> Taken(keys, BitIndex(probe, i, numBits), numBits)
  }

  /** A probe is accepted exactly when each of its bits is one of some key's. */
  lemma {:induction false} ProbeExact(words: seq<bv64>, keys: set<bv64>, probe: bv64)
    requires |words| > 0 && OnlyThese(words, keys) && forall k :: k in keys ==> Covers(words, k)
    ensures Covers(words, probe) <==> AllTaken(keys, probe, 64 * |words|)
  {
    hide BitIndex;
    hide BitSet;
    var n := 64 * |words|;
    if AllTaken(keys, probe, n) {
      forall i | 0 <= i < NUM_HASHES ensures BitSet(words, BitIndex(probe, i, n)) {
        assert Taken(keys, BitIndex(probe, i, n), n);
        var k, j :| k in keys && 0 <= j < NUM_HASHES && BitIndex(k, j, n) == BitIndex(probe, i, n);
        assert Covers(words, k);
      }
    }
  }

  // ---- the filter ----------------------------------------------------------

  /** Ten bits a key, at least one word. */
  function WordsFor(expected: nat): (n: nat)
    ensures n > 0
  {
    ((if expected * BITS_PER_KEY < 64 then 64 else expected * BITS_PER_KEY) + 63) / 64
  }

  class BloomFilter {
    var words: seq<bv64>
    /** Every key inserted so far. */
    ghost var keys: set<bv64>

    ghost predicate Valid()
      reads this
    {
      |words| > 0 && OnlyThese(words, keys) && forall k :: k in keys ==> Covers(words, k)
    }

    constructor WithCapacity(expected: nat)
      ensures Valid() && keys == {} && |words| == WordsFor(expected)
    {
      words := seq(WordsFor(expected), i => 0);
      keys := {};
    }

    method Insert(key: bv64)
      requires Valid()
      modifies this
      ensures Valid() && keys == old(keys) + {key} && |words| == old(|words|)
    {
      hide BitIndex;
      hide BitSet;
      hide SetBit;
      var n := 64 * |words|;
      ghost var more := keys + {key};
      assert OnlyThese(words, more);
      for i := 0 to NUM_HASHES
        invariant 64 * |words| == n && keys == old(keys)
        invariant forall k :: k in keys ==> Covers(words, k)
        invariant forall j :: 0 <= j < i ==> BitSet(words, BitIndex(key, j, n))
        invariant OnlyThese(words, more)
      {
        var b := BitIndex(key, i, n);
        ghost var next := SetBit(words, b);
        forall c: nat | c < n ensures BitSet(next, c) <==> c == b || BitSet(words, c) {
          SetBitSets(words, b, c);
        }
        forall k | k in keys ensures Covers(next, k) { assert Covers(words, k); }
        assert Taken(more, b, n);
        words := SetBit(words, b);
      }
      keys := more;
    }

    /** Never rejects a key that was inserted, and accepts another exactly when all
        its bits are bits of inserted keys. */
    method MaybeContains(key: bv64) returns (maybe: bool)
      requires Valid()
      ensures maybe <==> AllTaken(keys, key, 64 * |words|)
      ensures key in keys ==> maybe
    {
      hide BitIndex;
      hide BitSet;
      hide AllTaken;
      hide OnlyThese;
      ProbeExact(words, keys, key);
      for i := 0 to NUM_HASHES
        invariant forall j :: 0 <= j < i ==> BitSet(words, BitIndex(key, j, 64 * |words|))
      {
        if !BitSet(words, BitIndex(key, i, 64 * |words|)) { return false; }
      }
      maybe := true;
    }

    constructor BuildValues(values: seq<Value>)
      ensures Valid() && keys == SeedsOf(values) && |words| == WordsFor(|values|)
    {
      words := seq(WordsFor(|values|), i => 0);
      keys := {};
      new;
      for i := 0 to |values|
        invariant Valid() && keys == SeedsOf(values[..i]) && |words| == WordsFor(|values|)
      {
        SeedsNext(values, i);
        Insert(Seed(values[i]));
      }
      assert values[..|values|] == values;
    }
  }

  // ---- keys of any type ----------------------------------------------------

  const WORD: nat := 0x1_0000_0000_0000_0000

  /** The lowest 64 bits in two's complement, byte by byte. */
  function Low(i: int): bv64 { LowBytes(i % WORD, 8) }

  function LowBytes(n: nat, w: nat): bv64 {
    if w == 0 then 0 else OnTop(AsBits(n % 256), LowBytes(n / 256, w - 1))
  }

  function AsBits(b: Byte): bv64 { Octet(b) as bv64 }

  function OnTop(b: bv64, high: bv64): bv64 { b ^ (high << 8) }

  /** FNV-1a over the bytes. */
  function Fnv(h: bv64, bytes: seq<Byte>): bv64
    decreases |bytes|
  {
    if bytes == [] then h else Fnv(FnvStep(h, bytes[0]), bytes[1..])
  }

  function FnvStep(h: bv64, b: Byte): bv64 { (h ^ (b as bv64)) * 0x0000_0100_0000_01B3 }

  function Seed(v: Value): bv64 {
    match v
    case Int(i) => Low(i)
    case Bool(b) => if b then 1 else 0
    case Float(bits) => Low(bits)
    case Text(bytes) => Fnv(0xCBF2_9CE4_8422_2325, bytes)
    case Decimal(m, s) => Low(m) ^ Low(m / WORD) ^ Low(s)
    case Null => 0
  }

  ghost function SeedsOf(values: seq<Value>): set<bv64> { set v | v in values :: Seed(v) }

  lemma {:induction false} SeedsNext(values: seq<Value>, i: nat)
    requires i < |values|
    ensures SeedsOf(values[..i+1]) == SeedsOf(values[..i]) + {Seed(values[i])}
  {
    assert values[..i+1] == values[..i] + [values[i]];
  }

  // ---- probes of the same and of another type ------------------------------

  /** Keys of one type (and scale) that the order calls equal are the same value, so
      their seeds agree and the filter finds them. */
  lemma {:induction false} SameTypeSeeds(env: Env, a: Value, b: Value)
    requires OneType(a, b) && TotalCmp(env, a, b) == Equal
    ensures a == b && Seed(a) == Seed(b)
  {
    KeyOrderIsTotal(env, a, b);
    KeyCmpEqual(a, b);
  }

  /** A probe that equals a key of its own type is never rejected. */
  lemma {:induction false} SameTypeProbe(env: Env, words: seq<bv64>, values: seq<Value>, key: Value, probe: Value)
    requires |words| > 0 && forall k :: k in SeedsOf(values) ==> Covers(words, k)
    requires key in values && OneType(probe, key) && TotalCmp(env, probe, key) == Equal
    ensures Covers(words, Seed(probe))
  {
    SameTypeSeeds(env, probe, key);
    assert Seed(key) in SeedsOf(values);
  }

  /** The filter of a decimal key column holding only 5.0, probed with the integer
      5: the order says they are equal, and the filter rejects the probe. */
  method MixedProbe(env: Env) returns (maybe: bool)
    ensures TotalCmp(env, Int(5), Decimal(50, 1)) == Equal && !maybe
  {
    hide BitIndex;
    hide AllTaken;
    hide Seed;
    hide SeedsOf;
    hide TotalCmp;
    hide BloomFilter.Valid;
    var f := new BloomFilter.BuildValues([Decimal(50, 1)]);
    OneSeed(Decimal(50, 1));
    maybe := f.MaybeContains(Seed(Int(5)));
    MixedProbeMissed(env);
  }

  lemma {:induction false} OneSeed(v: Value)
    ensures SeedsOf([v]) == {Seed(v)}
  {
    hide Seed;
  }

  lemma {:induction false} MixedProbeMissed(env: Env)
    ensures TotalCmp(env, Int(5), Decimal(50, 1)) == Equal
    ensures !AllTaken({Seed(Decimal(50, 1))}, Seed(Int(5)), 64)
  {
    EqualToOrder(env);
    SeedsApart();
    ProbeBit();
    KeyBit0();
    KeyBit1();
    KeyBit2();
    KeyBit3();
    KeyBit4();
    KeyBit5();
    KeyBit6();
    hide BitIndex;
    forall i | 0 <= i < NUM_HASHES ensures BitIndex(51, i, 64) != BitIndex(5, 0, 64) {
      assert i == 0 || i == 1 || i == 2 || i == 3 || i == 4 || i == 5 || i == 6;
    }
    assert !Taken({51}, BitIndex(5, 0, 64), 64);
  }

  lemma {:induction false} EqualToOrder(env: Env)
    ensures TotalCmp(env, Int(5), Decimal(50, 1)) == Equal
  {
    assert Ten(1) == 10;
    assert Rescale(5, 0, 1) == Some(50);
  }

  lemma {:induction false} SeedsApart()
    ensures Seed(Int(5)) == 5 && Seed(Decimal(50, 1)) == 51
  {
    LowOfSmall(5);
    LowOfSmall(50);
    LowOfSmall(0);
    LowOfSmall(1);
    SmallOctets();
    hide Low;
    hide AsBits;
  }

  lemma {:induction false} SmallOctets()
    ensures AsBits(0) == 0 && AsBits(1) == 1 && AsBits(2) == 2 && AsBits(5) == 5 && AsBits(50) == 50
  {
  }

  lemma {:induction false} LowOfSmall(n: nat)
    requires n < 256
    ensures Low(n) == AsBits(n)
  {
    hide OnTop;
    hide AsBits;
    assert n % WORD == n && n / 256 == 0 && n % 256 == n;
    LowOfNone(7);
    OnTopNone(AsBits(n));
  }

  lemma {:induction false} LowOfNone(w: nat)
    ensures LowBytes(0, w) == 0
  {
    if w > 0 {
      LowOfNone(w - 1);
      SmallOctets();
      hide AsBits;
      OnTopNone(0);
    }
  }

  lemma {:induction false} OnTopNone(b: bv64)
    ensures OnTop(b, 0) == b
  {
  }

  lemma {:induction false} ProbeBit()
    ensures BitIndex(5, 0, 64) == 26
  {
  }

  lemma {:induction false} KeyHashes()
    ensures Hash1(51) == 0x5DDA_D83B_4E87_4068 && Hash2(51) == 0x1012_EB77_3F7B_168B
  {
  }

  lemma {:induction false} KeyBit0()
    ensures BitIndex(51, 0, 64) == 40
  {
    KeyHashes();
    hide Hash1;
    hide Hash2;
  }

  lemma {:induction false} KeyBit1()
    ensures BitIndex(51, 1, 64) == 51
  {
    KeyHashes();
    hide Hash1;
    hide Hash2;
  }

  lemma {:induction false} KeyBit2()
    ensures BitIndex(51, 2, 64) == 62
  {
    KeyHashes();
    hide Hash1;
    hide Hash2;
  }

  lemma {:induction false} KeyBit3()
    ensures BitIndex(51, 3, 64) == 9
  {
    KeyHashes();
    hide Hash1;
    hide Hash2;
  }

  lemma {:induction false} KeyBit4()
    ensures BitIndex(51, 4, 64) == 20
  {
    KeyHashes();
    hide Hash1;
    hide Hash2;
  }

  lemma {:induction false} KeyBit5()
    ensures BitIndex(51, 5, 64) == 31
  {
    KeyHashes();
    hide Hash1;
    hide Hash2;
  }

  lemma {:induction false} KeyBit6()
    ensures BitIndex(51, 6, 64) == 42
  {
    KeyHashes();
    hide Hash1;
    hide Hash2;
  }

  // ---- sizes and seeds -----------------------------------------------------

  /** Ten bits a key and never less than one word, rounded up to whole words. */
  lemma {:induction false} Sized(keys: nat)
    ensures 64 * WordsFor(keys) >= 10 * keys && WordsFor(keys) >= 1
    ensures WordsFor(keys) > 1 ==> 64 * (WordsFor(keys) - 1) < 10 * keys
  {
  }

  // ---- what seeds tell apart -----------------------------------------------

  lemma {:induction false} SameOctet(a: bv8, b: bv8)
    requires a as bv64 == b as bv64
    ensures a == b
  {
  }

  lemma {:induction false} AsBitsInjective(a: Byte, b: Byte)
    requires AsBits(a) == AsBits(b)
    ensures a == b
  {
    hide Octet;
    SameOctet(Octet(a), Octet(b));
    OctetInjective(a, b);
  }

  /** Room for `w` bytes. */
  predicate Below(x: bv64, w: nat) {
    match w
    case 0 => x == 0
    case 1 => x < 0x100
    case 2 => x < 0x1_0000
    case 3 => x < 0x100_0000
    case 4 => x < 0x1_0000_0000
    case 5 => x < 0x100_0000_0000
    case 6 => x < 0x1_0000_0000_0000
    case 7 => x < 0x100_0000_0000_0000
    case _ => true
  }

  lemma {:induction false} OnTopBelow(b: bv64, y: bv64, w: nat)
    requires b < 0x100 && Below(y, w)
    ensures Below(OnTop(b, y), w + 1)
  {
  }

  lemma {:induction false} OnTopInjective(a: bv64, b: bv64, u: bv64, v: bv64)
    requires a < 0x100 && b < 0x100 && Below(u, 7) && Below(v, 7) && OnTop(a, u) == OnTop(b, v)
    ensures a == b && u == v
  {
  }

  lemma {:induction false} BelowWidens(x: bv64, w: nat)
    requires w <= 7 && Below(x, w)
    ensures Below(x, 7)
  {
  }

  lemma {:induction false} OctetBelow(b: Byte)
    ensures AsBits(b) < 0x100
  {
  }

  lemma {:induction false} LowBelow(n: nat, w: nat)
    ensures Below(LowBytes(n, w), w)
  {
    hide OnTop;
    hide AsBits;
    if w > 0 {
      LowBelow(n / 256, w - 1);
      OctetBelow(n % 256);
      OnTopBelow(AsBits(n % 256), LowBytes(n / 256, w - 1), w - 1);
    }
  }

  function Words(w: nat): nat { if w == 0 then 1 else 256 * Words(w - 1) }

  lemma {:induction false} LowBytesInjective(m: nat, n: nat, w: nat)
    requires w <= 8 && m < Words(w) && n < Words(w) && LowBytes(m, w) == LowBytes(n, w)
    ensures m == n
  {
    hide OnTop;
    hide AsBits;
    hide Below;
    if w > 0 {
      var (u, v) := (LowBytes(m / 256, w - 1), LowBytes(n / 256, w - 1));
      LowBelow(m / 256, w - 1);
      LowBelow(n / 256, w - 1);
      BelowWidens(u, w - 1);
      BelowWidens(v, w - 1);
      OctetBelow(m % 256);
      OctetBelow(n % 256);
      OnTopInjective(AsBits(m % 256), AsBits(n % 256), u, v);
      AsBitsInjective(m % 256, n % 256);
      LowBytesInjective(m / 256, n / 256, w - 1);
    }
  }

  lemma {:induction false} LowInjective(i: int, j: int)
    requires Low(i) == Low(j)
    ensures i % WORD == j % WORD
  {
    hide LowBytes;
    assert Words(4) == 0x1_0000_0000;
    assert Words(8) == 0x1_0000 * (0x1_0000 * Words(4)) by { FourMore(4); }
    LowBytesInjective(i % WORD, j % WORD, 8);
  }

  lemma {:induction false} FourMore(w: nat)
    ensures Words(w + 4) == 0x1_0000 * (0x1_0000 * Words(w))
  {
    assert Words(w + 1) == 256 * Words(w) && Words(w + 2) == 256 * Words(w + 1);
    assert Words(w + 3) == 256 * Words(w + 2) && Words(w + 4) == 256 * Words(w + 3);
  }

  /** Two integers, two floats or two booleans have one seed only if they are one value. */
  lemma {:induction false} SeedsTell(a: Value, b: Value)
    requires Real(a) && Real(b) && Seed(a) == Seed(b)
    ensures (a.Int? && b.Int?) || (a.Float? && b.Float?) || (a.Bool? && b.Bool?) || (a.Null? && b.Null?) ==> a == b
  {
    hide Low;
    if a.Int? && b.Int? {
      LowInjective(a.i, b.i);
    } else if a.Float? && b.Float? {
      LowInjective(a.bits, b.bits);
    }
  }

  /** Texts hash by FNV-1a, whose published value for the letter a this is; decimals fold
      both halves of the mantissa and the scale. */
  lemma {:induction false} SeedValues()
    ensures Seed(Text([0x61])) == 0xAF63_DC4C_8601_EC8C && Seed(Text([])) == 0xCBF2_9CE4_8422_2325
    ensures Seed(Decimal(5 * WORD + 50, 1)) == 54 && Seed(Int(5)) == 5 && Seed(Bool(true)) == 1
  {
    TextSeed();
    LowOfSmall(5);
    LowOfSmall(50);
    LowOfSmall(1);
    SmallOctets();
    SplitWord();
    hide Low;
    hide AsBits;
    hide Fnv;
  }

  lemma {:induction false} SplitWord()
    ensures Low(5 * WORD + 50) == Low(50) && (5 * WORD + 50) / WORD == 5
  {
    hide LowBytes;
  }

  lemma {:induction false} TextSeed()
    ensures Fnv(0xCBF2_9CE4_8422_2325, [0x61]) == 0xAF63_DC4C_8601_EC8C && Fnv(0xCBF2_9CE4_8422_2325, []) == 0xCBF2_9CE4_8422_2325
  {
    LetterStep();
    hide FnvStep;
    assert [0x61][1..] == [];
    assert Fnv(0xAF63_DC4C_8601_EC8C, []) == 0xAF63_DC4C_8601_EC8C;
  }

  lemma {:induction false} LetterStep()
    ensures FnvStep(0xCBF2_9CE4_8422_2325, 0x61) == 0xAF63_DC4C_8601_EC8C
  {
  }
}
