/** SQL scalars and the total order that sorts key columns (src/value.rs). */
module Values {

  type Byte = x: int | 0 <= x < 256

  // ---- bytes as bits -------------------------------------------------------

  function Octet(b: Byte): bv8 { BitsOf(b, 8) }

  /** The lowest `w` bits of `n`. */
  function BitsOf(n: nat, w: nat): bv8 { if w == 0 then 0 else PushBit(BitsOf(n / 2, w - 1), n % 2 == 1) }

  function PushBit(x: bv8, low: bool): bv8 { (x << 1) | (if low then 1 else 0) }

  predicate FitsBits(x: bv8, w: nat) {
    match w
    case 0 => x == 0
    case 1 => x < 2
    case 2 => x < 4
    case 3 => x < 8
    case 4 => x < 16
    case 5 => x < 32
    case 6 => x < 64
    case 7 => x < 128
    case _ => true
  }

  function TwoTo(w: nat): nat { if w == 0 then 1 else 2 * TwoTo(w - 1) }

  lemma {:induction false} PushFits(x: bv8, low: bool, w: nat)
    requires FitsBits(x, w)
    ensures FitsBits(PushBit(x, low), w + 1)
  {
  }

  lemma {:induction false} PushInjective(x: bv8, y: bv8, a: bool, b: bool)
    requires FitsBits(x, 7) && FitsBits(y, 7) && PushBit(x, a) == PushBit(y, b)
    ensures x == y && a == b
  {
  }

  lemma {:induction false} FitsMore(x: bv8, w: nat)
    requires w <= 7 && FitsBits(x, w)
    ensures FitsBits(x, 7)
  {
  }

  lemma {:induction false} BitsFit(n: nat, w: nat)
    ensures FitsBits(BitsOf(n, w), w)
  {
    hide PushBit;
    if w > 0 {
      BitsFit(n / 2, w - 1);
      PushFits(BitsOf(n / 2, w - 1), n % 2 == 1, w - 1);
    }
  }

  lemma {:induction false} BitsInjective(m: nat, n: nat, w: nat)
    requires w <= 8 && m < TwoTo(w) && n < TwoTo(w) && BitsOf(m, w) == BitsOf(n, w)
    ensures m == n
  {
    hide PushBit;
    hide FitsBits;
    if w > 0 {
      var (x, y) := (BitsOf(m / 2, w - 1), BitsOf(n / 2, w - 1));
      BitsFit(m / 2, w - 1);
      BitsFit(n / 2, w - 1);
      FitsMore(x, w - 1);
      FitsMore(y, w - 1);
      PushInjective(x, y, m % 2 == 1, n % 2 == 1);
      BitsInjective(m / 2, n / 2, w - 1);
    }
  }

  lemma {:induction false} OctetInjective(a: Byte, b: Byte)
    requires Octet(a) == Octet(b)
    ensures a == b
  {
    assert TwoTo(4) == 16 && TwoTo(8) == 256;
    BitsInjective(a, b, 8);
  }

  /** Integers and decimals carry their exact value; a float is its IEEE bit
      pattern; text is its UTF-8 bytes, which is the order `str` compares by. */
  datatype Value =
    | Null
    | Int(i: int)
    | Float(bits: nat)
    | Text(bytes: seq<Byte>)
    | Bool(b: bool)
    | Decimal(mantissa: int, scale: nat)

  datatype Order = Less | Equal | Greater {
    function Flip(): Order {
      match this case Less => Greater case Equal => Equal case Greater => Less
    }
  }

  function CmpInt(a: int, b: int): Order {
    if a < b then Less else if a == b then Equal else Greater
  }

  function CmpBytes(a: seq<Byte>, b: seq<Byte>): Order {
    if a == [] then (if b == [] then Equal else Less)
    else if b == [] then Greater
    else if a[0] != b[0] then CmpInt(a[0], b[0])
    else CmpBytes(a[1..], b[1..])
  }

  lemma {:induction false} CmpBytesEqual(a: seq<Byte>, b: seq<Byte>)
    ensures CmpBytes(a, b) == Equal <==> a == b
    ensures CmpBytes(b, a) == CmpBytes(a, b).Flip()
  {
    if a != [] && b != [] {
      CmpBytesEqual(a[1..], b[1..]);
      assert a == [a[0]] + a[1..] && b == [b[0]] + b[1..];
    }
  }

  /** The first byte that differs decides, the smaller first; a proper prefix comes
      before what it is a prefix of. */
  lemma {:induction false} FirstByteDecides(a: seq<Byte>, b: seq<Byte>, k: nat)
    requires k <= |a| && k <= |b| && a[..k] == b[..k] && (k < |a| && k < |b| ==> a[k] != b[k])
    ensures CmpBytes(a, b) ==
      if k < |a| && k < |b| then (if a[k] < b[k] then Less else Greater)
      else if k < |b| then Less
      else if k < |a| then Greater
      else Equal
  {
    if k > 0 {
      assert a[0] == a[..k][0] == b[..k][0] == b[0];
      assert a[1..][..k-1] == a[..k][1..] == b[..k][1..] == b[1..][..k-1];
      FirstByteDecides(a[1..], b[1..], k - 1);
    }
  }

  lemma {:induction false} CmpBytesTransitive(a: seq<Byte>, b: seq<Byte>, c: seq<Byte>)
    requires CmpBytes(a, b) != Greater && CmpBytes(b, c) != Greater
    ensures CmpBytes(a, c) != Greater
  {
    if a != [] && b != [] && c != [] && a[0] == b[0] == c[0] {
      CmpBytesTransitive(a[1..], b[1..], c[1..]);
    }
  }

  const SIGN: nat := 0x8000_0000_0000_0000

  predicate IsNan(bits: nat) { bits % SIGN > 0x7FF0_0000_0000_0000 }

  predicate IsZero(bits: nat) { bits % SIGN == 0 }

  /** Where an IEEE pattern sits in `f64::total_cmp`: negatives run backwards. */
  function FloatRank(bits: nat): int {
    if bits < 0x8000_0000_0000_0000 then bits else 0x7FFF_FFFF_FFFF_FFFF - bits
  }

  function Rank(v: Value): nat {
    match v
    case Null => 0
    case Bool(_) => 1
    case Int(_) => 2
    case Float(_) => 3
    case Decimal(_, _) => 4
    case Text(_) => 5
  }

  /** The order of a key column. A key column has one type (and one scale), and
      there this is `Value::total_cmp`; across types it is any fixed total order,
      which lets the table model quantify over all values. */
  function KeyCmp(a: Value, b: Value): Order {
    match (a, b)
    case (Int(x), Int(y)) => CmpInt(x, y)
    case (Float(x), Float(y)) => CmpInt(FloatRank(x), FloatRank(y))
    case (Text(x), Text(y)) => CmpBytes(x, y)
    case (Bool(x), Bool(y)) => CmpInt(if x then 1 else 0, if y then 1 else 0)
    case (Decimal(m, s), Decimal(n, t)) => if s != t then CmpInt(s, t) else CmpInt(m, n)
    case _ => CmpInt(Rank(a), Rank(b))
  }

  /** The derived `==` on values (src/value.rs:91): floats compare as numbers, so
      NaN equals nothing and the two zeros are equal. */
  predicate SameValue(a: Value, b: Value) {
    if a.Float? && b.Float? then
      !IsNan(a.bits) && !IsNan(b.bits) && (a.bits == b.bits || (IsZero(a.bits) && IsZero(b.bits)))
    else a == b
  }

  predicate KeyLe(a: Value, b: Value) { KeyCmp(a, b) != Greater }

  lemma {:induction false} KeyCmpEqual(a: Value, b: Value)
    ensures KeyCmp(a, b) == Equal <==> a == b
    ensures KeyCmp(b, a) == KeyCmp(a, b).Flip()
  {
    if a.Text? && b.Text? { CmpBytesEqual(a.bytes, b.bytes); }
  }

  lemma {:induction false} KeyLeTransitive(a: Value, b: Value, c: Value)
    requires KeyLe(a, b) && KeyLe(b, c)
    ensures KeyLe(a, c)
  {
    if a.Text? && b.Text? && c.Text? { CmpBytesTransitive(a.bytes, b.bytes, c.bytes); }
  }
}
