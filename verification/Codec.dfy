/** The byte encoding of scalars, values and rows, and checksummed frames
    (src/codec.rs:17-122, 180-292, 342-370). */
module Codec {
  import opened Values

  type Bytes = seq<Byte>

  datatype DecodeError = Truncated | BadChecksum | Malformed

  datatype Result<+T> = Ok(value: T) | Err(error: DecodeError)

  // ---- little-endian integers ----------------------------------------------

  function Pow256(w: nat): (r: nat)
    ensures r > 0
  {
    if w == 0 then 1 else 256 * Pow256(w - 1)
  }

  function Le(n: nat, w: nat): (bs: Bytes)
    ensures |bs| == w
  {
    if w == 0 then [] else [n % 256] + Le(n / 256, w - 1)
  }

  function UnLe(bs: Bytes): nat { if bs == [] then 0 else bs[0] + 256 * UnLe(bs[1..]) }

  lemma {:induction false} UnLeLe(n: nat, w: nat)
    requires n < Pow256(w)
    ensures UnLe(Le(n, w)) == n
  {
    if w > 0 {
      assert n / 256 < Pow256(w - 1);
      UnLeLe(n / 256, w - 1);
      assert Le(n, w)[1..] == Le(n / 256, w - 1);
    }
  }

  /** The encoding is onto: any bytes are the encoding of what they decode to. */
  lemma {:induction false} LeUnLe(bs: Bytes)
    ensures UnLe(bs) < Pow256(|bs|) && Le(UnLe(bs), |bs|) == bs
  {
    if bs != [] {
      LeUnLe(bs[1..]);
      assert bs == [bs[0]] + bs[1..];
    }
  }

  const U32: nat := 0x1_0000_0000
  const U64: nat := 0x1_0000_0000_0000_0000
  const U128: nat := U64 * U64

  lemma {:induction false} Widths()
    ensures Pow256(1) == 256 && Pow256(4) == U32 && Pow256(8) == U64
  {
    assert Pow256(2) == 65536 && Pow256(3) == 16777216;
    assert Pow256(4) == U32;
    assert Pow256(5) == 256 * U32 && Pow256(6) == 65536 * U32;
    assert Pow256(7) == 16777216 * U32;
  }

  /** Two's complement in `m` values. */
  function Wrap(i: int, m: nat): (n: int) { if i < 0 then i + m else i }

  function Unwrap(n: nat, m: nat): int { if 2 * n >= m then n - m else n }

  predicate Signed(i: int, m: nat) { 0 <= 2 * i + m && 2 * i < m }

  lemma {:induction false} WrapTrip(i: int, m: nat)
    requires Signed(i, m)
    ensures 0 <= Wrap(i, m) < m && Unwrap(Wrap(i, m), m) == i
  {
  }

  // ---- reading from a cursor -----------------------------------------------

  /** `Decoder::take`: the next `n` bytes and what is left. */
  function Take(bs: Bytes, n: nat): Result<(Bytes, Bytes)> {
    if |bs| < n then Err(Truncated) else Ok((bs[..n], bs[n..]))
  }

  function DecUint(bs: Bytes, w: nat): Result<(nat, Bytes)> {
    match Take(bs, w)
    case Err(e) => Err(e)
    case Ok((head, rest)) => Ok((UnLe(head), rest))
  }

  lemma {:induction false} DecUintTrip(n: nat, w: nat, rest: Bytes)
    requires n < Pow256(w)
    ensures DecUint(Le(n, w) + rest, w) == Ok((n, rest))
  {
    UnLeLe(n, w);
    assert (Le(n, w) + rest)[..w] == Le(n, w);
  }

  // ---- UTF-8 ---------------------------------------------------------------

  predicate Continues(b: Byte) { 0x80 <= b <= 0xBF }

  /** The length of the well-formed sequence `bs` starts with, or 0. */
  function Utf8Step(bs: Bytes): (n: nat)
    ensures n <= |bs|
  {
    if bs == [] then 0
    else if bs[0] <= 0x7F then 1
    else if |bs| >= 2 && 0xC2 <= bs[0] <= 0xDF && Continues(bs[1]) then 2
    else if |bs| >= 3 && 0xE0 <= bs[0] <= 0xEF && Continues(bs[1]) && Continues(bs[2])
         && (bs[0] == 0xE0 ==> bs[1] >= 0xA0) && (bs[0] == 0xED ==> bs[1] <= 0x9F) then 3
    else if |bs| >= 4 && 0xF0 <= bs[0] <= 0xF4 && Continues(bs[1]) && Continues(bs[2]) && Continues(bs[3])
         && (bs[0] == 0xF0 ==> bs[1] >= 0x90) && (bs[0] == 0xF4 ==> bs[1] <= 0x8F) then 4
    else 0
  }

  /** What `String::from_utf8` accepts. */
  predicate Utf8(bs: Bytes)
    decreases |bs|
  {
    bs == [] || (Utf8Step(bs) > 0 && Utf8(bs[Utf8Step(bs)..]))
  }

  // ---- values --------------------------------------------------------------

  /** What the Rust types guarantee of a value; a text must also be shorter than
      4 GiB, because its length is cut to 32 bits. */
  predicate Fits(v: Value) {
    match v
    case Null => true
    case Int(i) => Signed(i, U64)
    case Float(bits) => bits < U64
    case Text(bytes) => |bytes| < U32 && Utf8(bytes)
    case Bool(_) => true
    case Decimal(m, s) => Signed(m, U128) && s < U32
  }

  function EncBytes(bs: Bytes): Bytes { Le(|bs| % U32, 4) + bs }

  function EncValue(v: Value): (r: Bytes)
    ensures r != []
  {
    match v
    case Null => [0]
    case Int(i) => [1] + Le(if Signed(i, U64) then Wrap(i, U64) else 0, 8)
    case Float(bits) => [2] + Le(bits, 8)
    case Text(bytes) => [3] + EncBytes(bytes)
    case Bool(b) => [4, if b then 1 else 0]
    case Decimal(m, s) => [5] + EncDecimal(if Signed(m, U128) then Wrap(m, U128) else 0, s)
  }

  /** The mantissa's high and low 64 bits, then the scale. */
  function EncDecimal(u: nat, s: nat): Bytes { Le(u / U64, 8) + (Le(u % U64, 8) + Le(s, 4)) }

  function DecString(bs: Bytes): Result<(Bytes, Bytes)> {
    match DecUint(bs, 4)
    case Err(e) => Err(e)
    case Ok((n, rest)) =>
      match Take(rest, n)
      case Err(e) => Err(e)
      case Ok((text, rest')) => if Utf8(text) then Ok((text, rest')) else Err(Malformed)
  }

  function DecDecimal(bs: Bytes): Result<(Value, Bytes)> {
    match DecUint(bs, 8)
    case Err(e) => Err(e)
    case Ok((hi, r1)) =>
      match DecUint(r1, 8)
      case Err(e) => Err(e)
      case Ok((lo, r2)) =>
        match DecUint(r2, 4)
        case Err(e) => Err(e)
        case Ok((scale, r3)) => Ok((Decimal(Unwrap(hi * U64 + lo, U128), scale), r3))
  }

  function DecValue(bs: Bytes): Result<(Value, Bytes)> {
    match DecUint(bs, 1)
    case Err(e) => Err(e)
    case Ok((tag, rest)) =>
      if tag == 0 then Ok((Null, rest))
      else if tag == 1 then
        match DecUint(rest, 8) { case Err(e) => Err(e) case Ok((n, r)) => Ok((Int(Unwrap(n, U64)), r)) }
      else if tag == 2 then
        match DecUint(rest, 8) { case Err(e) => Err(e) case Ok((n, r)) => Ok((Float(n), r)) }
      else if tag == 3 then
        match DecString(rest) { case Err(e) => Err(e) case Ok((t, r)) => Ok((Text(t), r)) }
      else if tag == 4 then
        match DecUint(rest, 1) { case Err(e) => Err(e) case Ok((b, r)) => Ok((Bool(b != 0), r)) }
      else if tag == 5 then DecDecimal(rest)
      else Err(Malformed)
  }

  lemma {:induction false} DecTag(tag: Byte, rest: Bytes)
    ensures DecUint([tag] + rest, 1) == Ok((tag, rest))
  {
    var bs := [tag] + rest;
    assert bs[..1] == [tag] && bs[1..] == rest;
    assert UnLe([tag]) == tag by { assert [tag][1..] == []; }
  }

  lemma {:induction false} StringTrip(text: Bytes, rest: Bytes)
    requires |text| < U32 && Utf8(text)
    ensures DecString(EncBytes(text) + rest) == Ok((text, rest))
  {
    hide DecUint;
    hide Le;
    hide Pow256;
    hide Utf8;
    Widths();
    DecUintTrip(|text|, 4, text + rest);
    assert EncBytes(text) + rest == Le(|text|, 4) + (text + rest);
    assert (text + rest)[..|text|] == text && (text + rest)[|text|..] == rest;
  }

  lemma {:induction false} SplitWord(u: nat)
    requires u < U128
    ensures u / U64 < U64 && u % U64 < U64 && (u / U64) * U64 + u % U64 == u
  {
  }

  lemma {:induction false} DecimalTrip(m: int, s: nat, rest: Bytes)
    requires Signed(m, U128) && s < U32
    ensures 0 <= Wrap(m, U128) && DecDecimal(EncDecimal(Wrap(m, U128), s) + rest) == Ok((Decimal(m, s), rest))
  {
    hide DecUint;
    hide Le;
    hide Pow256;
    Widths();
    WrapTrip(m, U128);
    var u := Wrap(m, U128);
    SplitWord(u);
    hide Wrap;
    hide Unwrap;
    var (hi, lo) := (u / U64, u % U64);
    var tail := Le(s, 4) + rest;
    assert EncDecimal(u, s) + rest == Le(hi, 8) + (Le(lo, 8) + tail);
    DecUintTrip(hi, 8, Le(lo, 8) + tail);
    DecUintTrip(lo, 8, tail);
    DecUintTrip(s, 4, rest);
  }

  lemma {:induction false} FittingValueTrip(v: Value, rest: Bytes)
    requires Fits(v)
    ensures DecValue(EncValue(v) + rest) == Ok((v, rest))
  {
    hide DecUint;
    hide DecDecimal;
    hide DecString;
    hide EncDecimal;
    hide EncBytes;
    hide Le;
    hide Pow256;
    hide Utf8;
    Widths();
    var body := EncValue(v)[1..];
    assert EncValue(v) + rest == [EncValue(v)[0]] + (body + rest);
    DecTag(EncValue(v)[0], body + rest);
    match v
    case Null => assert body + rest == rest;
    case Int(i) =>
      WrapTrip(i, U64);
      DecUintTrip(Wrap(i, U64), 8, rest);
    case Float(bits) => DecUintTrip(bits, 8, rest);
    case Text(bytes) => StringTrip(bytes, rest);
    case Bool(b) => DecTag(if b then 1 else 0, rest);
    case Decimal(m, s) => DecimalTrip(m, s, rest);
  }

  lemma {:induction false} DecUintFits(bs: Bytes, w: nat)
    ensures DecUint(bs, w).Ok? ==> DecUint(bs, w).value.0 < Pow256(w)
  {
    if |bs| >= w { LeUnLe(bs[..w]); }
  }

  lemma {:induction false} DecDecimalFits(bs: Bytes)
    ensures DecDecimal(bs).Ok? ==> Fits(DecDecimal(bs).value.0)
  {
    hide DecUint;
    hide Pow256;
    Widths();
    DecUintFits(bs, 8);
    if DecUint(bs, 8).Ok? {
      var (hi, r1) := DecUint(bs, 8).value;
      DecUintFits(r1, 8);
      if DecUint(r1, 8).Ok? {
        var (lo, r2) := DecUint(r1, 8).value;
        DecUintFits(r2, 4);
        WordFits(hi, lo);
        hide Unwrap;
        hide Signed;
      }
    }
  }

  lemma {:induction false} WordFits(hi: nat, lo: nat)
    requires hi < U64 && lo < U64
    ensures Signed(Unwrap(hi * U64 + lo, U128), U128)
  {
    assert hi * U64 <= (U64 - 1) * U64;
  }

  /** Whatever a decoder returns fits. */
  lemma {:induction false} DecValueFits(bs: Bytes)
    ensures DecValue(bs).Ok? ==> Fits(DecValue(bs).value.0)
  {
    hide DecUint;
    hide DecDecimal;
    hide Pow256;
    hide Utf8;
    Widths();
    if DecUint(bs, 1).Ok? {
      var rest := DecUint(bs, 1).value.1;
      DecUintFits(rest, 8);
      DecUintFits(rest, 4);
      DecDecimalFits(rest);
    }
  }

  /** Every value decodes back to itself, leaving exactly what followed it, if and
      only if it fits. */
  lemma {:induction false} ValueTrip(v: Value, rest: Bytes)
    ensures DecValue(EncValue(v) + rest) == Ok((v, rest)) <==> Fits(v)
  {
    DecValueFits(EncValue(v) + rest);
    hide DecValue;
    hide EncValue;
    if Fits(v) { FittingValueTrip(v, rest); }
  }

  /** A text of 4 GiB or more does not survive: its length prefix is cut to 32 bits. */
  lemma {:induction false} LongTextLost(text: Bytes, rest: Bytes)
    requires |text| >= U32
    ensures DecValue(EncValue(Text(text)) + rest) != Ok((Text(text), rest))
  {
    ValueTrip(Text(text), rest);
    hide DecValue;
    hide EncValue;
  }

  // ---- rows ----------------------------------------------------------------

  predicate RowFits(row: seq<Value>) { |row| < U32 && forall i :: 0 <= i < |row| ==> Fits(row[i]) }

  function EncValues(vs: seq<Value>): Bytes { if vs == [] then [] else EncValue(vs[0]) + EncValues(vs[1..]) }

  function EncRow(row: seq<Value>): Bytes { Le(|row| % U32, 4) + EncValues(row) }

  function DecValues(bs: Bytes, n: nat): Result<(seq<Value>, Bytes)>
    decreases n
  {
    if n == 0 then Ok(([], bs))
    else
      match DecValue(bs)
      case Err(e) => Err(e)
      case Ok((v, rest)) =>
        match DecValues(rest, n - 1)
        case Err(e) => Err(e)
        case Ok((vs, rest')) => Ok(([v] + vs, rest'))
  }

  function DecRow(bs: Bytes): Result<(seq<Value>, Bytes)> {
    match DecUint(bs, 4)
    case Err(e) => Err(e)
    case Ok((n, rest)) => DecValues(rest, n)
  }

  lemma {:induction false} ValuesTrip(vs: seq<Value>, rest: Bytes)
    requires forall i :: 0 <= i < |vs| ==> Fits(vs[i])
    ensures DecValues(EncValues(vs) + rest, |vs|) == Ok((vs, rest))
    decreases |vs|
  {
    hide DecValue;
    hide EncValue;
    hide Fits;
    if vs == [] {
      assert EncValues(vs) + rest == rest;
    } else {
      ValuesTrip(vs[1..], rest);
      FittingValueTrip(vs[0], EncValues(vs[1..]) + rest);
      assert EncValues(vs) + rest == EncValue(vs[0]) + (EncValues(vs[1..]) + rest);
      assert [vs[0]] + vs[1..] == vs;
    }
  }

  lemma {:induction false} DecValuesFit(bs: Bytes, n: nat)
    ensures DecValues(bs, n).Ok? ==>
      |DecValues(bs, n).value.0| == n && forall i :: 0 <= i < n ==> Fits(DecValues(bs, n).value.0[i])
    decreases n
  {
    hide DecValue;
    hide Fits;
    if n > 0 && DecValue(bs).Ok? {
      DecValueFits(bs);
      DecValuesFit(DecValue(bs).value.1, n - 1);
    }
  }

  lemma {:induction false} DecRowFits(bs: Bytes)
    ensures DecRow(bs).Ok? ==> RowFits(DecRow(bs).value.0)
  {
    hide DecUint;
    hide Pow256;
    hide DecValues;
    hide Fits;
    Widths();
    DecUintFits(bs, 4);
    if DecUint(bs, 4).Ok? {
      var (n, rest) := DecUint(bs, 4).value;
      DecValuesFit(rest, n);
    }
  }

  /** Every row decodes back to itself, leaving exactly what followed it, if and only
      if it fits. */
  lemma {:induction false} RowTrip(row: seq<Value>, rest: Bytes)
    ensures DecRow(EncRow(row) + rest) == Ok((row, rest)) <==> RowFits(row)
  {
    DecRowFits(EncRow(row) + rest);
    hide DecRow;
    hide EncRow;
    hide RowFits;
    if RowFits(row) { FittingRowTrip(row, rest); }
  }

  lemma {:induction false} FittingRowTrip(row: seq<Value>, rest: Bytes)
    requires RowFits(row)
    ensures DecRow(EncRow(row) + rest) == Ok((row, rest))
  {
    hide DecUint;
    hide Le;
    hide Pow256;
    hide Fits;
    hide EncValues;
    hide DecValues;
    Widths();
    DecUintTrip(|row|, 4, EncValues(row) + rest);
    assert EncRow(row) + rest == Le(|row|, 4) + (EncValues(row) + rest);
    ValuesTrip(row, rest);
  }

  // ---- bytes behind --------------------------------------------------------

  lemma {:induction false} DecUintMore(bs: Bytes, w: nat, more: Bytes)
    requires DecUint(bs, w).Ok?
    ensures DecUint(bs + more, w) == Ok((DecUint(bs, w).value.0, DecUint(bs, w).value.1 + more))
  {
    assert (bs + more)[..w] == bs[..w] && (bs + more)[w..] == bs[w..] + more;
  }

  lemma {:induction false} DecStringMore(bs: Bytes, more: Bytes)
    requires DecString(bs).Ok?
    ensures DecString(bs + more) == Ok((DecString(bs).value.0, DecString(bs).value.1 + more))
  {
    hide DecUint;
    hide Utf8;
    DecUintMore(bs, 4, more);
    var (n, rest) := DecUint(bs, 4).value;
    assert (rest + more)[..n] == rest[..n] && (rest + more)[n..] == rest[n..] + more;
  }

  lemma {:induction false} DecDecimalMore(bs: Bytes, more: Bytes)
    requires DecDecimal(bs).Ok?
    ensures DecDecimal(bs + more) == Ok((DecDecimal(bs).value.0, DecDecimal(bs).value.1 + more))
  {
    hide DecUint;
    hide Unwrap;
    DecUintMore(bs, 8, more);
    var (_, r1) := DecUint(bs, 8).value;
    DecUintMore(r1, 8, more);
    var (_, r2) := DecUint(r1, 8).value;
    DecUintMore(r2, 4, more);
  }

  /** A decoder reads the same whatever bytes are behind. */
  lemma {:induction false} DecValueMore(bs: Bytes, more: Bytes)
    requires DecValue(bs).Ok?
    ensures DecValue(bs + more) == Ok((DecValue(bs).value.0, DecValue(bs).value.1 + more))
  {
    hide DecUint;
    hide DecString;
    hide DecDecimal;
    hide Unwrap;
    DecUintMore(bs, 1, more);
    var (tag, rest) := DecUint(bs, 1).value;
    if tag == 1 || tag == 2 {
      DecUintMore(rest, 8, more);
    } else if tag == 3 {
      DecStringMore(rest, more);
    } else if tag == 4 {
      DecUintMore(rest, 1, more);
    } else if tag == 5 {
      DecDecimalMore(rest, more);
    }
  }

  lemma {:induction false} DecValuesMore(bs: Bytes, n: nat, more: Bytes)
    requires DecValues(bs, n).Ok?
    ensures DecValues(bs + more, n) == Ok((DecValues(bs, n).value.0, DecValues(bs, n).value.1 + more))
    decreases n
  {
    hide DecValue;
    if n > 0 {
      DecValueMore(bs, more);
      DecValuesMore(DecValue(bs).value.1, n - 1, more);
    }
  }

  lemma {:induction false} DecRowMore(bs: Bytes, more: Bytes)
    requires DecRow(bs).Ok?
    ensures DecRow(bs + more) == Ok((DecRow(bs).value.0, DecRow(bs).value.1 + more))
  {
    hide DecUint;
    hide DecValues;
    DecUintMore(bs, 4, more);
    DecValuesMore(DecUint(bs, 4).value.1, DecUint(bs, 4).value.0, more);
  }

  // ---- frames --------------------------------------------------------------

  function CrcBit(crc: bv32): bv32 { if crc & 1 == 1 then (crc >> 1) ^ 0xEDB8_8320 else crc >> 1 }

  function CrcBits(crc: bv32, n: nat): bv32
    decreases n
  {
    if n == 0 then crc else CrcBits(CrcBit(crc), n - 1)
  }

  function CrcFrom(crc: bv32, data: Bytes): bv32
    decreases |data|
  {
    if data == [] then crc else CrcFrom(CrcBits(Xor(crc, AsBits(data[0])), 8), data[1..])
  }

  function Xor(a: bv32, b: bv32): bv32 { a ^ b }

  function AsBits(b: Byte): bv32 { Octet(b) as bv32 }

  function LowByte(x: bv32): Byte { ((x & 0xFF) as bv8) as int }

  function Down8(x: bv32): bv32 { x >> 8 }

  function AsNat(x: bv32): (n: nat)
    ensures n < U32
  {
    LowByte(x) + 0x100 * LowByte(Down8(x)) + 0x1_0000 * LowByte(Down8(Down8(x))) + 0x100_0000 * LowByte(Down8(Down8(Down8(x))))
  }

  const ONES: bv32 := 0xFFFF_FFFF

  /** CRC-32 of IEEE 802.3, section 3.2.9, reflected. */
  function Crc32(data: Bytes): (c: nat)
    ensures c < U32
  {
    AsNat(Xor(ONES, CrcFrom(ONES, data)))
  }

  function Frame(payload: Bytes): Bytes { Le(|payload| % U32, 4) + Le(Crc32(payload), 4) + payload }

  /** One frame off the front: its payload and what follows. */
  function Unframe(bs: Bytes): Result<(Bytes, Bytes)> {
    if |bs| < 8 then Err(Truncated)
    else
      var (len, crc) := (UnLe(bs[..4]), UnLe(bs[4..8]));
      if |bs| < 8 + len then Err(Truncated)
      else if Crc32(bs[8..8 + len]) != crc then Err(BadChecksum)
      else Ok((bs[8..8 + len], bs[8 + len..]))
  }

  lemma {:induction false} FrameSize(payload: Bytes)
    ensures |Frame(payload)| == 8 + |payload|
  {
  }

  /** The length field of a frame holds the payload's length cut to 32 bits. */
  lemma {:induction false} FrameHead(payload: Bytes, rest: Bytes)
    ensures var (bs, n) := (Frame(payload) + rest, |payload| % U32);
      && |bs| >= 8 + n && UnLe(bs[..4]) == n && UnLe(bs[4..8]) == Crc32(payload) && bs[8..8 + n] == payload[..n]
  {
    hide Crc32;
    hide Le;
    hide UnLe;
    hide Pow256;
    Widths();
    var bs := Frame(payload) + rest;
    UnLeLe(|payload| % U32, 4);
    UnLeLe(Crc32(payload), 4);
    assert bs[..4] == Le(|payload| % U32, 4) && bs[4..8] == Le(Crc32(payload), 4);
  }

  /** A framed payload comes back whole, leaving exactly what followed it, if and only
      if it is shorter than 4 GiB; a longer one comes back as its first bytes or not
      at all. */
  lemma {:induction false} FrameTrip(payload: Bytes, rest: Bytes)
    ensures Unframe(Frame(payload) + rest) == Ok((payload, rest)) <==> |payload| < U32
    ensures |payload| >= U32 && Unframe(Frame(payload) + rest).Ok? ==>
      Unframe(Frame(payload) + rest).value.0 == payload[..|payload| % U32]
  {
    hide Crc32;
    hide UnLe;
    FrameHead(payload, rest);
    FrameSize(payload);
    var bs := Frame(payload) + rest;
    if |payload| < U32 {
      assert payload[..|payload|] == payload && bs[8 + |payload|..] == rest;
    }
    hide Frame;
  }

  /** A frame is rejected wherever it is cut short of its end, if and only if its
      payload is shorter than 4 GiB. */
  lemma {:induction false} FrameCut(payload: Bytes)
    ensures (forall k: nat :: k < |Frame(payload)| ==> Unframe(Frame(payload)[..k]) == Err(Truncated)) <==> |payload| < U32
  {
    FrameSize(payload);
    if |payload| < U32 {
      forall k: nat | k < |Frame(payload)| ensures Unframe(Frame(payload)[..k]) == Err(Truncated) { CutTruncated(payload, k); }
    } else {
      CutAccepted(payload);
    }
  }

  lemma {:induction false} CutTruncated(payload: Bytes, k: nat)
    requires |payload| < U32 && k < |Frame(payload)|
    ensures Unframe(Frame(payload)[..k]) == Err(Truncated)
  {
    hide Crc32;
    hide UnLe;
    FrameHead(payload, []);
    FrameSize(payload);
    var f := Frame(payload);
    assert f + [] == f;
    hide Frame;
    if k >= 8 { assert f[..k][..4] == f[..4]; }
  }

  lemma {:induction false} CutAccepted(payload: Bytes)
    requires |payload| >= U32
    ensures Unframe(Frame(payload)[..|payload|]) != Err(Truncated)
  {
    hide Crc32;
    hide UnLe;
    FrameHead(payload, []);
    FrameSize(payload);
    var f := Frame(payload);
    assert f + [] == f;
    hide Frame;
    assert f[..|payload|][..4] == f[..4];
  }

  /** Bytes beyond a frame's end do not matter to it. */
  lemma {:induction false} UnframePrefix(bs: Bytes, m: nat)
    requires Unframe(bs).Ok? && |bs| - |Unframe(bs).value.1| <= m <= |bs|
    ensures var used := |bs| - |Unframe(bs).value.1|;
      8 <= used && Unframe(bs[..m]) == Ok((Unframe(bs).value.0, bs[used..m])) && Unframe(bs).value.1 == bs[used..]
  {
    hide Crc32;
    hide UnLe;
    var len := UnLe(bs[..4]);
    assert bs[..m][..4] == bs[..4] && bs[..m][4..8] == bs[4..8] && bs[..m][8..8 + len] == bs[8..8 + len];
    assert bs[..m][8 + len..] == bs[8 + len..m];
  }

  // ---- the buffer and the cursor -------------------------------------------

  lemma {:induction false} Regroup(a: Bytes, b: Bytes, c: Bytes)
    ensures a + b + c == a + (b + c)
  {
  }

  class Encoder {
    var buf: Bytes

    constructor ()
      ensures buf == []
    {
      buf := [];
    }

    method U8(v: Byte)
      modifies this
      ensures buf == old(buf) + [v]
    {
      buf := buf + [v];
    }

    /** Append `v` in `w` little-endian bytes. */
    method Uint(v: nat, w: nat)
      modifies this
      ensures buf == old(buf) + Le(v, w)
    {
      var left: nat, i: nat := v, 0;
      while i < w
        invariant 0 <= i <= w && buf + Le(left, w - i) == old(buf) + Le(v, w)
      {
        var next := buf + [left % 256];
        assert buf + Le(left, w - i) == next + Le(left / 256, w - i - 1);
        buf, left, i := next, left / 256, i + 1;
      }
    }

    method Str(bytes: Bytes)
      modifies this
      ensures buf == old(buf) + EncBytes(bytes)
    {
      hide Le;
      Uint(|bytes| % U32, 4);
      buf := buf + bytes;
    }

    method Words(u: nat, s: nat)
      modifies this
      ensures buf == old(buf) + EncDecimal(u, s)
    {
      hide Le;
      Uint(u / U64, 8);
      Uint(u % U64, 8);
      Uint(s, 4);
    }

    method Value(v: Value)
      requires Fits(v)
      modifies this
      ensures buf == old(buf) + EncValue(v)
    {
      hide Le;
      hide Utf8;
      hide EncBytes;
      hide EncDecimal;
      hide Wrap;
      ghost var was := buf;
      match v
      case Null => U8(0);
      case Int(i) =>
        WrapTrip(i, U64);
        U8(1);
        Uint(Wrap(i, U64), 8);
        Regroup(was, [1], Le(Wrap(i, U64), 8));
      case Float(bits) =>
        U8(2);
        Uint(bits, 8);
        Regroup(was, [2], Le(bits, 8));
      case Text(bytes) =>
        U8(3);
        Str(bytes);
        Regroup(was, [3], EncBytes(bytes));
      case Bool(b) =>
        U8(4);
        U8(if b then 1 else 0);
      case Decimal(m, s) =>
        WrapTrip(m, U128);
        U8(5);
        Words(Wrap(m, U128), s);
        Regroup(was, [5], EncDecimal(Wrap(m, U128), s));
    }

    method Row(row: seq<Value>)
      requires forall i :: 0 <= i < |row| ==> Fits(row[i])
      modifies this
      ensures buf == old(buf) + EncRow(row)
    {
      hide EncValue;
      Uint(|row| % U32, 4);
      ghost var head := buf;
      for i := 0 to |row|
        invariant buf == head + EncValues(row[..i])
      {
        EncValuesNext(row, i);
        Value(row[i]);
      }
      assert row[..|row|] == row;
    }
  }

  /** A read answers as its specification does, and on success leaves the cursor
      where the specification leaves it. */
  ghost predicate Follows<T(!new)>(r: Result<T>, spec: Result<(T, Bytes)>, rest: Bytes) {
    match spec
    case Ok((v, left)) => r == Ok(v) && rest == left
    case Err(e) => r == Err(e)
  }

  class Decoder {
    const buf: Bytes
    var pos: nat

    ghost predicate Valid()
      reads this
    {
      pos <= |buf|
    }

    ghost function Rest(): Bytes
      requires Valid()
      reads this
    {
      buf[pos..]
    }

    constructor (bytes: Bytes)
      ensures Valid() && buf == bytes && Rest() == bytes
    {
      buf, pos := bytes, 0;
    }

    method TakeNext(n: nat) returns (r: Result<Bytes>)
      requires Valid()
      modifies this
      ensures Valid() && Follows(r, Take(old(Rest()), n), Rest())
    {
      if |buf| - pos < n { return Err(Truncated); }
      r := Ok(buf[pos..pos + n]);
      assert buf[pos..][n..] == buf[pos + n..] && buf[pos..][..n] == buf[pos..pos + n];
      pos := pos + n;
    }

    method Uint(w: nat) returns (r: Result<nat>)
      requires Valid()
      modifies this
      ensures Valid() && Follows(r, DecUint(old(Rest()), w), Rest())
    {
      var b := TakeNext(w);
      r := match b case Ok(bytes) => Ok(UnLe(bytes)) case Err(e) => Err(e);
    }

    method Str() returns (r: Result<Bytes>)
      requires Valid()
      modifies this
      ensures Valid() && Follows(r, DecString(old(Rest())), Rest())
    {
      hide DecUint;
      hide Take;
      hide Utf8;
      var n := Uint(4);
      if n.Err? { return Err(n.error); }
      r := TakeNext(n.value);
      if r.Ok? && !Utf8(r.value) { r := Err(Malformed); }
    }

    method Mantissa() returns (r: Result<Value>)
      requires Valid()
      modifies this
      ensures Valid() && Follows(r, DecDecimal(old(Rest())), Rest())
    {
      hide DecUint;
      var hi := Uint(8);
      if hi.Err? { return Err(hi.error); }
      var lo := Uint(8);
      if lo.Err? { return Err(lo.error); }
      var scale := Uint(4);
      if scale.Err? { return Err(scale.error); }
      r := Ok(Decimal(Unwrap(hi.value * U64 + lo.value, U128), scale.value));
    }

    method Value() returns (r: Result<Value>)
      requires Valid()
      modifies this
      ensures Valid() && Follows(r, DecValue(old(Rest())), Rest())
    {
      hide DecUint;
      hide DecString;
      hide DecDecimal;
      var tag := Uint(1);
      if tag.Err? { return Err(tag.error); }
      if tag.value == 0 {
        r := Ok(Null);
      } else if tag.value == 1 || tag.value == 2 {
        var n := Uint(8);
        if n.Err? { return Err(n.error); }
        r := Ok(if tag.value == 1 then Int(Unwrap(n.value, U64)) else Float(n.value));
      } else if tag.value == 3 {
        var text := Str();
        if text.Err? { return Err(text.error); }
        r := Ok(Text(text.value));
      } else if tag.value == 4 {
        var b := Uint(1);
        if b.Err? { return Err(b.error); }
        r := Ok(Bool(b.value != 0));
      } else if tag.value == 5 {
        r := Mantissa();
      } else {
        r := Err(Malformed);
      }
    }

    method Row() returns (r: Result<seq<Value>>)
      requires Valid()
      modifies this
      ensures Valid() && Follows(r, DecRow(old(Rest())), Rest())
    {
      hide DecUint;
      hide DecValue;
      var n := Uint(4);
      if n.Err? { return Err(n.error); }
      ghost var start := Rest();
      var vs: seq<Value> := [];
      for i := 0 to n.value
        invariant Valid() && DecValues(start, n.value) == Prefixed(vs, DecValues(Rest(), n.value - i))
      {
        var v := Value();
        if v.Err? { return Err(v.error); }
        PrefixedTwice(vs, v.value, DecValues(Rest(), n.value - i - 1));
        vs := vs + [v.value];
      }
      assert vs + [] == vs;
      r := Ok(vs);
    }
  }

  /** A result with values already read put in front. */
  ghost function Prefixed(vs: seq<Value>, r: Result<(seq<Value>, Bytes)>): (p: Result<(seq<Value>, Bytes)>)
    ensures vs == [] ==> p == r
  {
    match r
    case Ok((more, rest)) => (assert vs == [] ==> vs + more == more; Ok((vs + more, rest)))
    case Err(e) => Err(e)
  }

  lemma {:induction false} PrefixedTwice(vs: seq<Value>, v: Value, r: Result<(seq<Value>, Bytes)>)
    ensures Prefixed(vs, Prefixed([v], r)) == Prefixed(vs + [v], r)
  {
    if r.Ok? { assert vs + ([v] + r.value.0) == vs + [v] + r.value.0; }
  }

  lemma {:induction false} EncValuesNext(vs: seq<Value>, i: nat)
    requires i < |vs|
    ensures EncValues(vs[..i+1]) == EncValues(vs[..i]) + EncValue(vs[i])
  {
    EncValuesAppend(vs[..i], [vs[i]]);
    assert vs[..i+1] == vs[..i] + [vs[i]];
    assert EncValues([vs[i]]) == EncValue(vs[i]) by { assert [vs[i]][1..] == []; }
  }

  lemma {:induction false} EncValuesAppend(a: seq<Value>, b: seq<Value>)
    ensures EncValues(a + b) == EncValues(a) + EncValues(b)
  {
    hide EncValue;
    if a == [] {
      assert a + b == b;
    } else {
      EncValuesAppend(a[1..], b);
      assert (a + b)[1..] == a[1..] + b;
    }
  }
}
