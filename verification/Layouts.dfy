/** Where each field of an encoded value, row or log record stands on disk
    (src/codec.rs:84-122; src/wal.rs:23-31, 100-133). */
module Layouts {
  import opened Values
  import opened Codec
  import opened WalBytes
  import Decimals

  /** Little-endian: byte `k` counts 256 to the `k`. */
  lemma {:induction false} LeDigit(n: nat, w: nat, k: nat)
    requires k < w
    ensures Le(n, w)[k] == (n / Pow256(k)) % 256
  {
    if k == 0 {
      assert n / Pow256(0) == n;
    } else {
      LeDigit(n / 256, w - 1, k - 1);
      DivTwice(n, 256, Pow256(k - 1));
    }
  }

  lemma {:induction false} Quotient(q: int, d: nat, r: nat)
    requires r < d
    ensures (q * d + r) / d == q && (q * d + r) % d == r
  {
    var n := q * d + r;
    var e := n / d - q;
    assert e * d == (n / d) * d - q * d == r - n % d;
    Decimals.NonzeroMultiple(e, d);
  }

  lemma {:induction false} DivTwice(n: nat, a: nat, b: nat)
    requires a > 0 && b > 0
    ensures a * b > 0 && (n / a) / b == n / (a * b)
  {
    var (m, q) := (n / a, (n / a) / b);
    var r := (m % b) * a + n % a;
    Rest(m % b, n % a, a, b);
    assert m == q * b + m % b && n == m * a + n % a;
    assert (q * b + m % b) * a == q * (a * b) + (m % b) * a;
    assert n == q * (a * b) + r;
    Quotient(q, a * b, r);
  }

  lemma {:induction false} Rest(x: nat, y: nat, a: nat, b: nat)
    requires x < b && y < a
    ensures 0 <= x * a + y < a * b
  {
    Decimals.NonzeroMultiple(b - x, a);
    assert (b - x) * a == b * a - x * a;
  }

  lemma {:induction false} WrapIsMod(i: int, m: nat)
    requires m > 0 && Signed(i, m)
    ensures Wrap(i, m) == i % m
  {
  }

  /** A value is its tag and then its content: the tags are 0 to 5 for NULL, integer,
      float, text, boolean and decimal. */
  lemma {:induction false} ValueLayout(v: Value)
    requires Fits(v)
    ensures var bs := EncValue(v);
      match v
      case Null => bs == [0]
      case Int(i) => |bs| == 9 && bs[0] == 1 && UnLe(bs[1..]) == i % U64
      case Float(bits) => |bs| == 9 && bs[0] == 2 && UnLe(bs[1..]) == bits
      case Text(text) => |bs| == 5 + |text| && bs[0] == 3 && UnLe(bs[1..5]) == |text| && bs[5..] == text
      case Bool(b) => bs == [4, if b then 1 else 0]
      case Decimal(m, s) =>
        |bs| == 21 && bs[0] == 5 && UnLe(bs[1..9]) == (m % U128) / U64 && UnLe(bs[9..17]) == m % U64 && UnLe(bs[17..]) == s
  {
    hide Le;
    hide UnLe;
    hide Pow256;
    hide Utf8;
    Widths();
    match v
    case Int(i) =>
      WrapIsMod(i, U64);
      UnLeLe(i % U64, 8);
      assert EncValue(v)[1..] == Le(i % U64, 8);
    case Float(bits) =>
      UnLeLe(bits, 8);
      assert EncValue(v)[1..] == Le(bits, 8);
    case Text(text) =>
      UnLeLe(|text|, 4);
      assert EncValue(v) == [3] + Le(|text|, 4) + text;
      assert EncValue(v)[1..5] == Le(|text|, 4) && EncValue(v)[5..] == text;
    case Decimal(m, s) =>
      WrapIsMod(m, U128);
      DecimalLayout(m % U128, s);
      LowWord(m);
      assert EncValue(v) == [5] + EncDecimal(m % U128, s);
      hide EncDecimal;
      var d := EncDecimal(m % U128, s);
      assert EncValue(v)[1..9] == d[..8] && EncValue(v)[9..17] == d[8..16] && EncValue(v)[17..] == d[16..];
    case _ =>
  }

  lemma {:induction false} LowWord(m: int)
    ensures (m % U128) % U64 == m % U64
  {
    var q := m / U128;
    assert m == q * U128 + m % U128 && U128 == U64 * U64;
    ModSame(m % U128, q * U64, U64);
    assert (q * U64) * U64 == q * U128;
  }

  lemma {:induction false} ModSame(r: nat, q: int, d: nat)
    requires d > 0
    ensures (r + q * d) % d == r % d
  {
    assert r + q * d == (r / d + q) * d + r % d;
    Quotient(r / d + q, d, r % d);
  }

  lemma {:induction false} DecimalLayout(u: nat, s: nat)
    requires u < U128 && s < U32
    ensures var bs := EncDecimal(u, s);
      |bs| == 20 && UnLe(bs[..8]) == u / U64 && UnLe(bs[8..16]) == u % U64 && UnLe(bs[16..]) == s
  {
    hide Le;
    hide UnLe;
    hide Pow256;
    Widths();
    SplitWord(u);
    UnLeLe(u / U64, 8);
    UnLeLe(u % U64, 8);
    UnLeLe(s, 4);
    var bs := EncDecimal(u, s);
    assert bs[..8] == Le(u / U64, 8) && bs[8..16] == Le(u % U64, 8) && bs[16..] == Le(s, 4);
  }

  /** A row is its number of values, then the values one after another. */
  lemma {:induction false} RowLayout(row: seq<Value>, i: nat)
    requires |row| < U32 && i < |row|
    ensures var (bs, at) := (EncRow(row), 4 + |EncValues(row[..i])|);
      && |bs| >= at + |EncValue(row[i])| && UnLe(bs[..4]) == |row|
      && bs[at..at + |EncValue(row[i])|] == EncValue(row[i])
      && |EncRow(row)| == 4 + |EncValues(row)|
  {
    hide Le;
    hide UnLe;
    hide Pow256;
    hide EncValue;
    Widths();
    UnLeLe(|row|, 4);
    EncValuesAppend(row[..i], row[i..]);
    assert row == row[..i] + row[i..];
    var rest := EncValues(row[i..][1..]);
    assert EncValues(row[i..]) == EncValue(row[i]) + rest;
    var bs := EncRow(row);
    assert bs == Le(|row|, 4) + EncValues(row[..i]) + EncValue(row[i]) + rest;
    assert bs[..4] == Le(|row|, 4);
  }

  /** A record is its code, 1 to 5 for insert, delete, seal, checkpoint and transaction;
      the table and the stamp; and the row, the key or the part id. */
  lemma {:induction false} RecordLayout(r: LogRecord)
    requires RecordFits(r)
    ensures var bs := EncRecord(r);
      match r
      case Insert(t, c, row) => |bs| >= 13 && bs[0] == 1 && Stamped(bs[1..13], t, c) && bs[13..] == EncRow(row)
      case Delete(t, c, key) => |bs| >= 13 && bs[0] == 2 && Stamped(bs[1..13], t, c) && bs[13..] == EncValue(key)
      case Seal(t, c, id) => |bs| == 21 && bs[0] == 3 && Stamped(bs[1..13], t, c) && UnLe(bs[13..]) == id
      case Checkpoint(c) => |bs| == 9 && bs[0] == 4 && UnLe(bs[1..]) == c
      case Transaction(ops) => |bs| >= 5 && bs[0] == 5 && UnLe(bs[1..5]) == |ops| && bs[5..] == EncOps(ops)
  {
    hide Le;
    hide UnLe;
    hide Pow256;
    hide Fits;
    hide RowFits;
    hide OpFits;
    hide EncRow;
    hide EncValue;
    hide EncOps;
    hide Stamped;
    Widths();
    match r
    case Insert(t, c, row) => StampedAt(1, t, c, EncRow(row));
    case Delete(t, c, key) => StampedAt(2, t, c, EncValue(key));
    case Seal(t, c, id) =>
      UnLeLe(id, 8);
      StampedAt(3, t, c, Le(id, 8));
    case Checkpoint(c) =>
      UnLeLe(c, 8);
      Tailed(4, Le(c, 8));
    case Transaction(ops) =>
      UnLeLe(|ops|, 4);
      Counted(5, Le(|ops|, 4), EncOps(ops));
  }

  lemma {:induction false} Tailed(code: Byte, rest: Bytes)
    ensures ([code] + rest)[0] == code && ([code] + rest)[1..] == rest
  {
  }

  lemma {:induction false} Counted(code: Byte, count: Bytes, rest: Bytes)
    requires |count| == 4
    ensures var bs := [code] + (count + rest); |bs| == 5 + |rest| && bs[0] == code && bs[1..5] == count && bs[5..] == rest
  {
  }

  /** Twelve bytes that hold a table and a stamp. */
  ghost predicate Stamped(bs: Bytes, t: nat, c: nat) { |bs| == 12 && UnLe(bs[..4]) == t && UnLe(bs[4..]) == c }

  lemma {:induction false} StampedAt(code: Byte, t: nat, c: nat, body: Bytes)
    requires t < U32 && c < U64
    ensures var bs := [code] + (Le(t, 4) + (Le(c, 8) + body));
      |bs| == 13 + |body| && bs[0] == code && Stamped(bs[1..13], t, c) && bs[13..] == body
  {
    hide Le;
    hide UnLe;
    hide Pow256;
    Widths();
    UnLeLe(t, 4);
    UnLeLe(c, 8);
    var bs := [code] + (Le(t, 4) + (Le(c, 8) + body));
    assert bs[1..13] == Le(t, 4) + Le(c, 8);
    assert bs[1..13][..4] == Le(t, 4) && bs[1..13][4..] == Le(c, 8);
  }

  /** An operation of a transaction: table, stamp, 1 for a put or 2 for a delete, and the
      row or the key. */
  lemma {:induction false} OpLayout(op: TxnOp)
    requires OpFits(op)
    ensures var bs := EncOp(op);
      && |bs| >= 13 && Stamped(bs[..12], op.table, op.csn)
      && bs[12..] == if op.TxnPut? then [1] + EncRow(op.row) else [2] + EncValue(op.key)
  {
    hide Fits;
    hide RowFits;
    hide EncRow;
    hide EncValue;
    var body := if op.TxnPut? then [1] + EncRow(op.row) else [2] + EncValue(op.key);
    StampedAt(0, op.table, op.csn, body);
    var bs := [0] + EncOp(op);
    assert bs[1..13] == EncOp(op)[..12] && bs[13..] == EncOp(op)[12..];
  }
}
