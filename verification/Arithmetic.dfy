/** Integer and decimal arithmetic of SQL expressions, and storing a decimal in a column
    of declared precision (src/sql/expr.rs:196-290, src/value.rs:161-190, 299-320). */
module Arithmetic {
  import opened Values
  import opened Wrappers
  import opened Decimals
  import opened Zonemap

  const MIN64: int := -0x8000_0000_0000_0000
  const MAX64: int := 0x7FFF_FFFF_FFFF_FFFF
  const TWO64: int := 0x1_0000_0000_0000_0000

  /** The 64-bit two's complement integer congruent to `x`. */
  function Wrap64(x: int): int { (x - MIN64) % TWO64 + MIN64 }

  /** Division as the machine does it, towards zero, and its remainder. */
  function Quot(a: int, b: int): int
    requires b != 0
  {
    if b > 0 then TruncDiv(a, b) else -TruncDiv(a, -b)
  }

  function Rem(a: int, b: int): int
    requires b != 0
  {
    a - Quot(a, b) * b
  }

  datatype Outcome = Result(v: Value) | Panic

  function IntArith(op: Op, a: int, b: int): Outcome
    requires Arithmetic(op)
  {
    match op
    case Add => Result(Int(Wrap64(a + b)))
    case Sub => Result(Int(Wrap64(a - b)))
    case Mul => Result(Int(Wrap64(a * b)))
    case Div => if b == 0 then Result(Null) else if a == MIN64 && b == -1 then Panic else Result(Int(Quot(a, b)))
    case _ => if b == 0 then Result(Null) else Result(Int(Wrap64(Rem(a, b))))
  }

  function Checked(m: int, scale: nat): Option<Value> { if InI128(m) then Some(Decimal(m, scale)) else None }

  /** The exact path: no division, and nothing may overflow. */
  function DecArith(op: Op, m: int, s: nat, n: int, t: nat): Option<Value> {
    if op.Mul? then Checked(m * n, s + t)
    else if op.Add? || op.Sub? then
      var scale := if s < t then t else s;
      match (Rescale(m, s, scale), Rescale(n, t, scale))
      case (Some(x), Some(y)) => Checked(if op.Add? then x + y else x - y, scale)
      case _ => None
    else None
  }

  /** `viaF64` is the floating-point path, which is not looked into. */
  function Arith(viaF64: (Op, Value, Value) -> Value, op: Op, l: Value, r: Value): Outcome
    requires Arithmetic(op)
  {
    if l.Null? || r.Null? then Result(Null)
    else if l.Int? && r.Int? then IntArith(op, l.i, r.i)
    else if ExactPair(l, r) && DecArith(op, AsDec(l).value.0, AsDec(l).value.1, AsDec(r).value.0, AsDec(r).value.1).Some? then
      Result(DecArith(op, AsDec(l).value.0, AsDec(l).value.1, AsDec(r).value.0, AsDec(r).value.1).value)
    else Result(viaF64(op, l, r))
  }

  // ---- integers ------------------------------------------------------------

  lemma {:induction false} WrapExact(x: int)
    ensures InI64(Wrap64(x)) && (Wrap64(x) - x) % TWO64 == 0 && (Wrap64(x) == x <==> InI64(x))
  {
    var k := (x - MIN64) / TWO64;
    assert Wrap64(x) - x == -k * TWO64;
    Multiples(-k);
  }

  lemma {:induction false} Multiples(k: int)
    ensures (k * TWO64) % TWO64 == 0
  {
  }

  ghost function TrueResult(op: Op, a: int, b: int): int
    requires op.Add? || op.Sub? || op.Mul?
  {
    match op case Add => a + b case Sub => a - b case _ => a * b
  }

  /** Sums, differences and products are right modulo 2^64, and right outright exactly
      when they fit in 64 bits. */
  lemma {:induction false} IntegersWrap(viaF64: (Op, Value, Value) -> Value, op: Op, a: int, b: int)
    requires op.Add? || op.Sub? || op.Mul?
    ensures exists c :: Arith(viaF64, op, Int(a), Int(b)) == Result(Int(c)) && RightModulo(c, TrueResult(op, a, b))
  {
    var x := TrueResult(op, a, b);
    WrapExact(x);
    assert Arith(viaF64, op, Int(a), Int(b)) == Result(Int(Wrap64(x)));
  }

  ghost predicate RightModulo(c: int, x: int) { InI64(c) && (c - x) % TWO64 == 0 && (c == x <==> InI64(x)) }

  /** Dividing by zero is NULL. Otherwise quotient and remainder are those of division
      towards zero: the remainder is smaller than the divisor and has the sign of the
      dividend; but the one quotient that does not fit stops the program. */
  lemma {:induction false} IntegersDivide(viaF64: (Op, Value, Value) -> Value, a: int, b: int)
    requires InI64(a) && InI64(b)
    ensures b == 0 ==> Arith(viaF64, Div, Int(a), Int(b)) == Arith(viaF64, Mod, Int(a), Int(b)) == Result(Null)
    ensures Arith(viaF64, Div, Int(a), Int(b)) == Panic <==> a == MIN64 && b == -1
    ensures b != 0 && !(a == MIN64 && b == -1) ==>
      exists q, r :: Divides(a, b, q, r) && Arith(viaF64, Div, Int(a), Int(b)) == Result(Int(q)) && Arith(viaF64, Mod, Int(a), Int(b)) == Result(Int(r))
    ensures a == MIN64 && b == -1 ==> Arith(viaF64, Mod, Int(a), Int(b)) == Result(Int(0))
  {
    if b != 0 {
      var (q, r) := (Quot(a, b), Rem(a, b));
      Truncated(a, b);
      if !(a == MIN64 && b == -1) {
        WrapExact(r);
        assert Arith(viaF64, Div, Int(a), Int(b)) == Result(Int(q)) && Arith(viaF64, Mod, Int(a), Int(b)) == Result(Int(r));
      }
    }
  }

  ghost predicate Divides(a: int, b: int, q: int, r: int) {
    InI64(q) && a == q * b + r && Abs(r) < Abs(b) && (r != 0 ==> (r > 0 <==> a > 0))
  }

  lemma {:induction false} Truncated(a: int, b: int)
    requires b != 0
    ensures var (q, r) := (Quot(a, b), Rem(a, b));
      a == q * b + r && Abs(r) < Abs(b) && (r != 0 ==> (r > 0 <==> a > 0)) && Abs(q) <= Abs(a) && (Abs(b) >= 2 && a != 0 ==> Abs(q) < Abs(a))
  {
    hide Quot;
    hide Rem;
    var k, m := Divided(Abs(a), Abs(b));
    Smaller(Abs(a), Abs(b), k, m);
    Signs(a, b, k, m);
    Bounds(a, b, Quot(a, b), Rem(a, b), k, m);
  }

  lemma {:induction false} Divided(x: nat, y: nat) returns (k: nat, m: nat)
    requires y > 0
    ensures k == x / y && x == k * y + m && m < y
  {
    k, m := x / y, x % y;
  }

  lemma {:induction false} Bounds(a: int, b: int, q: int, r: int, k: nat, m: nat)
    requires b != 0 && m < Abs(b) && m <= Abs(a) && k <= Abs(a) && (Abs(b) >= 2 && a != 0 ==> k < Abs(a))
    requires q == (if (a >= 0) == (b > 0) then k else -(k as int)) && r == if a >= 0 then m else -(m as int)
    ensures Abs(r) < Abs(b) && (r != 0 ==> (r > 0 <==> a > 0)) && Abs(q) <= Abs(a) && (Abs(b) >= 2 && a != 0 ==> Abs(q) < Abs(a))
  {
  }

  lemma {:induction false} Smaller(x: nat, y: nat, k: nat, m: nat)
    requires y > 0 && x == k * y + m
    ensures k <= x && m <= x && (y >= 2 && x != 0 ==> k < x)
  {
    ProductGrows(k, y);
    if y >= 2 && k > 0 {
      ProductGrows(k, y - 1);
      assert k * y == k * (y - 1) + k;
    }
  }

  lemma {:induction false} Signs(a: int, b: int, k: nat, m: nat)
    requires b != 0 && k == Abs(a) / Abs(b) && Abs(a) == k * Abs(b) + m
    ensures Quot(a, b) == if (a >= 0) == (b > 0) then k else -(k as int)
    ensures Rem(a, b) == (if a >= 0 then m else -(m as int)) && a == Quot(a, b) * b + Rem(a, b)
  {
    if b > 0 {
      assert Quot(a, b) == if a >= 0 then k else -(k as int);
    } else if a >= 0 {
      assert TruncDiv(a, -b) == k;
    } else {
      assert TruncDiv(a, -b) == -(k as int);
    }
    assert (-(k as int)) * b == -(k * b) && k * (-b) == -(k * b);
    hide Quot;
    assert Rem(a, b) == a - Quot(a, b) * b;
  }

  // ---- decimals ------------------------------------------------------------

  /** `x / 10^u` is the sum, difference or product of `m / 10^s` and `n / 10^t`, as exact
      ratios. */
  ghost predicate Equals(op: Op, m: int, s: nat, n: int, t: nat, x: int, u: nat) {
    match op
    case Add => x * Ten(s) * Ten(t) == (m * Ten(t) + n * Ten(s)) * Ten(u)
    case Sub => x * Ten(s) * Ten(t) == (m * Ten(t) - n * Ten(s)) * Ten(u)
    case _ => x * Ten(s) * Ten(t) == m * n * Ten(u)
  }

  /** Whatever the exact path returns is exactly right, at the larger scale for sums and
      differences and at the sum of the scales for products; and it is taken exactly when
      every number on the way fits in 128 bits. */
  lemma {:induction false} DecimalsExact(op: Op, m: int, s: nat, n: int, t: nat)
    requires op.Add? || op.Sub? || op.Mul?
    ensures var u := if op.Mul? then s + t else if s < t then t else s;
      match DecArith(op, m, s, n, t)
      case Some(v) => v.Decimal? && v.scale == u && InI128(v.mantissa) && Equals(op, m, s, n, t, v.mantissa, u)
      case None =>
        if op.Mul? then !InI128(m * n)
        else !Moves(m, s, u) || !Moves(n, t, u) || !InI128(if op.Add? then m * Ten(u - s) + n * Ten(u - t) else m * Ten(u - s) - n * Ten(u - t))
  {
    if op.Mul? {
      ProductScale(m * n, s, t);
    } else {
      SumExact(op, m, s, n, t);
    }
  }

  /** The exact result of two decimals or a decimal and an integer, as mantissa and scale. */
  ghost function ExactResult(op: Op, m: int, s: nat, n: int, t: nat): (int, nat)
    requires op.Add? || op.Sub? || op.Mul?
  {
    var u := if s < t then t else s;
    if op.Add? then (m * Ten(u - s) + n * Ten(u - t), u)
    else if op.Sub? then (m * Ten(u - s) - n * Ten(u - t), u)
    else (m * n, s + t)
  }

  /** Nothing on the way to it overflows. */
  ghost predicate StaysExact(op: Op, m: int, s: nat, n: int, t: nat) {
    && (op.Add? || op.Sub? || op.Mul?) && InI128(ExactResult(op, m, s, n, t).0)
    && (!op.Mul? ==> Moves(m, s, if s < t then t else s) && Moves(n, t, if s < t then t else s))
  }

  /** Which path is taken: integers among themselves, NULLs, the exact path when nothing
      overflows, and floating point for all else, division of decimals included. */
  lemma {:induction false} PathTaken(viaF64: (Op, Value, Value) -> Value, op: Op, l: Value, r: Value)
    requires Arithmetic(op) && !l.Null? && !r.Null? && !(l.Int? && r.Int?)
    ensures var (a, b) := (AsDec(l), AsDec(r));
      if ExactPair(l, r) && StaysExact(op, a.value.0, a.value.1, b.value.0, b.value.1) then
        var (x, u) := ExactResult(op, a.value.0, a.value.1, b.value.0, b.value.1);
        Arith(viaF64, op, l, r) == Result(Decimal(x, u)) && Equals(op, a.value.0, a.value.1, b.value.0, b.value.1, x, u)
      else Arith(viaF64, op, l, r) == Result(viaF64(op, l, r))
  {
    hide DecArith;
    hide ExactResult;
    hide StaysExact;
    hide Equals;
    if ExactPair(l, r) { ExactPath(op, AsDec(l).value.0, AsDec(l).value.1, AsDec(r).value.0, AsDec(r).value.1); }
  }

  lemma {:induction false} ExactPath(op: Op, m: int, s: nat, n: int, t: nat)
    ensures if StaysExact(op, m, s, n, t) then
        var (x, u) := ExactResult(op, m, s, n, t); DecArith(op, m, s, n, t) == Some(Decimal(x, u)) && Equals(op, m, s, n, t, x, u)
      else DecArith(op, m, s, n, t) == None
  {
    hide Ten;
    hide Moves;
    hide Rescale;
    if op.Add? || op.Sub? {
      SumExact(op, m, s, n, t);
    } else if op.Mul? {
      ProductScale(m * n, s, t);
    }
  }

  /** A mantissa can be moved up to a scale. */
  ghost predicate Moves(m: int, s: nat, u: nat) { s <= u && (s == u || (u - s <= MAX_SCALE && InI128(m * Ten(u - s)))) }

  lemma {:induction false} ProductScale(x: int, s: nat, t: nat)
    ensures x * Ten(s) * Ten(t) == x * Ten(s + t)
  {
    TenSum(s, t);
  }

  lemma {:induction false} MovesWhen(m: int, s: nat, u: nat)
    requires s <= u
    ensures Rescale(m, s, u) == if Moves(m, s, u) then Some(m * Ten(u - s)) else None
  {
    assert Ten(0) == 1;
  }

  lemma {:induction false} SumExact(op: Op, m: int, s: nat, n: int, t: nat)
    requires op.Add? || op.Sub?
    ensures var u := if s < t then t else s;
      var z := if op.Add? then m * Ten(u - s) + n * Ten(u - t) else m * Ten(u - s) - n * Ten(u - t);
      && DecArith(op, m, s, n, t) == (if Moves(m, s, u) && Moves(n, t, u) && InI128(z) then Some(Decimal(z, u)) else None)
      && Equals(op, m, s, n, t, z, u)
  {
    var u := if s < t then t else s;
    MovesWhen(m, s, u);
    MovesWhen(n, t, u);
    TenSum(u - s, s);
    TenSum(u - t, t);
    hide Ten;
    hide Moves;
    hide Rescale;
    SumRatio(m, n, Ten(u - s), Ten(u - t), Ten(s), Ten(t), Ten(u));
  }

  lemma {:induction false} SumRatio(m: int, n: int, a: int, b: int, s: int, t: int, u: int)
    requires u == a * s == b * t
    ensures (m * a + n * b) * s * t == (m * t + n * s) * u
    ensures (m * a - n * b) * s * t == (m * t - n * s) * u
  {
    OneTerm(m, a, s, t);
    OneTerm(n, b, t, s);
    Distribute(m * a, n * b, s, t);
    Distribute(m * t, n * s, u, 1);
    assert n * b * t * s == n * b * s * t;
  }

  lemma {:induction false} OneTerm(m: int, a: int, s: int, t: int)
    ensures m * a * s * t == m * t * (a * s)
  {
  }

  lemma {:induction false} Distribute(x: int, y: int, p: int, q: int)
    ensures (x + y) * p * q == x * p * q + y * p * q && (x - y) * p * q == x * p * q - y * p * q
  {
  }

  /** NULL in, NULL out; and on the exact path the order of the summands or factors does
      not matter. */
  lemma {:induction false} NullsAndOrder(viaF64: (Op, Value, Value) -> Value, op: Op, l: Value, r: Value)
    requires Arithmetic(op)
    ensures l.Null? || r.Null? ==> Arith(viaF64, op, l, r) == Result(Null)
    ensures (op.Add? || op.Mul?) && l.Int? && r.Int? ==> Arith(viaF64, op, l, r) == Arith(viaF64, op, r, l)
    ensures (op.Add? || op.Mul?) && ExactPair(l, r) ==>
      DecArith(op, AsDec(l).value.0, AsDec(l).value.1, AsDec(r).value.0, AsDec(r).value.1)
      == DecArith(op, AsDec(r).value.0, AsDec(r).value.1, AsDec(l).value.0, AsDec(l).value.1)
  {
    hide Rescale;
  }

  // ---- into a column -------------------------------------------------------

  /** `i128::abs` wraps around at the least value. */
  function WrappedAbs(m: int): int { if m == MIN128 then m else Abs(m) }

  function FitPrecision(m: int, p: nat): Option<int> {
    match Pow10(p)
    case None => None
    case Some(limit) => if WrappedAbs(m) < limit then Some(m) else None
  }

  /** A decimal or integer stored in a DECIMAL(p, s) column. */
  function Stored(v: Value, p: nat, s: nat): Option<Value>
    requires AsDec(v).Some?
  {
    match Rescale(AsDec(v).value.0, AsDec(v).value.1, s)
    case None => None
    case Some(m) =>
      match FitPrecision(m, p)
      case None => None
      case Some(n) => Some(Decimal(n, s))
  }

  /** A mantissa is accepted with `p` digits exactly when it has no more, or is the least
      `i128`, whose absolute value wraps around. */
  lemma {:induction false} PrecisionExact(m: int, p: nat)
    requires InI128(m)
    ensures FitPrecision(m, p) == if p <= MAX_SCALE && (Abs(m) < Ten(p) || m == MIN128) then Some(m) else None
  {
    hide Ten;
  }

  /** What is stored has the column's scale. It is the given number exactly if the scale
      does not shrink, and otherwise the nearest at that scale, ties away from zero, as
      long as adding the half unit does not overflow; and it has at most `p` digits, or
      is the least `i128`. */
  lemma {:induction false} StoredIsNearest(v: Value, p: nat, s: nat)
    requires AsDec(v).Some? && Real(v) && Stored(v, p, s).Some?
    ensures var ((m, from), w) := (AsDec(v).value, Stored(v, p, s).value);
      && w.Decimal? && w.scale == s && InI128(m) && (Abs(w.mantissa) < Ten(p) || w.mantissa == MIN128)
      && (from <= s ==> w.mantissa == m * Ten(s - from))
      && (from > s && !HalfOverflows(m, Ten(from - s)) ==> NearestAway(m, Ten(from - s), w.mantissa))
  {
    var (m, from) := AsDec(v).value;
    var x := Rescale(m, from, s).value;
    assert Ten(0) == 1;
    if from > s {
      RescaleDown(m, from, s);
      ShrinksInside(m, from, s);
    }
    hide Ten;
    PrecisionExact(x, p);
  }

  /** It is stored exactly when the number can be moved to the column's scale and then has
      at most `p` digits, or is the least `i128`. */
  lemma {:induction false} StoredExact(v: Value, p: nat, s: nat)
    requires AsDec(v).Some? && Real(v)
    ensures var (m, from) := AsDec(v).value;
      Stored(v, p, s).Some? <==>
        && (from <= s ==> Moves(m, from, s)) && Rescale(m, from, s).Some? && p <= MAX_SCALE
        && (Abs(Rescale(m, from, s).value) < Ten(p) || Rescale(m, from, s).value == MIN128)
  {
    var (m, from) := AsDec(v).value;
    if from <= s { MovesWhen(m, from, s); } else { ShrinksInside(m, from, s); }
    hide Ten;
    if Rescale(m, from, s).Some? { PrecisionExact(Rescale(m, from, s).value, p); }
  }

  lemma {:induction false} ShrinksInside(m: int, from: nat, to: nat)
    requires InI128(m) && to < from <= to + MAX_SCALE
    ensures Rescale(m, from, to).Some? && InI128(Rescale(m, from, to).value)
  {
    var div := Ten(from - to);
    HalfFits(from - to);
    hide Ten;
    var half := div / 2;
    var a := Wrapped(if m >= 0 then m + half else m - half);
    assert InI128(a);
    QuotientInside(a, div);
  }

  lemma {:induction false} QuotientInside(a: int, div: nat)
    requires InI128(a) && div > 0
    ensures InI128(TruncDiv(a, div))
  {
    var x := Abs(a);
    assert x == (x / div) * div + x % div;
    ProductGrows(x / div, div);
  }
}
