/** What the evaluator and the filter mean: three-valued logic, comparisons, the
    numeric order of floating-point patterns, and how much pruning can prove
    (src/sql/expr.rs:79-321, src/value.rs:232-275). */
module Predicates {
  import opened Values
  import opened Wrappers
  import opened Decimals
  import opened Zonemap

  // ---- three-valued logic --------------------------------------------------

  /** AND, OR and NOT are those of Kleene's logic on what their operands evaluate to;
      anything but TRUE and FALSE counts as unknown. */
  lemma {:induction false} Connectives(env: Env, l: Expr, r: Expr, row: seq<Value>)
    ensures var (a, b, both) := (Eval(env, l, row), Eval(env, r, row), Eval(env, Binary(And, l, r), row));
      && (both == TRUE <==> a == TRUE && b == TRUE) && (both == FALSE <==> a == FALSE || b == FALSE) && (both in {TRUE, FALSE, Null})
    ensures var (a, b, either) := (Eval(env, l, row), Eval(env, r, row), Eval(env, Binary(Or, l, r), row));
      && (either == TRUE <==> a == TRUE || b == TRUE) && (either == FALSE <==> a == FALSE && b == FALSE) && (either in {TRUE, FALSE, Null})
    ensures var (a, not) := (Eval(env, l, row), Eval(env, Not(l), row));
      (not == TRUE <==> a == FALSE) && (not == FALSE <==> a == TRUE) && (not in {TRUE, FALSE, Null})
  {
  }

  lemma {:induction false} DeMorgan(env: Env, l: Expr, r: Expr, row: seq<Value>)
    ensures Eval(env, Not(Binary(Or, l, r)), row) == Eval(env, Binary(And, Not(l), Not(r)), row)
    ensures Eval(env, Not(Binary(And, l, r)), row) == Eval(env, Binary(Or, Not(l), Not(r)), row)
  {
    Connectives(env, l, r, row);
    Connectives(env, Not(l), Not(r), row);
    Connectives(env, r, l, row);
    Connectives(env, Binary(Or, l, r), l, row);
    Connectives(env, Binary(And, l, r), l, row);
    hide Eval;
  }

  /** IS NULL always answers, and tells unknown from known. */
  lemma {:induction false} NullTest(env: Env, e: Expr, row: seq<Value>)
    ensures Eval(env, IsNull(e, false), row) == TRUE <==> Eval(env, e, row) == Null
    ensures Eval(env, IsNull(e, true), row) == Eval(env, Not(IsNull(e, false)), row)
    ensures Eval(env, IsNull(e, false), row) in {TRUE, FALSE}
  {
  }

  // ---- comparisons ---------------------------------------------------------

  ghost function Compared(env: Env, op: Op, l: Expr, r: Expr, row: seq<Value>): Value { Eval(env, Binary(op, l, r), row) }

  /** The six comparisons are unknown together. Otherwise exactly one of less, equal and
      greater holds, the other three negate them, and swapping the operands mirrors. */
  lemma {:induction false} Comparisons(env: Env, l: Expr, r: Expr, row: seq<Value>)
    ensures var (lt, eq, gt) := (Compared(env, Lt, l, r, row), Compared(env, Eq, l, r, row), Compared(env, Gt, l, r, row));
      || (SqlCmp(env, Eval(env, l, row), Eval(env, r, row)) == None && lt == eq == gt == Null)
      || (SqlCmp(env, Eval(env, l, row), Eval(env, r, row)) == Some(Less) && lt == TRUE && eq == gt == FALSE)
      || (SqlCmp(env, Eval(env, l, row), Eval(env, r, row)) == Some(Equal) && eq == TRUE && lt == gt == FALSE)
      || (SqlCmp(env, Eval(env, l, row), Eval(env, r, row)) == Some(Greater) && gt == TRUE && lt == eq == FALSE)
    ensures Compared(env, NotEq, l, r, row) == Eval(env, Not(Binary(Eq, l, r)), row)
    ensures Compared(env, LtEq, l, r, row) == Eval(env, Not(Binary(Gt, l, r)), row)
    ensures Compared(env, GtEq, l, r, row) == Eval(env, Not(Binary(Lt, l, r)), row)
    ensures Compared(env, Gt, l, r, row) == Compared(env, Lt, r, l, row) && Compared(env, Eq, l, r, row) == Compared(env, Eq, r, l, row)
  {
    SqlFlips(env, Eval(env, l, row), Eval(env, r, row));
    hide SqlCmp;
  }

  ghost predicate Numeric(v: Value) { v.Int? || v.Float? || v.Bool? || v.Decimal? }

  /** What cannot be compared: NULL with anything, a text with a number, a NaN where
      numbers meet in floating point; and nothing else. */
  lemma {:induction false} Incomparable(env: Env, a: Value, b: Value)
    requires Rounds(env) && Real(a) && Real(b)
    ensures SqlCmp(env, a, b) == None <==>
      || a.Null? || b.Null? || (a.Text? && Numeric(b)) || (Numeric(a) && b.Text?)
      || (a.Float? && IsNan(a.bits) && Numeric(b)) || (b.Float? && IsNan(b.bits) && Numeric(a))
  {
    hide AlignedCmp;
    hide FloatRank;
    if ExactPair(a, b) { ExactAgrees(env, a, b); }
  }

  /** What the comparison is where nothing rounds: integers up to 2^53, texts byte by
      byte, booleans, and decimals as exact ratios. */
  lemma {:induction false} ComparesExactly(env: Env, a: Value, b: Value)
    requires Rounds(env) && Real(a) && Real(b)
    ensures a.Int? && b.Int? && Small(a.i) && Small(b.i) ==> SqlCmp(env, a, b) == Some(CmpInt(a.i, b.i))
    ensures a.Text? && b.Text? ==> SqlCmp(env, a, b) == Some(CmpBytes(a.bytes, b.bytes))
    ensures a.Bool? && b.Bool? ==> SqlCmp(env, a, b) == Some(CmpInt(if a.b then 1 else 0, if b.b then 1 else 0))
    ensures ExactPair(a, b) && Aligns(a, b) ==>
      SqlCmp(env, a, b) == Some(RatioCmp(AsDec(a).value.0, AsDec(a).value.1, AsDec(b).value.0, AsDec(b).value.1))
  {
    if a.Int? && b.Int? && Small(a.i) && Small(b.i) {
      SmallInts(env, a.i, b.i);
    } else if a.Bool? && b.Bool? {
      SmallInts(env, if a.b then 1 else 0, if b.b then 1 else 0);
    } else if ExactPair(a, b) && Aligns(a, b) {
      hide AlignedCmp;
      hide RatioCmp;
      AlignedCmpExact(AsDec(a).value.0, AsDec(a).value.1, AsDec(b).value.0, AsDec(b).value.1);
    }
  }

  lemma {:induction false} SmallInts(env: Env, i: int, j: int)
    requires Rounds(env) && Small(i) && Small(j)
    ensures PartialCmp(env.ofInt(i), env.ofInt(j)) == Some(CmpInt(i, j))
  {
    RankZero(env.ofInt(i), env.ofInt(j));
    hide FloatRank;
  }

  /** The sorting order: NULL before everything, every text after everything else. */
  lemma {:induction false} TypesInOrder(env: Env, a: Value, b: Value)
    ensures a.Null? && !b.Null? ==> TotalCmp(env, a, b) == Less && TotalCmp(env, b, a) == Greater
    ensures a.Text? && !b.Text? ==> TotalCmp(env, a, b) == Greater && TotalCmp(env, b, a) == Less
    ensures a == b && !a.Decimal? ==> TotalCmp(env, a, b) == Equal
  {
    if a.Text? && b.Text? { CmpBytesEqual(a.bytes, b.bytes); }
  }

  // ---- floating-point patterns ---------------------------------------------

  const FRACTION: nat := 0x10_0000_0000_0000

  function Pow2(n: nat): (r: nat)
    ensures r > 0
  {
    if n == 0 then 1 else 2 * Pow2(n - 1)
  }

  /** The magnitude of an IEEE 754 binary64 pattern without its sign, in units of the
      least positive double; infinity counts as the power of two it stands for. */
  function Magnitude(m: nat): nat {
    if m < FRACTION then m else (FRACTION + m % FRACTION) * Pow2(m / FRACTION - 1)
  }

  /** The number a pattern stands for, in the same units. */
  function Numeral(bits: nat): int { if bits < SIGN then Magnitude(bits) else -(Magnitude(bits - SIGN) as int) }

  /** Patterns below 2^53 count in units, and from there on one more in the exponent field
      is twice the number. */
  lemma {:induction false} MagnitudeMeans(m: nat)
    ensures m < 2 * FRACTION ==> Magnitude(m) == m
    ensures m >= FRACTION ==> Magnitude(m + FRACTION) == 2 * Magnitude(m)
  {
    if m >= FRACTION {
      var (e, f) := (m / FRACTION, m % FRACTION);
      assert (m + FRACTION) / FRACTION == e + 1 && (m + FRACTION) % FRACTION == f;
      assert Pow2(e) == 2 * Pow2(e - 1) && Pow2(0) == 1;
      Twice(FRACTION + f, Pow2(e - 1));
    }
  }

  lemma {:induction false} Twice(a: nat, p: nat)
    ensures a * (2 * p) == 2 * (a * p)
  {
  }

  lemma {:induction false} MagnitudeSteps(m: nat)
    ensures Magnitude(m) < Magnitude(m + 1)
  {
    if m >= FRACTION {
      var (e, f) := (m / FRACTION, m % FRACTION);
      var p := Pow2(e - 1);
      if f + 1 < FRACTION {
        assert (m + 1) / FRACTION == e && (m + 1) % FRACTION == f + 1;
        Bigger(FRACTION + f, FRACTION + f + 1, p);
      } else {
        assert (m + 1) / FRACTION == e + 1 && (m + 1) % FRACTION == 0;
        assert Pow2(e) == 2 * p;
        Bigger(FRACTION + f, 2 * FRACTION, p);
      }
    }
  }

  lemma {:induction false} Bigger(a: nat, b: nat, p: nat)
    requires a < b && p > 0
    ensures a * p < b * p
  {
    NonzeroMultiple(b - a, p);
    assert b * p - a * p == (b - a) * p;
  }

  lemma {:induction false} MagnitudeGrows(m: nat, n: nat)
    requires m < n
    ensures Magnitude(m) < Magnitude(n)
    decreases n
  {
    MagnitudeSteps(n - 1);
    if m < n - 1 { MagnitudeGrows(m, n - 1); }
  }

  /** Comparing two patterns as the source does, by rank, compares the numbers they stand
      for: nothing compares with a NaN, and the two zeros are one number. */
  lemma {:induction false} PatternsCompare(a: nat, b: nat)
    requires a < 2 * SIGN && b < 2 * SIGN
    ensures IsNan(a) <==> (a % SIGN) / FRACTION == 0x7FF && a % FRACTION != 0
    ensures PartialCmp(a, b) == if IsNan(a) || IsNan(b) then None else Some(CmpInt(Numeral(a), Numeral(b)))
    ensures FloatRank(a) < FloatRank(b) ==> Numeral(a) < Numeral(b) || (a == SIGN && b == 0)
  {
    var (m, n) := (a % SIGN, b % SIGN);
    assert m == if a < SIGN then a else a - SIGN;
    assert n == if b < SIGN then b else b - SIGN;
    Magnitudes(m, n);
    Magnitudes(m, 0);
    Magnitudes(n, 0);
    NanField(a);
    assert Magnitude(0) == 0;
    hide Magnitude;
  }

  lemma {:induction false} NanField(a: nat)
    requires a < 2 * SIGN
    ensures IsNan(a) <==> (a % SIGN) / FRACTION == 0x7FF && a % FRACTION != 0
  {
  }

  lemma {:induction false} Magnitudes(m: nat, n: nat)
    ensures CmpInt(Magnitude(m), Magnitude(n)) == CmpInt(m, n)
  {
    if m < n { MagnitudeGrows(m, n); }
    if n < m { MagnitudeGrows(n, m); }
  }

  /** A pattern for `i` that keeps the order, exact as far as it goes: patterns of one
      sign are ordered like numbers. */
  function Clamped(i: int): nat {
    if i < 0 then SIGN + (if i < -TWO53 then TWO53 else -i) else if i > TWO53 then TWO53 else i
  }

  /** What is assumed of rounding can be met, with neighbours beyond 2^53 that meet. */
  lemma {:induction false} RoundingExists() returns (env: Env)
    ensures Rounds(env) && env.ofInt(TWO53 + 1) == env.ofInt(TWO53) && env.ofInt(0) == 0
  {
    env := Env((i: int) => Clamped(i), (m: int, s: nat) => Clamped(m), (op, a, b) => Null, v => Null);
    forall i, j | i <= j ensures FloatRank(Clamped(i)) <= FloatRank(Clamped(j)) { ClampedOrder(i, j); }
    forall i ensures Clamped(i) < 2 * SIGN && !IsNan(Clamped(i)) && Clamped(i) != SIGN && (IsZero(Clamped(i)) <==> i == 0) { ClampedPattern(i); }
    forall i, j | Small(i) && Small(j) && Clamped(i) == Clamped(j) ensures i == j { ClampedExact(i, j); }
    assert Clamped(TWO53 + 1) == Clamped(TWO53) && Clamped(0) == 0;
    hide Clamped;
    hide FloatRank;
    hide IsNan;
    hide IsZero;
    hide Small;
  }

  lemma {:induction false} ClampedOrder(i: int, j: int)
    requires i <= j
    ensures FloatRank(Clamped(i)) <= FloatRank(Clamped(j))
  {
  }

  lemma {:induction false} ClampedPattern(i: int)
    ensures Clamped(i) < 2 * SIGN && !IsNan(Clamped(i)) && Clamped(i) != SIGN && (IsZero(Clamped(i)) <==> i == 0)
  {
  }

  lemma {:induction false} ClampedExact(i: int, j: int)
    requires Small(i) && Small(j) && Clamped(i) == Clamped(j)
    ensures i == j
  {
  }

  // ---- the filter ----------------------------------------------------------

  /** A filter keeps every occurrence of the rows for which the predicate is TRUE, and
      no other row; and it keeps their order. */
  lemma {:induction false} FilterKeeps(env: Env, e: Expr, rows: seq<seq<Value>>, row: seq<Value>)
    ensures multiset(Matching(env, e, rows))[row] == if Eval(env, e, row) == TRUE then multiset(rows)[row] else 0
  {
    hide Eval;
    if rows != [] {
      FilterKeeps(env, e, rows[..|rows|-1], row);
      assert rows == rows[..|rows|-1] + [rows[|rows|-1]];
    }
  }

  lemma {:induction false} FilterAppends(env: Env, e: Expr, a: seq<seq<Value>>, b: seq<seq<Value>>)
    ensures Matching(env, e, a + b) == Matching(env, e, a) + Matching(env, e, b)
  {
    hide Eval;
    if b == [] {
      assert a + b == a;
    } else {
      FilterAppends(env, e, a, b[..|b|-1]);
      assert (a + b)[..|a + b|-1] == a + b[..|b|-1];
    }
  }

  /** Filtering by AND is filtering twice; by OR it keeps what either side keeps, once. */
  lemma {:induction false} FilterConnectives(env: Env, l: Expr, r: Expr, rows: seq<seq<Value>>, row: seq<Value>)
    ensures Matching(env, Binary(And, l, r), rows) == Matching(env, l, Matching(env, r, rows))
    ensures row in Matching(env, Binary(Or, l, r), rows) <==> row in Matching(env, l, rows) || row in Matching(env, r, rows)
  {
    FilterTwice(env, l, r, rows);
    FilterKeeps(env, Binary(Or, l, r), rows, row);
    FilterKeeps(env, l, rows, row);
    FilterKeeps(env, r, rows, row);
    Connectives(env, l, r, row);
    hide Eval;
    InCounts(Matching(env, Binary(Or, l, r), rows), row);
    InCounts(Matching(env, l, rows), row);
    InCounts(Matching(env, r, rows), row);
  }

  lemma {:induction false} InCounts(rows: seq<seq<Value>>, row: seq<Value>)
    ensures row in rows <==> multiset(rows)[row] > 0
  {
  }

  lemma {:induction false} FilterTwice(env: Env, l: Expr, r: Expr, rows: seq<seq<Value>>)
    ensures Matching(env, Binary(And, l, r), rows) == Matching(env, l, Matching(env, r, rows))
  {
    if rows != [] {
      var (n, last) := (|rows| - 1, rows[|rows|-1]);
      FilterTwice(env, l, r, rows[..n]);
      Connectives(env, l, r, last);
      FilterAppends(env, l, Matching(env, r, rows[..n]), if Eval(env, r, last) == TRUE then [last] else []);
      FilterOne(env, l, last);
      hide Eval;
    }
  }

  lemma {:induction false} FilterOne(env: Env, e: Expr, row: seq<Value>)
    ensures Matching(env, e, [row]) == if Eval(env, e, row) == TRUE then [row] else []
    ensures Matching(env, e, []) == []
  {
    hide Eval;
    assert [row][..0] == [];
  }

  /** How often a row occurs in the segments. */
  ghost function Occurrences(segs: seq<Segment>, row: seq<Value>): nat {
    if segs == [] then 0 else multiset(segs[0].rows)[row] + Occurrences(segs[1..], row)
  }

  lemma {:induction false} OccurrencesLast(segs: seq<Segment>, row: seq<Value>)
    requires segs != []
    ensures Occurrences(segs, row) == Occurrences(segs[..|segs|-1], row) + multiset(segs[|segs|-1].rows)[row]
  {
    if |segs| > 1 {
      OccurrencesLast(segs[1..], row);
      assert segs[1..][..|segs|-2] == segs[..|segs|-1][1..];
    }
  }

  /** Over all segments the filter keeps each occurrence of the rows the predicate is TRUE
      for, whatever segment it is in. */
  lemma {:induction false} FilterAll(env: Env, e: Expr, segs: seq<Segment>, row: seq<Value>)
    ensures multiset(MatchingAll(env, e, segs))[row] == if Eval(env, e, row) == TRUE then Occurrences(segs, row) else 0
  {
    hide Eval;
    hide Matching;
    if segs != [] {
      FilterAll(env, e, segs[..|segs|-1], row);
      FilterKeeps(env, e, segs[|segs|-1].rows, row);
      OccurrencesLast(segs, row);
    }
  }

  /** The everyday comparisons are safe to prune by: texts with texts, integers with
      integers of which one side stays inside 2^53, decimals with decimals of no more places. */
  lemma {:induction false} EverydaySafe(env: Env, k: Kind, op: Op, mn: Value, mx: Value, lit: Value)
    requires Real(lit)
    requires (k.TextKind? && lit.Text?) || (k.IntKind? && lit.Int? && Narrow(lit.i)) || (k.DecimalKind? && lit.Decimal? && lit.scale <= k.scale)
    ensures SafeTest(env, k, op, mn, mx, lit)
  {
    assert Turns(k, lit) == [];
  }

  /** So is every predicate made of such comparisons. */
  lemma {:induction false} EverydayLeaf(env: Env, kinds: seq<Kind>, bounds: Bounds, op: Op, c: nat, lit: Value)
    requires c < |kinds| && Real(lit)
    requires var k := kinds[c];
      (k.TextKind? && lit.Text?) || (k.IntKind? && lit.Int? && Narrow(lit.i)) || (k.DecimalKind? && lit.Decimal? && lit.scale <= k.scale)
    ensures Ranged(op) ==> Safe(env, kinds, bounds, Binary(op, Column(c), Literal(lit))) && Safe(env, kinds, bounds, Binary(op, Literal(lit), Column(c)))
    ensures forall l, r :: Safe(env, kinds, bounds, l) && Safe(env, kinds, bounds, r) ==>
      Safe(env, kinds, bounds, Binary(And, l, r)) && Safe(env, kinds, bounds, Binary(Or, l, r))
  {
    if c < |bounds| && bounds[c].Some? {
      EverydaySafe(env, kinds[c], op, bounds[c].value.0, bounds[c].value.1, lit);
      EverydaySafe(env, kinds[c], Flip(op), bounds[c].value.0, bounds[c].value.1, lit);
    }
    hide SafeTest;
  }

  /** The values of a column are of one type, so the order of a key column is `total_cmp`. */
  lemma {:induction false} KeyColumnOrder(env: Env, k: Kind, a: Value, b: Value)
    requires OfKind(k, a) && OfKind(k, b)
    ensures OneType(a, b) && KeyCmp(a, b) == TotalCmp(env, a, b)
  {
    KeyOrderIsTotal(env, a, b);
  }

  // ---- how much pruning proves ---------------------------------------------

  /** The columns an expression reads. */
  function Columns(e: Expr): set<nat> {
    match e
    case Column(c) => {c}
    case Literal(_) => {}
    case Not(x) => Columns(x)
    case Neg(x) => Columns(x)
    case IsNull(x, _) => Columns(x)
    case Binary(_, l, r) => Columns(l) + Columns(r)
  }

  ghost predicate SameOn(a: seq<Value>, b: seq<Value>, cols: set<nat>) {
    |a| == |b| && forall c :: c in cols && c < |a| ==> a[c] == b[c]
  }

  lemma {:induction false} ReadsItsColumns(env: Env, e: Expr, a: seq<Value>, b: seq<Value>)
    requires SameOn(a, b, Columns(e))
    ensures Eval(env, e, a) == Eval(env, e, b)
    decreases e
  {
    match e
    case Not(x) => ReadsItsColumns(env, x, a, b);
    case Neg(x) => ReadsItsColumns(env, x, a, b);
    case IsNull(x, _) => ReadsItsColumns(env, x, a, b);
    case Binary(_, l, r) =>
      ReadsItsColumns(env, l, a, b);
      ReadsItsColumns(env, r, a, b);
    case _ =>
  }

  /** Between the bounds SQL compares with the literal as the order does, and the literal
      of `=` is a value of the column. */
  ghost predicate FairRange(env: Env, k: Kind, op: Op, mn: Value, mx: Value, lit: Value) {
    && Ranged(op) && OfKind(k, mn) && OfKind(k, mx) && AtMost(TotalCmp(env, mn, mx)) && Real(lit)
    && (op.Eq? ==> OfKind(k, lit))
    && forall v :: Between(env, k, mn, v, mx) ==> SqlCmp(env, v, lit) == Some(TotalCmp(env, v, lit))
  }

  ghost predicate FairColumn(env: Env, kinds: seq<Kind>, bounds: Bounds, op: Op, c: nat, lit: Value) {
    c < |kinds| == |bounds| && bounds[c].Some? && FairRange(env, kinds[c], op, bounds[c].value.0, bounds[c].value.1, lit)
  }

  /** AND and OR over such comparisons, each of a column of its own. */
  ghost predicate Fair(env: Env, kinds: seq<Kind>, bounds: Bounds, e: Expr) {
    match e
    case Binary(And, l, r) => Fair(env, kinds, bounds, l) && Fair(env, kinds, bounds, r) && Columns(l) !! Columns(r)
    case Binary(Or, l, r) => Fair(env, kinds, bounds, l) && Fair(env, kinds, bounds, r) && Columns(l) !! Columns(r)
    case Binary(op, Column(c), Literal(v)) => Ranged(op) && FairColumn(env, kinds, bounds, op, c, v)
    case Binary(op, Literal(v), Column(c)) => Ranged(op) && FairColumn(env, kinds, bounds, Flip(op), c, v)
    case _ => false
  }

  /** A range that is not excluded has room for a value that satisfies the test. */
  lemma {:induction false} RangeComplete(env: Env, k: Kind, op: Op, mn: Value, mx: Value, lit: Value) returns (v: Value)
    requires Rounds(env) && FairRange(env, k, op, mn, mx, lit) && !RangeExcludes(env, op, mn, mx, lit)
    ensures Between(env, k, mn, v, mx) && EvalCompare(env, op, v, lit) == TRUE
  {
    v := if op.Eq? then lit else if op.Lt? || op.LtEq? then mn else mx;
    KindOrder(env, k, mn, mn, mx);
    KindOrder(env, k, mx, mx, mx);
    TotalFlips(env, mn, lit);
    TotalFlips(env, mx, lit);
    if op.Eq? { KindOrder(env, k, lit, lit, lit); }
    hide Rounds;
    hide OfKind;
    hide TotalCmp;
    hide SqlCmp;
    hide Aligns;
    assert Between(env, k, mn, v, mx);
  }

  ghost function Alone(n: nat, c: nat, v: Value): (row: seq<Value>)
    ensures |row| == n && forall d :: 0 <= d < n ==> row[d] == if d == c then v else Null
  {
    seq(n, d => if d == c then v else Null)
  }

  lemma {:induction false} LeafComplete(env: Env, kinds: seq<Kind>, bounds: Bounds, op: Op, c: nat, lit: Value) returns (row: seq<Value>)
    requires Rounds(env) && FairColumn(env, kinds, bounds, op, c, lit) && !ColumnExcludes(env, op, c, lit, bounds)
    ensures CoversRow(env, kinds, bounds, row) && EvalCompare(env, op, row[c], lit) == TRUE
  {
    hide Rounds;
    hide FairRange;
    hide RangeExcludes;
    hide EvalCompare;
    hide Between;
    var v := RangeComplete(env, kinds[c], op, bounds[c].value.0, bounds[c].value.1, lit);
    row := Alone(|kinds|, c, v);
  }

  /** One row with the columns of `cols` from `a` and the others from `b`. */
  ghost function Mixed(a: seq<Value>, b: seq<Value>, cols: set<nat>): (row: seq<Value>)
    requires |a| == |b|
    ensures |row| == |a| && forall c :: 0 <= c < |a| ==> row[c] == if c in cols then a[c] else b[c]
  {
    seq(|a|, c requires 0 <= c < |a| => if c in cols then a[c] else b[c])
  }

  /** A part that is not excluded has room for a row that satisfies the predicate. */
  lemma {:induction false} ExcludesComplete(env: Env, kinds: seq<Kind>, bounds: Bounds, e: Expr) returns (row: seq<Value>)
    requires Rounds(env) && Fair(env, kinds, bounds, e) && !Excludes(env, e, bounds)
    ensures CoversRow(env, kinds, bounds, row) && Eval(env, e, row) == TRUE
    decreases e
  {
    hide Rounds;
    hide FairColumn;
    hide ColumnExcludes;
    hide CoversRow;
    hide EvalCompare;
    if e.op.And? {
      var a := ExcludesComplete(env, kinds, bounds, e.l);
      var b := ExcludesComplete(env, kinds, bounds, e.r);
      CoverMixed(env, kinds, bounds, a, b, Columns(e.l));
      row := Mixed(a, b, Columns(e.l));
      ReadsItsColumns(env, e.l, a, row);
      ReadsItsColumns(env, e.r, b, row);
    } else if e.op.Or? {
      if Excludes(env, e.l, bounds) {
        row := ExcludesComplete(env, kinds, bounds, e.r);
      } else {
        row := ExcludesComplete(env, kinds, bounds, e.l);
      }
    } else if e.l.Column? {
      row := LeafComplete(env, kinds, bounds, e.op, e.l.c, e.r.v);
      ColumnInRow(env, kinds, bounds, row, e.op, e.l.c, e.r.v);
    } else {
      row := LeafComplete(env, kinds, bounds, Flip(e.op), e.r.c, e.l.v);
      ColumnInRow(env, kinds, bounds, row, Flip(e.op), e.r.c, e.l.v);
      FlipSound(env, e.op, row[e.r.c], e.l.v);
    }
  }

  lemma {:induction false} ColumnInRow(env: Env, kinds: seq<Kind>, bounds: Bounds, row: seq<Value>, op: Op, c: nat, lit: Value)
    requires FairColumn(env, kinds, bounds, op, c, lit) && CoversRow(env, kinds, bounds, row)
    ensures c < |row|
  {
    hide Between;
    hide FairRange;
  }

  lemma {:induction false} CoverMixed(env: Env, kinds: seq<Kind>, bounds: Bounds, a: seq<Value>, b: seq<Value>, cols: set<nat>)
    requires CoversRow(env, kinds, bounds, a) && CoversRow(env, kinds, bounds, b)
    ensures |a| == |b| && CoversRow(env, kinds, bounds, Mixed(a, b, cols))
  {
    hide Between;
  }

  /** So on such predicates pruning is decided exactly: a part is dropped if and only if
      no row its bounds allow satisfies the predicate. */
  lemma {:induction false} PruningDecides(env: Env, kinds: seq<Kind>, bounds: Bounds, e: Expr)
    requires Rounds(env) && Fair(env, kinds, bounds, e) && Sound(env, kinds, bounds, e)
    ensures Excludes(env, e, bounds) <==> forall row :: CoversRow(env, kinds, bounds, row) ==> Eval(env, e, row) != TRUE
  {
    hide Rounds;
    hide Fair;
    hide Sound;
    hide CoversRow;
    hide Eval;
    if Excludes(env, e, bounds) {
      forall row | CoversRow(env, kinds, bounds, row) ensures Eval(env, e, row) != TRUE { ExcludesSound(env, kinds, bounds, row, e); }
    } else {
      var row := ExcludesComplete(env, kinds, bounds, e);
    }
  }
}
