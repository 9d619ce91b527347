/** Predicates under SQL three-valued logic, and pruning whole parts by their
    column bounds (src/sql/expr.rs:14-177, 289-321; src/sql/exec.rs:412-423;
    src/value.rs:232-275, 321-341). */
module Zonemap {
  import opened Values
  import opened Wrappers
  import opened Decimals

  // ---- floating point ------------------------------------------------------

  /** How integers and decimals round to `f64` bit patterns, and what the float
      arithmetic that no pruning rule looks into returns. */
  datatype Env = Env(ofInt: int -> nat, ofDec: (int, nat) -> nat, arith: (Op, Value, Value) -> Value, neg: Value -> Value)

  /** `f64::partial_cmp`: nothing orders against NaN, and both zeros are equal. */
  function PartialCmp(a: nat, b: nat): Option<Order> {
    if IsNan(a) || IsNan(b) then None
    else if IsZero(a) && IsZero(b) then Some(Equal)
    else Some(CmpInt(FloatRank(a), FloatRank(b)))
  }

  /** Rounding keeps the order at each scale, yields neither NaN nor a negative
      zero, zero only for zero, and is exact up to 2^53. */
  ghost predicate Rounds(env: Env) {
    && (forall i, j :: i <= j ==> FloatRank(env.ofInt(i)) <= FloatRank(env.ofInt(j)))
    && (forall i :: env.ofInt(i) < 2 * SIGN && !IsNan(env.ofInt(i)) && env.ofInt(i) != SIGN)
    && (forall i :: IsZero(env.ofInt(i)) <==> i == 0)
    && (forall i, j :: Small(i) && Small(j) && env.ofInt(i) == env.ofInt(j) ==> i == j)
    && (forall m, n, s: nat :: s <= MAX_SCALE && m <= n ==> FloatRank(env.ofDec(m, s)) <= FloatRank(env.ofDec(n, s)))
    && (forall m, s: nat :: s <= MAX_SCALE ==> env.ofDec(m, s) < 2 * SIGN && !IsNan(env.ofDec(m, s)) && env.ofDec(m, s) != SIGN)
    && (forall m, s: nat :: s <= MAX_SCALE ==> (IsZero(env.ofDec(m, s)) <==> m == 0))
  }

  predicate Small(i: int) { -0x20_0000_0000_0000 <= i <= 0x20_0000_0000_0000 }

  function AsF64(env: Env, v: Value): Option<nat> {
    match v
    case Int(i) => Some(env.ofInt(i))
    case Float(bits) => Some(bits)
    case Bool(b) => Some(env.ofInt(if b then 1 else 0))
    case Decimal(m, s) => Some(env.ofDec(m, s))
    case _ => None
  }

  // ---- the two comparisons -------------------------------------------------

  function AsDec(v: Value): Option<(int, nat)> {
    match v
    case Decimal(m, s) => Some((m, s))
    case Int(i) => Some((i, 0))
    case _ => None
  }

  predicate ExactPair(a: Value, b: Value) { (a.Decimal? || b.Decimal?) && AsDec(a).Some? && AsDec(b).Some? }

  function PartialF64(env: Env, a: Value, b: Value): Option<Order> {
    match (AsF64(env, a), AsF64(env, b))
    case (Some(x), Some(y)) => PartialCmp(x, y)
    case _ => None
  }

  /** Exact when a decimal meets a decimal or an integer and both align. */
  function DecimalCmp(env: Env, a: Value, b: Value): Option<Order> {
    if !ExactPair(a, b) then None
    else
      var ((m, s), (n, t)) := (AsDec(a).value, AsDec(b).value);
      var o := AlignedCmp(m, s, n, t);
      if o.Some? then o else PartialF64(env, a, b)
  }

  function SqlCmp(env: Env, a: Value, b: Value): Option<Order> {
    if a.Null? || b.Null? then None
    else if a.Text? && b.Text? then Some(CmpBytes(a.bytes, b.bytes))
    else
      var d := DecimalCmp(env, a, b);
      if d.Some? then d else PartialF64(env, a, b)
  }

  function TypeRank(v: Value): nat {
    match v
    case Null => 0
    case Bool(_) => 1
    case Text(_) => 3
    case _ => 2
  }

  function TotalCmp(env: Env, a: Value, b: Value): Order {
    match (a, b)
    case (Null, Null) => Equal
    case (Text(x), Text(y)) => CmpBytes(x, y)
    case (Bool(x), Bool(y)) => CmpInt(if x then 1 else 0, if y then 1 else 0)
    case (Int(x), Int(y)) => CmpInt(x, y)
    case _ =>
      var d := DecimalCmp(env, a, b);
      if d.Some? then d.value
      else
        match (AsF64(env, a), AsF64(env, b))
        case (Some(x), Some(y)) => CmpInt(FloatRank(x), FloatRank(y))
        case _ => CmpInt(TypeRank(a), TypeRank(b))
  }

  /** Equal to SQL, yet apart in the order the zonemap uses. */
  predicate Collides(env: Env, x: Value, lit: Value) { SqlCmp(env, x, lit) == Some(Equal) && TotalCmp(env, x, lit) != Equal }

  lemma {:induction false} RankZero(a: nat, b: nat)
    requires a < 2 * SIGN && b < 2 * SIGN
    ensures FloatRank(a) == FloatRank(b) <==> a == b
  {
  }

  /** SQL never contradicts the total order: it agrees with it or says "equal". */
  lemma {:induction false} SqlFollowsTotal(env: Env, x: Value, lit: Value)
    requires Rounds(env) && SqlCmp(env, x, lit).Some?
    ensures SqlCmp(env, x, lit).value == TotalCmp(env, x, lit) || SqlCmp(env, x, lit).value == Equal
  {
    if x.Int? && lit.Int? {
      assert x.i <= lit.i || lit.i <= x.i;
    } else if x.Bool? && lit.Bool? {
      assert Small(0) && Small(1);
      assert FloatRank(env.ofInt(0)) <= FloatRank(env.ofInt(1));
    }
  }

  /** Two values of one type, decimals with one scale, floats in 64 bits. */
  predicate OneType(a: Value, b: Value) {
    match (a, b)
    case (Null, Null) => true
    case (Int(_), Int(_)) => true
    case (Float(x), Float(y)) => x < 2 * SIGN && y < 2 * SIGN
    case (Text(_), Text(_)) => true
    case (Bool(_), Bool(_)) => true
    case (Decimal(_, s), Decimal(_, t)) => s == t
    case _ => false
  }

  /** On a key column, which has one type, the order the tables sort by is `total_cmp`. */
  lemma {:induction false} KeyOrderIsTotal(env: Env, a: Value, b: Value)
    requires OneType(a, b)
    ensures KeyCmp(a, b) == TotalCmp(env, a, b)
  {
    if a.Decimal? { SameScale(env, a, b); }
  }

  // ---- one column ----------------------------------------------------------

  predicate InI64(i: int) { -0x8000_0000_0000_0000 <= i < 0x8000_0000_0000_0000 }

  /** A value the machine types can hold. */
  predicate Real(v: Value) {
    match v
    case Int(i) => InI64(i)
    case Float(bits) => bits < 2 * SIGN
    case Decimal(m, s) => InI128(m) && s <= MAX_SCALE
    case _ => true
  }

  datatype Kind = IntKind | FloatKind | TextKind | BoolKind | DecimalKind(scale: nat)

  predicate OfKind(k: Kind, v: Value) {
    && Real(v)
    && match k
       case IntKind => v.Int?
       case FloatKind => v.Float?
       case TextKind => v.Text?
       case BoolKind => v.Bool?
       case DecimalKind(s) => v.Decimal? && v.scale == s
  }

  /** The comparison does not overflow into floating point. */
  predicate Aligns(v: Value, lit: Value) {
    ExactPair(v, lit) ==>
      AlignedCmp(AsDec(v).value.0, AsDec(v).value.1, AsDec(lit).value.0, AsDec(lit).value.1).Some?
  }

  predicate AtMost(o: Order) { o != Greater }

  lemma {:induction false} DecimalOrder(m: int, n: int, s: nat, l: int, t: nat)
    requires m <= n && AlignedCmp(m, s, l, t).Some? && AlignedCmp(n, s, l, t).Some?
    ensures AlignedCmp(n, s, l, t).value == Less ==> AlignedCmp(m, s, l, t).value == Less
    ensures AtMost(AlignedCmp(n, s, l, t).value) ==> AtMost(AlignedCmp(m, s, l, t).value)
  {
    hide Ten;
    hide Rescale;
    AlignedCmpExact(m, s, l, t);
    AlignedCmpExact(n, s, l, t);
    hide AlignedCmp;
    assert m * Ten(t) <= n * Ten(t) by {
      NonzeroMultiple(n - m, Ten(t));
      assert n * Ten(t) - m * Ten(t) == (n - m) * Ten(t);
    }
  }

  /** A smaller column value compares no higher against any literal, if both are
      compared exactly or both in floating point. */
  lemma {:induction false} LowerValue(env: Env, k: Kind, x: Value, y: Value, lit: Value)
    requires Rounds(env) && OfKind(k, x) && OfKind(k, y) && Real(lit) && AtMost(TotalCmp(env, x, y))
    requires Aligns(x, lit) <==> Aligns(y, lit)
    ensures TotalCmp(env, y, lit) == Less ==> TotalCmp(env, x, lit) == Less
    ensures AtMost(TotalCmp(env, y, lit)) ==> AtMost(TotalCmp(env, x, lit))
  {
    hide TotalCmp;
    hide Aligns;
    hide Rounds;
    if k.TextKind? {
      LowerText(env, x, y, lit);
    } else if ExactPair(x, lit) {
      Ordered(env, k, x, y);
      LowerDecimal(env, x, y, lit);
    } else {
      LowerOther(env, k, x, y, lit);
    }
  }

  lemma {:induction false} LowerText(env: Env, x: Value, y: Value, lit: Value)
    requires x.Text? && y.Text? && AtMost(TotalCmp(env, x, y))
    ensures TotalCmp(env, y, lit) == Less ==> TotalCmp(env, x, lit) == Less
    ensures AtMost(TotalCmp(env, y, lit)) ==> AtMost(TotalCmp(env, x, lit))
  {
    if lit.Text? { TextOrder(x.bytes, y.bytes, lit.bytes); }
  }

  lemma {:induction false} LowerOther(env: Env, k: Kind, x: Value, y: Value, lit: Value)
    requires Rounds(env) && OfKind(k, x) && OfKind(k, y) && Real(lit) && AtMost(TotalCmp(env, x, y))
    requires !k.TextKind? && !ExactPair(x, lit)
    ensures TotalCmp(env, y, lit) == Less ==> TotalCmp(env, x, lit) == Less
    ensures AtMost(TotalCmp(env, y, lit)) ==> AtMost(TotalCmp(env, x, lit))
  {
    if k.DecimalKind? {
      SameScale(env, x, y);
    } else if k.BoolKind? {
      assert FloatRank(env.ofInt(0)) <= FloatRank(env.ofInt(1));
    }
    hide FloatRank;
  }

  lemma {:induction false} LowerDecimal(env: Env, x: Value, y: Value, lit: Value)
    requires Rounds(env) && Real(x) && Real(y) && Real(lit) && ExactPair(x, lit) && ExactPair(y, lit)
    requires AsDec(x).value.1 == AsDec(y).value.1 && AsDec(x).value.0 <= AsDec(y).value.0 && (x.Int? <==> y.Int?)
    requires Aligns(x, lit) <==> Aligns(y, lit)
    ensures TotalCmp(env, y, lit) == Less ==> TotalCmp(env, x, lit) == Less
    ensures AtMost(TotalCmp(env, y, lit)) ==> AtMost(TotalCmp(env, x, lit))
  {
    var ((m, s), (n, _), (l, t)) := (AsDec(x).value, AsDec(y).value, AsDec(lit).value);
    hide AlignedCmp;
    if Aligns(x, lit) {
      hide Rounds;
      DecimalOrder(m, n, s, l, t);
    } else {
      LowerFloat(env, x, y, lit);
    }
  }

  lemma {:induction false} LowerFloat(env: Env, x: Value, y: Value, lit: Value)
    requires Rounds(env) && Real(x) && Real(y) && Real(lit) && ExactPair(x, lit) && ExactPair(y, lit)
    requires AsDec(x).value.1 == AsDec(y).value.1 && AsDec(x).value.0 <= AsDec(y).value.0 && (x.Int? <==> y.Int?)
    ensures PartialF64(env, x, lit).Some? && PartialF64(env, y, lit).Some?
    ensures PartialF64(env, y, lit) == Some(Less) ==> PartialF64(env, x, lit) == Some(Less)
    ensures AtMost(PartialF64(env, y, lit).value) ==> AtMost(PartialF64(env, x, lit).value)
  {
    var (a, b, c) := (AsF64(env, x).value, AsF64(env, y).value, AsF64(env, lit).value);
    assert FloatRank(a) <= FloatRank(b);
    ZeroRanks(a);
    ZeroRanks(b);
    ZeroRanks(c);
  }

  lemma {:induction false} ZeroRanks(a: nat)
    requires a < 2 * SIGN && a != SIGN
    ensures IsZero(a) <==> FloatRank(a) == 0
  {
  }

  lemma {:induction false} SameScale(env: Env, x: Value, y: Value)
    requires x.Decimal? && y.Decimal? && x.scale == y.scale
    ensures TotalCmp(env, x, y) == CmpInt(x.mantissa, y.mantissa)
  {
    assert AlignedCmp(x.mantissa, x.scale, y.mantissa, y.scale) == Some(CmpInt(x.mantissa, y.mantissa));
  }

  lemma {:induction false} TextOrder(x: seq<Byte>, y: seq<Byte>, l: seq<Byte>)
    requires AtMost(CmpBytes(x, y))
    ensures CmpBytes(y, l) == Less ==> CmpBytes(x, l) == Less
    ensures AtMost(CmpBytes(y, l)) ==> AtMost(CmpBytes(x, l))
  {
    if AtMost(CmpBytes(y, l)) { CmpBytesTransitive(x, y, l); }
    if CmpBytes(y, l) == Less {
      CmpBytesEqual(x, l);
      CmpBytesEqual(x, y);
      CmpBytesEqual(y, l);
    }
  }

  lemma {:induction false} TotalFlips(env: Env, a: Value, b: Value)
    requires Rounds(env) && Real(a) && Real(b)
    ensures TotalCmp(env, b, a) == TotalCmp(env, a, b).Flip() && (Aligns(a, b) <==> Aligns(b, a))
  {
    hide TotalCmp;
    hide AlignedCmp;
    hide Rounds;
    if ExactPair(a, b) {
      ExactAgrees(env, a, b);
      ExactAgrees(env, b, a);
      SqlFlips(env, a, b);
      AlignedFlips(AsDec(a).value.0, AsDec(a).value.1, AsDec(b).value.0, AsDec(b).value.1);
    } else {
      OtherFlips(env, a, b);
    }
  }

  lemma {:induction false} OtherFlips(env: Env, a: Value, b: Value)
    requires !ExactPair(a, b)
    ensures TotalCmp(env, b, a) == TotalCmp(env, a, b).Flip()
  {
    hide FloatRank;
    if a.Text? && b.Text? { CmpBytesEqual(a.bytes, b.bytes); }
  }

  lemma {:induction false} AlignedFlips(m: int, s: nat, n: int, t: nat)
    ensures AlignedCmp(n, t, m, s) == match AlignedCmp(m, s, n, t) case None => None case Some(o) => Some(o.Flip())
  {
    hide Rescale;
  }

  // ---- expressions ---------------------------------------------------------

  datatype Op = Add | Sub | Mul | Div | Mod | Eq | NotEq | Lt | LtEq | Gt | GtEq | And | Or

  predicate Arithmetic(op: Op) { op.Add? || op.Sub? || op.Mul? || op.Div? || op.Mod? }

  datatype Expr =
    | Column(c: nat)
    | Literal(v: Value)
    | Not(e: Expr)
    | Neg(e: Expr)
    | Binary(op: Op, l: Expr, r: Expr)
    | IsNull(e: Expr, negated: bool)

  const TRUE := Bool(true)
  const FALSE := Bool(false)

  function EvalAnd(a: Value, b: Value): Value {
    if a == FALSE || b == FALSE then FALSE else if a == TRUE && b == TRUE then TRUE else Null
  }

  function EvalOr(a: Value, b: Value): Value {
    if a == TRUE || b == TRUE then TRUE else if a == FALSE && b == FALSE then FALSE else Null
  }

  predicate Holds(op: Op, o: Order) {
    match op
    case Eq => o == Equal
    case NotEq => o != Equal
    case Lt => o == Less
    case LtEq => o != Greater
    case Gt => o == Greater
    case _ => o != Less
  }

  function EvalCompare(env: Env, op: Op, a: Value, b: Value): Value {
    var o := SqlCmp(env, a, b);
    if o.None? then Null else Bool(Holds(op, o.value))
  }

  function Eval(env: Env, e: Expr, row: seq<Value>): Value {
    match e
    case Column(c) => if c < |row| then row[c] else Null
    case Literal(v) => v
    case Not(x) => (var v := Eval(env, x, row); if v.Bool? then Bool(!v.b) else Null)
    case Neg(x) => env.neg(Eval(env, x, row))
    case IsNull(x, negated) => Bool(Eval(env, x, row).Null? != negated)
    case Binary(op, l, r) =>
      var (a, b) := (Eval(env, l, row), Eval(env, r, row));
      if op.And? then EvalAnd(a, b)
      else if op.Or? then EvalOr(a, b)
      else if Arithmetic(op) then env.arith(op, a, b)
      else EvalCompare(env, op, a, b)
  }

  function Flip(op: Op): Op {
    match op
    case Lt => Gt
    case LtEq => GtEq
    case Gt => Lt
    case GtEq => LtEq
    case _ => op
  }

  /** The range `[mn, mx]` provably holds no value satisfying `col op lit`. */
  predicate RangeExcludes(env: Env, op: Op, mn: Value, mx: Value, lit: Value) {
    match op
    case Eq => TotalCmp(env, lit, mn) == Less || TotalCmp(env, lit, mx) == Greater
    case Lt => TotalCmp(env, mn, lit) != Less
    case LtEq => TotalCmp(env, mn, lit) == Greater
    case Gt => TotalCmp(env, mx, lit) != Greater
    case GtEq => TotalCmp(env, mx, lit) == Less
    case _ => false
  }

  type Bounds = seq<Option<(Value, Value)>>

  predicate Ranged(op: Op) { op.Eq? || op.Lt? || op.LtEq? || op.Gt? || op.GtEq? }

  predicate ColumnExcludes(env: Env, op: Op, c: nat, lit: Value, bounds: Bounds) {
    c < |bounds| && bounds[c].Some? && RangeExcludes(env, op, bounds[c].value.0, bounds[c].value.1, lit)
  }

  predicate Excludes(env: Env, e: Expr, bounds: Bounds) {
    match e
    case Binary(And, l, r) => Excludes(env, l, bounds) || Excludes(env, r, bounds)
    case Binary(Or, l, r) => Excludes(env, l, bounds) && Excludes(env, r, bounds)
    case Binary(op, Column(c), Literal(v)) => Ranged(op) && ColumnExcludes(env, op, c, v, bounds)
    case Binary(op, Literal(v), Column(c)) => Ranged(op) && ColumnExcludes(env, Flip(op), c, v, bounds)
    case _ => false
  }

  // ---- soundness -----------------------------------------------------------

  /** The value of a column lies between its bounds, which have its type. */
  ghost predicate Between(env: Env, k: Kind, mn: Value, x: Value, mx: Value) {
    OfKind(k, mn) && OfKind(k, x) && OfKind(k, mx) && AtMost(TotalCmp(env, mn, x)) && AtMost(TotalCmp(env, x, mx))
  }

  /** How a value equal to the literal under SQL can still lie outside the range. */
  predicate Breaks(op: Op, o: Order) {
    match op
    case Eq => o != Equal
    case LtEq => o == Greater
    case GtEq => o == Less
    case _ => false
  }

  // ---- exact or in floating point ------------------------------------------

  /** The least and greatest value of a column are compared with the literal in the
      same way, and so is everything between them. */
  predicate OneRoute(mn: Value, mx: Value, lit: Value) {
    if Aligns(mn, lit) then Aligns(mx, lit)
    else
      && !Aligns(mx, lit) && AsDec(mx).Some?
      && (AsDec(lit).value.1 <= AsDec(mn).value.1 || AsDec(mn).value.0 > 0 || AsDec(mx).value.0 < 0)
  }

  lemma {:induction false} Ordered(env: Env, k: Kind, x: Value, y: Value)
    requires OfKind(k, x) && OfKind(k, y) && AtMost(TotalCmp(env, x, y)) && (k.IntKind? || k.DecimalKind?)
    ensures AsDec(x).Some? && AsDec(y).Some? && AsDec(x).value.0 <= AsDec(y).value.0 && AsDec(x).value.1 == AsDec(y).value.1
  {
    if k.DecimalKind? { SameScale(env, x, y); }
  }

  /** Alignment of a column value `m` of scale `s` with a literal. */
  lemma {:induction false} AlignsWhen(m: int, s: nat, l: int, t: nat)
    requires s <= MAX_SCALE && t <= MAX_SCALE
    ensures t <= s ==> (AlignedCmp(m, s, l, t).Some? <==> Rescale(l, t, s).Some?)
    ensures s < t ==> (AlignedCmp(m, s, l, t).Some? <==> InI128(m * Ten(t - s)))
  {
    hide Ten;
  }

  lemma {:induction false} ProductOrder(a: int, b: int, f: nat)
    requires a <= b
    ensures a * f <= b * f
  {
  }

  lemma {:induction false} RouteBetween(env: Env, k: Kind, mn: Value, x: Value, mx: Value, lit: Value)
    requires Between(env, k, mn, x, mx) && Real(lit) && OneRoute(mn, mx, lit)
    ensures (Aligns(x, lit) <==> Aligns(mn, lit)) && (Aligns(x, lit) <==> Aligns(mx, lit))
  {
    hide AlignedCmp;
    hide TotalCmp;
    if ExactPair(mn, lit) {
      Ordered(env, k, mn, x);
      Ordered(env, k, x, mx);
      var ((a, s), (b, _), (c, _), (l, t)) := (AsDec(mn).value, AsDec(x).value, AsDec(mx).value, AsDec(lit).value);
      AlignsWhen(a, s, l, t);
      AlignsWhen(b, s, l, t);
      AlignsWhen(c, s, l, t);
      if s < t {
        ProductOrder(a, b, Ten(t - s));
        ProductOrder(b, c, Ten(t - s));
        if a > 0 { ProductOrder(0, a, Ten(t - s)); }
        if c < 0 { ProductOrder(c, 0, Ten(t - s)); }
      }
    }
  }

  /** The test on the bounds is exact. */
  lemma {:induction false} OneRouteExact(env: Env, k: Kind, mn: Value, mx: Value, lit: Value)
    requires OfKind(k, mn) && OfKind(k, mx) && AtMost(TotalCmp(env, mn, mx)) && Real(lit)
    ensures OneRoute(mn, mx, lit) <==> forall x :: Between(env, k, mn, x, mx) ==> (Aligns(x, lit) <==> Aligns(mn, lit))
  {
    hide AlignedCmp;
    if OneRoute(mn, mx, lit) {
      hide TotalCmp;
      forall x | Between(env, k, mn, x, mx) ensures Aligns(x, lit) <==> Aligns(mn, lit) { RouteBetween(env, k, mn, x, mx, lit); }
    } else {
      KindOrder(env, k, mx, mx, mx);
      assert Between(env, k, mn, mx, mx);
      if ExactPair(mn, lit) && !Aligns(mn, lit) && !Aligns(mx, lit) {
        Ordered(env, k, mn, mx);
        var zero := if k.IntKind? then Int(0) else Decimal(0, k.scale);
        ZeroBetween(env, k, mn, mx, zero);
        AlignsWhen(0, AsDec(mn).value.1, AsDec(lit).value.0, AsDec(lit).value.1);
        assert Aligns(zero, lit);
      }
    }
  }

  lemma {:induction false} ZeroBetween(env: Env, k: Kind, mn: Value, mx: Value, zero: Value)
    requires OfKind(k, mn) && OfKind(k, mx) && (k.IntKind? || k.DecimalKind?)
    requires zero == if k.IntKind? then Int(0) else Decimal(0, k.scale)
    requires AsDec(mn).value.0 <= 0 <= AsDec(mx).value.0
    ensures Between(env, k, mn, zero, mx)
  {
    if k.DecimalKind? {
      SameScale(env, mn, zero);
      SameScale(env, zero, mx);
    }
  }

  // ---- where the comparison changes its way --------------------------------

  /** The column value after `v` at its scale. */
  function Next(v: Value): Value {
    match v
    case Int(i) => Int(i + 1)
    case Decimal(m, s) => Decimal(m + 1, s)
    case _ => v
  }

  predicate Exacts(k: Kind, lit: Value) {
    (k.IntKind? && lit.Decimal?) || (k.DecimalKind? && AsDec(lit).Some?)
  }

  function ScaleOf(k: Kind): nat { if k.DecimalKind? then k.scale else 0 }

  function Nth(k: Kind, i: int): Value { if k.DecimalKind? then Decimal(i, k.scale) else Int(i) }

  predicate Inside(k: Kind, u: Value) { OfKind(k, u) && OfKind(k, Next(u)) }

  /** The values of a column after which the comparison with the literal turns from
      exact to floating point or back: the last that fits in an `i128` at the
      literal's scale, and the one before the first. */
  function Turns(k: Kind, lit: Value): seq<Value> {
    if !Exacts(k, lit) || AsDec(lit).value.1 <= ScaleOf(k) then []
    else
      var f := Ten(AsDec(lit).value.1 - ScaleOf(k));
      var (low, top) := (Nth(k, -(TWO127 / f) - 1), Nth(k, MAX128 / f));
      (if Inside(k, low) then [low] else []) + (if Inside(k, top) then [top] else [])
  }

  lemma {:induction false} DivBound(m: int, f: nat, n: nat)
    requires f > 0
    ensures m * f <= n <==> m <= n / f
  {
    var q := n / f;
    assert n == q * f + n % f;
    NonzeroMultiple(m - q, f);
    assert m * f == (m - q) * f + q * f;
  }

  lemma {:induction false} FitsShifted(m: int, f: nat)
    requires f > 0
    ensures InI128(m * f) <==> -(TWO127 / f) <= m <= MAX128 / f
  {
    DivBound(m, f, MAX128);
    DivBound(-m, f, TWO127);
    assert (-m) * f == -(m * f);
  }

  lemma {:induction false} InTurns(k: Kind, u: Value, lit: Value)
    requires Inside(k, u) && Exacts(k, lit)
    ensures var (m, s, t) := (AsDec(u).value.0, ScaleOf(k), AsDec(lit).value.1);
      u in Turns(k, lit) <==> s < t && (m == -(TWO127 / Ten(t - s)) - 1 || m == MAX128 / Ten(t - s))
  {
    hide Ten;
    hide InI128;
    hide InI64;
    var (m, s, t) := (AsDec(u).value.0, ScaleOf(k), AsDec(lit).value.1);
    assert u == Nth(k, m);
    if s < t {
      var f := Ten(t - s);
      assert u == Nth(k, -(TWO127 / f) - 1) <==> m == -(TWO127 / f) - 1;
      assert u == Nth(k, MAX128 / f) <==> m == MAX128 / f;
    }
  }

  lemma {:induction false} AlignsAt(k: Kind, u: Value, lit: Value)
    requires OfKind(k, u) && Real(lit) && Exacts(k, lit)
    ensures var (m, s, l, t) := (AsDec(u).value.0, ScaleOf(k), AsDec(lit).value.0, AsDec(lit).value.1);
      Aligns(u, lit) <==> if s < t then -(TWO127 / Ten(t - s)) <= m <= MAX128 / Ten(t - s) else Rescale(l, t, s).Some?
  {
    hide Ten;
    hide Rescale;
    hide AlignedCmp;
    var (m, s, l, t) := (AsDec(u).value.0, ScaleOf(k), AsDec(lit).value.0, AsDec(lit).value.1);
    AlignsWhen(m, s, l, t);
    if s < t { FitsShifted(m, Ten(t - s)); }
    hide InI128;
  }

  /** Those are the values, and no others, at which alignment changes. */
  lemma {:induction false} TurnsExact(k: Kind, u: Value, lit: Value)
    requires Inside(k, u) && Real(lit)
    ensures u in Turns(k, lit) <==> Aligns(u, lit) != Aligns(Next(u), lit)
  {
    if Exacts(k, lit) {
      InTurns(k, u, lit);
      AlignsAt(k, u, lit);
      AlignsAt(k, Next(u), lit);
      Divided(AsDec(lit).value.1, ScaleOf(k));
      hide Turns;
      hide Aligns;
      hide Ten;
      hide Rescale;
    }
  }

  lemma {:induction false} Divided(t: nat, s: nat)
    ensures s < t ==> TWO127 / Ten(t - s) >= 0 && MAX128 / Ten(t - s) >= 0
  {
    hide Ten;
  }

  /** The order steps back at `u`, and on the far side lies a row `v` that is lost. */
  predicate LostAt(env: Env, op: Op, u: Value, v: Value, lit: Value) {
    var (o, o') := (TotalCmp(env, u, lit), TotalCmp(env, Next(u), lit));
    match op
    case LtEq => o == Greater && o' != Greater && v == Next(u)
    case Gt => o == Greater && o' != Greater && v == u
    case Lt => o != Less && o' == Less && v == Next(u)
    case GtEq => o != Less && o' == Less && v == u
    case Eq => TotalCmp(env, v, lit) == Equal
      && ((o == Greater && o' != Greater && AtMost(TotalCmp(env, Next(u), v))) || (o != Less && o' == Less && AtMost(TotalCmp(env, v, u))))
    case _ => false
  }

  /** A turn of the column between two bounds. */
  ghost predicate TurnIn(env: Env, k: Kind, mn: Value, u: Value, mx: Value, lit: Value) {
    u in Turns(k, lit) && Between(env, k, mn, u, mx) && Between(env, k, mn, Next(u), mx)
  }

  lemma {:induction false} CmpNth(env: Env, k: Kind, i: int, j: int)
    requires k.IntKind? || k.DecimalKind?
    ensures TotalCmp(env, Nth(k, i), Nth(k, j)) == CmpInt(i, j)
  {
    if k.DecimalKind? { SameScale(env, Nth(k, i), Nth(k, j)); }
  }

  /** Off the turns the order against a literal never steps back. */
  lemma {:induction false} NoTurn(env: Env, k: Kind, i: int, lit: Value)
    requires Rounds(env) && Real(lit) && (k.IntKind? || k.DecimalKind?) && Inside(k, Nth(k, i)) && Nth(k, i) !in Turns(k, lit)
    ensures TotalCmp(env, Nth(k, i + 1), lit) == Less ==> TotalCmp(env, Nth(k, i), lit) == Less
    ensures AtMost(TotalCmp(env, Nth(k, i + 1), lit)) ==> AtMost(TotalCmp(env, Nth(k, i), lit))
  {
    hide Aligns;
    hide Turns;
    hide Rounds;
    TurnsExact(k, Nth(k, i), lit);
    CmpNth(env, k, i, i + 1);
    hide TotalCmp;
    LowerValue(env, k, Nth(k, i), Nth(k, i + 1), lit);
  }

  /** The order falls from "greater" between two values only at some turn. */
  lemma {:induction false} FallFromGreater(env: Env, k: Kind, a: int, b: int, lit: Value) returns (c: int)
    requires Rounds(env) && Real(lit) && (k.IntKind? || k.DecimalKind?) && OfKind(k, Nth(k, a)) && OfKind(k, Nth(k, b)) && a <= b
    requires TotalCmp(env, Nth(k, a), lit) == Greater && TotalCmp(env, Nth(k, b), lit) != Greater
    ensures a <= c < b && Nth(k, c) in Turns(k, lit) && TotalCmp(env, Nth(k, c), lit) == Greater && TotalCmp(env, Nth(k, c + 1), lit) != Greater
    decreases b - a
  {
    hide TotalCmp;
    hide Turns;
    hide Rounds;
    if TotalCmp(env, Nth(k, a + 1), lit) == Greater {
      c := FallFromGreater(env, k, a + 1, b, lit);
    } else {
      c := a;
      if Nth(k, a) !in Turns(k, lit) { NoTurn(env, k, a, lit); }
    }
  }

  lemma {:induction false} FallToLess(env: Env, k: Kind, a: int, b: int, lit: Value) returns (c: int)
    requires Rounds(env) && Real(lit) && (k.IntKind? || k.DecimalKind?) && OfKind(k, Nth(k, a)) && OfKind(k, Nth(k, b)) && a <= b
    requires TotalCmp(env, Nth(k, a), lit) != Less && TotalCmp(env, Nth(k, b), lit) == Less
    ensures a <= c < b && Nth(k, c) in Turns(k, lit) && TotalCmp(env, Nth(k, c), lit) != Less && TotalCmp(env, Nth(k, c + 1), lit) == Less
    decreases b - a
  {
    hide TotalCmp;
    hide Turns;
    hide Rounds;
    if TotalCmp(env, Nth(k, a + 1), lit) != Less {
      c := FallToLess(env, k, a + 1, b, lit);
    } else {
      c := a;
      if Nth(k, a) !in Turns(k, lit) { NoTurn(env, k, a, lit); }
    }
  }

  lemma {:induction false} TurnInNth(env: Env, k: Kind, a: int, c: int, b: int, lit: Value)
    requires (k.IntKind? || k.DecimalKind?) && OfKind(k, Nth(k, a)) && OfKind(k, Nth(k, b))
    requires a <= c < b && Nth(k, c) in Turns(k, lit)
    ensures TurnIn(env, k, Nth(k, a), Nth(k, c), Nth(k, b), lit) && Next(Nth(k, c)) == Nth(k, c + 1)
  {
    hide Turns;
    CmpNth(env, k, a, c);
    CmpNth(env, k, a, c + 1);
    CmpNth(env, k, c, b);
    CmpNth(env, k, c + 1, b);
    hide TotalCmp;
  }

  lemma {:induction false} IsNth(env: Env, k: Kind, x: Value, y: Value)
    requires OfKind(k, x) && OfKind(k, y) && AtMost(TotalCmp(env, x, y)) && (k.IntKind? || k.DecimalKind?)
    ensures AsDec(x).Some? && AsDec(y).Some? && AsDec(x).value.0 <= AsDec(y).value.0
    ensures x == Nth(k, AsDec(x).value.0) && y == Nth(k, AsDec(y).value.0)
  {
    Ordered(env, k, x, y);
    hide TotalCmp;
  }

  predicate SteppedBack(o: Order, o': Order, ofGreater: bool) {
    if ofGreater then o == Greater && o' != Greater else o != Less && o' == Less
  }

  /** A column that is never compared exactly is compared in order throughout. */
  lemma {:induction false} NeverExact(env: Env, k: Kind, x: Value, y: Value, lit: Value, ofGreater: bool)
    requires Rounds(env) && Real(lit) && OfKind(k, x) && OfKind(k, y) && AtMost(TotalCmp(env, x, y))
    requires SteppedBack(TotalCmp(env, x, lit), TotalCmp(env, y, lit), ofGreater)
    ensures Exacts(k, lit)
  {
    hide Rounds;
    hide TotalCmp;
    hide AlignedCmp;
    if !Exacts(k, lit) { LowerValue(env, k, x, y, lit); }
  }

  /** Wherever the order steps back between two values of a column, it does so at a
      turn between them. */
  lemma {:induction false} StepsBackAtTurn(env: Env, k: Kind, x: Value, y: Value, lit: Value, ofGreater: bool) returns (u: Value)
    requires Rounds(env) && Real(lit) && OfKind(k, x) && OfKind(k, y) && AtMost(TotalCmp(env, x, y))
    requires SteppedBack(TotalCmp(env, x, lit), TotalCmp(env, y, lit), ofGreater)
    ensures TurnIn(env, k, x, u, y, lit) && SteppedBack(TotalCmp(env, u, lit), TotalCmp(env, Next(u), lit), ofGreater)
  {
    hide Rounds;
    hide TotalCmp;
    hide OfKind;
    hide Turns;
    NeverExact(env, k, x, y, lit, ofGreater);
    IsNth(env, k, x, y);
    var (a, b) := (AsDec(x).value.0, AsDec(y).value.0);
    hide Nth;
    hide AsDec;
    var c;
    if ofGreater { c := FallFromGreater(env, k, a, b, lit); } else { c := FallToLess(env, k, a, b, lit); }
    hide TurnIn;
    TurnInNth(env, k, a, c, b, lit);
    u := Nth(k, c);
  }

  /** What an excluded range and a row that satisfies the test all the same come to:
      the order steps back from the one to the other. */
  lemma {:induction false} RangeStepsBack(env: Env, k: Kind, op: Op, mn: Value, x: Value, mx: Value, lit: Value)
    requires Rounds(env) && Between(env, k, mn, x, mx) && Real(lit)
    requires RangeExcludes(env, op, mn, mx, lit) && EvalCompare(env, op, x, lit) == TRUE
    requires SqlCmp(env, x, lit) == Some(Equal) ==> !Breaks(op, TotalCmp(env, x, lit))
    ensures op.Eq? ==> TotalCmp(env, x, lit) == Equal
    ensures op.LtEq? || (op.Eq? && TotalCmp(env, mn, lit) == Greater) ==> SteppedBack(TotalCmp(env, mn, lit), TotalCmp(env, x, lit), true)
    ensures op.Lt? ==> SteppedBack(TotalCmp(env, mn, lit), TotalCmp(env, x, lit), false)
    ensures op.Gt? ==> SteppedBack(TotalCmp(env, x, lit), TotalCmp(env, mx, lit), true)
    ensures op.GtEq? || (op.Eq? && TotalCmp(env, mn, lit) != Greater) ==> SteppedBack(TotalCmp(env, x, lit), TotalCmp(env, mx, lit), false)
    ensures Ranged(op)
  {
    SqlFollowsTotal(env, x, lit);
    TotalFlips(env, mn, lit);
    TotalFlips(env, mx, lit);
    hide TotalCmp;
    hide SqlCmp;
    hide Rounds;
    hide OfKind;
    hide Aligns;
  }

  lemma {:induction false} LostBelow(env: Env, k: Kind, op: Op, mn: Value, x: Value, mx: Value, lit: Value) returns (u: Value, v: Value)
    requires Rounds(env) && Between(env, k, mn, x, mx) && Real(lit) && (op.Lt? || op.LtEq? || op.Eq?)
    requires SteppedBack(TotalCmp(env, mn, lit), TotalCmp(env, x, lit), !op.Lt?) && (op.Eq? ==> TotalCmp(env, x, lit) == Equal)
    ensures TurnIn(env, k, mn, u, mx, lit) && Between(env, k, mn, v, mx) && LostAt(env, op, u, v, lit)
  {
    hide Rounds;
    hide TotalCmp;
    hide OfKind;
    hide Turns;
    hide Next;
    KindOrder(env, k, mn, mx, x);
    u := StepsBackAtTurn(env, k, mn, x, lit, !op.Lt?);
    TurnWidens(env, k, mn, mn, u, x, mx, lit);
    v := if op.Eq? then x else Next(u);
  }

  lemma {:induction false} LostAbove(env: Env, k: Kind, op: Op, mn: Value, x: Value, mx: Value, lit: Value) returns (u: Value, v: Value)
    requires Rounds(env) && Between(env, k, mn, x, mx) && Real(lit) && (op.Gt? || op.GtEq? || op.Eq?)
    requires SteppedBack(TotalCmp(env, x, lit), TotalCmp(env, mx, lit), op.Gt?) && (op.Eq? ==> TotalCmp(env, x, lit) == Equal)
    ensures TurnIn(env, k, mn, u, mx, lit) && Between(env, k, mn, v, mx) && LostAt(env, op, u, v, lit)
  {
    hide Rounds;
    hide TotalCmp;
    hide OfKind;
    hide Turns;
    hide Next;
    KindOrder(env, k, mx, mx, x);
    u := StepsBackAtTurn(env, k, x, mx, lit, op.Gt?);
    TurnWidens(env, k, mn, x, u, mx, mx, lit);
    v := if op.Eq? then x else u;
  }

  /** One comparison: if its range is excluded and a value in range satisfies it all
      the same, then SQL calls the value equal to the literal and the order does not,
      or the order steps back at a turn within the range. */
  lemma {:induction false} RangeSound(env: Env, k: Kind, op: Op, mn: Value, x: Value, mx: Value, lit: Value)
    requires Rounds(env) && Between(env, k, mn, x, mx) && Real(lit)
    requires RangeExcludes(env, op, mn, mx, lit) && EvalCompare(env, op, x, lit) == TRUE
    ensures (SqlCmp(env, x, lit) == Some(Equal) && Breaks(op, TotalCmp(env, x, lit)))
      || exists u, v :: TurnIn(env, k, mn, u, mx, lit) && Between(env, k, mn, v, mx) && LostAt(env, op, u, v, lit)
  {
    hide SqlCmp;
    hide Rounds;
    hide EvalCompare;
    hide RangeExcludes;
    hide TotalCmp;
    hide TurnIn;
    hide Between;
    hide LostAt;
    if !(SqlCmp(env, x, lit) == Some(Equal) && Breaks(op, TotalCmp(env, x, lit))) {
      RangeStepsBack(env, k, op, mn, x, mx, lit);
      hide Breaks;
      if op.Lt? || op.LtEq? || (op.Eq? && TotalCmp(env, mn, lit) == Greater) {
        var u, v := LostBelow(env, k, op, mn, x, mx, lit);
      } else {
        var u, v := LostAbove(env, k, op, mn, x, mx, lit);
      }
    }
  }

  lemma {:induction false} TurnWidens(env: Env, k: Kind, mn: Value, lo: Value, u: Value, hi: Value, mx: Value, lit: Value)
    requires TurnIn(env, k, lo, u, hi, lit)
    requires OfKind(k, mn) && OfKind(k, mx) && AtMost(TotalCmp(env, mn, lo)) && AtMost(TotalCmp(env, hi, mx))
    ensures TurnIn(env, k, mn, u, mx, lit)
    ensures AtMost(TotalCmp(env, lo, u)) && AtMost(TotalCmp(env, Next(u), hi))
  {
    hide Turns;
    KindOrder(env, k, mn, lo, u);
    KindOrder(env, k, mn, lo, Next(u));
    KindOrder(env, k, u, hi, mx);
    KindOrder(env, k, Next(u), hi, mx);
    hide TotalCmp;
    hide OfKind;
  }

  // ---- when pruning a part is right ----------------------------------------

  /** No value of the part is equal to the literal under SQL and beyond it in the
      order (on either side for `=`, above for `<=`, below for `>=`), and at no turn
      within it does the order step back and leave a row of the part behind. */
  ghost predicate PartSound(env: Env, k: Kind, op: Op, mn: Value, mx: Value, lit: Value) {
    && (forall v :: Between(env, k, mn, v, mx) && SqlCmp(env, v, lit) == Some(Equal) ==> !Breaks(op, TotalCmp(env, v, lit)))
    && (forall u, v :: TurnIn(env, k, mn, u, mx, lit) && Between(env, k, mn, v, mx) ==> !LostAt(env, op, u, v, lit))
  }

  /** That is the exact condition for pruning an excluded part. */
  lemma {:induction false} PartExact(env: Env, k: Kind, op: Op, mn: Value, mx: Value, lit: Value)
    requires Rounds(env) && Real(lit) && Ranged(op) && RangeExcludes(env, op, mn, mx, lit)
    ensures (forall x :: Between(env, k, mn, x, mx) ==> EvalCompare(env, op, x, lit) != TRUE) <==> PartSound(env, k, op, mn, mx, lit)
  {
    hide Rounds;
    hide Between;
    hide EvalCompare;
    hide RangeExcludes;
    hide PartSound;
    if PartSound(env, k, op, mn, mx, lit) {
      forall x | Between(env, k, mn, x, mx) ensures EvalCompare(env, op, x, lit) != TRUE {
        PartKeeps(env, k, op, mn, x, mx, lit);
      }
    } else {
      var x := PartLoses(env, k, op, mn, mx, lit);
    }
  }

  lemma {:induction false} PartKeeps(env: Env, k: Kind, op: Op, mn: Value, x: Value, mx: Value, lit: Value)
    requires Rounds(env) && Real(lit) && RangeExcludes(env, op, mn, mx, lit)
    requires Between(env, k, mn, x, mx) && PartSound(env, k, op, mn, mx, lit)
    ensures EvalCompare(env, op, x, lit) != TRUE
  {
    hide Rounds;
    hide Between;
    hide TurnIn;
    hide LostAt;
    hide EvalCompare;
    hide SqlCmp;
    hide TotalCmp;
    hide RangeExcludes;
    hide Breaks;
    if EvalCompare(env, op, x, lit) == TRUE { RangeSound(env, k, op, mn, x, mx, lit); }
  }

  lemma {:induction false} PartLoses(env: Env, k: Kind, op: Op, mn: Value, mx: Value, lit: Value) returns (x: Value)
    requires Rounds(env) && Real(lit) && Ranged(op) && !PartSound(env, k, op, mn, mx, lit)
    ensures Between(env, k, mn, x, mx) && EvalCompare(env, op, x, lit) == TRUE
  {
    hide Rounds;
    hide Between;
    hide TurnIn;
    hide LostAt;
    hide EvalCompare;
    hide SqlCmp;
    hide TotalCmp;
    hide Breaks;
    if v :| Between(env, k, mn, v, mx) && SqlCmp(env, v, lit) == Some(Equal) && Breaks(op, TotalCmp(env, v, lit)) {
      BrokenHolds(env, op, v, lit);
      x := v;
    } else {
      var u, v :| TurnIn(env, k, mn, u, mx, lit) && Between(env, k, mn, v, mx) && LostAt(env, op, u, v, lit);
      LostHolds(env, k, op, mn, u, v, mx, lit);
      x := v;
    }
  }

  lemma {:induction false} BrokenHolds(env: Env, op: Op, v: Value, lit: Value)
    requires SqlCmp(env, v, lit) == Some(Equal) && Breaks(op, TotalCmp(env, v, lit))
    ensures EvalCompare(env, op, v, lit) == TRUE
  {
    hide SqlCmp;
    hide TotalCmp;
  }

  /** A row left behind at a turn satisfies the test. */
  lemma {:induction false} LostHolds(env: Env, k: Kind, op: Op, mn: Value, u: Value, v: Value, mx: Value, lit: Value)
    requires Rounds(env) && Real(lit) && TurnIn(env, k, mn, u, mx, lit) && Between(env, k, mn, v, mx) && LostAt(env, op, u, v, lit)
    ensures EvalCompare(env, op, v, lit) == TRUE
  {
    hide Rounds;
    TurnInside(k, u, lit);
    hide Turns;
    hide TotalCmp;
    ExactAgrees(env, v, lit);
    hide SqlCmp;
  }

  // ---- operands the other way round ----------------------------------------

  /** The same with the literal on the left. */
  lemma {:induction false} FlipSound(env: Env, op: Op, x: Value, lit: Value)
    requires Ranged(op)
    ensures EvalCompare(env, op, lit, x) == EvalCompare(env, Flip(op), x, lit)
  {
    SqlFlips(env, x, lit);
  }

  lemma {:induction false} SqlFlips(env: Env, a: Value, b: Value)
    ensures SqlCmp(env, b, a) == match SqlCmp(env, a, b) case None => None case Some(o) => Some(o.Flip())
  {
    if a.Text? && b.Text? { CmpBytesEqual(a.bytes, b.bytes); }
    if ExactPair(a, b) {
      var ((m, s), (n, t)) := (AsDec(a).value, AsDec(b).value);
      AlignedFlips(m, s, n, t);
    }
  }

  /** Every bounded column's bounds cover the row's value, if it is not NULL. */
  ghost predicate CoversRow(env: Env, kinds: seq<Kind>, bounds: Bounds, row: seq<Value>) {
    |bounds| == |kinds| == |row| &&
    forall c :: 0 <= c < |bounds| && !row[c].Null? ==>
      bounds[c].Some? && Between(env, kinds[c], bounds[c].value.0, row[c], bounds[c].value.1)
  }

  predicate Narrow(i: int) { -0x20_0000_0000_0000 < i < 0x20_0000_0000_0000 }

  /** Zero, as a number of any type. */
  predicate ZeroLit(lit: Value) {
    match lit
    case Int(i) => i == 0
    case Float(bits) => IsZero(bits)
    case Bool(b) => !b
    case Decimal(m, _) => m == 0
    case _ => false
  }

  predicate Falls(op: Op, o: Order, o': Order) {
    match op
    case LtEq => SteppedBack(o, o', true)
    case Gt => SteppedBack(o, o', true)
    case Lt => SteppedBack(o, o', false)
    case GtEq => SteppedBack(o, o', false)
    case _ => SteppedBack(o, o', true) || SteppedBack(o, o', false)
  }

  /** At no turn between the bounds does the order step back in a way that matters. */
  predicate Steady(env: Env, k: Kind, op: Op, mn: Value, mx: Value, lit: Value) {
    forall u :: u in Turns(k, lit) && AtMost(TotalCmp(env, mn, u)) && AtMost(TotalCmp(env, Next(u), mx))
      ==> !Falls(op, TotalCmp(env, u, lit), TotalCmp(env, Next(u), lit))
  }

  lemma {:induction false} SteadyKeeps(env: Env, k: Kind, op: Op, mn: Value, u: Value, mx: Value, lit: Value, v: Value)
    requires Steady(env, k, op, mn, mx, lit) && TurnIn(env, k, mn, u, mx, lit)
    ensures !LostAt(env, op, u, v, lit)
  {
    hide TotalCmp;
    hide Turns;
    hide OfKind;
    hide Next;
  }

  /** A part whose values are all compared in the same way has no turn at all. */
  lemma {:induction false} OneRouteSteady(env: Env, k: Kind, op: Op, mn: Value, mx: Value, lit: Value)
    requires OfKind(k, mn) && OfKind(k, mx) && Real(lit) && OneRoute(mn, mx, lit)
    ensures Steady(env, k, op, mn, mx, lit)
  {
    hide OneRoute;
    forall u | u in Turns(k, lit) && AtMost(TotalCmp(env, mn, u)) && AtMost(TotalCmp(env, Next(u), mx))
      ensures false
    {
      TurnInside(k, u, lit);
      NextAbove(env, k, u);
      KindOrder(env, k, mn, u, Next(u));
      KindOrder(env, k, u, Next(u), mx);
      hide TotalCmp;
      hide OfKind;
      hide Next;
      hide Turns;
      hide Aligns;
      TurnsExact(k, u, lit);
      RouteBetween(env, k, mn, u, mx, lit);
      RouteBetween(env, k, mn, Next(u), mx, lit);
    }
  }

  lemma {:induction false} TurnInside(k: Kind, u: Value, lit: Value)
    requires u in Turns(k, lit)
    ensures Inside(k, u) && Exacts(k, lit)
  {
    hide Ten;
    hide OfKind;
  }

  lemma {:induction false} NextAbove(env: Env, k: Kind, u: Value)
    requires Inside(k, u)
    ensures AtMost(TotalCmp(env, u, Next(u)))
  {
    KindOrder(env, k, u, u, u);
    if k.DecimalKind? { SameScale(env, u, Next(u)); }
  }

  /** When pruning a column by one comparison is right, from its type, its bounds
      and the literal: the comparison does not step back between the bounds; two
      integers are not both outside 2^53; a numeric column is not compared with a
      negative zero, nor a float column with zero at all. */
  predicate SafeTest(env: Env, k: Kind, op: Op, mn: Value, mx: Value, lit: Value) {
    && Real(lit) && Steady(env, k, op, mn, mx, lit)
    && match k
       case IntKind => lit != Float(SIGN) && (lit.Int? && mn.Int? && mx.Int? ==> Narrow(lit.i) || (Narrow(mn.i) && Narrow(mx.i)))
       case FloatKind => !ZeroLit(lit)
       case TextKind => true
       case _ => lit != Float(SIGN)
  }

  predicate SafeLeaf(env: Env, kinds: seq<Kind>, bounds: Bounds, op: Op, c: nat, lit: Value) {
    c < |bounds| && c < |kinds| && bounds[c].Some? ==> SafeTest(env, kinds[c], op, bounds[c].value.0, bounds[c].value.1, lit)
  }

  /** Every comparison that pruning looks at is safe. */
  predicate Safe(env: Env, kinds: seq<Kind>, bounds: Bounds, e: Expr) {
    match e
    case Binary(And, l, r) => Safe(env, kinds, bounds, l) && Safe(env, kinds, bounds, r)
    case Binary(Or, l, r) => Safe(env, kinds, bounds, l) && Safe(env, kinds, bounds, r)
    case Binary(op, Column(c), Literal(v)) => Ranged(op) ==> SafeLeaf(env, kinds, bounds, op, c, v)
    case Binary(op, Literal(v), Column(c)) => Ranged(op) ==> SafeLeaf(env, kinds, bounds, Flip(op), c, v)
    case _ => true
  }

  /** If the comparison excludes the part, that is right. */
  ghost predicate LeafSound(env: Env, kinds: seq<Kind>, bounds: Bounds, op: Op, c: nat, lit: Value) {
    c < |kinds| && ColumnExcludes(env, op, c, lit, bounds) ==>
      Real(lit) && PartSound(env, kinds[c], op, bounds[c].value.0, bounds[c].value.1, lit)
  }

  /** Every comparison that excludes the part does so rightly. */
  ghost predicate Sound(env: Env, kinds: seq<Kind>, bounds: Bounds, e: Expr) {
    match e
    case Binary(And, l, r) => Sound(env, kinds, bounds, l) && Sound(env, kinds, bounds, r)
    case Binary(Or, l, r) => Sound(env, kinds, bounds, l) && Sound(env, kinds, bounds, r)
    case Binary(op, Column(c), Literal(v)) => Ranged(op) ==> LeafSound(env, kinds, bounds, op, c, v)
    case Binary(op, Literal(v), Column(c)) => Ranged(op) ==> LeafSound(env, kinds, bounds, Flip(op), c, v)
    case _ => true
  }

  lemma {:induction false} LeafHolds(env: Env, kinds: seq<Kind>, bounds: Bounds, row: seq<Value>, op: Op, c: nat, lit: Value)
    requires Rounds(env) && CoversRow(env, kinds, bounds, row) && Ranged(op)
    requires LeafSound(env, kinds, bounds, op, c, lit) && ColumnExcludes(env, op, c, lit, bounds)
    ensures EvalCompare(env, op, Eval(env, Column(c), row), lit) != TRUE
  {
    hide Rounds;
    hide Between;
    hide PartSound;
    hide EvalCompare;
    hide SqlCmp;
    hide RangeExcludes;
    var x := Eval(env, Column(c), row);
    if x.Null? {
      NullCompares(env, op, lit);
    } else {
      PartExact(env, kinds[c], op, bounds[c].value.0, bounds[c].value.1, lit);
    }
  }

  lemma {:induction false} NullCompares(env: Env, op: Op, lit: Value)
    ensures EvalCompare(env, op, Null, lit) == Null
  {
  }

  /** The test on type, bounds and literal is enough. */
  lemma {:induction false} SafePart(env: Env, k: Kind, op: Op, mn: Value, mx: Value, lit: Value)
    requires Rounds(env) && SafeTest(env, k, op, mn, mx, lit)
    ensures Real(lit) && PartSound(env, k, op, mn, mx, lit)
  {
    hide Rounds;
    hide Steady;
    hide SqlCmp;
    hide TotalCmp;
    hide LostAt;
    hide Breaks;
    hide OfKind;
    hide Turns;
    forall v | Between(env, k, mn, v, mx) && SqlCmp(env, v, lit) == Some(Equal) ensures !Breaks(op, TotalCmp(env, v, lit)) {
      SafeNeverCollides(env, k, op, mn, v, mx, lit);
      EqualNeverBreaks(op);
    }
    forall u, v | TurnIn(env, k, mn, u, mx, lit) && Between(env, k, mn, v, mx) ensures !LostAt(env, op, u, v, lit) {
      SteadyKeeps(env, k, op, mn, u, mx, lit, v);
    }
  }

  lemma {:induction false} EqualNeverBreaks(op: Op)
    ensures !Breaks(op, Equal)
  {
  }

  /** So a predicate that passes it excludes only rightly. */
  lemma {:induction false} SafeIsSound(env: Env, kinds: seq<Kind>, bounds: Bounds, e: Expr)
    requires Rounds(env) && Safe(env, kinds, bounds, e)
    ensures Sound(env, kinds, bounds, e)
    decreases e
  {
    hide Rounds;
    hide SafeTest;
    hide PartSound;
    hide RangeExcludes;
    match e
    case Binary(op, l, r) =>
      if op.And? || op.Or? {
        SafeIsSound(env, kinds, bounds, l);
        SafeIsSound(env, kinds, bounds, r);
      } else if Ranged(op) && l.Column? && r.Literal? {
        SafeLeafSound(env, kinds, bounds, op, l.c, r.v);
      } else if Ranged(op) && l.Literal? && r.Column? {
        SafeLeafSound(env, kinds, bounds, Flip(op), r.c, l.v);
      }
    case _ =>
  }

  lemma {:induction false} SafeLeafSound(env: Env, kinds: seq<Kind>, bounds: Bounds, op: Op, c: nat, lit: Value)
    requires Rounds(env) && SafeLeaf(env, kinds, bounds, op, c, lit)
    ensures LeafSound(env, kinds, bounds, op, c, lit)
  {
    hide Rounds;
    hide SafeTest;
    hide PartSound;
    hide RangeExcludes;
    if c < |kinds| && ColumnExcludes(env, op, c, lit, bounds) {
      SafePart(env, kinds[c], op, bounds[c].value.0, bounds[c].value.1, lit);
    }
  }

  /** Pruning is sound: whatever the nesting of AND, OR and comparisons, wherever
      the NULLs and on whichever side the literals, if the comparisons exclude the
      part rightly it has no row for which the predicate is TRUE. */
  lemma {:induction false} ExcludesSound(env: Env, kinds: seq<Kind>, bounds: Bounds, row: seq<Value>, e: Expr)
    requires Rounds(env) && CoversRow(env, kinds, bounds, row) && Sound(env, kinds, bounds, e) && Excludes(env, e, bounds)
    ensures Eval(env, e, row) != TRUE
    decreases e
  {
    hide Rounds;
    hide CoversRow;
    hide LeafSound;
    hide ColumnExcludes;
    hide EvalCompare;
    if e.op.And? {
      if Excludes(env, e.l, bounds) {
        ExcludesSound(env, kinds, bounds, row, e.l);
      } else {
        ExcludesSound(env, kinds, bounds, row, e.r);
      }
    } else if e.op.Or? {
      ExcludesSound(env, kinds, bounds, row, e.l);
      ExcludesSound(env, kinds, bounds, row, e.r);
    } else if e.l.Column? {
      LeafHolds(env, kinds, bounds, row, e.op, e.l.c, e.r.v);
    } else {
      FlipSound(env, e.op, Eval(env, e.r, row), e.l.v);
      LeafHolds(env, kinds, bounds, row, Flip(e.op), e.r.c, e.l.v);
    }
  }

  // ---- dropping parts ------------------------------------------------------

  /** What a scan yields: whole parts with their bounds, or loose rows. */
  datatype Segment = WholePart(rows: seq<seq<Value>>, bounds: Bounds) | Owned(rows: seq<seq<Value>>)

  function Matching(env: Env, e: Expr, rows: seq<seq<Value>>): seq<seq<Value>> {
    if rows == [] then []
    else Matching(env, e, rows[..|rows|-1]) + (if Eval(env, e, rows[|rows|-1]) == TRUE then [rows[|rows|-1]] else [])
  }

  function MatchingAll(env: Env, e: Expr, segs: seq<Segment>): seq<seq<Value>> {
    if segs == [] then [] else MatchingAll(env, e, segs[..|segs|-1]) + Matching(env, e, segs[|segs|-1].rows)
  }

  predicate Keeps(env: Env, e: Expr, s: Segment) { s.WholePart? ==> !Excludes(env, e, s.bounds) }

  /** `segments.retain(..)` with the pruning test, in a loop. */
  method Prune(env: Env, e: Expr, segs: seq<Segment>) returns (kept: seq<Segment>)
    ensures kept == Kept(env, e, segs)
    ensures forall s :: s in kept <==> s in segs && (s.Owned? || !Excludes(env, e, s.bounds))
  {
    hide Excludes;
    kept := [];
    for i := 0 to |segs|
      invariant kept == Kept(env, e, segs[..i])
      invariant forall s :: s in kept <==> s in segs[..i] && (s.Owned? || !Excludes(env, e, s.bounds))
    {
      assert segs[..i+1][..i] == segs[..i];
      if Keeps(env, e, segs[i]) { kept := kept + [segs[i]]; }
    }
    assert segs[..|segs|] == segs;
  }

  function Kept(env: Env, e: Expr, segs: seq<Segment>): seq<Segment> {
    if segs == [] then []
    else Kept(env, e, segs[..|segs|-1]) + (if Keeps(env, e, segs[|segs|-1]) then [segs[|segs|-1]] else [])
  }

  /** If the part is excluded its bounds cover its rows and exclude them rightly;
      loose rows are never dropped. */
  ghost predicate SoundSegment(env: Env, kinds: seq<Kind>, e: Expr, s: Segment) {
    s.WholePart? && Excludes(env, e, s.bounds) ==>
      Sound(env, kinds, s.bounds, e) && forall i :: 0 <= i < |s.rows| ==> CoversRow(env, kinds, s.bounds, s.rows[i])
  }

  lemma {:induction false} NoneMatch(env: Env, kinds: seq<Kind>, e: Expr, bounds: Bounds, rows: seq<seq<Value>>)
    requires Rounds(env) && Excludes(env, e, bounds) && Sound(env, kinds, bounds, e)
    requires forall i :: 0 <= i < |rows| ==> CoversRow(env, kinds, bounds, rows[i])
    ensures Matching(env, e, rows) == []
  {
    hide Rounds;
    hide Excludes;
    hide CoversRow;
    hide Sound;
    if rows != [] {
      NoneMatch(env, kinds, e, bounds, rows[..|rows|-1]);
      ExcludesSound(env, kinds, bounds, rows[|rows|-1], e);
    }
  }

  /** Dropping the excluded parts leaves the filtered rows as they were, in order. */
  lemma {:induction false} PruningKeepsRows(env: Env, kinds: seq<Kind>, e: Expr, segs: seq<Segment>)
    requires Rounds(env) && forall i :: 0 <= i < |segs| ==> SoundSegment(env, kinds, e, segs[i])
    ensures MatchingAll(env, e, Kept(env, e, segs)) == MatchingAll(env, e, segs)
  {
    hide Rounds;
    hide Excludes;
    hide CoversRow;
    hide Sound;
    hide Matching;
    if segs != [] {
      var n := |segs| - 1;
      PruningKeepsRows(env, kinds, e, segs[..n]);
      var kept := Kept(env, e, segs[..n]);
      if Keeps(env, e, segs[n]) {
        assert (kept + [segs[n]])[..|kept|] == kept;
      } else {
        assert SoundSegment(env, kinds, e, segs[n]);
        NoneMatch(env, kinds, e, segs[n].bounds, segs[n].rows);
        assert kept + [] == kept && MatchingAll(env, e, segs[..n]) + [] == MatchingAll(env, e, segs[..n]);
      }
    }
  }

  // ---- computing bounds ----------------------------------------------------

  ghost predicate Typed(k: Kind, rows: seq<seq<Value>>, c: nat) {
    forall i :: 0 <= i < |rows| ==> c < |rows[i]| && (rows[i][c].Null? || OfKind(k, rows[i][c]))
  }

  lemma {:induction false} KindOrder(env: Env, k: Kind, x: Value, y: Value, z: Value)
    requires OfKind(k, x) && OfKind(k, y) && OfKind(k, z)
    ensures TotalCmp(env, x, x) == Equal
    ensures AtMost(TotalCmp(env, x, y)) || AtMost(TotalCmp(env, y, x))
    ensures AtMost(TotalCmp(env, x, y)) && AtMost(TotalCmp(env, y, z)) ==> AtMost(TotalCmp(env, x, z))
  {
    match k
    case TextKind =>
      CmpBytesEqual(x.bytes, x.bytes);
      CmpBytesEqual(x.bytes, y.bytes);
      if AtMost(CmpBytes(x.bytes, y.bytes)) && AtMost(CmpBytes(y.bytes, z.bytes)) { CmpBytesTransitive(x.bytes, y.bytes, z.bytes); }
    case DecimalKind(s) =>
      SameScale(env, x, x);
      SameScale(env, x, y);
      SameScale(env, y, x);
      SameScale(env, y, z);
      SameScale(env, x, z);
    case _ =>
  }

  ghost predicate Occurs(rows: seq<seq<Value>>, c: nat, v: Value) {
    exists i :: 0 <= i < |rows| && c < |rows[i]| && rows[i][c] == v
  }

  /** A column's zonemap: least and greatest non-null value, nothing for none
      (src/part.rs:148-150). */
  method ColumnBounds(env: Env, ghost k: Kind, rows: seq<seq<Value>>, c: nat) returns (b: Option<(Value, Value)>)
    requires Typed(k, rows, c)
    ensures b.None? <==> forall i :: 0 <= i < |rows| ==> rows[i][c].Null?
    ensures b.Some? ==> forall i :: 0 <= i < |rows| && !rows[i][c].Null? ==> Between(env, k, b.value.0, rows[i][c], b.value.1)
    ensures b.Some? ==> Occurs(rows, c, b.value.0) && Occurs(rows, c, b.value.1)
  {
    hide TotalCmp;
    b := None;
    for i := 0 to |rows|
      invariant b.None? <==> forall j :: 0 <= j < i ==> rows[j][c].Null?
      invariant b.Some? ==> OfKind(k, b.value.0) && OfKind(k, b.value.1)
      invariant b.Some? ==> Occurs(rows, c, b.value.0) && Occurs(rows, c, b.value.1)
      invariant b.Some? ==> forall j :: 0 <= j < i && !rows[j][c].Null? ==> Between(env, k, b.value.0, rows[j][c], b.value.1)
    {
      var v := rows[i][c];
      if !v.Null? {
        if b.None? {
          KindOrder(env, k, v, v, v);
          b := Some((v, v));
        } else {
          var (lo, hi) := b.value;
          forall j | 0 <= j < i && !rows[j][c].Null?
            ensures AtMost(TotalCmp(env, v, lo)) ==> AtMost(TotalCmp(env, v, rows[j][c]))
            ensures AtMost(TotalCmp(env, hi, v)) ==> AtMost(TotalCmp(env, rows[j][c], v))
          {
            assert Between(env, k, lo, rows[j][c], hi);
            KindOrder(env, k, v, lo, rows[j][c]);
            KindOrder(env, k, rows[j][c], hi, v);
          }
          KindOrder(env, k, v, lo, lo);
          KindOrder(env, k, v, hi, hi);
          b := Some((if AtMost(TotalCmp(env, v, lo)) then v else lo, if AtMost(TotalCmp(env, hi, v)) then v else hi));
        }
      }
    }
  }

  /** The bounds of every column of a part. */
  method PartBounds(env: Env, kinds: seq<Kind>, rows: seq<seq<Value>>) returns (bounds: Bounds)
    requires forall c :: 0 <= c < |kinds| ==> Typed(kinds[c], rows, c)
    requires forall i :: 0 <= i < |rows| ==> |rows[i]| == |kinds|
    ensures |bounds| == |kinds| && forall i :: 0 <= i < |rows| ==> CoversRow(env, kinds, bounds, rows[i])
    ensures forall c :: 0 <= c < |kinds| ==> (bounds[c].None? <==> forall i :: 0 <= i < |rows| ==> rows[i][c].Null?)
    ensures forall c :: 0 <= c < |kinds| && bounds[c].Some? ==> Occurs(rows, c, bounds[c].value.0) && Occurs(rows, c, bounds[c].value.1)
  {
    hide Between;
    hide Occurs;
    bounds := [];
    for c := 0 to |kinds|
      invariant |bounds| == c
      invariant forall d :: 0 <= d < c ==> (bounds[d].None? <==> forall i :: 0 <= i < |rows| ==> rows[i][d].Null?)
      invariant forall d :: 0 <= d < c && bounds[d].Some? ==> Occurs(rows, d, bounds[d].value.0) && Occurs(rows, d, bounds[d].value.1)
      invariant forall d, i :: 0 <= d < c && 0 <= i < |rows| && !rows[i][d].Null? ==>
        bounds[d].Some? && Between(env, kinds[d], bounds[d].value.0, rows[i][d], bounds[d].value.1)
    {
      var b := ColumnBounds(env, kinds[c], rows, c);
      bounds := bounds + [b];
    }
  }

  // ---- when collisions can happen ------------------------------------------

  /** Two different integers that round to the same double. */
  predicate IntsMeet(env: Env, x: Value, lit: Value) {
    x.Int? && lit.Int? && x.i != lit.i && env.ofInt(x.i) == env.ofInt(lit.i)
  }

  /** The two zeros, met in floating point. */
  predicate ZerosMeet(env: Env, x: Value, lit: Value) {
    && (x.Float? || lit.Float?) && AsF64(env, x).Some? && AsF64(env, lit).Some?
    && IsZero(AsF64(env, x).value) && IsZero(AsF64(env, lit).value) && AsF64(env, x) != AsF64(env, lit)
  }

  /** SQL calls two values equal that the order keeps apart in these two cases only. */
  lemma {:induction false} CollidesExactly(env: Env, k: Kind, x: Value, lit: Value)
    requires Rounds(env) && OfKind(k, x) && Real(lit)
    ensures Collides(env, x, lit) <==> IntsMeet(env, x, lit) || ZerosMeet(env, x, lit)
  {
    if x.Bool? && lit.Bool? {
      BoolsApart(env);
    } else if ExactPair(x, lit) {
      ExactAgrees(env, x, lit);
    } else if AsF64(env, x).Some? && AsF64(env, lit).Some? {
      FloatsMeet(env, x, lit);
    }
  }

  /** Where a decimal is involved both comparisons take the same route. */
  lemma {:induction false} ExactAgrees(env: Env, x: Value, lit: Value)
    requires Rounds(env) && Real(x) && Real(lit) && ExactPair(x, lit)
    ensures SqlCmp(env, x, lit) == Some(TotalCmp(env, x, lit))
  {
    hide AlignedCmp;
  }

  lemma {:induction false} FloatsMeet(env: Env, x: Value, lit: Value)
    requires Rounds(env) && Real(x) && Real(lit) && AsF64(env, x).Some? && AsF64(env, lit).Some?
    requires !ExactPair(x, lit) && !(x.Bool? && lit.Bool?)
    ensures Collides(env, x, lit) <==> IntsMeet(env, x, lit) || ZerosMeet(env, x, lit)
  {
    hide FloatRank;
    RankZero(AsF64(env, x).value, AsF64(env, lit).value);
  }

  lemma {:induction false} BoolsApart(env: Env)
    requires Rounds(env)
    ensures PartialCmp(env.ofInt(0), env.ofInt(0)) == Some(Equal) && PartialCmp(env.ofInt(1), env.ofInt(1)) == Some(Equal)
    ensures PartialCmp(env.ofInt(0), env.ofInt(1)) == Some(Less) && PartialCmp(env.ofInt(1), env.ofInt(0)) == Some(Greater)
  {
    assert Small(0) && Small(1);
    RankZero(env.ofInt(0), env.ofInt(1));
  }

  /** A safe comparison never meets a collision. */
  lemma {:induction false} SafeNeverCollides(env: Env, k: Kind, op: Op, mn: Value, x: Value, mx: Value, lit: Value)
    requires Rounds(env) && Between(env, k, mn, x, mx) && SafeTest(env, k, op, mn, mx, lit)
    ensures !Collides(env, x, lit)
  {
    CollidesExactly(env, k, x, lit);
    hide Collides;
    hide TotalCmp;
    hide Steady;
    if IntsMeet(env, x, lit) {
      IntBetween(env, mn, x, mx);
      IntsApart(env, x.i, lit.i);
    }
  }

  lemma {:induction false} IntBetween(env: Env, mn: Value, x: Value, mx: Value)
    requires Between(env, IntKind, mn, x, mx)
    ensures mn.i <= x.i <= mx.i
  {
  }

  lemma {:induction false} IntsApart(env: Env, i: int, j: int)
    requires Rounds(env) && i != j && (Narrow(i) || Narrow(j))
    ensures env.ofInt(i) != env.ofInt(j)
  {
    var (a, b) := if Narrow(i) then (i, j) else (j, i);
    var edge := if b > a then 0x20_0000_0000_0000 else -0x20_0000_0000_0000;
    assert Small(a) && Small(edge) && env.ofInt(a) != env.ofInt(edge);
    RankZero(env.ofInt(a), env.ofInt(edge));
    if !Small(b) {
      RankZero(env.ofInt(a), env.ofInt(b));
    }
  }

  /** Column by column: pruning is right for every part a column can have if and
      only if no value of it is equal to the literal under SQL and beyond it in the
      order, and at none of its turns (two at most) does the order step back and
      leave a row behind. */
  lemma {:induction false} PruningExact(env: Env, k: Kind, op: Op, lit: Value)
    requires Rounds(env) && Real(lit) && Ranged(op)
    ensures (forall mn, x, mx :: Between(env, k, mn, x, mx) && RangeExcludes(env, op, mn, mx, lit) ==> EvalCompare(env, op, x, lit) != TRUE)
      <==> ((forall v :: OfKind(k, v) && SqlCmp(env, v, lit) == Some(Equal) ==> !Breaks(op, TotalCmp(env, v, lit)))
        && (forall u, v :: u in Turns(k, lit) && OfKind(k, v) ==> !LostAt(env, op, u, v, lit)))
  {
    hide Rounds;
    hide TurnIn;
    hide LostAt;
    hide EvalCompare;
    hide SqlCmp;
    hide TotalCmp;
    hide RangeExcludes;
    hide Breaks;
    hide OfKind;
    hide Turns;
    forall mn, x, mx | Between(env, k, mn, x, mx) && RangeExcludes(env, op, mn, mx, lit) && EvalCompare(env, op, x, lit) == TRUE
      ensures (exists v :: OfKind(k, v) && SqlCmp(env, v, lit) == Some(Equal) && Breaks(op, TotalCmp(env, v, lit)))
        || exists u, v :: u in Turns(k, lit) && OfKind(k, v) && LostAt(env, op, u, v, lit)
    {
      RangeSound(env, k, op, mn, x, mx, lit);
      if u, v :| TurnIn(env, k, mn, u, mx, lit) && Between(env, k, mn, v, mx) && LostAt(env, op, u, v, lit) {
        assert u in Turns(k, lit) by { TurnOf(env, k, mn, u, mx, lit); }
      }
    }
    if v :| OfKind(k, v) && SqlCmp(env, v, lit) == Some(Equal) && Breaks(op, TotalCmp(env, v, lit)) {
      CollisionPrunes(env, k, op, v, lit);
    } else if u, v :| u in Turns(k, lit) && OfKind(k, v) && LostAt(env, op, u, v, lit) {
      var mn, x, mx := LostPrunes(env, k, op, u, v, lit);
    }
  }

  lemma {:induction false} TurnOf(env: Env, k: Kind, mn: Value, u: Value, mx: Value, lit: Value)
    requires TurnIn(env, k, mn, u, mx, lit)
    ensures u in Turns(k, lit)
  {
    hide Turns;
  }

  /** A part from the turn to the lost row, or back, is excluded. */
  lemma {:induction false} LostPrunes(env: Env, k: Kind, op: Op, u: Value, v: Value, lit: Value) returns (mn: Value, x: Value, mx: Value)
    requires Rounds(env) && Real(lit) && Ranged(op) && u in Turns(k, lit) && OfKind(k, v) && LostAt(env, op, u, v, lit)
    ensures Between(env, k, mn, x, mx) && RangeExcludes(env, op, mn, mx, lit) && EvalCompare(env, op, x, lit) == TRUE
  {
    TurnInside(k, u, lit);
    NextAbove(env, k, u);
    var w := Next(u);
    KindOrder(env, k, u, w, v);
    KindOrder(env, k, v, u, w);
    KindOrder(env, k, w, w, v);
    TotalFlips(env, u, lit);
    TotalFlips(env, w, lit);
    ExactAgrees(env, v, lit);
    hide Rounds;
    hide Turns;
    hide TotalCmp;
    hide SqlCmp;
    x := v;
    if op.Eq? {
      if TotalCmp(env, u, lit) == Greater && AtMost(TotalCmp(env, w, v)) { mn, mx := u, v; } else { mn, mx := v, w; }
    } else {
      mn, mx := u, w;
    }
  }

  lemma {:induction false} CollisionPrunes(env: Env, k: Kind, op: Op, v: Value, lit: Value)
    requires Rounds(env) && OfKind(k, v) && Real(lit) && SqlCmp(env, v, lit) == Some(Equal) && Breaks(op, TotalCmp(env, v, lit))
    ensures Between(env, k, v, v, v) && RangeExcludes(env, op, v, v, lit) && EvalCompare(env, op, v, lit) == TRUE
  {
    KindOrder(env, k, v, v, v);
    TotalFlips(env, v, lit);
    hide TotalCmp;
  }

  // ---- what goes wrong otherwise -------------------------------------------

  lemma {:induction false} LosesWhen(env: Env, op: Op, lit: Value, mn: Value, x: Value, mx: Value)
    requires Ranged(op) && RangeExcludes(env, op, mn, mx, lit) && EvalCompare(env, op, x, lit) == TRUE
    ensures LosesRow(env, op, lit, mn, x, mx)
  {
    hide RangeExcludes;
    hide EvalCompare;
    assert Eval(env, Column(0), [x]) == x && Eval(env, Literal(lit), [x]) == lit;
    assert Some((mn, mx)) == [Some((mn, mx))][0];
  }

  /** A predicate on column 0 prunes a part holding one row it is TRUE for. */
  ghost predicate LosesRow(env: Env, op: Op, lit: Value, mn: Value, x: Value, mx: Value) {
    && Excludes(env, Binary(op, Column(0), Literal(lit)), [Some((mn, mx))])
    && Eval(env, Binary(op, Column(0), Literal(lit)), [x]) == TRUE
  }

  const TWO53: int := 0x20_0000_0000_0000

  /** Beyond 2^53 rounding makes neighbours equal to SQL: `=` and `<=` against 2^53
      lose a row with 2^53 + 1, and `>=` against 2^53 + 1 loses a row with 2^53. */
  lemma {:induction false} LargeIntegersCollide(env: Env)
    requires Rounds(env) && env.ofInt(TWO53 + 1) == env.ofInt(TWO53)
    ensures var (edge, next) := (Int(TWO53), Int(TWO53 + 1));
      LosesRow(env, Eq, edge, next, next, next) && LosesRow(env, LtEq, edge, next, next, next) && LosesRow(env, GtEq, next, edge, edge, edge)
  {
    hide LosesRow;
    var (edge, next) := (Int(TWO53), Int(TWO53 + 1));
    MeetingInts(env, TWO53, TWO53 + 1);
    LosesWhen(env, Eq, edge, next, next, next);
    LosesWhen(env, LtEq, edge, next, next, next);
    LosesWhen(env, GtEq, next, edge, edge, edge);
  }

  lemma {:induction false} MeetingInts(env: Env, i: int, j: int)
    requires Rounds(env) && i < j && env.ofInt(i) == env.ofInt(j)
    ensures SqlCmp(env, Int(i), Int(j)) == SqlCmp(env, Int(j), Int(i)) == Some(Equal)
    ensures TotalCmp(env, Int(i), Int(j)) == Less && TotalCmp(env, Int(j), Int(i)) == Greater
  {
  }

  /** A negative zero is below zero in the order: `=` and `<=` against it lose an
      integer zero, and `>=` against zero loses a float row with a negative zero. */
  lemma {:induction false} NegativeZeroCollides(env: Env)
    requires Rounds(env) && env.ofInt(0) == 0
    ensures LosesRow(env, Eq, Float(SIGN), Int(0), Int(0), Int(0)) && LosesRow(env, LtEq, Float(SIGN), Int(0), Int(0), Int(0))
    ensures LosesRow(env, GtEq, Int(0), Float(SIGN), Float(SIGN), Float(SIGN))
  {
    hide LosesRow;
    MeetingZeros(env);
    LosesWhen(env, Eq, Float(SIGN), Int(0), Int(0), Int(0));
    LosesWhen(env, LtEq, Float(SIGN), Int(0), Int(0), Int(0));
    LosesWhen(env, GtEq, Int(0), Float(SIGN), Float(SIGN), Float(SIGN));
  }

  lemma {:induction false} MeetingZeros(env: Env)
    requires env.ofInt(0) == 0
    ensures SqlCmp(env, Int(0), Float(SIGN)) == SqlCmp(env, Float(SIGN), Int(0)) == Some(Equal)
    ensures TotalCmp(env, Int(0), Float(SIGN)) == Greater && TotalCmp(env, Float(SIGN), Int(0)) == Less
  {
  }

  const EDGE: int := 17014118346046923173168730371588410572

  /** And the turns do lose rows: moved to the literal's scale, `EDGE` fits in an
      `i128` and `EDGE + 1` does not, so `<=` against a tenth below `EDGE` prunes on
      the exact comparison a row SQL finds equal in floating point. */
  lemma {:induction false} MixedRoutesLose(env: Env)
    requires Rounds(env) && env.ofDec(EDGE + 1, 0) == env.ofDec(10 * EDGE - 1, 1)
    ensures var (mn, x, lit) := (Decimal(EDGE, 0), Decimal(EDGE + 1, 0), Decimal(10 * EDGE - 1, 1));
      && Between(env, DecimalKind(0), mn, x, x) && Real(lit) && !OneRoute(mn, x, lit)
      && mn in Turns(DecimalKind(0), lit) && LostAt(env, LtEq, mn, x, lit) && LosesRow(env, LtEq, lit, mn, x, x)
  {
    hide LosesRow;
    var (mn, x, lit) := (Decimal(EDGE, 0), Decimal(EDGE + 1, 0), Decimal(10 * EDGE - 1, 1));
    SameScale(env, mn, x);
    SameScale(env, x, x);
    EdgeRoutes();
    hide Rescale;
    assert PartialF64(env, x, lit) == Some(Equal);
    TurnsExact(DecimalKind(0), mn, lit);
    hide Turns;
    LosesWhen(env, LtEq, lit, mn, x, x);
  }

  lemma {:induction false} EdgeRoutes()
    ensures AlignedCmp(EDGE, 0, 10 * EDGE - 1, 1) == Some(Greater) && AlignedCmp(EDGE + 1, 0, 10 * EDGE - 1, 1) == None
  {
    assert Ten(1) == 10;
    assert Rescale(EDGE, 0, 1) == Some(10 * EDGE);
    assert Rescale(EDGE + 1, 0, 1) == None;
  }
}
