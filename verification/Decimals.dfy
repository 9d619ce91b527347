/** Exact decimals: an `i128` mantissa and a scale (src/value.rs:281-405). */
module Decimals {
  import opened Values
  import opened Wrappers

  const TWO127: int := 0x8000_0000_0000_0000_0000_0000_0000_0000
  const MIN128: int := -TWO127
  const MAX128: int := TWO127 - 1

  predicate InI128(x: int) { MIN128 <= x <= MAX128 }

  /** Release-build arithmetic on `i128`, for a sum at most one bit too wide. */
  function Wrapped(x: int): int {
    if x > MAX128 then x - 2 * TWO127 else if x < MIN128 then x + 2 * TWO127 else x
  }

  const MAX_SCALE: nat := 38

  function Ten(n: nat): (r: nat)
    ensures r > 0
  {
    if n == 0 then 1 else 10 * Ten(n - 1)
  }

  lemma {:induction false} TenSum(a: nat, b: nat)
    ensures Ten(a + b) == Ten(a) * Ten(b)
  {
    if a > 0 {
      TenSum(a - 1, b);
      assert Ten(a + b) == 10 * (Ten(a - 1) * Ten(b)) == (10 * Ten(a - 1)) * Ten(b);
    }
  }

  function Pow10(n: nat): Option<int> { if n > MAX_SCALE then None else Some(Ten(n)) }

  function TruncDiv(a: int, b: int): int
    requires b > 0
  {
    if a >= 0 then a / b else -((-a) / b)
  }

  /** Move a mantissa from one scale to another (src/value.rs:299-310). */
  function Rescale(m: int, from: nat, to: nat): Option<int> {
    if to == from then Some(m)
    else if to > from then
      match Pow10(to - from)
      case None => None
      case Some(f) => if InI128(m * f) then Some(m * f) else None
    else
      match Pow10(from - to)
      case None => None
      case Some(div) =>
        var half := div / 2;
        Some(TruncDiv(Wrapped(if m >= 0 then m + half else m - half), div))
  }

  // ---- rounding ------------------------------------------------------------

  function Abs(x: int): nat { if x < 0 then -x else x }

  /** `r` units of `div` are nearest to `m`, a tie going away from zero. */
  ghost predicate NearestAway(m: int, div: nat, r: int) {
    2 * Abs(m - r * div) <= div && (2 * Abs(m - r * div) == div ==> Abs(r * div) > Abs(m))
  }

  /** Adding the half unit leaves `i128`. */
  predicate HalfOverflows(m: int, div: nat) { !InI128(if m >= 0 then m + div / 2 else m - div / 2) }

  lemma {:induction false} TenEven(n: nat)
    requires n > 0
    ensures Ten(n) % 2 == 0 && Ten(n) >= 10
  {
    var t := Ten(n - 1);
    assert Ten(n) == 10 * t;
    hide Ten;
    assert Ten(n) == 2 * (5 * t);
  }

  lemma {:induction false} RoundPositive(m: nat, div: nat)
    requires div > 0 && div % 2 == 0
    ensures NearestAway(m, div, (m + div / 2) / div)
  {
    var (q, r) := ((m + div / 2) / div, (m + div / 2) % div);
    assert m + div / 2 == q * div + r;
    assert m - q * div == r - div / 2;
  }

  lemma {:induction false} NearestMirrors(m: int, div: nat, r: int)
    requires NearestAway(m, div, r)
    ensures NearestAway(-m, div, -r)
  {
    assert (-r) * div == -(r * div);
  }

  lemma {:induction false} NearestSign(m: int, div: nat, r: int)
    requires div > 0 && NearestAway(m, div, r)
    ensures m >= 0 && 2 * m >= div ==> r > 0
    ensures m <= 0 && -2 * m >= div ==> r < 0
  {
    SignOfProduct(r, div);
  }

  lemma {:induction false} HalfFits(k: nat)
    requires k <= MAX_SCALE
    ensures 2 * Ten(k) < 2 * TWO127 && Ten(k) / 2 < TWO127 / 2
  {
    TenTop();
    if k < MAX_SCALE {
      TenSum(k, MAX_SCALE - k);
      assert Ten(k) * Ten(MAX_SCALE - k) >= Ten(k) by { ProductGrows(Ten(k), Ten(MAX_SCALE - k)); }
    }
  }

  lemma {:induction false} ProductGrows(a: nat, b: nat)
    requires b > 0
    ensures a * b >= a
  {
  }

  lemma {:induction false} TenTop()
    ensures Ten(38) == 100000000000000000000000000000000000000
  {
    TenEight();
    hide Ten;
    TenSum(8, 8);
    TenSum(16, 16);
    TenSum(32, 4);
    TenSum(36, 2);
  }

  lemma {:induction false} TenEight()
    ensures Ten(2) == 100 && Ten(4) == 10000 && Ten(8) == 100000000
  {
    assert Ten(2) == 100;
    assert Ten(4) == 10000;
    TenSum(4, 4);
  }

  /** Rescaling down rounds to the nearest unit with ties away from zero, exactly
      when adding the half unit does not overflow. */
  lemma {:induction false} RescaleDown(m: int, from: nat, to: nat)
    requires InI128(m) && to < from <= to + MAX_SCALE
    ensures Rescale(m, from, to).Some?
    ensures NearestAway(m, Ten(from - to), Rescale(m, from, to).value) <==> !HalfOverflows(m, Ten(from - to))
  {
    var div := Ten(from - to);
    TenEven(from - to);
    HalfFits(from - to);
    var r := Rescale(m, from, to).value;
    hide Ten;
    if !HalfOverflows(m, div) {
      if m >= 0 {
        RoundPositive(m, div);
      } else {
        RoundPositive(-m, div);
        NearestMirrors(-m, div, (-m + div / 2) / div);
      }
    } else {
      OverflowFlips(m, div);
      if NearestAway(m, div, r) { NearestSign(m, div, r); }
    }
  }

  /** A wrapped sum comes out on the wrong side of zero. */
  lemma {:induction false} OverflowFlips(m: int, div: nat)
    requires InI128(m) && div >= 10 && div / 2 < TWO127 / 2 && HalfOverflows(m, div)
    ensures var r := TruncDiv(Wrapped(if m >= 0 then m + div / 2 else m - div / 2), div);
      && (m >= 0 ==> r <= 0 && 2 * m >= div) && (m < 0 ==> r >= 0 && -2 * m >= div)
  {
    hide TruncDiv;
    TruncSign(Wrapped(if m >= 0 then m + div / 2 else m - div / 2), div);
  }

  lemma {:induction false} TruncSign(a: int, div: nat)
    requires div > 0
    ensures a <= 0 ==> TruncDiv(a, div) <= 0
    ensures a >= 0 ==> TruncDiv(a, div) >= 0
  {
  }

  /** Rescaling down undoes rescaling up, exactly when the half unit still fits. */
  lemma {:induction false} RescaleUndoes(m: int, from: nat, to: nat)
    requires InI128(m) && from < to && Rescale(m, from, to).Some?
    ensures Rescale(Rescale(m, from, to).value, to, from) == Some(m)
      <==> !HalfOverflows(Rescale(m, from, to).value, Ten(to - from))
  {
    var div := Ten(to - from);
    var x := m * div;
    TenEven(to - from);
    HalfFits(to - from);
    hide Ten;
    if !HalfOverflows(x, div) {
      ExactQuotient(m, div);
    } else {
      OverflowFlips(x, div);
      SignOfProduct(m, div);
    }
  }

  lemma {:induction false} SignOfProduct(m: int, div: nat)
    requires div > 0
    ensures m * div >= 0 <==> m >= 0
    ensures m * div > 0 <==> m > 0
  {
  }

  lemma {:induction false} ExactQuotient(m: int, div: nat)
    requires div > 0
    ensures m * div >= 0 ==> TruncDiv(m * div + div / 2, div) == m
    ensures m * div < 0 ==> TruncDiv(m * div - div / 2, div) == m
  {
    SignOfProduct(m, div);
    if m >= 0 {
      QuotientOf(m, div, div / 2);
    } else {
      QuotientOf(-m, div, div / 2);
      assert -(m * div - div / 2) == (-m) * div + div / 2;
    }
  }

  lemma {:induction false} QuotientOf(q: nat, div: nat, r: nat)
    requires r < div
    ensures (q * div + r) / div == q
  {
    var n := q * div + r;
    var d := n / div - q;
    assert d * div == (n / div) * div - q * div == r - n % div;
    NonzeroMultiple(d, div);
  }

  lemma {:induction false} NonzeroMultiple(d: int, div: nat)
    ensures d > 0 ==> d * div >= div
    ensures d < 0 ==> d * div <= -(div as int)
  {
    if d > 0 { ProductGrows(div, d); }
    if d < 0 {
      ProductGrows(div, -d);
      assert d * div == -(div * (-d));
    }
  }

  /** The undo really fails: 17 at 37 more places comes back as something else. */
  lemma {:induction false} UndoCanFail()
    ensures Rescale(17, 0, 37).Some? && Rescale(Rescale(17, 0, 37).value, 37, 0) != Some(17)
  {
    TenTop();
    TenSum(37, 1);
    assert Ten(1) == 10;
    var x := Rescale(17, 0, 37).value;
    RescaleUndoes(17, 0, 37);
    hide Ten;
    assert HalfOverflows(x, Ten(37));
  }

  // ---- comparison ----------------------------------------------------------

  /** `m / 10^s` as an exact ratio compared with `n / 10^t`. */
  ghost function RatioCmp(m: int, s: nat, n: int, t: nat): Order { CmpInt(m * Ten(t), n * Ten(s)) }

  /** Align to the larger scale and compare, when both shifts fit (src/value.rs:333-340). */
  function AlignedCmp(m: int, s: nat, n: int, t: nat): Option<Order> {
    var scale := if s < t then t else s;
    match (Rescale(m, s, scale), Rescale(n, t, scale))
    case (Some(x), Some(y)) => Some(CmpInt(x, y))
    case _ => None
  }

  lemma {:induction false} CmpScaled(a: int, b: int, f: nat)
    requires f > 0
    ensures CmpInt(a * f, b * f) == CmpInt(a, b)
  {
    NonzeroMultiple(a - b, f);
    assert a * f - b * f == (a - b) * f;
  }

  /** Whenever no shift overflows, the comparison is the exact rational order. */
  lemma {:induction false} AlignedCmpExact(m: int, s: nat, n: int, t: nat)
    requires AlignedCmp(m, s, n, t).Some?
    ensures AlignedCmp(m, s, n, t).value == RatioCmp(m, s, n, t)
  {
    hide Ten;
    if s < t {
      TenSum(t - s, s);
      ShiftedCmp(m, n, Ten(t - s), Ten(s));
    } else if t < s {
      TenSum(s - t, t);
      ShiftedCmp(n, m, Ten(s - t), Ten(t));
    } else {
      CmpScaled(m, n, Ten(s));
    }
  }

  lemma {:induction false} ShiftedCmp(a: int, b: int, f: nat, g: nat)
    requires g > 0
    ensures CmpInt(a * f, b) == CmpInt(a * (f * g), b * g)
    ensures CmpInt(b, a * f) == CmpInt(b * g, a * (f * g))
  {
    CmpScaled(a * f, b, g);
    assert (a * f) * g == a * (f * g);
  }

  // ---- text ----------------------------------------------------------------

  function Chr(d: nat): (c: char)
    requires d < 10
    ensures IsDigit(c) && DigitOf(c) == d
  {
    '0' + d as char
  }

  predicate IsDigit(c: char) { '0' <= c <= '9' }

  function DigitOf(c: char): (d: nat)
    requires IsDigit(c)
    ensures d < 10
  {
    (c - '0') as nat
  }

  ghost predicate AllDigits(s: string) { forall i :: 0 <= i < |s| ==> IsDigit(s[i]) }

  function ToDigits(n: nat): (s: string)
    ensures s != [] && AllDigits(s)
  {
    if n < 10 then [Chr(n)] else ToDigits(n / 10) + [Chr(n % 10)]
  }

  /** Decimal digits read left to right; `None` at the first character that is not one. */
  function ReadDigits(s: string): Option<nat> {
    if s == [] then Some(0)
    else
      match ReadDigits(s[..|s|-1])
      case None => None
      case Some(n) => if IsDigit(s[|s|-1]) then Some(10 * n + DigitOf(s[|s|-1])) else None
  }

  lemma {:induction false} ReadWritten(n: nat)
    ensures ReadDigits(ToDigits(n)) == Some(n)
  {
    var s := ToDigits(n);
    if n < 10 {
      assert s[..|s|-1] == [];
    } else {
      ReadWritten(n / 10);
      assert s[..|s|-1] == ToDigits(n / 10);
    }
  }

  lemma {:induction false} ReadPadded(k: nat, s: string)
    ensures ReadDigits(Zeros(k) + s) == ReadDigits(s)
    decreases k + |s|
  {
    var z := Zeros(k) + s;
    if s != [] {
      assert z[..|z|-1] == Zeros(k) + s[..|s|-1];
      ReadPadded(k, s[..|s|-1]);
    } else if k > 0 {
      assert z == Zeros(k) && z[..|z|-1] == Zeros(k - 1) + s;
      ReadPadded(k - 1, s);
    } else {
      assert z == [];
    }
  }

  function Zeros(k: nat): (s: string)
    ensures |s| == k && AllDigits(s)
  {
    seq(k, i => '0')
  }

  /** `str::parse::<i128>`: an optional sign, at least one digit, in range. */
  function ParseI128(s: string): Option<int> {
    var signed := s != [] && (s[0] == '-' || s[0] == '+');
    var body := if signed then s[1..] else s;
    if body == [] then None
    else
      match ReadDigits(body)
      case None => None
      case Some(n) =>
        var v: int := if signed && s[0] == '-' then -(n as int) else n;
        if InI128(v) then Some(v) else None
  }

  predicate White(c: char) {
    var n := c as int;
    9 <= n <= 13 || n == 32 || n == 0x85 || n == 0xA0 || n == 0x1680 || 0x2000 <= n <= 0x200A
    || n == 0x2028 || n == 0x2029 || n == 0x202F || n == 0x205F || n == 0x3000
  }

  function TrimLeft(s: string): string { if s != [] && White(s[0]) then TrimLeft(s[1..]) else s }

  function Trim(s: string): string {
    if s != [] && White(s[|s|-1]) then Trim(s[..|s|-1]) else TrimLeft(s)
  }

  /** Text before and after the first point, or all of it and nothing. */
  function SplitPoint(s: string): (r: (string, string))
    ensures |r.0| + |r.1| <= |s|
  {
    if s == [] then ([], [])
    else if s[0] == '.' then ([], s[1..])
    else var (a, b) := SplitPoint(s[1..]); ([s[0]] + a, b)
  }

  function Parse(text: string): Option<(int, nat)> {
    var s := Trim(text);
    if s == [] || 'e' in s || 'E' in s then None
    else
      var neg := s[0] == '-';
      var body := if neg then s[1..] else if s[0] == '+' then s[1..] else s;
      var (whole, frac) := SplitPoint(body);
      if (whole == [] && frac == []) || |frac| > MAX_SCALE then None
      else
        match ParseI128(whole + frac)
        case None => None
        case Some(m) => Some((if neg then Wrapped(-m) else m, |frac|))
  }

  function Unsigned(n: nat, scale: nat): string {
    var digits := ToDigits(n);
    if scale == 0 then digits
    else if |digits| > scale then digits[..|digits| - scale] + "." + digits[|digits| - scale..]
    else "0." + Zeros(scale - |digits|) + digits
  }

  function Render(m: int, scale: nat): string {
    if m < 0 then "-" + Unsigned(-m, scale) else Unsigned(m, scale)
  }

  // ---- the round trip ------------------------------------------------------

  lemma {:induction false} SplitAt(whole: string, frac: string)
    requires AllDigits(whole)
    ensures SplitPoint(whole + "." + frac) == (whole, frac)
  {
    var s := whole + "." + frac;
    if whole == [] {
      assert s[0] == '.' && s[1..] == frac;
    } else {
      SplitAt(whole[1..], frac);
      assert s[1..] == whole[1..] + "." + frac && [whole[0]] + whole[1..] == whole;
    }
  }

  lemma {:induction false} SplitNone(whole: string)
    requires AllDigits(whole)
    ensures SplitPoint(whole) == (whole, [])
  {
    if whole != [] {
      SplitNone(whole[1..]);
      assert [whole[0]] + whole[1..] == whole;
    }
  }

  /** The integer and fraction digits that `Render` writes. */
  ghost function Pieces(n: nat, scale: nat): (string, string) {
    var digits := ToDigits(n);
    if |digits| > scale then (digits[..|digits| - scale], digits[|digits| - scale..])
    else ("0", Zeros(scale - |digits|) + digits)
  }

  lemma {:induction false} PiecesRead(n: nat, scale: nat)
    ensures var (whole, frac) := Pieces(n, scale);
      && whole != [] && AllDigits(whole) && AllDigits(frac) && |frac| == scale
      && SplitPoint(Unsigned(n, scale)) == (whole, frac) && ReadDigits(whole + frac) == Some(n)
  {
    var digits := ToDigits(n);
    var (whole, frac) := Pieces(n, scale);
    ReadWritten(n);
    hide ToDigits;
    hide ReadDigits;
    hide SplitPoint;
    if scale == 0 {
      assert whole == digits && frac == [] && whole + frac == digits;
      SplitNone(digits);
    } else if |digits| > scale {
      assert whole + frac == digits;
      SplitAt(whole, frac);
    } else {
      PaddedPieces(digits, scale);
    }
  }

  lemma {:induction false} PaddedPieces(digits: string, scale: nat)
    requires |digits| <= scale && AllDigits(digits)
    ensures var (whole, frac) := ("0", Zeros(scale - |digits|) + digits);
      && SplitPoint("0." + Zeros(scale - |digits|) + digits) == (whole, frac) && ReadDigits(whole + frac) == ReadDigits(digits)
  {
    hide ReadDigits;
    hide SplitPoint;
    var (whole, frac) := ("0", Zeros(scale - |digits|) + digits);
    ReadPadded(1 + scale - |digits|, digits);
    assert whole + frac == Zeros(1 + scale - |digits|) + digits;
    SplitAt(whole, frac);
    assert "0." + Zeros(scale - |digits|) + digits == whole + "." + frac;
  }

  lemma {:induction false} UnsignedPlain(n: nat, scale: nat)
    ensures var s := Unsigned(n, scale);
      s != [] && (forall i :: 0 <= i < |s| ==> IsDigit(s[i]) || s[i] == '.') && IsDigit(s[0]) && IsDigit(s[|s|-1])
  {
  }

  lemma {:induction false} TrimPlain(s: string)
    requires s != [] && !White(s[0]) && !White(s[|s|-1])
    ensures Trim(s) == s
  {
  }

  lemma {:induction false} RenderPlain(m: int, scale: nat)
    ensures var s := Render(m, scale);
      && Trim(s) == s && s != [] && 'e' !in s && 'E' !in s && s[0] != '+'
      && (m < 0 ==> s[0] == '-' && s[1..] == Unsigned(-m, scale)) && (m >= 0 ==> s[0] != '-' && s == Unsigned(m, scale))
  {
    UnsignedPlain(Abs(m), scale);
    hide Unsigned;
    TrimPlain(Render(m, scale));
  }

  lemma {:induction false} ParseDigits(s: string, n: nat)
    requires s != [] && AllDigits(s) && ReadDigits(s) == Some(n)
    ensures ParseI128(s) == if n <= MAX128 then Some(n) else None
  {
  }

  /** Rendering then parsing gives the decimal back, exactly when the scale is at
      most 38 and the mantissa is not the least `i128`. */
  lemma {:induction false} ParseRendered(m: int, scale: nat)
    requires InI128(m)
    ensures Parse(Render(m, scale)) == Some((m, scale)) <==> scale <= MAX_SCALE && m != MIN128
    ensures Parse(Render(m, scale)) != Some((m, scale)) ==> Parse(Render(m, scale)) == None
  {
    RenderPlain(m, scale);
    PiecesRead(Abs(m), scale);
    hide Render;
    hide Unsigned;
    hide SplitPoint;
    hide Trim;
    hide ReadDigits;
    var (whole, frac) := Pieces(Abs(m), scale);
    hide Pieces;
    ParseDigits(whole + frac, Abs(m));
    hide ParseI128;
  }
}
