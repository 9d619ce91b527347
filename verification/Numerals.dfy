/** Which texts are decimal numbers, and which number each one is: the exact domain
    and value of the parser (src/value.rs:345-378). */
module Numerals {
  import opened Values
  import opened Wrappers
  import opened Decimals

  /** The number a digit string writes: each digit times its power of ten. */
  function Positional(s: string): nat
    requires AllDigits(s)
  {
    if s == [] then 0 else DigitOf(s[0]) * Ten(|s| - 1) + Positional(s[1..])
  }

  predicate IsSign(s: string) { s == "" || s == "+" || s == "-" }

  ghost predicate AllWhite(s: string) { forall i :: 0 <= i < |s| ==> White(s[i]) }

  /** White space around a sign, digits, perhaps a point, and digits. `inner` is a second
      sign, before the first digit: one that the parser takes although no number is
      written so. At the very front a sign is the outer one. */
  datatype Form = Form(lead: string, sign: string, whole: string, point: string, frac: string, trail: string,
                       inner: string, digits: string) {
    function Core(): string { sign + whole + point + frac }
    function Text(): string { lead + Core() + trail }

    ghost predicate Ok() {
      && AllWhite(lead) && AllWhite(trail)
      && IsSign(sign) && IsSign(inner) && (point == "" || point == ".") && (point == "" ==> frac == "")
      && whole + frac == inner + digits && digits != "" && AllDigits(digits)
      && (inner != "" ==> sign != "" || whole == "")
    }

    /** An ordinary decimal numeral. */
    ghost predicate Plain() { Ok() && inner == "" }

    /** The digits under the inner sign. */
    ghost function Magnitude(): int
      requires Ok()
    {
      if inner == "-" then -(Positional(digits) as int) else Positional(digits)
    }

    ghost predicate Fits()
      requires Ok()
    {
      |frac| <= MAX_SCALE && InI128(Magnitude())
    }

    /** The outer sign wraps around at the least `i128`. */
    ghost function Number(): (int, nat)
      requires Ok()
    {
      (if sign == "-" then Wrapped(-Magnitude()) else Magnitude(), |frac|)
    }
  }

  /** The characters with the Unicode property White_Space. */
  const WHITE: string := "\t\n\U{B}\U{C}\r \U{85}\U{A0}\U{1680}\U{2000}\U{2001}\U{2002}\U{2003}\U{2004}\U{2005}\U{2006}\U{2007}\U{2008}\U{2009}\U{200A}\U{2028}\U{2029}\U{202F}\U{205F}\U{3000}"

  lemma {:induction false} WhiteExact(c: char)
    ensures White(c) <==> c in WHITE
  {
  }

  // ---- digits --------------------------------------------------------------

  lemma {:induction false} PositionalLast(s: string, c: char)
    requires AllDigits(s) && IsDigit(c)
    ensures AllDigits(s + [c]) && Positional(s + [c]) == 10 * Positional(s) + DigitOf(c)
  {
    var t := s + [c];
    if s == [] {
      assert Ten(0) == 1;
      assert t[1..] == [];
    } else {
      assert t[1..] == s[1..] + [c];
      PositionalLast(s[1..], c);
      assert Ten(|s|) == 10 * Ten(|s| - 1);
      hide Ten;
      hide DigitOf;
      hide Positional;
      ScaleDigit(DigitOf(s[0]), Ten(|s| - 1));
      assert Positional(t) == DigitOf(s[0]) * Ten(|s|) + Positional(t[1..]) by { PositionalFirst(t); }
      assert Positional(s) == DigitOf(s[0]) * Ten(|s| - 1) + Positional(s[1..]) by { PositionalFirst(s); }
    }
  }

  lemma {:induction false} PositionalFirst(s: string)
    requires s != [] && AllDigits(s)
    ensures Positional(s) == DigitOf(s[0]) * Ten(|s| - 1) + Positional(s[1..])
  {
  }

  lemma {:induction false} ScaleDigit(d: nat, p: nat)
    ensures d * (10 * p) == 10 * (d * p)
  {
  }

  /** The digit loop reads exactly the digit strings, each as the number it writes. */
  lemma {:induction false} ReadIsPositional(s: string)
    ensures ReadDigits(s) == if AllDigits(s) then Some(Positional(s)) else None
  {
    if s != [] {
      var (t, c) := (s[..|s|-1], s[|s|-1]);
      assert s == t + [c];
      ReadIsPositional(t);
      assert AllDigits(s) <==> AllDigits(t) && IsDigit(c);
      if AllDigits(s) { PositionalLast(t, c); }
    }
  }

  // ---- white space and the point -------------------------------------------

  lemma {:induction false} TrimAround(lead: string, core: string, trail: string)
    requires AllWhite(lead) && AllWhite(trail) && core != [] && !White(core[0]) && !White(core[|core|-1])
    ensures Trim(lead + core + trail) == core
    decreases |lead| + |trail|
  {
    var s := lead + core + trail;
    hide White;
    if trail != [] {
      assert s[|s|-1] == trail[|trail|-1];
      assert s[..|s|-1] == lead + core + trail[..|trail|-1];
      TrimAround(lead, core, trail[..|trail|-1]);
    } else {
      assert s == lead + core && s[|s|-1] == core[|core|-1];
      TrimLead(lead, core);
    }
  }

  lemma {:induction false} TrimLead(lead: string, core: string)
    requires AllWhite(lead) && core != [] && !White(core[0])
    ensures TrimLeft(lead + core) == core
  {
    hide White;
    if lead != [] {
      assert (lead + core)[1..] == lead[1..] + core;
      TrimLead(lead[1..], core);
    } else {
      assert lead + core == core;
    }
  }

  lemma {:induction false} TrimParts(s: string) returns (lead: string, trail: string)
    ensures s == lead + Trim(s) + trail && AllWhite(lead) && AllWhite(trail)
    decreases |s|
  {
    hide White;
    if s != [] && White(s[|s|-1]) {
      lead, trail := TrimParts(s[..|s|-1]);
      trail := trail + [s[|s|-1]];
    } else {
      lead := LeadParts(s);
      trail := [];
    }
  }

  lemma {:induction false} LeadParts(s: string) returns (lead: string)
    ensures s == lead + TrimLeft(s) && AllWhite(lead)
  {
    hide White;
    if s != [] && White(s[0]) {
      lead := LeadParts(s[1..]);
      lead := [s[0]] + lead;
    } else {
      lead := [];
    }
  }

  lemma {:induction false} SplitParts(s: string)
    ensures var (a, b) := SplitPoint(s); '.' !in a && (s == a + "." + b || (s == a && b == []))
  {
    if s != [] && s[0] != '.' { SplitParts(s[1..]); }
  }

  lemma {:induction false} SplitWhere(whole: string, point: string, frac: string)
    requires '.' !in whole && (point == "." || (point == "" && frac == ""))
    ensures SplitPoint(whole + point + frac) == (whole, frac)
  {
    var s := whole + point + frac;
    if whole != [] {
      assert s[0] == whole[0] && s[1..] == whole[1..] + point + frac;
      assert [whole[0]] + whole[1..] == whole;
      SplitWhere(whole[1..], point, frac);
    } else if point == "." {
      assert s[0] == '.' && s[1..] == frac;
    } else {
      assert s == [];
    }
  }

  // ---- the standard integer parser -----------------------------------------

  lemma {:induction false} ParseSigned(inner: string, digits: string)
    requires IsSign(inner) && digits != [] && AllDigits(digits)
    ensures var v := if inner == "-" then -(Positional(digits) as int) else Positional(digits);
      ParseI128(inner + digits) == if InI128(v) then Some(v) else None
  {
    var s := inner + digits;
    ReadIsPositional(digits);
    hide ReadDigits;
    hide Positional;
    if inner == "" { assert s == digits; } else { assert s[0] == inner[0] && s[1..] == digits; }
  }

  lemma {:induction false} ParsedShape(s: string) returns (inner: string, digits: string)
    requires ParseI128(s).Some?
    ensures IsSign(inner) && digits != [] && AllDigits(digits) && s == inner + digits
  {
    inner := if s[0] == '-' then "-" else if s[0] == '+' then "+" else "";
    digits := s[|inner|..];
    ReadIsPositional(digits);
  }

  // ---- the whole parser ----------------------------------------------------

  /** After trimming: an optional sign, then the two digit strings. */
  function ParseCore(s: string): Option<(int, nat)>
    requires s != []
  {
    var neg := s[0] == '-';
    var body := if neg || s[0] == '+' then s[1..] else s;
    var (whole, frac) := SplitPoint(body);
    if |frac| > MAX_SCALE then None
    else
      match ParseI128(whole + frac)
      case None => None
      case Some(m) => Some((if neg then Wrapped(-m) else m, |frac|))
  }

  lemma {:induction false} ParseIsCore(text: string)
    requires Trim(text) != [] && 'e' !in Trim(text) && 'E' !in Trim(text)
    ensures Parse(text) == ParseCore(Trim(text))
  {
    hide Trim;
    hide SplitPoint;
    hide ReadDigits;
    assert ParseI128([]) == None;
  }

  lemma {:induction false} CoreEnds(f: Form)
    requires f.Ok()
    ensures var s := f.Core();
      s != [] && !White(s[0]) && !White(s[|s|-1]) && 'e' !in s && 'E' !in s && '.' !in f.whole
  {
    var (s, d) := (f.Core(), f.inner + f.digits);
    forall i | 0 <= i < |s| ensures Marks(s[i]) && s[i] != 'e' && s[i] != 'E' {
      CoreAt(f, i);
    }
    forall i | 0 <= i < |f.whole| ensures f.whole[i] != '.' { assert f.whole[i] == d[i]; }
    assert |s| > 0 && Marks(s[0]) && Marks(s[|s|-1]);
  }

  predicate Marks(c: char) { IsDigit(c) || c == '+' || c == '-' || c == '.' }

  lemma {:induction false} CoreAt(f: Form, i: nat)
    requires f.Ok() && i < |f.Core()|
    ensures Marks(f.Core()[i])
  {
    var (s, d) := (f.Core(), f.inner + f.digits);
    var (a, b) := (|f.sign|, |f.sign| + |f.whole|);
    if i < a {
    } else if i < b {
      assert s[i] == f.whole[i - a] == d[i - a];
    } else if i < b + |f.point| {
      assert s[i] == f.point[i - b];
    } else {
      assert s[i] == f.frac[i - b - |f.point|] == d[i - b - |f.point| + |f.whole|];
    }
  }

  /** Every such text is read as the number it writes, if the digits fit. */
  lemma {:induction false} ParseForm(f: Form)
    requires f.Ok()
    ensures Parse(f.Text()) == if f.Fits() then Some(f.Number()) else None
  {
    CoreEnds(f);
    hide White;
    TrimAround(f.lead, f.Core(), f.trail);
    hide Trim;
    ParseIsCore(f.Text());
    hide Parse;
    CoreForm(f);
    hide ParseCore;
    hide AllDigits;
    hide AllWhite;
  }

  lemma {:induction false} CoreForm(f: Form)
    requires f.Ok() && f.Core() != []
    ensures ParseCore(f.Core()) == if f.Fits() then Some(f.Number()) else None
  {
    hide Form.Core;
    hide SplitPoint;
    hide ParseI128;
    hide Positional;
    hide White;
    hide AllDigits;
    hide AllWhite;
    CoreEnds(f);
    CoreBody(f);
    SplitWhere(f.whole, f.point, f.frac);
    ParseSigned(f.inner, f.digits);
  }

  lemma {:induction false} CoreBody(f: Form)
    requires f.Ok() && f.Core() != []
    ensures var s := f.Core();
      && (s[0] == '-' <==> f.sign == "-")
      && (if s[0] == '-' || s[0] == '+' then s[1..] else s) == f.whole + f.point + f.frac
  {
    var (s, d) := (f.Core(), f.inner + f.digits);
    if f.sign == "" {
      assert s == f.whole + f.point + f.frac;
      if f.whole != "" {
        assert s[0] == f.whole[0] == d[0];
      } else {
        assert s[0] == '.';
      }
    } else {
      assert s[0] == f.sign[0] && s[1..] == f.whole + f.point + f.frac;
    }
  }

  /** And nothing else is read: the parser takes a text exactly when it is such a form
      and its digits fit. */
  lemma {:induction false} ParseExact(text: string)
    ensures Parse(text).Some? <==> exists f: Form :: f.Ok() && f.Fits() && f.Text() == text
  {
    if f: Form :| f.Ok() && f.Fits() && f.Text() == text { ParseForm(f); }
    if Parse(text).Some? {
      var f := FormOf(text);
      ParseForm(f);
    }
  }

  lemma {:induction false} FormOf(text: string) returns (f: Form)
    requires Parse(text).Some?
    ensures f.Ok() && f.Text() == text
  {
    var lead, trail := TrimParts(text);
    ParseIsCore(text);
    hide Trim;
    hide White;
    hide ParseCore;
    f := CoreOf(Trim(text), lead, trail);
    assert f.Text() == f.lead + f.Core() + f.trail;
  }

  function SignOf(s: string): string
    requires s != []
  {
    if s[0] == '-' then "-" else if s[0] == '+' then "+" else ""
  }

  lemma {:induction false} BodyParsed(s: string)
    requires s != [] && ParseCore(s).Some?
    ensures |SignOf(s)| <= |s| && s == SignOf(s) + s[|SignOf(s)|..] && IsSign(SignOf(s))
    ensures var (whole, frac) := SplitPoint(s[|SignOf(s)|..]); ParseI128(whole + frac).Some?
  {
    hide SplitPoint;
    hide ParseI128;
  }

  lemma {:induction false} CoreOf(s: string, lead: string, trail: string) returns (f: Form)
    requires s != [] && ParseCore(s).Some? && AllWhite(lead) && AllWhite(trail)
    ensures f.Ok() && f.Core() == s && f.lead == lead && f.trail == trail
  {
    hide AllWhite;
    hide AllDigits;
    hide ParseCore;
    hide ParseI128;
    hide SplitPoint;
    hide Form.Core;
    hide SignOf;
    BodyParsed(s);
    var (sign, body) := (SignOf(s), s[|SignOf(s)|..]);
    var (whole, frac) := SplitPoint(body);
    var point := PointOf(body);
    var inner, digits := ParsedShape(whole + frac);
    f := Form(lead, sign, whole, point, frac, trail, inner, digits);
    Joined(f, s, body);
    if inner != "" && whole != "" { InnerBehind(s, body, whole, point + frac, frac, inner, digits); }
  }

  lemma {:induction false} PointOf(body: string) returns (point: string)
    ensures var (whole, frac) := SplitPoint(body);
      && (point == "" || point == ".") && (point == "" ==> frac == "")
      && body == whole + point + frac == whole + (point + frac)
  {
    SplitParts(body);
    hide SplitPoint;
    var (whole, frac) := SplitPoint(body);
    point := if body == whole + "." + frac then "." else "";
    assert body == whole + point + frac == whole + (point + frac);
  }

  lemma {:induction false} Joined(f: Form, s: string, body: string)
    requires s == f.sign + body && body == f.whole + f.point + f.frac
    ensures f.Core() == s
  {
  }

  lemma {:induction false} InnerBehind(s: string, body: string, whole: string, rest: string, frac: string, inner: string, digits: string)
    requires s != [] && s == SignOf(s) + body && body == whole + rest && whole != "" && inner != "" && IsSign(inner)
    requires whole + frac == inner + digits
    ensures SignOf(s) != ""
  {
    assert (whole + frac)[0] == whole[0] == inner[0];
    assert SignOf(s) == "" ==> s == body;
  }

  /** An ordinary numeral with at most 38 decimals is read exactly when its digits are
      at most `i128::MAX`, whatever its sign, and then as just the number it writes. */
  lemma {:induction false} ParseNumeral(f: Form)
    requires f.Plain()
    ensures var n := Positional(f.whole + f.frac);
      Parse(f.Text()) ==
        if |f.frac| <= MAX_SCALE && n <= MAX128 then Some((if f.sign == "-" then -(n as int) else n, |f.frac|)) else None
  {
    assert f.whole + f.frac == f.digits;
    ParseForm(f);
  }

  /** What is read beyond numerals: a sign within the digits, behind another sign or
      behind the point. */
  lemma {:induction false} SecondSign(text: string)
    requires Parse(text).Some? && !exists f: Form :: f.Plain() && f.Text() == text
    ensures exists f: Form :: f.Ok() && f.Text() == text && f.inner != "" && (f.sign != "" || (f.whole == "" && f.point == "."))
  {
    var f := FormOf(text);
    assert !f.Plain();
    if f.sign == "" { assert f.frac != ""; }
  }

  /** `--5` is read as five, and `.-5` as minus five hundredths. */
  lemma {:induction false} SecondSignRead()
    ensures Parse("--5") == Some((5, 0)) && Parse(".-5") == Some((-5, 2))
  {
    var f := Form("", "-", "-5", "", "", "", "-", "5");
    var g := Form("", "", "", ".", "-5", "", "-", "5");
    assert f.Text() == "--5" && g.Text() == ".-5";
    assert f.whole + f.frac == f.inner + f.digits && g.whole + g.frac == g.inner + g.digits;
    assert Ten(0) == 1 && DigitOf('5') == 5 && "5"[1..] == [];
    assert Positional("5") == 5;
    ParseForm(f);
    ParseForm(g);
  }

  // ---- what is rendered ----------------------------------------------------

  lemma {:induction false} NoLeadingZero(n: nat)
    ensures |ToDigits(n)| > 1 ==> ToDigits(n)[0] != '0'
  {
    if n >= 10 {
      NoLeadingZero(n / 10);
      assert n / 10 < 10 ==> ToDigits(n / 10) == [Chr(n / 10)] && DigitOf(Chr(n / 10)) != 0;
    }
  }

  /** A decimal is written as its one canonical numeral: a minus sign only below zero,
      no superfluous zero in front, exactly `scale` digits behind the point, and a
      point only if there are any. */
  lemma {:induction false} RenderedForm(m: int, scale: nat) returns (f: Form)
    ensures f.Plain() && f.Text() == Render(m, scale) && Positional(f.whole + f.frac) == Abs(m)
    ensures f.lead == f.trail == "" && f.sign == (if m < 0 then "-" else "")
    ensures f.whole != "" && (|f.whole| > 1 ==> f.whole[0] != '0')
    ensures |f.frac| == scale && f.point == if scale > 0 then "." else ""
  {
    var n := Abs(m);
    var (whole, frac) := Pieces(n, scale);
    PiecesRead(n, scale);
    NoLeadingZero(n);
    ReadIsPositional(whole + frac);
    UnsignedIs(n, scale);
    hide ReadDigits;
    hide Positional;
    hide Unsigned;
    hide Pieces;
    hide ToDigits;
    var sign := if m < 0 then "-" else "";
    var point := if scale > 0 then "." else "";
    f := Form("", sign, whole, point, frac, "", "", whole + frac);
    hide AllDigits;
    PlainText(f);
    hide Form.Text;
    hide Form.Core;
  }

  lemma {:induction false} PlainText(f: Form)
    requires f.lead == f.trail == f.inner == "" && f.digits == f.whole + f.frac
    ensures f.Text() == f.sign + (f.whole + f.point + f.frac)
    ensures f.whole + f.frac == f.inner + f.digits && AllWhite(f.lead) && AllWhite(f.trail)
  {
  }

  lemma {:induction false} UnsignedIs(n: nat, scale: nat)
    ensures var (whole, frac) := Pieces(n, scale);
      && Unsigned(n, scale) == whole + (if scale > 0 then "." else "") + frac
      && (|whole| > 1 ==> whole[0] == ToDigits(n)[0] && |ToDigits(n)| > 1)
  {
    hide ToDigits;
  }
}
