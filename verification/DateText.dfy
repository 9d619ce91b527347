/** Dates and timestamps as text: what is rendered, what is parsed, and exactly when
    the one undoes the other (src/value.rs:439-533). */
module DateText {
  import opened Wrappers
  import opened Decimals
  import opened Numerals
  import opened Dates
  import Zonemap

  /** `str::parse::<i64>`. */
  function ParseI64(s: string): Option<int> {
    match ParseI128(s)
    case None => None
    case Some(v) => if Zonemap.InI64(v) then Some(v) else None
  }

  /** Digits filled up with zeros in front. */
  function Padded(n: nat, width: nat): string {
    var s := ToDigits(n);
    if |s| < width then Zeros(width - |s|) + s else s
  }

  /** Text before and after the first of some characters, if there is one. */
  function SplitOnce(s: string, at: set<char>): (r: Option<(string, string)>)
    ensures r.Some? ==> |r.value.0| + |r.value.1| < |s|
  {
    if s == [] then None
    else if s[0] in at then Some(([], s[1..]))
    else
      var r := SplitOnce(s[1..], at);
      if r.None? then None else Some(([s[0]] + r.value.0, r.value.1))
  }

  // ---- dates ---------------------------------------------------------------

  /** A sign counts as one of the four places of the year. */
  function RenderYear(y: int): string { if y < 0 then "-" + Padded(-y, 3) else Padded(y, 4) }

  function RenderDate(days: int): string {
    var (y, m, d) := CivilFromDays(days);
    RenderYmd(y, m, d)
  }

  function RenderYmd(y: int, m: int, d: int): string {
    RenderYear(y) + "-" + Padded(Abs(m), 2) + "-" + Padded(Abs(d), 2)
  }

  function ParseYmd(s: string): Option<(int, int, int)> {
    var one := SplitOnce(s, {'-'});
    if one.None? then None
    else
      var two := SplitOnce(one.value.1, {'-'});
      if two.None? then None
      else
        match (ParseI64(one.value.0), ParseI64(two.value.0), ParseI64(two.value.1))
        case (Some(y), Some(m), Some(d)) => if Accepted(y, m, d) then Some((y, m, d)) else None
        case _ => None
  }

  function ParseDate(text: string): Option<int> {
    match ParseYmd(Trim(text))
    case None => None
    case Some((y, m, d)) => Some(DaysFromCivil(y, m, d))
  }

  // ---- timestamps ----------------------------------------------------------

  function Six(f: string): string { if |f| >= 6 then f[..6] else f + Zeros(6 - |f|) }

  /** Seconds and millionths of `SS[.f]`. */
  function ParseSeconds(s: string): Option<(int, int)> {
    match SplitOnce(s, {'.'})
    case None =>
      (match ParseI64(s) case None => None case Some(sec) => Some((sec, 0)))
    case Some((sec, f)) =>
      match (ParseI64(sec), ParseI64(Six(f)))
      case (Some(a), Some(b)) => Some((a, b))
      case _ => None
  }

  predicate InDay(h: int, mi: int, sec: int) { 0 <= h <= 23 && 0 <= mi <= 59 && 0 <= sec <= 60 }

  function MicrosOf(h: int, mi: int, sec: int, frac: int): int { ((h * 60 + mi) * 60 + sec) * 1_000_000 + frac }

  function ParseTime(t: string): Option<int> {
    var one := SplitOnce(t, {':'});
    if one.None? then None
    else
      var two := SplitOnce(one.value.1, {':'});
      var minutes := if two.None? then one.value.1 else two.value.0;
      var rest := if two.None? then Some((0, 0)) else ParseSeconds(two.value.1);
      match (ParseI64(one.value.0), ParseI64(minutes), rest)
      case (Some(h), Some(mi), Some((sec, frac))) => if InDay(h, mi, sec) then Some(MicrosOf(h, mi, sec, frac)) else None
      case _ => None
  }

  function ParseTimestamp(text: string): Option<int> {
    var s := Trim(text);
    var cut := SplitOnce(s, {'T', ' '});
    match ParseDate(if cut.None? then s else cut.value.0)
    case None => None
    case Some(days) =>
      match (if cut.None? then Some(0) else ParseTime(cut.value.1))
      case None => None
      case Some(micros) =>
        if Zonemap.InI64(days * MICROS_PER_DAY) && Zonemap.InI64(days * MICROS_PER_DAY + micros) then Some(days * MICROS_PER_DAY + micros) else None
  }

  function RenderTime(rem: nat): string {
    var (secs, frac) := (rem / 1_000_000, rem % 1_000_000);
    Padded(secs / 3600, 2) + ":" + Padded(secs % 3600 / 60, 2) + ":" + Padded(secs % 60, 2)
    + (if frac == 0 then "" else "." + Padded(frac, 6))
  }

  function RenderTimestamp(t: int): string { RenderDate(t / MICROS_PER_DAY) + " " + RenderTime(t % MICROS_PER_DAY) }

  // ---- pieces --------------------------------------------------------------

  lemma {:induction false} PaddedReads(n: nat, width: nat)
    ensures Padded(n, width) != "" && AllDigits(Padded(n, width)) && ParseI128(Padded(n, width)) == if n <= MAX128 then Some(n) else None
    ensures ParseI64(Padded(n, width)) == if n < TWO63 then Some(n) else None
  {
    var s := ToDigits(n);
    ReadWritten(n);
    if |s| < width { ReadPadded(width - |s|, s); }
    hide ReadDigits;
    hide ToDigits;
    ParseDigits(Padded(n, width), n);
    hide ParseI128;
  }

  lemma {:induction false} PaddedLength(n: nat, width: nat)
    requires n < Ten(width) && width > 0
    ensures |Padded(n, width)| == width
  {
    DigitsFit(n, width);
  }

  lemma {:induction false} DigitsFit(n: nat, width: nat)
    requires n < Ten(width) && width > 0
    ensures |ToDigits(n)| <= width
  {
    if n >= 10 {
      assert width > 1 by { assert Ten(1) == 10 by { assert Ten(0) == 1; } }
      DigitsFit(n / 10, width - 1);
    }
  }

  lemma {:induction false} SplitAtMark(a: string, mark: char, b: string, at: set<char>)
    requires mark in at && forall i :: 0 <= i < |a| ==> a[i] !in at
    ensures SplitOnce(a + [mark] + b, at) == Some((a, b))
  {
    var s := a + [mark] + b;
    if a == [] {
      assert s[0] == mark && s[1..] == b;
    } else {
      assert s[1..] == a[1..] + [mark] + b;
      SplitAtMark(a[1..], mark, b, at);
      assert [a[0]] + a[1..] == a;
    }
  }

  lemma {:induction false} NoMark(s: string, at: set<char>)
    requires forall i :: 0 <= i < |s| ==> s[i] !in at
    ensures SplitOnce(s, at) == None
  {
    if s != [] { NoMark(s[1..], at); }
  }

  lemma {:induction false} SplitParts(s: string, at: set<char>)
    ensures match SplitOnce(s, at)
      case None => forall i :: 0 <= i < |s| ==> s[i] !in at
      case Some((a, b)) => |a| + 1 + |b| == |s| && s[|a|] in at && a == s[..|a|] && b == s[|a| + 1..] && forall i :: 0 <= i < |a| ==> a[i] !in at
  {
    if s != [] && s[0] !in at { SplitParts(s[1..], at); }
  }

  // ---- the texts a date is read from ---------------------------------------

  /** Three integers with hyphens between, the first two without one of their own: so no
      year is below zero, whatever the bounds say. */
  lemma {:induction false} ParseYmdParts(a: string, b: string, c: string)
    requires '-' !in a && '-' !in b
    ensures ParseYmd(a + "-" + b + "-" + c) ==
      match (ParseI64(a), ParseI64(b), ParseI64(c))
      case (Some(y), Some(m), Some(d)) => if Accepted(y, m, d) then Some((y, m, d)) else None
      case _ => None
  {
    hide ParseI64;
    var rest := b + "-" + c;
    assert a + "-" + b + "-" + c == a + ['-'] + rest;
    SplitAtMark(a, '-', rest, {'-'});
    SplitAtMark(b, '-', c, {'-'});
  }

  lemma {:induction false} NoMinus(s: string)
    requires '-' !in s && ParseI64(s).Some?
    ensures ParseI64(s).value >= 0
  {
    hide ReadDigits;
  }

  /** A text is read as a date exactly when, white space aside, it is three integers with
      hyphens between that are an accepted year, month and day; and the year is never
      negative. */
  lemma {:induction false} ParseYmdExact(s: string, y: int, m: int, d: int)
    ensures ParseYmd(s) == Some((y, m, d)) <==> exists a, b, c :: IsYmd(s, a, b, c, y, m, d)
    ensures ParseYmd(s) == Some((y, m, d)) ==> Accepted(y, m, d) && y >= 0
  {
    hide ParseI64;
    hide SplitOnce;
    if ParseYmd(s) == Some((y, m, d)) {
      var a, b, c := YmdPieces(s);
      assert IsYmd(s, a, b, c, y, m, d);
      NoMinus(a);
    }
    if a, b, c :| IsYmd(s, a, b, c, y, m, d) { ParseYmdParts(a, b, c); }
  }

  lemma {:induction false} YmdPieces(s: string) returns (a: string, b: string, c: string)
    requires ParseYmd(s).Some?
    ensures '-' !in a && '-' !in b && s == a + "-" + b + "-" + c
    ensures ParseYmd(s) == match (ParseI64(a), ParseI64(b), ParseI64(c))
      case (Some(y), Some(m), Some(d)) => if Accepted(y, m, d) then Some((y, m, d)) else None
      case _ => None
  {
    hide ParseI64;
    var rest;
    a, rest := HyphenPieces(s);
    b, c := HyphenPieces(rest);
    assert a + "-" + b + "-" + c == a + "-" + (b + "-" + c);
    hide SplitOnce;
  }

  lemma {:induction false} HyphenPieces(s: string) returns (a: string, b: string)
    requires SplitOnce(s, {'-'}).Some?
    ensures SplitOnce(s, {'-'}) == Some((a, b)) && '-' !in a && s == a + "-" + b
  {
    SplitParts(s, {'-'});
    var (x, y) := SplitOnce(s, {'-'}).value;
    a, b := x, y;
    assert s == a + [s[|a|]] + b;
  }

  ghost predicate IsYmd(s: string, a: string, b: string, c: string, y: int, m: int, d: int) {
    && '-' !in a && '-' !in b && s == a + "-" + b + "-" + c
    && ParseI64(a) == Some(y) && ParseI64(b) == Some(m) && ParseI64(c) == Some(d) && Accepted(y, m, d)
  }

  // ---- round trips ---------------------------------------------------------

  lemma {:induction false} DigitsPlain(s: string)
    requires s != "" && AllDigits(s)
    ensures '-' !in s && '.' !in s && ':' !in s && !White(s[0]) && !White(s[|s|-1])
    ensures forall i :: 0 <= i < |s| ==> s[i] != 'T' && s[i] != ' '
  {
  }

  /** What is rendered for a date of a year from zero on parses to its parts. */
  lemma {:induction false} YmdTrip(y: int, m: int, d: int)
    requires 0 <= y < TWO63 && 1 <= m <= 12 && 1 <= d <= 31
    ensures ParseYmd(RenderYmd(y, m, d)) == if y <= MAX_YEAR then Some((y, m, d)) else None
    ensures var s := RenderYmd(y, m, d);
      s != "" && Trim(s) == s && forall i :: 0 <= i < |s| ==> s[i] != 'T' && s[i] != ' '
  {
    var (a, b, c) := (Padded(y, 4), Padded(m, 2), Padded(d, 2));
    PaddedReads(y, 4);
    PaddedReads(m, 2);
    PaddedReads(d, 2);
    DigitsPlain(a);
    DigitsPlain(b);
    DigitsPlain(c);
    hide Padded;
    hide ParseI64;
    hide AllDigits;
    hide White;
    ParseYmdParts(a, b, c);
    hide ParseYmd;
    YmdPlain(a, b, c);
  }

  lemma {:induction false} YmdPlain(a: string, b: string, c: string)
    requires a != "" && b != "" && c != "" && !White(a[0]) && !White(c[|c|-1])
    requires forall i :: 0 <= i < |a| ==> a[i] != 'T' && a[i] != ' '
    requires forall i :: 0 <= i < |b| ==> b[i] != 'T' && b[i] != ' '
    requires forall i :: 0 <= i < |c| ==> c[i] != 'T' && c[i] != ' '
    ensures var s := a + "-" + b + "-" + c;
      s != "" && Trim(s) == s && forall i :: 0 <= i < |s| ==> s[i] != 'T' && s[i] != ' '
  {
    var s := a + "-" + b + "-" + c;
    assert s[0] == a[0] && s[|s|-1] == c[|c|-1];
    hide White;
    TrimPlain(s);
  }

  lemma {:induction false} LeadingHyphen(rest: string)
    ensures ParseYmd("-" + rest) == None
  {
    assert "-" + rest == [] + ['-'] + rest;
    SplitAtMark([], '-', rest, {'-'});
    assert ParseI64([]) == None;
    hide SplitOnce;
    hide ParseI64;
  }

  lemma {:induction false} NegativeText(y: int, m: int, d: int) returns (rest: string)
    requires y < 0
    ensures RenderYmd(y, m, d) == "-" + rest
  {
    hide Padded;
    rest := Padded(-y, 3) + "-" + Padded(Abs(m), 2) + "-" + Padded(Abs(d), 2);
  }

  /** A year below zero is written with a hyphen in front, and is not read. */
  lemma {:induction false} NegativeYear(y: int, m: int, d: int)
    requires y < 0 && 1 <= m <= 12 && 1 <= d <= 31
    ensures Trim(RenderYmd(y, m, d)) == RenderYmd(y, m, d) && ParseYmd(RenderYmd(y, m, d)) == None
  {
    DateEnds(y, m, d);
    var rest := NegativeText(y, m, d);
    LeadingHyphen(rest);
    hide RenderYmd;
    hide White;
    hide ParseYmd;
    TrimPlain(RenderYmd(y, m, d));
    hide Trim;
  }

  /** A rendered date is read back exactly for the years the parser can read: zero to
      the bound. */
  lemma {:induction false} DateTrip(z: int)
    requires -TWO63 <= z < TWO63 - 719468
    ensures ParseDate(RenderDate(z)) == Some(z) <==> 0 <= CivilFromDays(z).0 <= MAX_YEAR
    ensures ParseDate(RenderDate(z)) != Some(z) ==> ParseDate(RenderDate(z)) == None
  {
    hide CivilFromDays;
    hide DaysFromCivil;
    hide RenderYmd;
    hide ParseYmd;
    hide Trim;
    var (y, m, d) := CivilFromDays(z);
    DaysTrip(z);
    YearInside(z);
    if y < 0 { NegativeYear(y, m, d); } else { YmdTrip(y, m, d); }
  }

  lemma {:induction false} YearInside(z: int)
    requires -TWO63 <= z < TWO63 - 719468
    ensures CivilFromDays(z).0 < TWO63
  {
    var (y, m, d) := CivilFromDays(z);
    DaysTrip(z);
    DaysAre(y, m, d);
    hide CivilFromDays;
    hide DaysFromCivil;
    var my := MarchYear(y, m);
    assert YearStart(my % 400) >= 0 && MonthStart(MonthIndex(m)) >= 0;
    assert (my / 400) * 146097 <= z + 719468 && my < 400 * (my / 400 + 1);
  }

  // ---- times ---------------------------------------------------------------

  /** Three pieces with colons between. */
  lemma {:induction false} ParseTimeParts(a: string, b: string, c: string)
    requires ':' !in a && ':' !in b
    ensures ParseTime(a + ":" + b + ":" + c) ==
      match (ParseI64(a), ParseI64(b), ParseSeconds(c))
      case (Some(h), Some(mi), Some((sec, frac))) => if InDay(h, mi, sec) then Some(MicrosOf(h, mi, sec, frac)) else None
      case _ => None
  {
    hide ParseI64;
    hide ParseSeconds;
    var rest := b + ":" + c;
    assert a + ":" + b + ":" + c == a + [':'] + rest;
    SplitAtMark(a, ':', rest, {':'});
    SplitAtMark(b, ':', c, {':'});
    hide SplitOnce;
  }

  /** What is rendered for a time of day parses to it. */
  lemma {:induction false} TimeTrip(rem: nat)
    requires rem < MICROS_PER_DAY
    ensures ParseTime(RenderTime(rem)) == Some(rem)
  {
    var (secs, frac) := (rem / 1_000_000, rem % 1_000_000);
    var (h, mi, sec) := (secs / 3600, secs % 3600 / 60, secs % 60);
    Clock(rem);
    var (a, b, c) := (Padded(h, 2), Padded(mi, 2), Padded(sec, 2) + (if frac == 0 then "" else "." + Padded(frac, 6)));
    PaddedReads(h, 2);
    PaddedReads(mi, 2);
    DigitsPlain(a);
    DigitsPlain(b);
    SecondsTrip(sec, frac);
    TimeText(rem);
    hide RenderTime;
    hide ParseTime;
    hide Padded;
    hide ParseI64;
    hide ParseSeconds;
    hide AllDigits;
    hide White;
    ParseTimeParts(a, b, c);
  }

  lemma {:induction false} TimeText(rem: nat)
    ensures var (secs, frac) := (rem / 1_000_000, rem % 1_000_000);
      RenderTime(rem) == Padded(secs / 3600, 2) + ":" + Padded(secs % 3600 / 60, 2) + ":" + (Padded(secs % 60, 2) + (if frac == 0 then "" else "." + Padded(frac, 6)))
  {
    hide Padded;
  }

  lemma {:induction false} Clock(rem: nat)
    requires rem < MICROS_PER_DAY
    ensures var (secs, frac) := (rem / 1_000_000, rem % 1_000_000);
      var (h, mi, sec) := (secs / 3600, secs % 3600 / 60, secs % 60);
      h <= 23 && mi <= 59 && sec <= 59 && MicrosOf(h, mi, sec, frac) == rem
  {
    var secs := rem / 1_000_000;
    assert secs < 86400;
    assert secs % 3600 % 60 == secs % 60;
  }

  lemma {:induction false} SecondsTrip(sec: nat, frac: nat)
    requires sec < 60 && frac < 1_000_000
    ensures ParseSeconds(Padded(sec, 2) + (if frac == 0 then "" else "." + Padded(frac, 6))) == Some((sec, frac))
  {
    hide Padded;
    hide ParseI64;
    hide ParseI128;
    hide ParseSeconds;
    hide AllDigits;
    hide White;
    hide Six;
    var a := Padded(sec, 2);
    PaddedReads(sec, 2);
    DigitsPlain(a);
    if frac == 0 {
      WholeSeconds(a);
      assert a + "" == a;
    } else {
      var f := Padded(frac, 6);
      PaddedReads(frac, 6);
      SixDigits(frac);
      PartSeconds(a, f);
      assert a + ("." + f) == a + "." + f;
    }
  }

  lemma {:induction false} WholeSeconds(a: string)
    requires '.' !in a
    ensures ParseSeconds(a) == match ParseI64(a) case None => None case Some(sec) => Some((sec, 0))
  {
    hide ParseI64;
    NoMark(a, {'.'});
    hide SplitOnce;
  }

  lemma {:induction false} PartSeconds(a: string, f: string)
    requires '.' !in a
    ensures ParseSeconds(a + "." + f) ==
      match (ParseI64(a), ParseI64(Six(f)))
      case (Some(x), Some(y)) => Some((x, y))
      case _ => None
  {
    hide ParseI64;
    hide Six;
    assert a + "." + f == a + ['.'] + f;
    SplitAtMark(a, '.', f, {'.'});
    hide SplitOnce;
  }

  lemma {:induction false} SixDigits(frac: nat)
    requires frac < 1_000_000
    ensures Six(Padded(frac, 6)) == Padded(frac, 6)
  {
    assert Ten(0) == 1 && Ten(1) == 10 && Ten(2) == 100 && Ten(3) == 1000;
    assert Ten(4) == 10000 && Ten(5) == 100000 && Ten(6) == 1000000;
    PaddedLength(frac, 6);
  }

  /** A rendered timestamp is read back exactly for the years the parser can read. */
  lemma {:induction false} TimestampTrip(t: int)
    requires -TWO63 <= t < TWO63
    ensures ParseTimestamp(RenderTimestamp(t)) == Some(t) <==> 0 <= CivilFromDays(t / MICROS_PER_DAY).0 <= MAX_YEAR
  {
    hide CivilFromDays;
    hide RenderTimestamp;
    hide RenderTime;
    hide RenderDate;
    hide ParseTimestamp;
    hide ParseTime;
    hide ParseDate;
    hide Trim;
    hide SplitOnce;
    var (z, rem) := (t / MICROS_PER_DAY, t % MICROS_PER_DAY);
    assert t == z * MICROS_PER_DAY + rem;
    TimeTrip(rem);
    DateTrip(z);
    if 0 <= CivilFromDays(z).0 <= MAX_YEAR { StampFits(z, rem); }
    StampCut(t);
    StampParsed(RenderTimestamp(t), RenderDate(z), RenderTime(rem));
  }

  lemma {:induction false} StampCut(t: int)
    requires -TWO63 <= t < TWO63
    ensures var (s, z, rem) := (RenderTimestamp(t), t / MICROS_PER_DAY, t % MICROS_PER_DAY);
      Trim(s) == s && SplitOnce(s, {'T', ' '}) == Some((RenderDate(z), RenderTime(rem)))
  {
    var (z, rem) := (t / MICROS_PER_DAY, t % MICROS_PER_DAY);
    var (y, m, d) := CivilFromDays(z);
    DaysTrip(z);
    YearInside(z);
    StampText(y, m, d, rem);
    hide CivilFromDays;
    hide DaysFromCivil;
    hide RenderTime;
    hide RenderYmd;
    hide Trim;
    hide SplitOnce;
  }

  lemma {:induction false} StampFits(z: int, rem: nat)
    requires rem < MICROS_PER_DAY && 0 <= CivilFromDays(z).0 <= MAX_YEAR
    ensures Zonemap.InI64(z * MICROS_PER_DAY) && Zonemap.InI64(z * MICROS_PER_DAY + rem)
  {
    hide CivilFromDays;
    hide DaysFromCivil;
    var (y, m, d) := CivilFromDays(z);
    DaysTrip(z);
    MicrosFit(y, m, d, 0);
    MicrosFit(y, m, d, rem);
  }

  lemma {:induction false} StampParsed(s: string, a: string, b: string)
    requires Trim(s) == s && SplitOnce(s, {'T', ' '}) == Some((a, b))
    ensures ParseTimestamp(s) ==
      match (ParseDate(a), ParseTime(b))
      case (Some(days), Some(micros)) =>
        if Zonemap.InI64(days * MICROS_PER_DAY) && Zonemap.InI64(days * MICROS_PER_DAY + micros) then Some(days * MICROS_PER_DAY + micros) else None
      case _ => None
  {
    hide Trim;
    hide SplitOnce;
    hide ParseDate;
    hide ParseTime;
  }

  /** Where the parser cuts a rendered timestamp. */
  lemma {:induction false} StampText(y: int, m: int, d: int, rem: nat)
    requires y < TWO63 && 1 <= m <= 12 && 1 <= d <= 31 && rem < MICROS_PER_DAY
    ensures var s := RenderYmd(y, m, d) + " " + RenderTime(rem);
      Trim(s) == s && SplitOnce(s, {'T', ' '}) == Some((RenderYmd(y, m, d), RenderTime(rem)))
  {
    DatePlain(y, m, d);
    DateEnds(y, m, d);
    TimePlain(rem);
    hide RenderYmd;
    hide RenderTime;
    Joined(RenderYmd(y, m, d), RenderTime(rem));
  }

  lemma {:induction false} Joined(a: string, b: string)
    requires a != "" && b != "" && !White(a[0]) && !White(b[|b|-1]) && forall i :: 0 <= i < |a| ==> a[i] !in {'T', ' '}
    ensures Trim(a + " " + b) == a + " " + b && SplitOnce(a + " " + b, {'T', ' '}) == Some((a, b))
  {
    hide White;
    var s := a + " " + b;
    assert s == a + [' '] + b && s[0] == a[0] && s[|s|-1] == b[|b|-1];
    TrimPlain(s);
    SplitAtMark(a, ' ', b, {'T', ' '});
  }

  lemma {:induction false} DatePlain(y: int, m: int, d: int)
    requires y < TWO63 && 1 <= m <= 12 && 1 <= d <= 31
    ensures var s := RenderYmd(y, m, d); forall i :: 0 <= i < |s| ==> s[i] !in {'T', ' '}
  {
    hide Padded;
    hide AllDigits;
    hide White;
    var (a, b, c) := (Padded(Abs(y), if y < 0 then 3 else 4), Padded(m, 2), Padded(d, 2));
    PaddedReads(Abs(y), if y < 0 then 3 else 4);
    PaddedReads(m, 2);
    PaddedReads(d, 2);
    DigitsPlain(a);
    DigitsPlain(b);
    DigitsPlain(c);
    PlainJoin(a, b, c);
    PlainSigned(a + "-" + b + "-" + c);
    YmdText(y, m, d);
    hide RenderYmd;
  }

  lemma {:induction false} YmdText(y: int, m: int, d: int)
    requires 1 <= m && 1 <= d
    ensures var rest := Padded(Abs(y), if y < 0 then 3 else 4) + "-" + Padded(m, 2) + "-" + Padded(d, 2);
      RenderYmd(y, m, d) == if y < 0 then "-" + rest else rest
  {
    hide Padded;
  }

  lemma {:induction false} PlainJoin(a: string, b: string, c: string)
    requires (forall i :: 0 <= i < |a| ==> a[i] != 'T' && a[i] != ' ') && (forall i :: 0 <= i < |b| ==> b[i] != 'T' && b[i] != ' ')
    requires forall i :: 0 <= i < |c| ==> c[i] != 'T' && c[i] != ' '
    ensures var s := a + "-" + b + "-" + c; forall i :: 0 <= i < |s| ==> s[i] != 'T' && s[i] != ' '
  {
  }

  lemma {:induction false} PlainSigned(s: string)
    requires forall i :: 0 <= i < |s| ==> s[i] != 'T' && s[i] != ' '
    ensures forall i :: 0 <= i < |s| ==> s[i] !in {'T', ' '}
    ensures forall i :: 0 <= i < |"-" + s| ==> ("-" + s)[i] !in {'T', ' '}
  {
  }

  lemma {:induction false} DateEnds(y: int, m: int, d: int)
    requires 1 <= m <= 12 && 1 <= d <= 31
    ensures var s := RenderYmd(y, m, d); s != "" && !White(s[0]) && !White(s[|s|-1])
  {
    var (a, c) := (Padded(Abs(y), 4), Padded(d, 2));
    PaddedReads(Abs(y), 4);
    PaddedReads(d, 2);
    DigitsPlain(a);
    DigitsPlain(c);
    hide Padded;
    hide AllDigits;
    var s := RenderYmd(y, m, d);
    assert s[|s|-1] == c[|c|-1] && s[0] == (if y < 0 then '-' else a[0]);
    assert !White('-');
  }

  lemma {:induction false} TimePlain(rem: nat)
    requires rem < MICROS_PER_DAY
    ensures var s := RenderTime(rem); s != "" && !White(s[|s|-1])
  {
    var (secs, frac) := (rem / 1_000_000, rem % 1_000_000);
    PaddedReads(secs % 60, 2);
    PaddedReads(frac, 6);
    DigitsPlain(Padded(secs % 60, 2));
    DigitsPlain(Padded(frac, 6));
    hide Padded;
    hide AllDigits;
    hide White;
    var s := RenderTime(rem);
    if frac == 0 { assert s[|s|-1] in Padded(secs % 60, 2); } else { assert s[|s|-1] == Padded(frac, 6)[|Padded(frac, 6)|-1]; }
  }

  // ---- how far a time can stray --------------------------------------------

  lemma {:induction false} ReadBelow(s: string)
    ensures ReadDigits(s).Some? ==> ReadDigits(s).value < Ten(|s|)
  {
    if s != [] {
      ReadBelow(s[..|s|-1]);
      assert Ten(|s|) == 10 * Ten(|s| - 1);
    }
  }

  lemma {:induction false} SixBelow(f: string)
    ensures ParseI64(Six(f)).Some? ==> -1_000_000 < ParseI64(Six(f)).value < 1_000_000
  {
    var s := Six(f);
    assert |s| == 6;
    ReadBelow(s);
    ReadBelow(s[1..]);
    assert Ten(0) == 1 && Ten(1) == 10 && Ten(2) == 100 && Ten(3) == 1000;
    assert Ten(4) == 10000 && Ten(5) == 100000 && Ten(6) == 1000000;
    hide Ten;
    hide Six;
    hide ReadDigits;
  }

  /** What is read as a time of day lies less than a second outside the day, so once the
      date and the time are read the checked arithmetic never fails. */
  lemma {:induction false} TimeRange(t: string)
    ensures ParseTime(t).Some? ==> -1_000_000 < ParseTime(t).value < MICROS_PER_DAY + 1_000_001
  {
    var one := SplitOnce(t, {':'});
    if one.Some? {
      var two := SplitOnce(one.value.1, {':'});
      if two.Some? {
        var cut := SplitOnce(two.value.1, {'.'});
        if cut.Some? { SixBelow(cut.value.1); }
      }
    }
    hide SplitOnce;
    hide ParseI64;
    hide Six;
  }

  lemma {:induction false} NeverOverflows(s: string, a: string, b: string)
    requires Trim(s) == s && SplitOnce(s, {'T', ' '}) == Some((a, b)) && ParseYmd(Trim(a)).Some? && ParseTime(b).Some?
    ensures ParseTimestamp(s).Some?
  {
    TimeRange(b);
    var (y, m, d) := ParseYmd(Trim(a)).value;
    ParseYmdExact(Trim(a), y, m, d);
    DaysInside(y, m, d);
    hide ParseTime;
    hide Trim;
    hide SplitOnce;
    hide ParseYmd;
    hide DaysFromCivil;
  }

  lemma {:induction false} DaysInside(y: int, m: int, d: int)
    requires Accepted(y, m, d)
    ensures -100_000_000 <= DaysFromCivil(y, m, d) <= 100_000_000
  {
    DaysAre(y, m, d);
    var my := MarchYear(y, m);
    assert -656 <= my / 400 <= 655 && 0 <= my % 400 < 400;
    assert MonthIndex(m) <= 11 && 0 <= MonthStart(MonthIndex(m)) <= 337;
    assert 0 <= YearStart(my % 400) <= 200_000;
    hide DaysFromCivil;
  }

  /** A time can lie outside its day: the fraction may carry a sign of its own, and a
      second sixty is the first of the next minute. */
  lemma {:induction false} TimeStrays()
    ensures ParseTime("00:00:00.-5") == Some(-50_000) && ParseTime("23:59:60") == Some(MICROS_PER_DAY)
  {
    hide ParseI64;
    hide ParseSeconds;
    hide ParseTime;
    TwoDigits('0', '0');
    TwoDigits('2', '3');
    TwoDigits('5', '9');
    SignedFraction();
    SixtySeconds();
    assert "00:00:00.-5" == "00" + ":" + "00" + ":" + "00.-5";
    assert "23:59:60" == "23" + ":" + "59" + ":" + "60";
    ParseTimeParts("00", "00", "00.-5");
    ParseTimeParts("23", "59", "60");
  }

  lemma {:induction false} SixtySeconds()
    ensures ParseSeconds("60") == Some((60, 0))
  {
    TwoDigits('6', '0');
    NoMark("60", {'.'});
    hide ParseI64;
  }

  lemma {:induction false} TwoDigits(a: char, b: char)
    requires IsDigit(a) && IsDigit(b)
    ensures ParseI64([a, b]) == Some(10 * DigitOf(a) + DigitOf(b))
  {
    var s := [a, b];
    assert s[..1] == [a] && [a][..0] == [];
    assert ReadDigits([a]) == Some(DigitOf(a));
    ParseDigits(s, 10 * DigitOf(a) + DigitOf(b));
    hide ParseI128;
  }

  lemma {:induction false} SignedFraction()
    ensures ParseSeconds("00.-5") == Some((0, -50_000))
  {
    assert "00.-5" == "00" + ['.'] + "-5";
    SplitAtMark("00", '.', "-5", {'.'});
    TwoDigits('0', '0');
    assert Six("-5") == "-" + "50000";
    FiveDigits();
    ParseSigned("-", "50000");
    hide ParseI128;
    hide SplitOnce;
    hide Six;
  }

  lemma {:induction false} FiveDigits()
    ensures AllDigits("50000") && Positional("50000") == 50_000
  {
    assert "50000"[1..] == "0000" && "0000"[1..] == "000" && "000"[1..] == "00" && "00"[1..] == "0" && "0"[1..] == "";
    assert Ten(0) == 1 && Ten(1) == 10 && Ten(2) == 100 && Ten(3) == 1000 && Ten(4) == 10000;
    assert Positional("0") == 0 && Positional("00") == 0 && Positional("000") == 0 && Positional("0000") == 0;
  }
}
