/** Point reads, scans, counts and key-range scans, and why each of them is the
    history's state at its snapshot (src/table.rs:297-420). */
module Reads {
  import opened Bags
  import opened Values
  import opened Wrappers
  import opened Mvcc

  function Get(t: Table, key: Value, s: Csn): Option<Row>
    requires Readable(t.parts)
  {
    var loc := Locate(t, key, s);
    if loc.Some? then Some(VersionIn(t, loc.value).row) else None
  }

  /** Rows a snapshot sees among `vs`, in order. */
  function Seen(vs: seq<Version>, s: Csn): seq<Row> {
    if vs == [] then []
    else Seen(vs[..|vs|-1], s) + (if vs[|vs|-1].VisibleTo(s) then [vs[|vs|-1].row] else [])
  }

  /** The whole batch when nothing in the part needs testing (src/part.rs:320-330). */
  function PartScan(p: Part, s: Csn): seq<Row>
    requires p.stamps.Covers(|p.rows|)
  {
    if p.FullyVisibleTo(s) then p.rows else Seen(p.Versions(), s)
  }

  function PartsScan(parts: seq<Part>, s: Csn): seq<Row>
    requires Readable(parts)
  {
    if parts == [] then [] else PartsScan(parts[..|parts|-1], s) + PartScan(parts[|parts|-1], s)
  }

  /** Parts newest first, then L0. */
  function Scan(t: Table, s: Csn): seq<Row>
    requires Readable(t.parts)
  {
    PartsScan(t.parts, s) + Seen(t.l0, s)
  }

  /** Rows a snapshot sees among `vs`, counted one by one. */
  function CountSeen(vs: seq<Version>, s: Csn): nat {
    if vs == [] then 0 else CountSeen(vs[..|vs|-1], s) + (if vs[|vs|-1].VisibleTo(s) then 1 else 0)
  }

  /** src/part.rs:330-338. */
  function VisibleCount(p: Part, s: Csn): nat
    requires p.stamps.Covers(|p.rows|)
  {
    if p.FullyVisibleTo(s) then |p.rows| else CountSeen(p.Versions(), s)
  }

  function PartsCount(parts: seq<Part>, s: Csn): nat
    requires Readable(parts)
  {
    if parts == [] then 0 else PartsCount(parts[..|parts|-1], s) + VisibleCount(parts[|parts|-1], s)
  }

  /** `row_count`: nothing is materialised (src/table.rs:416-420). */
  function RowCount(t: Table, s: Csn): nat
    requires Readable(t.parts)
  {
    PartsCount(t.parts, s) + CountSeen(t.l0, s)
  }

  predicate InRange(key: Value, lo: Value, hi: Value) {
    KeyCmp(key, lo) != Less && KeyCmp(key, hi) == Less
  }

  function Within(rows: seq<Row>, lo: Value, hi: Value): seq<Row> {
    if rows == [] then []
    else Within(rows[..|rows|-1], lo, hi) + (if InRange(rows[|rows|-1].key, lo, hi) then [rows[|rows|-1]] else [])
  }

  function MinKey(p: Part): Value { if p.rows == [] then Null else p.rows[0].key }
  function MaxKey(p: Part): Value { if p.rows == [] then Null else p.rows[|p.rows|-1].key }

  /** A whole part wholly outside `[lo, hi)` is skipped (src/table.rs:331-336). */
  predicate Skips(p: Part, lo: Value, hi: Value, s: Csn) {
    p.FullyVisibleTo(s) && (KeyCmp(MaxKey(p), lo) == Less || KeyCmp(MinKey(p), hi) != Less)
  }

  function RangeParts(parts: seq<Part>, lo: Value, hi: Value, s: Csn): seq<Row>
    requires Readable(parts)
  {
    if parts == [] then []
    else
      var p := parts[|parts|-1];
      RangeParts(parts[..|parts|-1], lo, hi, s) + (if Skips(p, lo, hi, s) then [] else Within(PartScan(p, s), lo, hi))
  }

  function ScanKeyRange(t: Table, lo: Value, hi: Value, s: Csn): seq<Row>
    requires Readable(t.parts)
  {
    RangeParts(t.parts, lo, hi, s) + Within(Seen(t.l0, s), lo, hi)
  }

  // ---- scans see exactly the visible rows ----------------------------------

  lemma {:induction false} SeenRows(vs: seq<Version>, s: Csn)
    ensures multiset(Seen(vs, s)) == SumOver(vs, Vis(s))
  {
    if vs != [] {
      var n := |vs| - 1;
      var last := if vs[n].VisibleTo(s) then [vs[n].row] else [];
      SeenRows(vs[..n], s);
      assert multiset(Seen(vs[..n], s) + last) == multiset(Seen(vs[..n], s)) + multiset(last);
      assert multiset(last) == Vis(s)(vs[n]);
      SumSplit(vs, n, Vis(s));
      assert vs[n+1..] == [];
    }
  }

  lemma {:induction false} SeenAll(vs: seq<Version>, s: Csn)
    requires forall i :: 0 <= i < |vs| ==> vs[i].VisibleTo(s)
    ensures Seen(vs, s) == RowsOf(vs)
  {
    if vs != [] {
      SeenAll(vs[..|vs|-1], s);
    }
  }

  /** The zero-work path returns what testing every row would return. */
  lemma {:induction false} FastPath(p: Part, s: Csn)
    requires p.Ok() && s < NEVER && p.FullyVisibleTo(s)
    ensures p.rows == Seen(p.Versions(), s)
  {
    SeenAll(p.Versions(), s);
    assert RowsOf(p.Versions()) == p.rows;
  }

  lemma {:induction false} PartScanRows(p: Part, s: Csn)
    requires p.Ok() && s < NEVER
    ensures multiset(PartScan(p, s)) == PartRows(p, s)
    ensures PartScan(p, s) == Seen(p.Versions(), s)
  {
    SeenRows(p.Versions(), s);
    if p.FullyVisibleTo(s) { FastPath(p, s); }
  }

  lemma {:induction false} PartsScanRows(parts: seq<Part>, s: Csn)
    requires (forall i :: 0 <= i < |parts| ==> parts[i].Ok()) && s < NEVER
    ensures Readable(parts)
    ensures multiset(PartsScan(parts, s)) == SumOver(parts, PartVis(s))
  {
    hide SumOver;
    hide PartScan;
    hide PartRows;
    hide Part.Ok;
    assert forall i :: 0 <= i < |parts| ==> parts[i].stamps.Covers(|parts[i].rows|) by { OkCovers(parts); }
    if parts == [] {
      SumNone(PartVis(s));
    } else {
      var n := |parts| - 1;
      PartsScanRows(parts[..n], s);
      PartScanRows(parts[n], s);
      SumSplit(parts, n, PartVis(s));
      assert parts[n+1..] == [];
      SumNone(PartVis(s));
      PartVisAt(parts[n], s);
      hide PartVis;
    }
  }

  lemma {:induction false} OkCovers(parts: seq<Part>)
    requires forall i :: 0 <= i < |parts| ==> parts[i].Ok()
    ensures forall i :: 0 <= i < |parts| ==> parts[i].stamps.Covers(|parts[i].rows|)
  {
  }

  lemma {:induction false} PartVisAt(p: Part, s: Csn)
    ensures PartVis(s)(p) == PartRows(p, s)
  {
  }

  lemma {:induction false} AllOk(t: Table, cur: Csn)
    requires Shape(t, cur)
    ensures Readable(t.parts) && forall i :: 0 <= i < |t.parts| ==> t.parts[i].Ok()
  {
    forall i | 0 <= i < |t.parts| ensures t.parts[i].Ok() {
      assert PartOk(t.parts[i], cur);
    }
  }

  lemma {:induction false} ScanRows(t: Table, cur: Csn, s: Csn)
    requires Shape(t, cur) && s < NEVER
    ensures Readable(t.parts) && multiset(Scan(t, s)) == TableRows(t, s)
  {
    AllOk(t, cur);
    PartsScanRows(t.parts, s);
    SeenRows(t.l0, s);
  }

  lemma {:induction false} CountIsSeen(vs: seq<Version>, s: Csn)
    ensures CountSeen(vs, s) == |Seen(vs, s)|
  {
    if vs != [] { CountIsSeen(vs[..|vs|-1], s); }
  }

  lemma {:induction false} CountIsScan(parts: seq<Part>, s: Csn)
    requires Readable(parts)
    ensures PartsCount(parts, s) == |PartsScan(parts, s)|
  {
    if parts != [] {
      CountIsScan(parts[..|parts|-1], s);
      CountIsSeen(parts[|parts|-1].Versions(), s);
    }
  }

  // ---- key ranges ----------------------------------------------------------

  /** A range holds its lower end and not its upper one: on integers it is exactly
      what lies from `lo` up to below `hi`. */
  lemma {:induction false} RangeIsHalfOpen(lo: Value, hi: Value)
    ensures InRange(lo, lo, hi) <==> KeyCmp(lo, hi) == Less
    ensures !InRange(hi, lo, hi)
    ensures forall k: int, l: int, h: int :: InRange(Int(k), Int(l), Int(h)) <==> l <= k < h
  {
    KeyCmpEqual(lo, lo);
    KeyCmpEqual(hi, hi);
  }

  lemma {:induction false} WithinCount(rows: seq<Row>, lo: Value, hi: Value, r: Row)
    ensures multiset(Within(rows, lo, hi))[r] == if InRange(r.key, lo, hi) then multiset(rows)[r] else 0
  {
    hide InRange;
    if rows != [] {
      WithinCount(rows[..|rows|-1], lo, hi, r);
      assert rows == rows[..|rows|-1] + [rows[|rows|-1]];
    }
  }

  lemma {:induction false} WithinAppend(a: seq<Row>, b: seq<Row>, lo: Value, hi: Value)
    ensures Within(a + b, lo, hi) == Within(a, lo, hi) + Within(b, lo, hi)
  {
    hide InRange;
    if b == [] {
      assert a + b == a;
    } else {
      var n := |b| - 1;
      WithinAppend(a, b[..n], lo, hi);
      assert (a + b)[..|a + b|-1] == a + b[..n];
    }
  }

  /** A skipped part holds no key of the range: its bounds are exact because it is sorted. */
  lemma {:induction false} SkipIsSound(p: Part, lo: Value, hi: Value, s: Csn)
    requires p.Ok() && Skips(p, lo, hi, s)
    ensures Within(p.rows, lo, hi) == []
  {
    forall i | 0 <= i < |p.rows| ensures !InRange(p.rows[i].key, lo, hi) {
      var (k, mn, mx) := (p.rows[i].key, MinKey(p), MaxKey(p));
      assert KeyLe(mn, k) by { if i == 0 { KeyCmpEqual(mn, k); } }
      assert KeyLe(k, mx) by { if i == |p.rows| - 1 { KeyCmpEqual(k, mx); } }
      if KeyCmp(mx, lo) == Less && KeyCmp(k, lo) != Less {
        KeyCmpEqual(k, lo); KeyCmpEqual(lo, mx); KeyCmpEqual(mx, lo);
        KeyLeTransitive(lo, k, mx);
      } else if KeyCmp(mn, hi) != Less && KeyCmp(k, hi) == Less {
        KeyCmpEqual(mn, hi); KeyCmpEqual(k, mn); KeyCmpEqual(k, hi);
        KeyLeTransitive(hi, mn, k);
        KeyCmpEqual(hi, k);
      }
    }
    NoneWithin(p.rows, lo, hi);
  }

  ghost predicate AllBelow(rows: seq<Row>, key: Value) { forall i :: 0 <= i < |rows| ==> KeyCmp(rows[i].key, key) == Less }

  ghost predicate AllFrom(rows: seq<Row>, key: Value) { forall i :: 0 <= i < |rows| ==> KeyCmp(rows[i].key, key) != Less }

  /** A part is skipped exactly when it is visible whole and all its keys lie below the
      range or all at or above its end. */
  lemma {:induction false} SkipExact(p: Part, lo: Value, hi: Value, s: Csn)
    requires p.Ok() && p.rows != []
    ensures Skips(p, lo, hi, s) <==> p.FullyVisibleTo(s) && (AllBelow(p.rows, lo) || AllFrom(p.rows, hi))
  {
    hide KeyCmp;
    var (mn, mx) := (MinKey(p), MaxKey(p));
    forall i | 0 <= i < |p.rows|
      ensures (KeyCmp(mx, lo) == Less ==> KeyCmp(p.rows[i].key, lo) == Less) && (KeyCmp(mn, hi) != Less ==> KeyCmp(p.rows[i].key, hi) != Less)
    {
      var k := p.rows[i].key;
      KeyCmpEqual(k, k);
      assert KeyLe(mn, k) && KeyLe(k, mx);
      Sandwiched(mn, k, mx, lo, hi);
    }
  }

  lemma {:induction false} Sandwiched(mn: Value, k: Value, mx: Value, lo: Value, hi: Value)
    requires KeyLe(mn, k) && KeyLe(k, mx)
    ensures KeyCmp(mx, lo) == Less ==> KeyCmp(k, lo) == Less
    ensures KeyCmp(mn, hi) != Less ==> KeyCmp(k, hi) != Less
  {
    hide KeyCmp;
    KeyCmpEqual(k, lo);
    KeyCmpEqual(lo, mx);
    KeyCmpEqual(mx, lo);
    KeyCmpEqual(mn, hi);
    KeyCmpEqual(k, mn);
    KeyCmpEqual(k, hi);
    if KeyLe(lo, k) { KeyLeTransitive(lo, k, mx); }
    if KeyLe(hi, mn) { KeyLeTransitive(hi, mn, k); }
  }

  lemma NoneWithin(rows: seq<Row>, lo: Value, hi: Value)
    requires forall i :: 0 <= i < |rows| ==> !InRange(rows[i].key, lo, hi)
    ensures Within(rows, lo, hi) == []
  {
  }

  lemma {:induction false} RangePartsScan(parts: seq<Part>, lo: Value, hi: Value, s: Csn)
    requires (forall i :: 0 <= i < |parts| ==> parts[i].Ok()) && Readable(parts)
    ensures RangeParts(parts, lo, hi, s) == Within(PartsScan(parts, s), lo, hi)
  {
    hide Within;
    hide Part.Ok;
    hide Skips;
    hide PartScan;
    if parts == [] {
      NoneWithin([], lo, hi);
    } else {
      var n := |parts| - 1;
      var p := parts[n];
      RangePartsScan(parts[..n], lo, hi, s);
      WithinAppend(PartsScan(parts[..n], s), PartScan(p, s), lo, hi);
      if Skips(p, lo, hi, s) {
        SkipIsSound(p, lo, hi, s);
        SkippedWhole(p, lo, hi, s);
      }
    }
  }

  lemma {:induction false} SkippedWhole(p: Part, lo: Value, hi: Value, s: Csn)
    requires p.stamps.Covers(|p.rows|) && Skips(p, lo, hi, s)
    ensures PartScan(p, s) == p.rows
  {
  }

  /** Part skipping changes nothing: the range scan is the filtered full scan. */
  lemma {:induction false} RangeIsFilteredScan(t: Table, cur: Csn, lo: Value, hi: Value, s: Csn)
    requires Shape(t, cur)
    ensures Readable(t.parts) && ScanKeyRange(t, lo, hi, s) == Within(Scan(t, s), lo, hi)
  {
    AllOk(t, cur);
    RangePartsScan(t.parts, lo, hi, s);
    WithinAppend(PartsScan(t.parts, s), Seen(t.l0, s), lo, hi);
  }

  // ---- every read is the history -------------------------------------------

  /** Distinct keys have distinct rows, so a view has as many rows as keys. */
  lemma {:induction false} ValuesCount(m: View)
    requires forall k :: k in m ==> m[k].key == k
    ensures |multiset(m.Values)| == |m|
  {
    if m != map[] {
      var k :| k in m;
      var rest := m - {k};
      ValuesCount(rest);
      ValuesDel(m, k);
      assert m[k] in m.Values;
      assert |rest| == |m| - 1 by { assert rest.Keys == m.Keys - {k}; }
      assert |multiset(m.Values)| == |multiset(m.Values) - multiset{m[k]}| + 1;
    }
  }

  /** From the GC floor up, `get`, `scan`, `row_count` and `scan_key_range` all
      return the history's state at the snapshot, each key at most once. */
  lemma {:induction false} ReadsAreHistory(t: Table, h: seq<Op>, floor: Csn, cur: Csn, s: Csn, key: Value, lo: Value, hi: Value)
    requires Inv(t, h, floor, cur) && floor <= s < NEVER
    ensures Readable(t.parts)
    ensures Get(t, key, s) == if key in At(h, s) then Some(At(h, s)[key]) else None
    ensures multiset(Scan(t, s)) == multiset(At(h, s).Values)
    ensures RowCount(t, s) == |At(h, s)|
    ensures forall r :: multiset(ScanKeyRange(t, lo, hi, s))[r]
              == if r in At(h, s).Values && InRange(r.key, lo, hi) then 1 else 0
  {
    assert Agrees(t, h, s);
    ScanRows(t, cur, s);
    LocateAgrees(t, h, key, s);
    ValuesCount(At(h, s));
    CountIsScan(t.parts, s);
    CountIsSeen(t.l0, s);
    assert |Scan(t, s)| == |multiset(Scan(t, s))|;
    RangeIsFilteredScan(t, cur, lo, hi, s);
    forall r ensures multiset(ScanKeyRange(t, lo, hi, s))[r]
              == if r in At(h, s).Values && InRange(r.key, lo, hi) then 1 else 0 {
      WithinCount(Scan(t, s), lo, hi, r);
    }
  }

  /** Each key has at most one visible version across L0 and all parts. */
  lemma {:induction false} OneVisibleVersion(t: Table, h: seq<Op>, floor: Csn, cur: Csn, s: Csn, a: Loc, b: Loc)
    requires Inv(t, h, floor, cur) && floor <= s < NEVER
    requires ValidLoc(t, a) && ValidLoc(t, b) && VersionIn(t, a).VisibleTo(s) && VersionIn(t, b).VisibleTo(s)
    requires VersionIn(t, a).row.key == VersionIn(t, b).row.key
    ensures a == b
  {
    assert Agrees(t, h, s);
    VisibleInRows(t, a, s);
    VisibleInRows(t, b, s);
    var r := VersionIn(t, a).row;
    assert VersionIn(t, b).row == r;
    if a != b {
      TwoVisible(t, s, a, b);
    }
  }

  lemma {:induction false} TwoVisible(t: Table, s: Csn, a: Loc, b: Loc)
    requires ValidLoc(t, a) && ValidLoc(t, b) && a != b
    requires VersionIn(t, a).VisibleTo(s) && VersionIn(t, b).VisibleTo(s) && VersionIn(t, a).row == VersionIn(t, b).row
    ensures TableRows(t, s)[VersionIn(t, a).row] >= 2
  {
    var r := VersionIn(t, a).row;
    match (a, b)
    case (InL0(i), InL0(j)) =>
      SumTwice(t.l0, Vis(s), if i < j then i else j, if i < j then j else i, r);
    case (InPart(i, o), InPart(j, q)) =>
      InPartRows(t.parts[i], s, o);
      InPartRows(t.parts[j], s, q);
      if i != j {
        SumTwice(t.parts, PartVis(s), if i < j then i else j, if i < j then j else i, r);
      } else {
        SumTwice(t.parts[i].Versions(), Vis(s), if o < q then o else q, if o < q then q else o, r);
        SumBound(t.parts, PartVis(s), i, r);
      }
    case (InL0(i), InPart(j, q)) =>
      InPartRows(t.parts[j], s, q);
      SumBound(t.l0, Vis(s), i, r);
      SumBound(t.parts, PartVis(s), j, r);
    case (InPart(i, o), InL0(j)) =>
      InPartRows(t.parts[i], s, o);
      SumBound(t.l0, Vis(s), j, r);
      SumBound(t.parts, PartVis(s), i, r);
  }

  lemma {:induction false} InPartRows(p: Part, s: Csn, o: nat)
    requires p.stamps.Covers(|p.rows|) && o < |p.rows| && p.VersionAt(o).VisibleTo(s)
    ensures PartRows(p, s)[p.rows[o]] >= 1
  {
    assert p.Versions()[o] == p.VersionAt(o);
    SumBound(p.Versions(), Vis(s), o, p.rows[o]);
  }
}
