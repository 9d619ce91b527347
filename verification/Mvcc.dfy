/** The multi-version table as a value: L0 entries, sealed parts with tombstones,
    and the plain history it must agree with (src/table.rs, l0.rs, part.rs,
    delete_vector.rs, csn.rs). */
module Mvcc {
  import opened Bags
  import opened Sorting
  import opened Values
  import opened Wrappers

  type Csn = nat

  /** `u64::MAX`, reserved to mean "not deleted" (src/csn.rs:21). */
  const NEVER: Csn := 0xFFFF_FFFF_FFFF_FFFF

  datatype Row = Row(key: Value, cells: seq<Value>)

  datatype Version = Version(row: Row, created: Csn, deleted: Csn) {
    predicate VisibleTo(s: Csn) { created <= s < deleted }
    predicate Shows(key: Value, s: Csn) { row.key == key && VisibleTo(s) }
  }

  // ---- the specification: a history of stamped operations ------------------

  datatype Op = Put(row: Row, csn: Csn) | Del(key: Value, csn: Csn) {
    function Key(): Value { if Put? then row.key else key }
  }

  type View = map<Value, Row>

  function Apply(m: View, op: Op): View {
    match op
    case Put(row, _) => m[row.key := row]
    case Del(key, _) => m - {key}
  }

  /** The state a snapshot at `s` must see: every operation stamped at most `s`. */
  function At(h: seq<Op>, s: Csn): (m: View)
    ensures forall k :: k in m ==> m[k].key == k
  {
    if h == [] then map[]
    else
      var m := At(h[..|h|-1], s);
      if h[|h|-1].csn <= s then Apply(m, h[|h|-1]) else m
  }

  ghost predicate Ordered(h: seq<Op>, cur: Csn) {
    && (forall i, j :: 0 <= i < j < |h| ==> h[i].csn < h[j].csn)
    && (forall i :: 0 <= i < |h| ==> h[i].csn <= cur)
  }

  lemma {:induction false} AtExtended(h: seq<Op>, op: Op, s: Csn)
    ensures At(h + [op], s) == if op.csn <= s then Apply(At(h, s), op) else At(h, s)
  {
    assert (h + [op])[..|h|] == h;
  }

  /** Past the last operation nothing changes any more. */
  lemma {:induction false} AtBeyond(h: seq<Op>, cur: Csn, s: Csn)
    requires (forall i :: 0 <= i < |h| ==> h[i].csn <= cur) && cur <= s
    ensures At(h, s) == At(h, cur)
  {
    if h != [] {
      AtBeyond(h[..|h|-1], cur, s);
    }
  }

  // ---- sealed parts --------------------------------------------------------

  datatype Stamps = Uniform(csn: Csn) | PerRow(csns: seq<Csn>) {
    predicate Covers(n: nat) { PerRow? ==> |csns| == n }
    function At(ord: nat): Csn
      requires PerRow? ==> ord < |csns|
    {
      if Uniform? then csn else csns[ord]
    }
  }

  function MinOf(cs: seq<Csn>): (m: Csn)
    ensures forall i :: 0 <= i < |cs| ==> m <= cs[i]
    ensures if cs == [] then m == 0 else m in cs
  {
    if cs == [] then 0
    else if |cs| == 1 then cs[0]
    else var m := MinOf(cs[1..]); if cs[0] <= m then cs[0] else m
  }

  function MaxOf(cs: seq<Csn>): (m: Csn)
    ensures forall i :: 0 <= i < |cs| ==> cs[i] <= m
    ensures if cs == [] then m == 0 else m in cs
  {
    if cs == [] then 0 else var m := MaxOf(cs[1..]); if cs[0] >= m then cs[0] else m
  }

  /** Collapse stamps no snapshot at or above `horizon` can tell apart
      (src/part.rs:58-74). */
  function MaybeCollapse(st: Stamps, horizon: Csn): Stamps {
    match st
    case Uniform(_) => st
    case PerRow(cs) =>
      if cs == [] then Uniform(0)
      else if MinOf(cs) == MaxOf(cs) || MaxOf(cs) <= horizon then Uniform(MinOf(cs))
      else st
  }

  lemma {:induction false} CollapseInvisible(cs: seq<Csn>, horizon: Csn, ord: nat, s: Csn)
    requires ord < |cs| && horizon <= s
    ensures MaybeCollapse(PerRow(cs), horizon).Covers(|cs|)
    ensures MaybeCollapse(PerRow(cs), horizon).At(ord) <= s <==> cs[ord] <= s
    ensures MinOf(cs) <= MaybeCollapse(PerRow(cs), horizon).At(ord) <= MaxOf(cs)
  {
  }

  type Dv = map<nat, Csn>

  /** First tombstone wins (src/delete_vector.rs:62-72). */
  function MarkDeleted(dv: Dv, ord: nat, csn: Csn): Dv {
    if ord in dv then dv else dv[ord := csn]
  }

  ghost predicate SortedByKey(rows: seq<Row>) {
    forall i, j :: 0 <= i < j < |rows| ==> KeyLe(rows[i].key, rows[j].key)
  }

  datatype Part = Part(id: nat, rows: seq<Row>, stamps: Stamps, createdMin: Csn, createdMax: Csn, dv: Dv) {
    ghost predicate Ok() {
      && stamps.Covers(|rows|)
      && (forall o :: o in dv ==> o < |rows| && dv[o] != NEVER)
      && SortedByKey(rows)
      && (forall i :: 0 <= i < |rows| ==> createdMin <= stamps.At(i) <= createdMax)
      && (stamps.Uniform? ==> createdMin == stamps.csn)
    }

    function DeletedAt(ord: nat): Csn { if ord in dv then dv[ord] else NEVER }

    function VersionAt(i: nat): Version
      requires stamps.Covers(|rows|) && i < |rows|
    {
      Version(rows[i], stamps.At(i), DeletedAt(i))
    }

    function Versions(): seq<Version>
      requires stamps.Covers(|rows|)
    {
      seq(|rows|, i requires 0 <= i < |rows| => VersionAt(i))
    }

    /** True when the part needs no per-row test (src/part.rs:310-313). */
    predicate FullyVisibleTo(s: Csn) {
      createdMax <= s && forall o :: o in dv ==> s < dv[o]
    }
  }

  function RowsOf(vs: seq<Version>): seq<Row> { seq(|vs|, i requires 0 <= i < |vs| => vs[i].row) }
  function CreatedOf(vs: seq<Version>): seq<Csn> { seq(|vs|, i requires 0 <= i < |vs| => vs[i].created) }

  /** `Part::with_deletions` on key-sorted versions (src/part.rs:118-160, 282-298). */
  function PartOf(id: nat, vs: seq<Version>): Part {
    Part(id, RowsOf(vs), PerRow(CreatedOf(vs)), MinOf(CreatedOf(vs)), MaxOf(CreatedOf(vs)),
         map i | 0 <= i < |vs| && vs[i].deleted != NEVER :: vs[i].deleted)
  }

  predicate VersionLe(a: Version, b: Version) {
    match KeyCmp(a.row.key, b.row.key)
    case Less => true
    case Greater => false
    case Equal => a.created <= b.created
  }

  lemma {:induction false} VersionLePreorder()
    ensures TotalPreorder(VersionLe)
  {
    forall x, y ensures VersionLe(x, y) || VersionLe(y, x) {
      KeyCmpEqual(x.row.key, y.row.key);
    }
    forall x, y, z | VersionLe(x, y) && VersionLe(y, z) ensures VersionLe(x, z) {
      KeyLeTransitive(x.row.key, y.row.key, z.row.key);
      KeyCmpEqual(x.row.key, y.row.key);
      KeyCmpEqual(y.row.key, z.row.key);
      KeyCmpEqual(x.row.key, z.row.key);
    }
  }

  lemma {:induction false} PartOfOk(id: nat, vs: seq<Version>)
    requires SortedBy(vs, VersionLe)
    ensures PartOf(id, vs).Ok() && PartOf(id, vs).Versions() == vs
  {
  }

  // ---- the table -----------------------------------------------------------

  /** `TableInner`: buffered versions in insertion order, parts newest first. */
  datatype Table = Table(l0: seq<Version>, parts: seq<Part>, nextPartId: nat)

  /** What snapshot `s` contributes from one version, and from one part. */
  ghost function Vis(s: Csn): Version -> multiset<Row> {
    (v: Version) => if v.VisibleTo(s) then multiset{v.row} else multiset{}
  }

  ghost function PartRows(p: Part, s: Csn): multiset<Row> {
    if p.stamps.Covers(|p.rows|) then SumOver(p.Versions(), Vis(s)) else multiset{}
  }

  ghost function PartVis(s: Csn): Part -> multiset<Row> {
    (p: Part) => PartRows(p, s)
  }

  /** Every row any tier shows to a snapshot at `s`, with multiplicity. */
  ghost function TableRows(t: Table, s: Csn): multiset<Row> {
    SumOver(t.l0, Vis(s)) + SumOver(t.parts, PartVis(s))
  }

  ghost predicate StampOk(v: Version, cur: Csn) {
    v.created <= cur && (0 < v.deleted <= cur || v.deleted == NEVER)
  }

  ghost predicate PartOk(p: Part, cur: Csn) {
    p.Ok() && forall i :: 0 <= i < |p.rows| ==> StampOk(p.VersionAt(i), cur)
  }

  ghost predicate Shape(t: Table, cur: Csn) {
    && (forall i :: 0 <= i < |t.l0| ==> StampOk(t.l0[i], cur))
    && (forall i :: 0 <= i < |t.parts| ==> PartOk(t.parts[i], cur) && t.parts[i].id < t.nextPartId)
    && (forall i, j :: 0 <= i < j < |t.parts| ==> t.parts[i].id != t.parts[j].id)
  }

  /** The table shows snapshot `s` exactly the history's state, each row once. */
  ghost predicate Agrees(t: Table, h: seq<Op>, s: Csn) {
    TableRows(t, s) == multiset(At(h, s).Values)
  }

  /** The invariant of every reachable table: from the GC floor up, all
      snapshots see the history. */
  ghost predicate Inv(t: Table, h: seq<Op>, floor: Csn, cur: Csn) {
    && floor <= cur < NEVER
    && Ordered(h, cur)
    && Shape(t, cur)
    && forall s :: floor <= s < NEVER ==> Agrees(t, h, s)
  }

  const EMPTY: Table := Table([], [], 0)

  lemma {:induction false} InvEmpty()
    ensures Inv(EMPTY, [], 0, 0)
  {
  }

  // ---- point lookup --------------------------------------------------------

  datatype Loc = InL0(index: nat) | InPart(part: nat, ord: nat)

  /** The newest buffered entry for `key` that `s` sees (src/l0.rs:96-112). */
  function L0Lookup(l0: seq<Version>, key: Value, s: Csn): (r: Option<nat>)
    ensures r.Some? ==> r.value < |l0| && l0[r.value].Shows(key, s)
    ensures r.None? ==> forall i :: 0 <= i < |l0| ==> !l0[i].Shows(key, s)
    ensures r.Some? ==> forall i :: r.value < i < |l0| ==> !l0[i].Shows(key, s)
  {
    if l0 == [] then None
    else if l0[|l0|-1].Shows(key, s) then Some(|l0|-1)
    else L0Lookup(l0[..|l0|-1], key, s)
  }

  /** The lowest ordinal at or after `from` holding a version of `key` that `s` sees. */
  function PartLookup(p: Part, key: Value, s: Csn, from: nat := 0): (r: Option<nat>)
    requires p.stamps.Covers(|p.rows|) && from <= |p.rows|
    ensures r.Some? ==> from <= r.value < |p.rows| && p.VersionAt(r.value).Shows(key, s)
    ensures r.Some? ==> forall i :: from <= i < r.value ==> !p.VersionAt(i).Shows(key, s)
    ensures r.None? ==> forall i :: from <= i < |p.rows| ==> !p.VersionAt(i).Shows(key, s)
    decreases |p.rows| - from
  {
    if from == |p.rows| then None
    else if p.VersionAt(from).Shows(key, s) then Some(from)
    else PartLookup(p, key, s, from + 1)
  }

  ghost predicate Readable(parts: seq<Part>) {
    forall i :: 0 <= i < |parts| ==> parts[i].stamps.Covers(|parts[i].rows|)
  }

  function PartsLookup(parts: seq<Part>, key: Value, s: Csn, from: nat := 0): (r: Option<Loc>)
    requires Readable(parts) && from <= |parts|
    ensures r.Some? ==> r.value.InPart? && ValidLoc(Table([], parts, 0), r.value) && VersionIn(Table([], parts, 0), r.value).Shows(key, s)
    ensures r.None? ==> forall i :: from <= i < |parts| ==> PartLookup(parts[i], key, s).None?
    decreases |parts| - from
  {
    if from == |parts| then None
    else
      var o := PartLookup(parts[from], key, s);
      if o.Some? then Some(InPart(from, o.value)) else PartsLookup(parts, key, s, from + 1)
  }

  predicate ValidLoc(t: Table, loc: Loc) {
    match loc
    case InL0(i) => i < |t.l0|
    case InPart(pi, o) => pi < |t.parts| && t.parts[pi].stamps.Covers(|t.parts[pi].rows|) && o < |t.parts[pi].rows|
  }

  function VersionIn(t: Table, loc: Loc): Version
    requires ValidLoc(t, loc)
  {
    match loc
    case InL0(i) => t.l0[i]
    case InPart(pi, o) => t.parts[pi].VersionAt(o)
  }

  /** Newest tier first (src/table.rs:555-582). */
  function Locate(t: Table, key: Value, s: Csn): (r: Option<Loc>)
    requires Readable(t.parts)
    ensures r.Some? ==> ValidLoc(t, r.value) && VersionIn(t, r.value).Shows(key, s)
  {
    var i := L0Lookup(t.l0, key, s);
    if i.Some? then Some(InL0(i.value)) else PartsLookup(t.parts, key, s)
  }

  // ---- writes --------------------------------------------------------------

  function Tombstone(t: Table, loc: Loc, csn: Csn): Table
    requires ValidLoc(t, loc)
  {
    match loc
    case InL0(i) =>
      if t.l0[i].deleted == NEVER then t.(l0 := t.l0[i := t.l0[i].(deleted := csn)]) else t
    case InPart(pi, o) =>
      var p := t.parts[pi];
      t.(parts := t.parts[pi := p.(dv := MarkDeleted(p.dv, o, csn))])
  }

  function Buffer(t: Table, row: Row, csn: Csn): Table {
    t.(l0 := t.l0 + [Version(row, csn, NEVER)])
  }

  /** `seal_locked`: sort L0 by (key, created), drain it into a new newest part. */
  function Seal(t: Table): Table {
    if t.l0 == [] then t
    else Table([], [PartOf(t.nextPartId, SortBy(t.l0, VersionLe))] + t.parts, t.nextPartId + 1)
  }

  function MaybeSeal(t: Table, threshold: nat): Table {
    if |t.l0| >= threshold then Seal(t) else t
  }

  /** The version this operation supersedes, and the operation itself, stamped `op.csn`. */
  function Write(t: Table, op: Op, at: Csn): Table
    requires Readable(t.parts)
  {
    var loc := Locate(t, op.Key(), at);
    var t' := if loc.Some? then Tombstone(t, loc.value, op.csn) else t;
    if op.Put? then Buffer(t', op.row, op.csn) else t'
  }

  // ---- facts about lookup --------------------------------------------------

  lemma {:induction false} VisibleInRows(t: Table, loc: Loc, s: Csn)
    requires ValidLoc(t, loc) && VersionIn(t, loc).VisibleTo(s)
    ensures VersionIn(t, loc).row in TableRows(t, s)
  {
    var r := VersionIn(t, loc).row;
    match loc
    case InL0(i) =>
      InSum(t.l0, Vis(s), r);
    case InPart(pi, o) =>
      var vs := t.parts[pi].Versions();
      assert r in Vis(s)(vs[o]);
      InSum(vs, Vis(s), r);
      assert r in PartVis(s)(t.parts[pi]);
      InSum(t.parts, PartVis(s), r);
  }

  lemma {:induction false} RowsHaveLoc(t: Table, r: Row, s: Csn) returns (loc: Loc)
    requires r in TableRows(t, s) && Readable(t.parts)
    ensures ValidLoc(t, loc) && VersionIn(t, loc).VisibleTo(s) && VersionIn(t, loc).row == r
  {
    hide SumOver;
    if r in SumOver(t.l0, Vis(s)) {
      InSum(t.l0, Vis(s), r);
      var i :| 0 <= i < |t.l0| && r in Vis(s)(t.l0[i]);
      loc := InL0(i);
    } else {
      InSum(t.parts, PartVis(s), r);
      var pi :| 0 <= pi < |t.parts| && r in PartVis(s)(t.parts[pi]);
      var vs := t.parts[pi].Versions();
      InSum(vs, Vis(s), r);
      var o :| 0 <= o < |vs| && r in Vis(s)(vs[o]);
      loc := InPart(pi, o);
    }
  }

  lemma {:induction false} LocateComplete(t: Table, key: Value, s: Csn, loc: Loc)
    requires Readable(t.parts) && ValidLoc(t, loc) && VersionIn(t, loc).Shows(key, s)
    ensures Locate(t, key, s).Some?
  {
  }

  ghost predicate Keyed(m: View) { forall k :: k in m ==> m[k].key == k }

  /** Lookup finds what the visible rows say, key by key. */
  lemma {:induction false} LocateShows(t: Table, m: View, key: Value, s: Csn)
    requires Readable(t.parts) && Keyed(m) && TableRows(t, s) == multiset(m.Values)
    ensures Locate(t, key, s).Some? <==> key in m
    ensures key in m ==> VersionIn(t, Locate(t, key, s).value).row == m[key]
  {
    var r := Locate(t, key, s);
    if r.Some? {
      VisibleInRows(t, r.value, s);
    }
    if key in m {
      assert m[key] in m.Values;
      var loc := RowsHaveLoc(t, m[key], s);
      LocateComplete(t, key, s, loc);
    }
  }

  /** Lookup and the history agree on every key. */
  lemma {:induction false} LocateAgrees(t: Table, h: seq<Op>, key: Value, s: Csn)
    requires Readable(t.parts) && Agrees(t, h, s)
    ensures Locate(t, key, s).Some? <==> key in At(h, s)
    ensures key in At(h, s) ==> VersionIn(t, Locate(t, key, s).value).row == At(h, s)[key]
  {
    LocateShows(t, At(h, s), key, s);
  }

  // ---- what a write does to every snapshot ---------------------------------

  lemma {:induction false} ReadableFromShape(t: Table, cur: Csn)
    requires Shape(t, cur)
    ensures Readable(t.parts)
  {
    forall i | 0 <= i < |t.parts| ensures t.parts[i].stamps.Covers(|t.parts[i].rows|) {
      assert PartOk(t.parts[i], cur);
    }
  }

  /** The rows a tombstone stamped `csn` takes away from a snapshot at `s`. */
  ghost function Gone(row: Row, csn: Csn, s: Csn): multiset<Row> {
    if s < csn then multiset{} else multiset{row}
  }

  lemma {:induction false} TombstonePart(p: Part, o: nat, csn: Csn, s: Csn)
    requires p.stamps.Covers(|p.rows|) && o < |p.rows| && o !in p.dv
    requires p.stamps.At(o) <= csn && s < NEVER
    ensures PartRows(p, s) == PartRows(p.(dv := p.dv[o := csn]), s) + Gone(p.rows[o], csn, s)
  {
    var p' := p.(dv := p.dv[o := csn]);
    var v := p.VersionAt(o).(deleted := csn);
    assert p'.Versions() == p.Versions()[o := v];
    SumShrink(p.Versions(), o, v, Vis(s), Gone(p.rows[o], csn, s));
  }

  /** Tombstoning one live version hides its row from `csn` on, and from nobody earlier. */
  lemma {:induction false} TombstoneRows(t: Table, loc: Loc, csn: Csn, s: Csn)
    requires ValidLoc(t, loc) && VersionIn(t, loc).deleted == NEVER
    requires VersionIn(t, loc).created <= csn && s < NEVER
    requires loc.InPart? ==> loc.ord !in t.parts[loc.part].dv
    ensures TableRows(Tombstone(t, loc, csn), s) + Gone(VersionIn(t, loc).row, csn, s) == TableRows(t, s)
  {
    var v := VersionIn(t, loc);
    match loc
    case InL0(i) =>
      SumShrink(t.l0, i, v.(deleted := csn), Vis(s), Gone(v.row, csn, s));
    case InPart(pi, o) =>
      var p := t.parts[pi];
      TombstonePart(p, o, csn, s);
      SumShrink(t.parts, pi, p.(dv := p.dv[o := csn]), PartVis(s), Gone(v.row, csn, s));
  }

  lemma {:induction false} BufferRows(t: Table, row: Row, csn: Csn, s: Csn)
    requires s < NEVER
    ensures TableRows(Buffer(t, row, csn), s)
         == if s < csn then TableRows(t, s) else TableRows(t, s) + multiset{row}
  {
    var v := Version(row, csn, NEVER);
    SumAppend(t.l0, [v], Vis(s));
    SumSingle(v, Vis(s));
  }

  /** Above every stamp in the table all snapshots see the same rows. */
  lemma {:induction false} RowsBeyond(t: Table, cur: Csn, s: Csn)
    requires Shape(t, cur) && cur <= s < NEVER
    ensures TableRows(t, s) == TableRows(t, cur)
  {
    SumCongruent(t.l0, Vis(s), t.l0, Vis(cur));
    forall i | 0 <= i < |t.parts| ensures PartVis(s)(t.parts[i]) == PartVis(cur)(t.parts[i]) {
      assert PartOk(t.parts[i], cur);
      SumCongruent(t.parts[i].Versions(), Vis(s), t.parts[i].Versions(), Vis(cur));
    }
    SumCongruent(t.parts, PartVis(s), t.parts, PartVis(cur));
  }

  lemma {:induction false} ValuesPut(m: View, row: Row)
    requires forall k :: k in m ==> m[k].key == k
    ensures multiset(m[row.key := row].Values)
         == (if row.key in m then multiset(m.Values) - multiset{m[row.key]} else multiset(m.Values)) + multiset{row}
  {
    var m' := m[row.key := row];
    var kept := if row.key in m then m.Values - {m[row.key]} else m.Values;
    forall r ensures r in m'.Values <==> r in kept + {row} {
      if r in m'.Values {
        var k :| k in m' && m'[k] == r;
        if k != row.key { assert m[k] in m.Values; }
      }
      if r in kept {
        var k :| k in m && m[k] == r;
        assert m'[k] == r;
      } else if r == row {
        assert m'[row.key] == r;
      }
    }
    assert m'.Values == kept + {row};
    assert row !in kept;
  }

  lemma {:induction false} ValuesDel(m: View, key: Value)
    requires forall k :: k in m ==> m[k].key == k
    requires key in m
    ensures multiset((m - {key}).Values) == multiset(m.Values) - multiset{m[key]}
  {
    var m' := m - {key};
    forall r ensures r in m'.Values <==> r in m.Values - {m[key]} {
      if r in m'.Values {
        var k :| k in m' && m'[k] == r;
        assert m[k] in m.Values;
      }
      if r in m.Values && r != m[key] {
        var k :| k in m && m[k] == r;
        assert m'[k] == r;
      }
    }
    assert m'.Values == m.Values - {m[key]};
  }

  // ---- the write step ------------------------------------------------------

  lemma {:induction false} TombstoneShape(t: Table, loc: Loc, cur: Csn, csn: Csn)
    requires Shape(t, cur) && ValidLoc(t, loc) && cur < csn < NEVER
    ensures Shape(Tombstone(t, loc, csn), csn)
    ensures Readable(Tombstone(t, loc, csn).parts)
  {
    var t' := Tombstone(t, loc, csn);
    forall i | 0 <= i < |t'.parts| ensures PartOk(t'.parts[i], csn) {
      assert PartOk(t.parts[i], cur);
      forall o | 0 <= o < |t'.parts[i].rows| ensures StampOk(t'.parts[i].VersionAt(o), csn) {
        assert StampOk(t.parts[i].VersionAt(o), cur);
      }
    }
    forall i | 0 <= i < |t'.l0| ensures StampOk(t'.l0[i], csn) {
      assert StampOk(t.l0[i], cur);
    }
    ReadableFromShape(t', csn);
  }

  /** A located version is live: the write path never meets `WriteConflict`. */
  lemma {:induction false} LocatedIsLive(t: Table, key: Value, cur: Csn)
    requires Shape(t, cur) && cur < NEVER && Readable(t.parts)
    ensures var r := Locate(t, key, cur);
      r.Some? ==>
        && VersionIn(t, r.value).deleted == NEVER && VersionIn(t, r.value).created <= cur
        && (r.value.InPart? ==> r.value.ord !in t.parts[r.value.part].dv)
  {
    var r := Locate(t, key, cur);
    if r.Some? && r.value.InPart? {
      assert PartOk(t.parts[r.value.part], cur);
      assert StampOk(t.parts[r.value.part].VersionAt(r.value.ord), cur);
    }
  }

  lemma {:induction false} WriteShape(t: Table, cur: Csn, op: Op)
    requires Shape(t, cur) && Readable(t.parts) && op.csn == cur + 1 < NEVER
    ensures Shape(Write(t, op, cur), op.csn)
  {
    var loc := Locate(t, op.Key(), cur);
    if loc.Some? {
      TombstoneShape(t, loc.value, cur, op.csn);
    } else {
      ShapeLater(t, cur, op.csn);
    }
  }

  lemma {:induction false} ShapeLater(t: Table, cur: Csn, later: Csn)
    requires Shape(t, cur) && cur <= later
    ensures Shape(t, later)
  {
    forall i | 0 <= i < |t.parts| ensures PartOk(t.parts[i], later) {
      assert PartOk(t.parts[i], cur);
    }
  }

  /** The rows of a write, tier by tier: one row gone, one row more, from its stamp on. */
  lemma {:induction false} WriteDelta(t: Table, cur: Csn, op: Op, s: Csn)
    requires Shape(t, cur) && Readable(t.parts) && op.csn == cur + 1 < NEVER && s < NEVER
    ensures var loc := Locate(t, op.Key(), cur);
      TableRows(Write(t, op, cur), s) + (if loc.Some? then Gone(VersionIn(t, loc.value).row, op.csn, s) else multiset{})
      == TableRows(t, s) + (if op.Put? then Gone(op.row, op.csn, s) else multiset{})
  {
    var loc := Locate(t, op.Key(), cur);
    LocatedIsLive(t, op.Key(), cur);
    var t1 := if loc.Some? then Tombstone(t, loc.value, op.csn) else t;
    if loc.Some? { TombstoneRows(t, loc.value, op.csn, s); }
    if op.Put? { BufferRows(t1, op.row, op.csn, s); }
  }

  lemma {:induction false} ApplyValues(m: View, op: Op)
    requires forall k :: k in m ==> m[k].key == k
    ensures multiset(Apply(m, op).Values) + (if op.Key() in m then multiset{m[op.Key()]} else multiset{})
         == multiset(m.Values) + (if op.Put? then multiset{op.row} else multiset{})
  {
    if op.Key() in m { assert m[op.Key()] in m.Values; }
    if op.Put? {
      ValuesPut(m, op.row);
    } else if op.key in m {
      ValuesDel(m, op.key);
    } else {
      assert m - {op.key} == m;
    }
  }

  /** From its stamp on, a write shows the state with the operation applied. */
  lemma {:induction false} WriteShows(t: Table, m: View, cur: Csn, op: Op, s: Csn)
    requires Shape(t, cur) && Readable(t.parts) && op.csn == cur + 1 && op.csn <= s < NEVER
    requires Keyed(m) && TableRows(t, cur) == multiset(m.Values)
    ensures TableRows(Write(t, op, cur), s) == multiset(Apply(m, op).Values)
  {
    WriteDelta(t, cur, op, s);
    LocateShows(t, m, op.Key(), cur);
    RowsBeyond(t, cur, s);
    ApplyValues(m, op);
    Cancel(TableRows(Write(t, op, cur), s), multiset(Apply(m, op).Values),
           if op.Key() in m then multiset{m[op.Key()]} else multiset{});
  }

  /** What one write shows each snapshot: nothing new below its stamp, the
      history with the operation added from its stamp on. */
  lemma {:induction false} WriteRows(t: Table, h: seq<Op>, cur: Csn, op: Op, s: Csn)
    requires Shape(t, cur) && Readable(t.parts) && Ordered(h, cur) && op.csn == cur + 1 < NEVER && s < NEVER
    requires Agrees(t, h, cur)
    ensures s < op.csn ==> TableRows(Write(t, op, cur), s) == TableRows(t, s)
    ensures op.csn <= s ==> Agrees(Write(t, op, cur), h + [op], s)
  {
    if op.csn <= s {
      WriteShows(t, At(h, cur), cur, op, s);
      AtBeyond(h, cur, s);
      AtExtended(h, op, s);
    } else {
      WriteDelta(t, cur, op, s);
      Cancel(TableRows(Write(t, op, cur), s), TableRows(t, s), multiset{});
    }
  }

  /** Every write keeps every snapshot's agreement with the history. */
  lemma {:induction false} WriteKeepsInv(t: Table, h: seq<Op>, floor: Csn, cur: Csn, op: Op)
    requires Inv(t, h, floor, cur) && op.csn == cur + 1 < NEVER
    ensures Readable(t.parts)
    ensures Inv(Write(t, op, cur), h + [op], floor, op.csn)
  {
    ReadableFromShape(t, cur);
    WriteShape(t, cur, op);
    forall s | floor <= s < NEVER ensures Agrees(Write(t, op, cur), h + [op], s) {
      assert Agrees(t, h, s) && Agrees(t, h, cur);
      WriteRows(t, h, cur, op, s);
      AtExtended(h, op, s);
    }
  }

  /** Stamps handed to other tables change nothing here. */
  lemma {:induction false} TickKeepsInv(t: Table, h: seq<Op>, floor: Csn, cur: Csn, later: Csn)
    requires Inv(t, h, floor, cur) && cur <= later < NEVER
    ensures Inv(t, h, floor, later)
  {
    ShapeLater(t, cur, later);
  }

  /** Sealing is invisible to every snapshot whatever, below the floor too. */
  lemma {:induction false} SealInvisible(t: Table, s: Csn)
    ensures TableRows(Seal(t), s) == TableRows(t, s)
  {
    if t.l0 != [] {
      var vs := SortBy(t.l0, VersionLe);
      var p := PartOf(t.nextPartId, vs);
      VersionLePreorder();
      SortBySorted(t.l0, VersionLe);
      PartOfOk(t.nextPartId, vs);
      SumPermuted(vs, t.l0, Vis(s));
      SumAppend([p], t.parts, PartVis(s));
      SumSingle(p, PartVis(s));
    }
  }

  lemma {:induction false} SealKeepsInv(t: Table, h: seq<Op>, floor: Csn, cur: Csn)
    requires Inv(t, h, floor, cur)
    ensures Inv(Seal(t), h, floor, cur)
  {
    forall s | floor <= s < NEVER ensures Agrees(Seal(t), h, s) {
      assert Agrees(t, h, s);
      SealInvisible(t, s);
    }
    SealShape(t, cur);
  }

  lemma {:induction false} SealShape(t: Table, cur: Csn)
    requires Shape(t, cur)
    ensures Shape(Seal(t), cur)
  {
    if t.l0 != [] {
      var vs := SortBy(t.l0, VersionLe);
      var p := PartOf(t.nextPartId, vs);
      VersionLePreorder();
      SortBySorted(t.l0, VersionLe);
      PartOfOk(t.nextPartId, vs);
      forall i | 0 <= i < |vs| ensures StampOk(p.VersionAt(i), cur) {
        assert p.VersionAt(i) == p.Versions()[i] == vs[i];
        assert vs[i] in multiset(vs);
      }
      assert PartOk(p, cur);
    }
  }
}
