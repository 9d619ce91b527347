/** Two-phase merge: a replacement part is built from deletion vectors captured
    without the lock, then installed with the later tombstones replayed
    (src/compaction.rs). */
module Compaction {
  import opened Bags
  import opened Sorting
  import opened Values
  import opened Wrappers
  import opened Mvcc

  /** A source row that survives the merge, with where it came from. */
  datatype Kept = Kept(version: Version, src: nat, ord: nat)

  function DeletedIn(dv: Dv, ord: nat): Csn { if ord in dv then dv[ord] else NEVER }

  /** Rows of one source not reclaimable at `horizon` (src/compaction.rs:122-140). */
  function KeptFrom(p: Part, cap: Dv, horizon: Csn, ord: nat := 0): seq<Kept>
    requires p.stamps.Covers(|p.rows|) && ord <= |p.rows|
    decreases |p.rows| - ord
  {
    if ord == |p.rows| then []
    else
      var d := DeletedIn(cap, ord);
      (if d <= horizon then [] else [Kept(Version(p.rows[ord], p.stamps.At(ord), d), p.id, ord)])
      + KeptFrom(p, cap, horizon, ord + 1)
  }

  function Collect(sources: seq<Part>, caps: seq<Dv>, horizon: Csn): seq<Kept>
    requires |sources| == |caps| && Readable(sources)
  {
    if sources == [] then []
    else KeptFrom(sources[0], caps[0], horizon) + Collect(sources[1..], caps[1..], horizon)
  }

  predicate KeptLe(a: Kept, b: Kept) { VersionLe(a.version, b.version) }

  function VersionsOf(ks: seq<Kept>): seq<Version> {
    seq(|ks|, i requires 0 <= i < |ks| => ks[i].version)
  }

  /** `kept[out]` is the mapping `(source part, source ordinal) -> out` read backwards. */
  datatype Plan = Plan(sourceIds: seq<nat>, kept: seq<Kept>, merged: Part, startedAt: Csn)

  function IdsOf(parts: seq<Part>): seq<nat> {
    seq(|parts|, i requires 0 <= i < |parts| => parts[i].id)
  }

  /** src/compaction.rs:107-172. */
  function PlanMerge(sources: seq<Part>, caps: seq<Dv>, newId: nat, horizon: Csn, startedAt: Csn): Option<Plan>
    requires |sources| == |caps| && Readable(sources)
  {
    if sources == [] then None
    else
      var kept := SortBy(Collect(sources, caps, horizon), KeptLe);
      var base := PartOf(newId, VersionsOf(kept));
      Some(Plan(IdsOf(sources), kept, base.(stamps := MaybeCollapse(base.stamps, horizon)), startedAt))
  }

  function Holds(parts: seq<Part>, id: nat): (r: Option<nat>)
    ensures r.Some? ==> r.value < |parts| && parts[r.value].id == id
    ensures r.None? ==> forall i :: 0 <= i < |parts| ==> parts[i].id != id
  {
    if parts == [] then None
    else if parts[0].id == id then Some(0)
    else
      var r := Holds(parts[1..], id);
      if r.Some? then Some(r.value + 1) else None
  }

  predicate AllPresent(parts: seq<Part>, ids: seq<nat>) {
    forall id :: id in ids ==> Holds(parts, id).Some?
  }

  /** The deletion a source row carries at installation time. */
  function NowDeleted(parts: seq<Part>, k: Kept): Csn {
    var i := Holds(parts, k.src);
    if i.Some? then parts[i.value].DeletedAt(k.ord) else NEVER
  }

  /** Tombstones stamped after the merge began, carried through the mapping. */
  function Replayed(parts: seq<Part>, plan: Plan): Dv {
    map out | 0 <= out < |plan.kept| && (out in plan.merged.dv ||
                                         plan.startedAt < NowDeleted(parts, plan.kept[out]) != NEVER)
      :: if out in plan.merged.dv then plan.merged.dv[out] else NowDeleted(parts, plan.kept[out])
  }

  function Retain(parts: seq<Part>, ids: seq<nat>): seq<Part> {
    if parts == [] then []
    else (if parts[0].id in ids then [] else [parts[0]]) + Retain(parts[1..], ids)
  }

  /** src/compaction.rs:179-218; a stale plan changes nothing. */
  function ApplyPlan(parts: seq<Part>, plan: Plan): seq<Part> {
    if !AllPresent(parts, plan.sourceIds) then parts
    else Retain(parts, plan.sourceIds) + [plan.merged.(dv := Replayed(parts, plan))]
  }

  // ---- why the swap is invisible -------------------------------------------

  /** What the deletion vector captured for a source may miss: only tombstones
      stamped after the merge began. */
  ghost predicate CaptureOk(cap: Dv, now: Dv, startedAt: Csn) {
    forall o :: DeletedIn(cap, o) == DeletedIn(now, o) || (DeletedIn(cap, o) == NEVER && startedAt < DeletedIn(now, o))
  }

  ghost predicate SameRows(a: Part, b: Part) {
    a.id == b.id && a.rows == b.rows && a.stamps == b.stamps
  }

  ghost function NowVis(parts: seq<Part>, s: Csn): Kept -> multiset<Row> {
    (k: Kept) => if k.version.created <= s < NowDeleted(parts, k) then multiset{k.version.row} else multiset{}
  }

  lemma {:induction false} KeptShows(parts: seq<Part>, src: Part, cap: Dv, horizon: Csn, startedAt: Csn, s: Csn, ord: nat)
    requires src.stamps.Covers(|src.rows|) && ord <= |src.rows|
    requires Holds(parts, src.id).Some?
    requires var now := parts[Holds(parts, src.id).value]; SameRows(src, now) && CaptureOk(cap, now.dv, startedAt)
    requires horizon <= s < NEVER
    ensures var now := parts[Holds(parts, src.id).value];
      SumOver(KeptFrom(src, cap, horizon, ord), NowVis(parts, s)) == SumOver(now.Versions()[ord..], Vis(s))
    decreases |src.rows| - ord
  {
    hide SumOver;
    hide Holds;
    var now := parts[Holds(parts, src.id).value];
    var vs := now.Versions();
    if ord < |src.rows| {
      KeptShows(parts, src, cap, horizon, startedAt, s, ord + 1);
      SumFront(vs, ord, Vis(s));
      KeptRow(parts, src, cap, horizon, startedAt, s, ord);
      var d := DeletedIn(cap, ord);
      var k := Kept(Version(src.rows[ord], src.stamps.At(ord), d), src.id, ord);
      if d > horizon {
        SumAppend([k], KeptFrom(src, cap, horizon, ord + 1), NowVis(parts, s));
        SumSingle(k, NowVis(parts, s));
      } else {
        assert KeptFrom(src, cap, horizon, ord) == KeptFrom(src, cap, horizon, ord + 1);
      }
    } else {
      assert vs[ord..] == [];
      SumNone(Vis(s));
      SumNone(NowVis(parts, s));
    }
  }

  lemma {:induction false} SumFront<T, R>(xs: seq<T>, i: nat, f: T -> multiset<R>)
    requires i < |xs|
    ensures SumOver(xs[i..], f) == f(xs[i]) + SumOver(xs[i+1..], f)
  {
    assert xs[i..][1..] == xs[i+1..];
  }

  /** A kept row shows with its present deletion what its source row shows; a row
      that is not kept shows nothing from the horizon up. */
  lemma {:induction false} KeptRow(parts: seq<Part>, src: Part, cap: Dv, horizon: Csn, startedAt: Csn, s: Csn, ord: nat)
    requires src.stamps.Covers(|src.rows|) && ord < |src.rows| && Holds(parts, src.id).Some? && horizon <= s < NEVER
    requires var now := parts[Holds(parts, src.id).value]; SameRows(src, now) && CaptureOk(cap, now.dv, startedAt)
    ensures var (now, d) := (parts[Holds(parts, src.id).value], DeletedIn(cap, ord));
      && (d > horizon ==> NowVis(parts, s)(Kept(Version(src.rows[ord], src.stamps.At(ord), d), src.id, ord)) == Vis(s)(now.Versions()[ord]))
      && (d <= horizon ==> Vis(s)(now.Versions()[ord]) == multiset{})
  {
    hide Holds;
    var (now, d) := (parts[Holds(parts, src.id).value], DeletedIn(cap, ord));
    assert d == DeletedIn(now.dv, ord) || (d == NEVER && startedAt < DeletedIn(now.dv, ord));
  }

  ghost predicate Here(parts: seq<Part>, sources: seq<Part>) {
    forall i :: 0 <= i < |sources| ==> Holds(parts, sources[i].id).Some?
  }

  /** Sources, in the state they have when the plan is installed. */
  ghost function NowOf(parts: seq<Part>, sources: seq<Part>): (r: seq<Part>)
    requires Here(parts, sources)
    ensures |r| == |sources|
    ensures forall i :: 0 <= i < |r| ==> r[i] == parts[Holds(parts, sources[i].id).value]
  {
    if sources == [] then []
    else [parts[Holds(parts, sources[0].id).value]] + NowOf(parts, sources[1..])
  }

  ghost predicate CapturedOne(parts: seq<Part>, src: Part, cap: Dv, startedAt: Csn) {
    Holds(parts, src.id).Some? ==>
      var now := parts[Holds(parts, src.id).value];
      SameRows(src, now) && CaptureOk(cap, now.dv, startedAt)
  }

  ghost predicate Captured(parts: seq<Part>, sources: seq<Part>, caps: seq<Dv>, startedAt: Csn) {
    |sources| == |caps| && forall i :: 0 <= i < |sources| ==> CapturedOne(parts, sources[i], caps[i], startedAt)
  }

  lemma {:induction false} CollectShows(parts: seq<Part>, sources: seq<Part>, caps: seq<Dv>, horizon: Csn, startedAt: Csn, s: Csn)
    requires Readable(sources) && Here(parts, sources)
    requires Captured(parts, sources, caps, startedAt) && horizon <= s < NEVER
    ensures SumOver(Collect(sources, caps, horizon), NowVis(parts, s)) == SumOver(NowOf(parts, sources), PartVis(s))
  {
    if sources != [] {
      CollectShows(parts, sources[1..], caps[1..], horizon, startedAt, s);
      SumAppend(KeptFrom(sources[0], caps[0], horizon), Collect(sources[1..], caps[1..], horizon), NowVis(parts, s));
      assert CapturedOne(parts, sources[0], caps[0], startedAt);
      KeptShows(parts, sources[0], caps[0], horizon, startedAt, s, 0);
      var now := parts[Holds(parts, sources[0].id).value];
      assert now.Versions()[0..] == now.Versions();
      assert NowOf(parts, sources)[1..] == NowOf(parts, sources[1..]);
    }
  }

  /** Each kept row's captured deletion, and what replay turns it into. */
  lemma {:induction false} CollectFacts(parts: seq<Part>, sources: seq<Part>, caps: seq<Dv>, horizon: Csn, startedAt: Csn, k: Kept)
    requires Readable(sources) && Here(parts, sources)
    requires Captured(parts, sources, caps, startedAt)
    requires k in Collect(sources, caps, horizon)
    ensures k.version.deleted == NowDeleted(parts, k) || (k.version.deleted == NEVER && startedAt < NowDeleted(parts, k))
    ensures horizon < k.version.deleted
    ensures exists i :: 0 <= i < |sources| && k.src == sources[i].id && k.ord < |sources[i].rows|
                        && k.version.row == sources[i].rows[k.ord] && k.version.created == sources[i].stamps.At(k.ord)
  {
    if k in KeptFrom(sources[0], caps[0], horizon) {
      KeptFacts(sources[0], caps[0], horizon, 0, k);
      assert CapturedOne(parts, sources[0], caps[0], startedAt);
    } else {
      CollectFacts(parts, sources[1..], caps[1..], horizon, startedAt, k);
      var i :| 0 <= i < |sources[1..]| && k.src == sources[1..][i].id && k.ord < |sources[1..][i].rows|
        && k.version.row == sources[1..][i].rows[k.ord] && k.version.created == sources[1..][i].stamps.At(k.ord);
      assert sources[1..][i] == sources[i+1];
    }
  }

  lemma {:induction false} KeptFacts(p: Part, cap: Dv, horizon: Csn, ord: nat, k: Kept)
    requires p.stamps.Covers(|p.rows|) && ord <= |p.rows| && k in KeptFrom(p, cap, horizon, ord)
    ensures k.src == p.id && k.ord < |p.rows| && k.version.row == p.rows[k.ord]
    ensures k.version.created == p.stamps.At(k.ord)
    ensures k.version.deleted == DeletedIn(cap, k.ord) && horizon < k.version.deleted
    decreases |p.rows| - ord
  {
    if ord < |p.rows| && k in KeptFrom(p, cap, horizon, ord + 1) {
      KeptFacts(p, cap, horizon, ord + 1, k);
    }
  }

  /** Version order lifts to the merge rows, so the output is a legal part. */
  lemma {:induction false} PlanSorted(ks: seq<Kept>)
    ensures SortedBy(VersionsOf(SortBy(ks, KeptLe)), VersionLe)
  {
    VersionLePreorder();
    assert TotalPreorder(KeptLe) by {
      forall x: Kept, y: Kept ensures KeptLe(x, y) || KeptLe(y, x) {
        assert VersionLe(x.version, y.version) || VersionLe(y.version, x.version);
      }
      forall x: Kept, y: Kept, z: Kept | KeptLe(x, y) && KeptLe(y, z) ensures KeptLe(x, z) {
        assert VersionLe(x.version, z.version);
      }
    }
    SortBySorted(ks, KeptLe);
  }

  lemma {:induction false} CollapsedOk(base: Part, horizon: Csn)
    requires base.Ok() && base.stamps.PerRow?
    requires base.createdMin == MinOf(base.stamps.csns) && base.createdMax == MaxOf(base.stamps.csns)
    ensures base.(stamps := MaybeCollapse(base.stamps, horizon)).Ok()
  {
  }

  /** Replay gives each merged row the deletion its source row carries now. */
  lemma {:induction false} ReplayedDeletion(parts: seq<Part>, sources: seq<Part>, caps: seq<Dv>, newId: nat, horizon: Csn, startedAt: Csn, out: nat)
    requires sources != [] && Readable(sources) && Here(parts, sources)
    requires Captured(parts, sources, caps, startedAt)
    requires out < |PlanMerge(sources, caps, newId, horizon, startedAt).value.kept|
    ensures var plan := PlanMerge(sources, caps, newId, horizon, startedAt).value;
      DeletedIn(Replayed(parts, plan), out) == NowDeleted(parts, plan.kept[out])
  {
    var plan := PlanMerge(sources, caps, newId, horizon, startedAt).value;
    var k := plan.kept[out];
    assert k in Collect(sources, caps, horizon) by { assert k in multiset(plan.kept); }
    CollectFacts(parts, sources, caps, horizon, startedAt, k);
    MergedTombstones(newId, plan.kept, out);
    ReplayedOne(parts, plan, out);
  }

  /** Replay is exact for a row if and only if a tombstone the capture missed is
      stamped after the merge began: one stamped at or before `startedAt` that
      lands after the capture (a writer holding its CSN but not yet its
      tombstone) would be lost: see `LateTombstone` and `LostDelete`. */
  lemma {:induction false} ReplayedOne(parts: seq<Part>, plan: Plan, out: nat)
    requires out < |plan.kept|
    requires var (was, now) := (plan.kept[out].version.deleted, NowDeleted(parts, plan.kept[out]));
      && (out in plan.merged.dv <==> was != NEVER) && DeletedIn(plan.merged.dv, out) == was
      && (was == NEVER || was == now)
    ensures DeletedIn(Replayed(parts, plan), out) == NowDeleted(parts, plan.kept[out])
      <==> (NowDeleted(parts, plan.kept[out]) == plan.kept[out].version.deleted
            || plan.startedAt < NowDeleted(parts, plan.kept[out]))
  {
  }

  lemma {:induction false} MergedTombstones(newId: nat, ks: seq<Kept>, out: nat)
    requires out < |ks|
    ensures out in PartOf(newId, VersionsOf(ks)).dv <==> ks[out].version.deleted != NEVER
    ensures DeletedIn(PartOf(newId, VersionsOf(ks)).dv, out) == ks[out].version.deleted
  {
    assert VersionsOf(ks)[out] == ks[out].version;
  }

  /** The installed part shows each snapshot from the horizon up exactly what the
      kept rows show with the deletions their sources carry now. */
  lemma {:induction false} MergedShows(parts: seq<Part>, sources: seq<Part>, caps: seq<Dv>, newId: nat, horizon: Csn, startedAt: Csn, s: Csn)
    requires sources != [] && Readable(sources) && Here(parts, sources)
    requires Captured(parts, sources, caps, startedAt) && horizon <= s < NEVER
    ensures var plan := PlanMerge(sources, caps, newId, horizon, startedAt).value;
      PartRows(plan.merged.(dv := Replayed(parts, plan)), s) == SumOver(plan.kept, NowVis(parts, s))
  {
    hide Collect;
    hide Replayed;
    hide NowDeleted;
    hide CapturedOne;
    hide Here;
    hide SumOver;
    var plan := PlanMerge(sources, caps, newId, horizon, startedAt).value;
    var dv := Replayed(parts, plan);
    forall out: nat | out < |plan.kept| ensures DeletedIn(dv, out) == NowDeleted(parts, plan.kept[out]) {
      ReplayedDeletion(parts, sources, caps, newId, horizon, startedAt, out);
    }
    MergedVersions(parts, plan.kept, newId, horizon, dv, s);
    SumCongruent(plan.merged.(dv := dv).Versions(), Vis(s), plan.kept, NowVis(parts, s));
  }

  /** Row by row, a merged part with these deletions shows what its kept rows show. */
  lemma {:induction false} MergedVersions(parts: seq<Part>, kept: seq<Kept>, newId: nat, horizon: Csn, dv: Dv, s: Csn)
    requires horizon <= s < NEVER && forall out: nat :: out < |kept| ==> DeletedIn(dv, out) == NowDeleted(parts, kept[out])
    ensures var base := PartOf(newId, VersionsOf(kept));
      var vs := base.(stamps := MaybeCollapse(base.stamps, horizon), dv := dv).Versions();
      |vs| == |kept| && forall out :: 0 <= out < |kept| ==> Vis(s)(vs[out]) == NowVis(parts, s)(kept[out])
  {
    hide NowDeleted;
    var base := PartOf(newId, VersionsOf(kept));
    var p := base.(stamps := MaybeCollapse(base.stamps, horizon), dv := dv);
    var cs := CreatedOf(VersionsOf(kept));
    assert p.stamps == MaybeCollapse(PerRow(cs), horizon) && |cs| == |p.rows| == |kept|;
    forall out: nat | out < |kept| ensures Vis(s)(p.Versions()[out]) == NowVis(parts, s)(kept[out]) {
      CollapseInvisible(cs, horizon, out, s);
      assert p.rows[out] == kept[out].version.row && cs[out] == kept[out].version.created;
    }
  }

  // ---- swapping the part list ----------------------------------------------

  ghost predicate UniqueIds(parts: seq<Part>) {
    forall i, j :: 0 <= i < j < |parts| ==> parts[i].id != parts[j].id
  }

  lemma {:induction false} RetainMembers(parts: seq<Part>, ids: seq<nat>, p: Part)
    ensures p in Retain(parts, ids) <==> p in parts && p.id !in ids
  {
    if parts != [] {
      RetainMembers(parts[1..], ids, p);
    }
  }

  lemma {:induction false} RetainUnique(parts: seq<Part>, ids: seq<nat>)
    requires UniqueIds(parts)
    ensures UniqueIds(Retain(parts, ids))
  {
    if parts != [] {
      RetainUnique(parts[1..], ids);
      forall p | p in Retain(parts[1..], ids) ensures p.id != parts[0].id {
        RetainMembers(parts[1..], ids, p);
      }
    }
  }

  lemma {:induction false} NowMembers(parts: seq<Part>, sources: seq<Part>, p: Part)
    requires UniqueIds(parts) && Here(parts, sources)
    ensures p in NowOf(parts, sources) <==> p in parts && p.id in IdsOf(sources)
  {
    var gone := NowOf(parts, sources);
    if p in parts && p.id in IdsOf(sources) {
      var i :| 0 <= i < |sources| && IdsOf(sources)[i] == p.id;
      var k := IndexOf(parts, p);
      var j := Holds(parts, p.id).value;
      assert j == k;
      assert gone[i] == p;
    }
    if p in gone {
      var i :| 0 <= i < |gone| && gone[i] == p;
      assert IdsOf(sources)[i] == p.id;
    }
  }

  lemma {:induction false} UniqueDistinct(parts: seq<Part>)
    requires UniqueIds(parts)
    ensures Distinct(parts)
  {
  }

  /** The part list is the retained parts plus the sources, in some order. */
  lemma {:induction false} Partitioned(parts: seq<Part>, sources: seq<Part>)
    requires UniqueIds(parts) && UniqueIds(sources) && Here(parts, sources)
    ensures multiset(parts) == multiset(Retain(parts, IdsOf(sources))) + multiset(NowOf(parts, sources))
  {
    var kept, gone := Retain(parts, IdsOf(sources)), NowOf(parts, sources);
    RetainUnique(parts, IdsOf(sources));
    UniqueDistinct(parts);
    UniqueDistinct(kept);
    assert UniqueIds(gone) by {
      forall i, j | 0 <= i < j < |gone| ensures gone[i].id != gone[j].id {
        assert sources[i].id != sources[j].id;
      }
    }
    UniqueDistinct(gone);
    forall p: Part ensures multiset(parts)[p] == multiset(kept)[p] + multiset(gone)[p] {
      DistinctCount(parts, p);
      DistinctCount(kept, p);
      DistinctCount(gone, p);
      RetainMembers(parts, IdsOf(sources), p);
      NowMembers(parts, sources, p);
    }
  }

  ghost function IndexOf(parts: seq<Part>, p: Part): (i: nat)
    requires p in parts
    ensures i < |parts| && parts[i] == p
  {
    var i :| 0 <= i < |parts| && parts[i] == p; i
  }

  /** Installing a plan, or discarding a stale one, changes no row that any
      snapshot at or above the horizon sees. */
  lemma {:induction false} InstallInvisible(parts: seq<Part>, sources: seq<Part>, caps: seq<Dv>, newId: nat, horizon: Csn, startedAt: Csn, s: Csn)
    requires sources != [] && Readable(sources) && UniqueIds(parts) && UniqueIds(sources)
    requires Captured(parts, sources, caps, startedAt) && horizon <= s < NEVER
    ensures var plan := PlanMerge(sources, caps, newId, horizon, startedAt).value;
      SumOver(ApplyPlan(parts, plan), PartVis(s)) == SumOver(parts, PartVis(s))
  {
    var plan := PlanMerge(sources, caps, newId, horizon, startedAt).value;
    if AllPresent(parts, plan.sourceIds) {
      assert Here(parts, sources) by {
        forall i | 0 <= i < |sources| ensures Holds(parts, sources[i].id).Some? {
          assert plan.sourceIds[i] == sources[i].id;
        }
      }
      var kept := Retain(parts, plan.sourceIds);
      var p := plan.merged.(dv := Replayed(parts, plan));
      MergedShows(parts, sources, caps, newId, horizon, startedAt, s);
      SumPermuted(plan.kept, Collect(sources, caps, horizon), NowVis(parts, s));
      CollectShows(parts, sources, caps, horizon, startedAt, s);
      Partitioned(parts, sources);
      SumPermuted(parts, kept + NowOf(parts, sources), PartVis(s));
      SumAppend(kept, NowOf(parts, sources), PartVis(s));
      SumAppend(kept, [p], PartVis(s));
      SumSingle(p, PartVis(s));
    }
  }

  // ---- a tombstone that lands after its stamp is out of date ---------------

  /** The part list once a tombstone stamped `csn` lands on row `ord` of part `i`. */
  function Struck(parts: seq<Part>, i: nat, ord: nat, csn: Csn): seq<Part>
    requires i < |parts|
  {
    parts[i := parts[i].(dv := parts[i].dv[ord := csn])]
  }

  /** Installing the plan forgets that tombstone: its part was merged away, and
      replay only carries stamps later than the merge's start. */
  ghost predicate Forgotten(parts: seq<Part>, plan: Plan, i: nat, csn: Csn)
    requires i < |parts|
  {
    AllPresent(parts, plan.sourceIds) && parts[i].id in plan.sourceIds && csn <= plan.startedAt
  }

  lemma {:induction false} StruckHolds(parts: seq<Part>, i: nat, ord: nat, csn: Csn, id: nat)
    requires i < |parts| && UniqueIds(parts)
    ensures Holds(Struck(parts, i, ord, csn), id) == Holds(parts, id)
    ensures Holds(parts, parts[i].id) == Some(i)
  {
    var after := Struck(parts, i, ord, csn);
    assert forall j :: 0 <= j < |parts| ==> after[j].id == parts[j].id;
  }

  lemma {:induction false} StruckRetained(parts: seq<Part>, i: nat, ord: nat, csn: Csn, ids: seq<nat>)
    requires i < |parts| && parts[i].id in ids
    ensures Retain(Struck(parts, i, ord, csn), ids) == Retain(parts, ids)
  {
    if i > 0 {
      StruckRetained(parts[1..], i - 1, ord, csn, ids);
      assert Struck(parts, i, ord, csn)[1..] == Struck(parts[1..], i - 1, ord, csn);
    } else {
      assert Struck(parts, i, ord, csn)[1..] == parts[1..];
    }
  }

  lemma {:induction false} StruckRows(parts: seq<Part>, i: nat, ord: nat, csn: Csn, s: Csn)
    requires i < |parts| && parts[i].stamps.Covers(|parts[i].rows|) && ord < |parts[i].rows| && ord !in parts[i].dv
    requires parts[i].stamps.At(ord) <= csn && s < NEVER
    ensures SumOver(Struck(parts, i, ord, csn), PartVis(s)) + Gone(parts[i].rows[ord], csn, s) == SumOver(parts, PartVis(s))
  {
    var p := parts[i];
    TombstonePart(p, ord, csn, s);
    SumShrink(parts, i, p.(dv := p.dv[ord := csn]), PartVis(s), Gone(p.rows[ord], csn, s));
  }

  /** A late tombstone is as good as any if its stamp is after the merge's start or
      its part is not being merged. */
  lemma {:induction false} StruckCaptured(parts: seq<Part>, sources: seq<Part>, caps: seq<Dv>, startedAt: Csn, i: nat, ord: nat, csn: Csn)
    requires UniqueIds(parts) && Captured(parts, sources, caps, startedAt)
    requires i < |parts| && ord !in parts[i].dv && csn < NEVER
    requires startedAt < csn || parts[i].id !in IdsOf(sources)
    ensures Captured(Struck(parts, i, ord, csn), sources, caps, startedAt)
  {
    var after := Struck(parts, i, ord, csn);
    forall k | 0 <= k < |sources| ensures CapturedOne(after, sources[k], caps[k], startedAt) {
      StruckHolds(parts, i, ord, csn, sources[k].id);
      assert CapturedOne(parts, sources[k], caps[k], startedAt);
      assert IdsOf(sources)[k] == sources[k].id;
    }
  }

  /** A forgotten tombstone leaves the plan's outcome as if it had never landed. */
  lemma {:induction false} ForgottenSame(parts: seq<Part>, plan: Plan, i: nat, ord: nat, csn: Csn)
    requires i < |parts| && UniqueIds(parts) && ord !in parts[i].dv && Forgotten(parts, plan, i, csn)
    ensures ApplyPlan(Struck(parts, i, ord, csn), plan) == ApplyPlan(parts, plan)
  {
    var after := Struck(parts, i, ord, csn);
    hide Holds;
    forall id ensures Holds(after, id) == Holds(parts, id) { StruckHolds(parts, i, ord, csn, id); }
    StruckRetained(parts, i, ord, csn, plan.sourceIds);
    StruckHolds(parts, i, ord, csn, parts[i].id);
    forall out | 0 <= out < |plan.kept|
      ensures plan.startedAt < NowDeleted(after, plan.kept[out]) != NEVER <==> plan.startedAt < NowDeleted(parts, plan.kept[out]) != NEVER
      ensures plan.startedAt < NowDeleted(after, plan.kept[out]) != NEVER ==> NowDeleted(after, plan.kept[out]) == NowDeleted(parts, plan.kept[out])
    {
      var k := plan.kept[out];
      var j := Holds(parts, k.src);
      if j == Some(i) && k.ord == ord { assert NowDeleted(after, k) == csn && NowDeleted(parts, k) == NEVER; }
    }
    hide NowDeleted;
    assert Replayed(after, plan) == Replayed(parts, plan);
  }

  /** A writer that took its stamp but had not placed its tombstone when the source
      was captured: each snapshot from the horizon up gets the deleted row back from
      the install if and only if the tombstone is forgotten (and the snapshot is at
      or above its stamp); otherwise the install stays invisible. */
  lemma {:induction false} LateTombstone(parts: seq<Part>, sources: seq<Part>, caps: seq<Dv>, newId: nat, horizon: Csn, startedAt: Csn,
                                         i: nat, ord: nat, csn: Csn, s: Csn)
    requires sources != [] && Readable(sources) && UniqueIds(parts) && UniqueIds(sources)
    requires Captured(parts, sources, caps, startedAt) && horizon <= s < NEVER
    requires i < |parts| && parts[i].stamps.Covers(|parts[i].rows|) && ord < |parts[i].rows| && ord !in parts[i].dv
    requires parts[i].stamps.At(ord) <= csn < NEVER
    ensures var (plan, after) := (PlanMerge(sources, caps, newId, horizon, startedAt).value, Struck(parts, i, ord, csn));
      SumOver(ApplyPlan(after, plan), PartVis(s)) ==
        SumOver(after, PartVis(s)) + (if Forgotten(parts, plan, i, csn) then Gone(parts[i].rows[ord], csn, s) else multiset{})
  {
    var (plan, after) := (PlanMerge(sources, caps, newId, horizon, startedAt).value, Struck(parts, i, ord, csn));
    hide Captured;
    hide PlanMerge;
    hide Retain;
    hide Replayed;
    hide Holds;
    PlanIds(sources, caps, newId, horizon, startedAt);
    forall id ensures Holds(after, id) == Holds(parts, id) { StruckHolds(parts, i, ord, csn, id); }
    if Forgotten(parts, plan, i, csn) {
      ForgottenSame(parts, plan, i, ord, csn);
      InstallInvisible(parts, sources, caps, newId, horizon, startedAt, s);
      StruckRows(parts, i, ord, csn, s);
    } else if AllPresent(parts, plan.sourceIds) {
      StruckCaptured(parts, sources, caps, startedAt, i, ord, csn);
      assert UniqueIds(after);
      InstallInvisible(after, sources, caps, newId, horizon, startedAt, s);
    }
  }

  lemma {:induction false} PlanIds(sources: seq<Part>, caps: seq<Dv>, newId: nat, horizon: Csn, startedAt: Csn)
    requires sources != [] && |sources| == |caps| && Readable(sources)
    ensures var plan := PlanMerge(sources, caps, newId, horizon, startedAt);
      plan.Some? && plan.value.sourceIds == IdsOf(sources) && plan.value.startedAt == startedAt
  {
  }

  /** One row, deleted at 2 by a writer whose tombstone lands after a merge started
      at 2 has captured the part: the install brings the row back. */
  lemma {:induction false} LostDelete(row: Row)
    ensures var part := Part(0, [row], Uniform(1), 1, 1, map[]);
      var plan := PlanMerge([part], [map[]], 1, 1, 2).value;
      && SumOver(Struck([part], 0, 0, 2), PartVis(2)) == multiset{}
      && SumOver(ApplyPlan(Struck([part], 0, 0, 2), plan), PartVis(2)) == multiset{row}
  {
    var part := Part(0, [row], Uniform(1), 1, 1, map[]);
    var parts := [part];
    assert CapturedOne(parts, part, map[], 2);
    LateTombstone(parts, parts, [map[]], 1, 1, 2, 0, 0, 2, 2);
    PlanIds(parts, [map[]], 1, 1, 2);
    assert IdsOf(parts) == [0];
    var gone := part.(dv := map[0 := 2]);
    assert Struck(parts, 0, 0, 2) == [gone];
    SumSingle(gone, PartVis(2));
    assert gone.Versions() == [Version(row, 1, 2)];
    SumSingle(Version(row, 1, 2), Vis(2));
  }

  /** The installed part is well formed, and every stamp in it is one of its sources'. */
  lemma {:induction false} MergedOk(parts: seq<Part>, sources: seq<Part>, caps: seq<Dv>, newId: nat, horizon: Csn, startedAt: Csn, cur: Csn)
    requires sources != [] && Readable(sources) && Here(parts, sources)
    requires Captured(parts, sources, caps, startedAt)
    requires forall i :: 0 <= i < |parts| ==> PartOk(parts[i], cur)
    ensures var plan := PlanMerge(sources, caps, newId, horizon, startedAt).value;
      PartOk(plan.merged.(dv := Replayed(parts, plan)), cur)
  {
    var plan := PlanMerge(sources, caps, newId, horizon, startedAt).value;
    var vs := VersionsOf(plan.kept);
    var base := PartOf(newId, vs);
    PlanSorted(Collect(sources, caps, horizon));
    PartOfOk(newId, vs);
    CollapsedOk(base, horizon);
    var p := plan.merged.(dv := Replayed(parts, plan));
    var cs := CreatedOf(vs);
    assert p.stamps == MaybeCollapse(PerRow(cs), horizon) && |cs| == |p.rows| == |plan.kept|;
    forall out | 0 <= out < |p.rows| ensures StampOk(p.VersionAt(out), cur) && (out in p.dv ==> p.dv[out] != NEVER) {
      KeptStampOk(parts, sources, caps, horizon, startedAt, plan.kept, out, cur);
      ReplayedDeletion(parts, sources, caps, newId, horizon, startedAt, out);
      CollapsedStamp(parts, sources, caps, horizon, startedAt, plan.kept, out, cur);
      MergedTombstones(newId, plan.kept, out);
    }
  }

  /** A kept row's source version carries only stamps up to `cur`. */
  lemma {:induction false} KeptStampOk(parts: seq<Part>, sources: seq<Part>, caps: seq<Dv>, horizon: Csn, startedAt: Csn, ks: seq<Kept>, out: nat, cur: Csn)
    requires Readable(sources) && Here(parts, sources) && Captured(parts, sources, caps, startedAt)
    requires forall i :: 0 <= i < |parts| ==> PartOk(parts[i], cur)
    requires multiset(ks) == multiset(Collect(sources, caps, horizon)) && out < |ks|
    ensures ks[out].version.created <= cur
    ensures 0 < NowDeleted(parts, ks[out]) <= cur || NowDeleted(parts, ks[out]) == NEVER
  {
    var k := ks[out];
    assert k in Collect(sources, caps, horizon) by { assert k in multiset(ks); }
    CollectFacts(parts, sources, caps, horizon, startedAt, k);
    var i :| 0 <= i < |sources| && k.src == sources[i].id && k.ord < |sources[i].rows|
      && k.version.row == sources[i].rows[k.ord] && k.version.created == sources[i].stamps.At(k.ord);
    assert CapturedOne(parts, sources[i], caps[i], startedAt);
    var now := parts[Holds(parts, k.src).value];
    assert PartOk(now, cur);
    assert StampOk(now.VersionAt(k.ord), cur);
  }

  lemma {:induction false} CollapsedStamp(parts: seq<Part>, sources: seq<Part>, caps: seq<Dv>, horizon: Csn, startedAt: Csn, ks: seq<Kept>, out: nat, cur: Csn)
    requires Readable(sources) && Here(parts, sources) && Captured(parts, sources, caps, startedAt)
    requires forall i :: 0 <= i < |parts| ==> PartOk(parts[i], cur)
    requires multiset(ks) == multiset(Collect(sources, caps, horizon)) && out < |ks|
    ensures var st := MaybeCollapse(PerRow(CreatedOf(VersionsOf(ks))), horizon);
      st.Covers(|ks|) && st.At(out) <= cur
  {
    var cs := CreatedOf(VersionsOf(ks));
    CollapseInvisible(cs, horizon, out, horizon);
    var i :| 0 <= i < |cs| && cs[i] == MaxOf(cs);
    KeptStampOk(parts, sources, caps, horizon, startedAt, ks, i, cur);
  }
}
