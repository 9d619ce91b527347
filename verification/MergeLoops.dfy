/** The merge as the loops that run it: collecting rows, the ordinal mapping, and
    the tombstone replay through it (src/compaction.rs:107-218). */
module MergeLoops {
  import opened Bags
  import opened Sorting
  import opened Values
  import opened Wrappers
  import opened Mvcc
  import opened Compaction
  import opened L0Buffers

  // ---- collecting ----------------------------------------------------------

  method CollectPart(p: Part, cap: Dv, horizon: Csn) returns (ks: seq<Kept>)
    requires p.stamps.Covers(|p.rows|)
    ensures ks == KeptFrom(p, cap, horizon)
  {
    hide KeptFrom;
    ks := [];
    for ord := 0 to |p.rows|
      invariant ks + KeptFrom(p, cap, horizon, ord) == KeptFrom(p, cap, horizon)
    {
      KeptNext(p, cap, horizon, ord);
      var d := DeletedIn(cap, ord);
      if d > horizon {
        var k := Kept(Version(p.rows[ord], p.stamps.At(ord), d), p.id, ord);
        assert ks + ([k] + KeptFrom(p, cap, horizon, ord + 1)) == (ks + [k]) + KeptFrom(p, cap, horizon, ord + 1);
        ks := ks + [k];
      }
    }
    KeptNone(p, cap, horizon);
    assert ks + [] == ks;
  }

  lemma {:induction false} KeptNext(p: Part, cap: Dv, horizon: Csn, ord: nat)
    requires p.stamps.Covers(|p.rows|) && ord < |p.rows|
    ensures KeptFrom(p, cap, horizon, ord) ==
      if DeletedIn(cap, ord) <= horizon then KeptFrom(p, cap, horizon, ord + 1)
      else [Kept(Version(p.rows[ord], p.stamps.At(ord), DeletedIn(cap, ord)), p.id, ord)] + KeptFrom(p, cap, horizon, ord + 1)
  {
  }

  lemma {:induction false} KeptNone(p: Part, cap: Dv, horizon: Csn)
    requires p.stamps.Covers(|p.rows|)
    ensures KeptFrom(p, cap, horizon, |p.rows|) == []
  {
  }

  method CollectAll(sources: seq<Part>, caps: seq<Dv>, horizon: Csn) returns (ks: seq<Kept>)
    requires |sources| == |caps| && Readable(sources)
    ensures ks == Collect(sources, caps, horizon)
  {
    ks := [];
    assert sources[0..] == sources && caps[0..] == caps;
    for i := 0 to |sources|
      invariant ks + Collect(sources[i..], caps[i..], horizon) == Collect(sources, caps, horizon)
    {
      var more := CollectPart(sources[i], caps[i], horizon);
      assert sources[i..][1..] == sources[i+1..] && caps[i..][1..] == caps[i+1..];
      assert ks + (more + Collect(sources[i+1..], caps[i+1..], horizon)) == (ks + more) + Collect(sources[i+1..], caps[i+1..], horizon);
      ks := ks + more;
    }
    assert ks + [] == ks;
  }

  // ---- the mapping ---------------------------------------------------------

  function Place(k: Kept): (nat, nat) { (k.src, k.ord) }

  /** No source row is kept twice. */
  ghost predicate OncePerPlace(ks: seq<Kept>) { forall i, j :: 0 <= i < j < |ks| ==> Place(ks[i]) != Place(ks[j]) }

  /** `mapping` sends each kept row's place to its position in the output. */
  ghost predicate MapsTo(mapping: map<(nat, nat), nat>, ks: seq<Kept>) {
    && (forall out :: 0 <= out < |ks| ==> Place(ks[out]) in mapping && mapping[Place(ks[out])] == out)
    && (forall p :: p in mapping ==> mapping[p] < |ks| && Place(ks[mapping[p]]) == p)
  }

  method BuildMapping(ks: seq<Kept>) returns (mapping: map<(nat, nat), nat>)
    requires OncePerPlace(ks)
    ensures MapsTo(mapping, ks)
  {
    mapping := map[];
    for out := 0 to |ks|
      invariant MapsTo(mapping, ks[..out])
    {
      mapping := mapping[Place(ks[out]) := out];
    }
    assert ks[..|ks|] == ks;
  }

  /** The same in terms that do not depend on order. */
  ghost predicate OnceEach(bag: multiset<Kept>) {
    (forall k :: bag[k] <= 1) && forall a, b :: a in bag && b in bag && Place(a) == Place(b) ==> a == b
  }

  lemma {:induction false} OnceFromBag(ks: seq<Kept>)
    requires OnceEach(multiset(ks))
    ensures OncePerPlace(ks)
  {
    forall i, j | 0 <= i < j < |ks| ensures Place(ks[i]) != Place(ks[j]) {
      assert ks[i] in multiset(ks) && ks[j] in multiset(ks);
      BagWithout(ks, i);
      var rest := ks[..i] + ks[i+1..];
      assert rest[j-1] == ks[j] && ks[j] in multiset(rest);
    }
  }

  lemma {:induction false} KeptFromOnce(p: Part, cap: Dv, horizon: Csn, ord: nat)
    requires p.stamps.Covers(|p.rows|) && ord <= |p.rows|
    ensures OnceEach(multiset(KeptFrom(p, cap, horizon, ord)))
    ensures forall k :: k in KeptFrom(p, cap, horizon, ord) ==> k.src == p.id && ord <= k.ord
    decreases |p.rows| - ord
  {
    if ord < |p.rows| {
      KeptFromOnce(p, cap, horizon, ord + 1);
      var rest := KeptFrom(p, cap, horizon, ord + 1);
      var d := DeletedIn(cap, ord);
      var k := Kept(Version(p.rows[ord], p.stamps.At(ord), d), p.id, ord);
      assert KeptFrom(p, cap, horizon, ord) == if d <= horizon then rest else [k] + rest by {
        assert [] + rest == rest;
      }
      hide KeptFrom;
      JoinApart([k], rest);
    }
  }

  lemma {:induction false} JoinApart(a: seq<Kept>, b: seq<Kept>)
    requires |a| == 1 && OnceEach(multiset(b)) && forall k :: k in b ==> Place(k) != Place(a[0])
    ensures OnceEach(multiset(a + b))
  {
    assert a == [a[0]];
    assert multiset(a + b) == multiset{a[0]} + multiset(b);
    assert a[0] !in multiset(b);
  }

  lemma {:induction false} CollectOnce(sources: seq<Part>, caps: seq<Dv>, horizon: Csn)
    requires |sources| == |caps| && Readable(sources) && UniqueIds(sources)
    ensures OnceEach(multiset(Collect(sources, caps, horizon)))
    ensures forall k :: k in Collect(sources, caps, horizon) ==> k.src in IdsOf(sources)
  {
    if sources != [] {
      CollectOnce(sources[1..], caps[1..], horizon);
      KeptFromOnce(sources[0], caps[0], horizon, 0);
      var (a, b) := (KeptFrom(sources[0], caps[0], horizon), Collect(sources[1..], caps[1..], horizon));
      assert IdsOf(sources) == [sources[0].id] + IdsOf(sources[1..]);
      assert sources[0].id !in IdsOf(sources[1..]);
      JoinOnce(a, b, sources[0].id);
    }
  }

  lemma {:induction false} JoinOnce(a: seq<Kept>, b: seq<Kept>, id: nat)
    requires OnceEach(multiset(a)) && OnceEach(multiset(b))
    requires (forall k :: k in a ==> k.src == id) && (forall k :: k in b ==> k.src != id)
    ensures OnceEach(multiset(a + b))
  {
    assert multiset(a + b) == multiset(a) + multiset(b);
    forall k ensures multiset(a + b)[k] <= 1 {
      assert k in multiset(a) ==> k in a;
      assert k in multiset(b) ==> k in b;
    }
  }

  /** Phase one: the plan, and the mapping that goes with it. */
  method BuildPlan(sources: seq<Part>, caps: seq<Dv>, newId: nat, horizon: Csn, startedAt: Csn)
      returns (plan: Option<Plan>, mapping: map<(nat, nat), nat>)
    requires |sources| == |caps| && Readable(sources) && UniqueIds(sources)
    ensures plan == PlanMerge(sources, caps, newId, horizon, startedAt)
    ensures plan.Some? ==> MapsTo(mapping, plan.value.kept) && forall k :: k in plan.value.kept ==> k.src in plan.value.sourceIds
  {
    hide Collect;
    if sources == [] { return None, map[]; }
    var rows := CollectAll(sources, caps, horizon);
    CollectOnce(sources, caps, horizon);
    var kept := SortBy(rows, KeptLe);
    OnceFromBag(kept);
    mapping := BuildMapping(kept);
    forall k | k in kept ensures k in rows { assert k in multiset(kept); }
    var base := Unzip(newId, VersionsOf(kept));
    plan := Some(Plan(IdsOf(sources), kept, base.(stamps := MaybeCollapse(base.stamps, horizon)), startedAt));
  }

  // ---- replay --------------------------------------------------------------

  /** The merged part's tombstones once the places in `done` have been replayed. */
  ghost function ReplayedAt(parts: seq<Part>, plan: Plan, done: set<(nat, nat)>): Dv {
    map out | 0 <= out < |plan.kept| && (out in plan.merged.dv ||
                                         (Place(plan.kept[out]) in done && plan.startedAt < NowDeleted(parts, plan.kept[out]) != NEVER))
      :: if out in plan.merged.dv then plan.merged.dv[out] else NowDeleted(parts, plan.kept[out])
  }

  /** Everything the plan's merged part says about itself. */
  ghost predicate PlanShape(plan: Plan) { forall o :: o in plan.merged.dv ==> o < |plan.kept| }

  ghost predicate RealStamps(parts: seq<Part>) { forall i, o :: 0 <= i < |parts| && o in parts[i].dv ==> parts[i].dv[o] != NEVER }

  lemma {:induction false} ReplayNext(parts: seq<Part>, plan: Plan, mapping: map<(nat, nat), nat>, done: set<(nat, nat)>, i: nat, o: nat)
    requires MapsTo(mapping, plan.kept) && i < |parts| && Holds(parts, parts[i].id) == Some(i) && RealStamps(parts)
    requires o in parts[i].dv && plan.startedAt < parts[i].dv[o]
    ensures var p := (parts[i].id, o);
      ReplayedAt(parts, plan, done + {p})
      == if p in mapping then MarkDeleted(ReplayedAt(parts, plan, done), mapping[p], parts[i].dv[o]) else ReplayedAt(parts, plan, done)
  {
    hide Holds;
    var p := (parts[i].id, o);
    assert parts[i].dv[o] != NEVER;
    forall out | 0 <= out < |plan.kept| && Place(plan.kept[out]) == p
      ensures p in mapping && mapping[p] == out && NowDeleted(parts, plan.kept[out]) == parts[i].dv[o]
    {
    }
    hide MapsTo;
    hide NowDeleted;
    hide RealStamps;
    var (a, b) := (ReplayedAt(parts, plan, done + {p}), ReplayedAt(parts, plan, done));
    if p !in mapping {
      assert a == b;
    }
  }

  /** Replay one source's late tombstones through the mapping. */
  method ReplaySource(parts: seq<Part>, plan: Plan, mapping: map<(nat, nat), nat>, dv0: Dv, i: nat, ghost done0: set<(nat, nat)>)
      returns (dv: Dv, ghost done: set<(nat, nat)>)
    requires MapsTo(mapping, plan.kept) && i < |parts| && Holds(parts, parts[i].id) == Some(i) && RealStamps(parts)
    requires dv0 == ReplayedAt(parts, plan, done0)
    ensures dv == ReplayedAt(parts, plan, done) && done0 <= done
    ensures forall o :: o in parts[i].dv && plan.startedAt < parts[i].dv[o] ==> (parts[i].id, o) in done
  {
    hide ReplayedAt;
    hide MapsTo;
    hide Holds;
    var left := parts[i].dv.Keys;
    dv, done := dv0, done0;
    while left != {}
      invariant left <= parts[i].dv.Keys && dv == ReplayedAt(parts, plan, done) && done0 <= done
      invariant forall o :: o in parts[i].dv && o !in left && plan.startedAt < parts[i].dv[o] ==> (parts[i].id, o) in done
      decreases left
    {
      var o :| o in left;
      if parts[i].dv[o] > plan.startedAt {
        ReplayNext(parts, plan, mapping, done, i, o);
        var p := (parts[i].id, o);
        if p in mapping { dv := MarkDeleted(dv, mapping[p], parts[i].dv[o]); }
        done := done + {p};
      }
      left := left - {o};
    }
  }

  /** Every late tombstone of part `id` has been replayed. */
  ghost predicate LateDone(parts: seq<Part>, plan: Plan, done: set<(nat, nat)>, id: nat) {
    Holds(parts, id).Some? ==>
      forall o :: o in parts[Holds(parts, id).value].dv && plan.startedAt < parts[Holds(parts, id).value].dv[o] ==> (id, o) in done
  }

  lemma {:induction false} ReplayStarts(parts: seq<Part>, plan: Plan)
    requires PlanShape(plan)
    ensures ReplayedAt(parts, plan, {}) == plan.merged.dv
  {
  }

  lemma {:induction false} ReplayEnds(parts: seq<Part>, plan: Plan, done: set<(nat, nat)>)
    requires forall k :: k in plan.kept ==> k.src in plan.sourceIds
    requires forall id :: id in plan.sourceIds ==> LateDone(parts, plan, done, id)
    ensures ReplayedAt(parts, plan, done) == Replayed(parts, plan)
  {
    forall out | 0 <= out < |plan.kept| && plan.startedAt < NowDeleted(parts, plan.kept[out]) != NEVER
      ensures Place(plan.kept[out]) in done
    {
      var k := plan.kept[out];
      assert k in plan.kept;
      assert LateDone(parts, plan, done, k.src);
    }
  }

  method ReplayAll(parts: seq<Part>, plan: Plan, mapping: map<(nat, nat), nat>) returns (dv: Dv)
    requires MapsTo(mapping, plan.kept) && PlanShape(plan) && RealStamps(parts) && UniqueIds(parts)
    requires (forall k :: k in plan.kept ==> k.src in plan.sourceIds) && AllPresent(parts, plan.sourceIds)
    ensures dv == Replayed(parts, plan)
  {
    hide ReplayedAt;
    hide Replayed;
    hide MapsTo;
    ghost var done: set<(nat, nat)> := {};
    dv := plan.merged.dv;
    ReplayStarts(parts, plan);
    for n := 0 to |plan.sourceIds|
      invariant dv == ReplayedAt(parts, plan, done)
      invariant forall m :: 0 <= m < n ==> LateDone(parts, plan, done, plan.sourceIds[m])
    {
      var i := Holds(parts, plan.sourceIds[n]).value;
      dv, done := ReplaySource(parts, plan, mapping, dv, i, done);
    }
    ReplayEnds(parts, plan, done);
  }

  /** Phase two: check the sources are all there, replay, swap. */
  method InstallPlan(parts: seq<Part>, plan: Plan, mapping: map<(nat, nat), nat>) returns (parts': seq<Part>, replaced: nat)
    requires MapsTo(mapping, plan.kept) && PlanShape(plan) && RealStamps(parts) && UniqueIds(parts)
    requires forall k :: k in plan.kept ==> k.src in plan.sourceIds
    ensures parts' == ApplyPlan(parts, plan)
    ensures replaced == if AllPresent(parts, plan.sourceIds) then |plan.sourceIds| else 0
  {
    hide Replayed;
    hide MapsTo;
    for n := 0 to |plan.sourceIds|
      invariant forall m :: 0 <= m < n ==> Holds(parts, plan.sourceIds[m]).Some?
    {
      if Holds(parts, plan.sourceIds[n]).None? { return parts, 0; }
    }
    var dv := ReplayAll(parts, plan, mapping);
    var kept := RetainOthers(parts, plan.sourceIds);
    parts' := kept + [plan.merged.(dv := dv)];
    replaced := |plan.sourceIds|;
  }

  method RetainOthers(parts: seq<Part>, ids: seq<nat>) returns (kept: seq<Part>)
    ensures kept == Retain(parts, ids)
  {
    kept := [];
    assert parts[0..] == parts;
    for i := 0 to |parts|
      invariant kept + Retain(parts[i..], ids) == Retain(parts, ids)
    {
      assert parts[i..][1..] == parts[i+1..];
      if parts[i].id !in ids {
        assert kept + ([parts[i]] + Retain(parts[i+1..], ids)) == (kept + [parts[i]]) + Retain(parts[i+1..], ids);
        kept := kept + [parts[i]];
      } else {
        assert Retain(parts[i..], ids) == [] + Retain(parts[i+1..], ids) == Retain(parts[i+1..], ids);
      }
    }
    assert kept + [] == kept;
  }
}
