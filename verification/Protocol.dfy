/** Everything that can happen to one table, interleaved in any order: atomic
    writes, seals, pins, and merges that take many steps of their own
    (src/table.rs:164-475, src/csn.rs:82-109, src/storage.rs:675-678). */
module Protocol {
  import opened Bags
  import opened Values
  import opened Wrappers
  import opened Mvcc
  import opened Compaction

  // ---- write calls ---------------------------------------------------------

  datatype Call = Insert(row: Row) | Upsert(row: Row) | Update(row: Row) | Delete(key: Value) {
    function Key(): Value { if Delete? then key else row.key }
    function AsOp(csn: Csn): Op { if Delete? then Del(key, csn) else Put(row, csn) }
  }

  datatype Outcome = Done(csn: Csn) | DuplicateKey | KeyNotFound | WriteConflict

  /** Table, clock and answer after one write call under the table lock. */
  function Execute(t: Table, cur: Csn, call: Call, threshold: nat): (Table, Csn, Outcome)
    requires Readable(t.parts)
  {
    var loc := Locate(t, call.Key(), cur);
    if call.Insert? && loc.Some? then (t, cur, DuplicateKey)
    else if (call.Update? || call.Delete?) && loc.None? then (t, cur, KeyNotFound)
    else if loc.Some? && VersionIn(t, loc.value).deleted != NEVER then (t, cur + 1, WriteConflict)
    else
      var t' := Write(t, call.AsOp(cur + 1), cur);
      (if call.Delete? then t' else MaybeSeal(t', threshold), cur + 1, Done(cur + 1))
  }

  /** A call succeeds or fails as the history's current state says it must, and
      never with a write conflict. */
  lemma {:induction false} ExecuteOutcome(t: Table, h: seq<Op>, floor: Csn, cur: Csn, call: Call, threshold: nat)
    requires Inv(t, h, floor, cur) && Readable(t.parts)
    ensures Execute(t, cur, call, threshold).2 ==
      if call.Insert? && call.Key() in At(h, cur) then DuplicateKey
      else if (call.Update? || call.Delete?) && call.Key() !in At(h, cur) then KeyNotFound
      else Done(cur + 1)
    ensures !Execute(t, cur, call, threshold).2.Done? ==> Execute(t, cur, call, threshold).0 == t && Execute(t, cur, call, threshold).1 == cur
  {
    assert Agrees(t, h, cur);
    LocateAgrees(t, h, call.Key(), cur);
    LocatedIsLive(t, call.Key(), cur);
  }

  lemma {:induction false} LocatedAlive(t: Table, h: seq<Op>, floor: Csn, cur: Csn, key: Value)
    requires Inv(t, h, floor, cur) && Readable(t.parts)
    ensures Locate(t, key, cur).Some? ==> VersionIn(t, Locate(t, key, cur).value).deleted == NEVER
  {
    LocatedIsLive(t, key, cur);
  }

  lemma {:induction false} ExecuteKeepsInv(t: Table, h: seq<Op>, floor: Csn, cur: Csn, call: Call, threshold: nat)
    requires Inv(t, h, floor, cur) && Readable(t.parts) && cur + 1 < NEVER
    ensures var (t', cur', out) := Execute(t, cur, call, threshold);
      Inv(t', if out.Done? then h + [call.AsOp(out.csn)] else h, floor, cur')
  {
    hide Inv;
    hide Write;
    hide Seal;
    hide At;
    ExecuteOutcome(t, h, floor, cur, call, threshold);
    var op := call.AsOp(cur + 1);
    LocatedAlive(t, h, floor, cur, call.Key());
    WriteKeepsInv(t, h, floor, cur, op);
    SealKeepsInv(Write(t, op, cur), h + [op], floor, cur + 1);
  }

  // ---- the step system -----------------------------------------------------

  datatype Stage =
    | Asked
    | Selected
    | Reserved(newId: nat)
    | Running(newId: nat, startedAt: Csn, caps: seq<Dv>)

  /** One compaction call in flight: its horizon, the parts it was handed, how far it is. */
  datatype Merge = Merge(horizon: Csn, sources: seq<Part>, stage: Stage) {
    predicate HasId() { stage.Reserved? || stage.Running? }
    predicate Ready() { stage.Running? && |stage.caps| == |sources| && sources != [] }
    function Plan(): Plan
      requires Ready() && Readable(sources)
    {
      PlanMerge(sources, stage.caps, stage.newId, horizon, stage.startedAt).value
    }
  }

  /** `floor` is the largest horizon an installed merge used, `handed` the largest
      ever handed out; `pins` counts live pinned snapshots per CSN. */
  datatype State = State(t: Table, cur: Csn, h: seq<Op>, floor: Csn, handed: Csn,
                         pins: map<Csn, nat>, merges: map<nat, Merge>)

  const START: State := State(EMPTY, 0, [], 0, 0, map[], map[])

  datatype Step =
    | Call(call: Call, threshold: nat)
    | SealNow
    | OtherTable
    | Pin
    | Release(csn: Csn)
    | AskHorizon(mid: nat)
    | Select(mid: nat, chosen: seq<nat>)
    | ReserveId(mid: nat)
    | StampStart(mid: nat)
    | Capture(mid: nat, retired: Dv)
    | Install(mid: nat)

  ghost predicate IsOldest(pins: map<Csn, nat>, c: Csn) {
    c in pins && forall d :: d in pins ==> c <= d
  }

  /** The oldest live pin, or the clock when nothing is pinned (src/csn.rs:106-109). */
  ghost function GcHorizon(pins: map<Csn, nat>, cur: Csn): (g: Csn)
    ensures forall c :: c in pins ==> g <= c
    ensures pins == map[] ==> g == cur
    ensures pins != map[] ==> g in pins
  {
    if pins == map[] then cur
    else
      OldestExists(pins);
      var c :| IsOldest(pins, c);
      c
  }

  lemma {:induction false} OldestExists(pins: map<Csn, nat>)
    requires pins != map[]
    ensures exists c :: IsOldest(pins, c)
    decreases |pins|
  {
    var c :| c in pins;
    if !IsOldest(pins, c) {
      var d :| d in pins && d < c;
      var rest := pins - {c};
      assert d in rest;
      OldestExists(rest);
      var m :| IsOldest(rest, m);
      forall e | e in pins ensures m <= e { assert e == c || e in rest; }
      assert IsOldest(pins, m);
    }
  }

  ghost predicate Enabled(s: State, step: Step) {
    match step
    case Call(_, _) => s.cur + 1 < NEVER
    case SealNow => true
    case OtherTable => s.cur + 1 < NEVER
    case Pin => true
    case Release(c) => c in s.pins
    case AskHorizon(m) => m !in s.merges
    case Select(m, chosen) => m in s.merges && s.merges[m].stage.Asked?
      && Distinct(chosen) && forall i :: 0 <= i < |chosen| ==> chosen[i] < |s.t.parts|
    case ReserveId(m) => m in s.merges && s.merges[m].stage.Selected? && s.merges[m].sources != []
    case StampStart(m) => m in s.merges && s.merges[m].stage.Reserved?
    case Capture(m, _) => m in s.merges && s.merges[m].stage.Running? && |s.merges[m].stage.caps| < |s.merges[m].sources|
    case Install(m) => m in s.merges && s.merges[m].Ready() && Readable(s.merges[m].sources)
  }

  /** A retired source (dropped by another merge) yields some vector no one reads. */
  function CaptureOf(parts: seq<Part>, src: Part, retired: Dv): Dv {
    var i := Holds(parts, src.id);
    if i.Some? then parts[i.value].dv else retired
  }

  ghost function After(s: State, step: Step): State
    requires Enabled(s, step) && Readable(s.t.parts)
  {
    match step
    case Call(call, threshold) =>
      var (t', cur', out) := Execute(s.t, s.cur, call, threshold);
      s.(t := t', cur := cur', h := if out.Done? then s.h + [call.AsOp(out.csn)] else s.h)
    case SealNow => s.(t := Seal(s.t))
    case OtherTable => s.(cur := s.cur + 1)
    case Pin => s.(pins := s.pins[s.cur := if s.cur in s.pins then s.pins[s.cur] + 1 else 1])
    case Release(c) => s.(pins := if s.pins[c] <= 1 then s.pins - {c} else s.pins[c := s.pins[c] - 1])
    case AskHorizon(m) =>
      var g := GcHorizon(s.pins, s.cur);
      s.(handed := if g > s.handed then g else s.handed, merges := s.merges[m := Merge(g, [], Asked)])
    case Select(m, chosen) =>
      s.(merges := s.merges[m := Merge(s.merges[m].horizon,
        seq(|chosen|, i requires 0 <= i < |chosen| => s.t.parts[chosen[i]]), Selected)])
    case ReserveId(m) =>
      s.(t := s.t.(nextPartId := s.t.nextPartId + 1),
         merges := s.merges[m := s.merges[m].(stage := Reserved(s.t.nextPartId))])
    case StampStart(m) =>
      s.(merges := s.merges[m := s.merges[m].(stage := Running(s.merges[m].stage.newId, s.cur, []))])
    case Capture(m, retired) =>
      var g := s.merges[m];
      s.(merges := s.merges[m := g.(stage := g.stage.(caps := g.stage.caps
        + [CaptureOf(s.t.parts, g.sources[|g.stage.caps|], retired)]))])
    case Install(m) =>
      var plan := s.merges[m].Plan();
      State(s.t.(parts := ApplyPlan(s.t.parts, plan)), s.cur, s.h,
            if AllPresent(s.t.parts, plan.sourceIds) && s.merges[m].horizon > s.floor then s.merges[m].horizon else s.floor,
            s.handed, s.pins, s.merges - {m})
  }

  // ---- the invariant -------------------------------------------------------

  ghost predicate SourceOk(t: Table, src: Part) {
    && src.id < t.nextPartId
    && src.stamps.Covers(|src.rows|)
    && (Holds(t.parts, src.id).Some? ==> SameRows(src, t.parts[Holds(t.parts, src.id).value]))
  }

  ghost predicate MergeOk(s: State, m: Merge) {
    && m.horizon <= s.handed
    && UniqueIds(m.sources)
    && (forall i :: 0 <= i < |m.sources| ==> SourceOk(s.t, m.sources[i]))
    && (m.HasId() ==> m.stage.newId < s.t.nextPartId && Holds(s.t.parts, m.stage.newId).None?)
    && (m.stage.Running? ==>
        && m.stage.startedAt <= s.cur && |m.stage.caps| <= |m.sources|
        && (Here(s.t.parts, m.sources) ==>
              forall i :: 0 <= i < |m.stage.caps| ==> CapturedOne(s.t.parts, m.sources[i], m.stage.caps[i], m.stage.startedAt)))
  }

  ghost predicate IdsApart(merges: map<nat, Merge>) {
    forall a, b :: a in merges && b in merges && merges[a].HasId() ==>
      && (forall i :: 0 <= i < |merges[b].sources| ==> merges[b].sources[i].id != merges[a].stage.newId)
      && (a != b && merges[b].HasId() ==> merges[a].stage.newId != merges[b].stage.newId)
  }

  ghost predicate Good(s: State) {
    && Inv(s.t, s.h, s.floor, s.cur)
    && s.floor <= s.handed <= s.cur
    && (forall c :: c in s.pins ==> s.handed <= c <= s.cur)
    && (forall m :: m in s.merges ==> MergeOk(s, s.merges[m]))
    && IdsApart(s.merges)
  }

  lemma {:induction false} GoodReadable(s: State)
    requires Good(s)
    ensures Readable(s.t.parts)
  {
    ReadableFromShape(s.t, s.cur);
  }

  lemma {:induction false} StartGood()
    ensures Good(START)
  {
    InvEmpty();
  }

  // ---- how a part list evolves under one step ------------------------------

  /** Part `id` gained only tombstones stamped after `cur`, if it is still there. */
  ghost predicate Grown(parts: seq<Part>, parts': seq<Part>, id: nat, cur: Csn) {
    Holds(parts', id).Some? ==>
      && Holds(parts, id).Some?
      && var (p, p') := (parts[Holds(parts, id).value], parts'[Holds(parts', id).value]);
         SameRows(p, p') && CaptureOk(p.dv, p'.dv, cur)
  }

  lemma {:induction false} GrownKeepsSource(t: Table, t': Table, cur: Csn, src: Part)
    requires SourceOk(t, src) && Grown(t.parts, t'.parts, src.id, cur) && t.nextPartId <= t'.nextPartId
    ensures SourceOk(t', src)
    ensures forall cap, startedAt: Csn :: startedAt <= cur && CapturedOne(t.parts, src, cap, startedAt)
              ==> CapturedOne(t'.parts, src, cap, startedAt)
  {
    forall cap, startedAt: Csn | startedAt <= cur && CapturedOne(t.parts, src, cap, startedAt)
      ensures CapturedOne(t'.parts, src, cap, startedAt)
    {
      if Holds(t'.parts, src.id).Some? {
        var (p, p') := (t.parts[Holds(t.parts, src.id).value], t'.parts[Holds(t'.parts, src.id).value]);
        forall o: nat
          ensures DeletedIn(cap, o) == DeletedIn(p'.dv, o) || (DeletedIn(cap, o) == NEVER && startedAt < DeletedIn(p'.dv, o))
        {
          assert DeletedIn(p.dv, o) == DeletedIn(p'.dv, o) || (DeletedIn(p.dv, o) == NEVER && cur < DeletedIn(p'.dv, o));
          assert DeletedIn(cap, o) == DeletedIn(p.dv, o) || (DeletedIn(cap, o) == NEVER && startedAt < DeletedIn(p.dv, o));
        }
      }
    }
  }

  lemma {:induction false} HoldsAt(parts: seq<Part>, i: nat)
    requires UniqueIds(parts) && i < |parts|
    ensures Holds(parts, parts[i].id) == Some(i)
  {
  }

  lemma {:induction false} TombstoneGrown(t: Table, loc: Loc, cur: Csn, csn: Csn, id: nat)
    requires UniqueIds(t.parts) && ValidLoc(t, loc) && cur < csn
    ensures UniqueIds(Tombstone(t, loc, csn).parts)
    ensures Grown(t.parts, Tombstone(t, loc, csn).parts, id, cur)
  {
    var t' := Tombstone(t, loc, csn);
    var i := Holds(t'.parts, id);
    if i.Some? {
      HoldsAt(t.parts, i.value);
    }
  }

  lemma {:induction false} SealGrown(t: Table, cur: Csn, id: nat)
    requires UniqueIds(t.parts) && id != t.nextPartId
    ensures Grown(t.parts, Seal(t).parts, id, cur)
  {
    var t' := Seal(t);
    if t.l0 != [] && Holds(t'.parts, id).Some? {
      assert t'.parts[1..] == t.parts;
    }
  }

  lemma {:induction false} GrownTwice(a: seq<Part>, b: seq<Part>, c: seq<Part>, id: nat, cur: Csn)
    requires Grown(a, b, id, cur) && Grown(b, c, id, cur)
    ensures Grown(a, c, id, cur)
  {
    if Holds(c, id).Some? {
      var (p, q, r) := (a[Holds(a, id).value], b[Holds(b, id).value], c[Holds(c, id).value]);
      forall o: nat ensures DeletedIn(p.dv, o) == DeletedIn(r.dv, o) || (DeletedIn(p.dv, o) == NEVER && cur < DeletedIn(r.dv, o)) {
        assert DeletedIn(p.dv, o) == DeletedIn(q.dv, o) || (DeletedIn(p.dv, o) == NEVER && cur < DeletedIn(q.dv, o));
        assert DeletedIn(q.dv, o) == DeletedIn(r.dv, o) || (DeletedIn(q.dv, o) == NEVER && cur < DeletedIn(r.dv, o));
      }
    }
  }

  lemma {:induction false} ApplyGrown(parts: seq<Part>, plan: Plan, cur: Csn, id: nat)
    requires UniqueIds(parts) && id != plan.merged.id
    ensures Grown(parts, ApplyPlan(parts, plan), id, cur)
  {
    var parts' := ApplyPlan(parts, plan);
    if AllPresent(parts, plan.sourceIds) && Holds(parts', id).Some? {
      var p := parts'[Holds(parts', id).value];
      assert p in Retain(parts, plan.sourceIds);
      RetainMembers(parts, plan.sourceIds, p);
      HoldsAt(parts, IndexOf(parts, p));
    }
  }

  lemma {:induction false} ExecuteGrown(t: Table, cur: Csn, call: Call, threshold: nat, id: nat)
    requires UniqueIds(t.parts) && Readable(t.parts) && id < t.nextPartId
    ensures Grown(t.parts, Execute(t, cur, call, threshold).0.parts, id, cur)
  {
    hide Holds;
    hide Locate;
    hide Seal;
    hide CaptureOk;
    var loc := Locate(t, call.Key(), cur);
    var op := call.AsOp(cur + 1);
    var t1 := Write(t, op, cur);
    SameGrown(t.parts, id, cur);
    if loc.Some? {
      TombstoneGrown(t, loc.value, cur, op.csn, id);
    }
    hide Grown;
    assert UniqueIds(t1.parts) && Grown(t.parts, t1.parts, id, cur);
    SealGrown(t1, cur, id);
    GrownTwice(t.parts, t1.parts, Seal(t1).parts, id, cur);
  }

  /** A merge in flight survives any step that only grows the parts it depends on. */
  lemma {:induction false} MergeSurvives(s: State, s': State, m: Merge)
    requires MergeOk(s, m)
    requires s.t.nextPartId <= s'.t.nextPartId && s.cur <= s'.cur && s.handed <= s'.handed
    requires forall i :: 0 <= i < |m.sources| ==> Grown(s.t.parts, s'.t.parts, m.sources[i].id, s.cur)
    requires m.HasId() ==> Grown(s.t.parts, s'.t.parts, m.stage.newId, s.cur)
    ensures MergeOk(s', m)
  {
    forall i | 0 <= i < |m.sources| ensures SourceOk(s'.t, m.sources[i]) {
      GrownKeepsSource(s.t, s'.t, s.cur, m.sources[i]);
    }
    if m.stage.Running? && Here(s'.t.parts, m.sources) {
      forall i | 0 <= i < |m.sources| ensures Holds(s.t.parts, m.sources[i].id).Some? {
        assert Grown(s.t.parts, s'.t.parts, m.sources[i].id, s.cur);
      }
      forall i | 0 <= i < |m.stage.caps|
        ensures CapturedOne(s'.t.parts, m.sources[i], m.stage.caps[i], m.stage.startedAt)
      {
        GrownKeepsSource(s.t, s'.t, s.cur, m.sources[i]);
      }
    }
  }

  lemma {:induction false} SameGrown(parts: seq<Part>, id: nat, cur: Csn)
    ensures Grown(parts, parts, id, cur)
  {
  }

  lemma {:induction false} CallKeepsGood(s: State, call: Call, threshold: nat)
    requires Good(s) && s.cur + 1 < NEVER && Readable(s.t.parts)
    ensures Good(After(s, Step.Call(call, threshold)))
  {
    hide Inv;
    var s' := After(s, Step.Call(call, threshold));
    ExecuteKeepsInv(s.t, s.h, s.floor, s.cur, call, threshold);
    UniqueFromInv(s.t, s.h, s.floor, s.cur);
    forall m | m in s'.merges ensures MergeOk(s', s'.merges[m]) {
      CallKeepsMerge(s, s', s.merges[m], call, threshold);
    }
  }

  lemma {:induction false} UniqueFromInv(t: Table, h: seq<Op>, floor: Csn, cur: Csn)
    requires Inv(t, h, floor, cur)
    ensures UniqueIds(t.parts)
  {
  }

  lemma {:induction false} CallKeepsMerge(s: State, s': State, g: Merge, call: Call, threshold: nat)
    requires MergeOk(s, g) && Readable(s.t.parts) && UniqueIds(s.t.parts)
    requires s'.t == Execute(s.t, s.cur, call, threshold).0 && s'.cur == Execute(s.t, s.cur, call, threshold).1 && s.handed <= s'.handed
    ensures MergeOk(s', g)
  {
    hide Grown;
    hide Locate;
    forall i | 0 <= i < |g.sources| ensures Grown(s.t.parts, s'.t.parts, g.sources[i].id, s.cur) {
      assert SourceOk(s.t, g.sources[i]);
      ExecuteGrown(s.t, s.cur, call, threshold, g.sources[i].id);
    }
    if g.HasId() { ExecuteGrown(s.t, s.cur, call, threshold, g.stage.newId); }
    MergeSurvives(s, s', g);
  }

  lemma {:induction false} SealKeepsGood(s: State)
    requires Good(s) && Readable(s.t.parts)
    ensures Good(After(s, SealNow))
  {
    var s' := After(s, SealNow);
    SealKeepsInv(s.t, s.h, s.floor, s.cur);
    forall m | m in s'.merges ensures MergeOk(s', s'.merges[m]) {
      var g := s.merges[m];
      forall i | 0 <= i < |g.sources| ensures Grown(s.t.parts, s'.t.parts, g.sources[i].id, s.cur) {
        assert SourceOk(s.t, g.sources[i]);
        SealGrown(s.t, s.cur, g.sources[i].id);
      }
      if g.HasId() { SealGrown(s.t, s.cur, g.stage.newId); }
      MergeSurvives(s, s', g);
    }
  }

  lemma {:induction false} ClockKeepsGood(s: State, step: Step)
    requires Good(s) && Enabled(s, step) && Readable(s.t.parts)
    requires step.OtherTable? || step.Pin? || step.Release?
    ensures Good(After(s, step))
  {
    var s' := After(s, step);
    TickKeepsInv(s.t, s.h, s.floor, s.cur, s'.cur);
    forall m | m in s'.merges ensures MergeOk(s', s'.merges[m]) {
      forall id: nat ensures Grown(s.t.parts, s.t.parts, id, s.cur) { SameGrown(s.t.parts, id, s.cur); }
      MergeSurvives(s, s', s.merges[m]);
    }
  }

  /** A horizon never exceeds a live pin, and later pins start at or above it. */
  lemma {:induction false} AskKeepsGood(s: State, mid: nat)
    requires Good(s) && mid !in s.merges && Readable(s.t.parts)
    ensures Good(After(s, AskHorizon(mid)))
  {
    hide Inv;
    hide Holds;
    hide CapturedOne;
    hide Grown;
    var s' := After(s, AskHorizon(mid));
    forall m | m in s'.merges ensures MergeOk(s', s'.merges[m]) {
      if m != mid {
        forall id: nat ensures Grown(s.t.parts, s.t.parts, id, s.cur) { SameGrown(s.t.parts, id, s.cur); }
        MergeSurvives(s, s', s.merges[m]);
      }
    }
  }

  lemma {:induction false} PickedOk(s: State, chosen: seq<nat>)
    requires Inv(s.t, s.h, s.floor, s.cur) && Readable(s.t.parts) && forall i :: 0 <= i < |chosen| ==> chosen[i] < |s.t.parts|
    ensures forall i :: 0 <= i < |chosen| ==> SourceOk(s.t, s.t.parts[chosen[i]])
  {
    forall i | 0 <= i < |chosen| ensures SourceOk(s.t, s.t.parts[chosen[i]]) { HoldsAt(s.t.parts, chosen[i]); }
  }

  lemma {:induction false} SelectKeepsGood(s: State, mid: nat, chosen: seq<nat>)
    requires Good(s) && Enabled(s, Select(mid, chosen)) && Readable(s.t.parts)
    ensures Good(After(s, Select(mid, chosen)))
  {
    hide Inv;
    hide Holds;
    hide CapturedOne;
    hide SourceOk;
    hide After;
    AfterSelect(s, mid, chosen);
    var g := After(s, Select(mid, chosen)).merges[mid];
    UniqueFromInv(s.t, s.h, s.floor, s.cur);
    PickedOk(s, chosen);
    assert UniqueIds(g.sources);
    assert MergeOk(s, s.merges[mid]);
    assert MergeOk(s, g);
    forall a | a in s.merges && s.merges[a].HasId() && a != mid
      ensures forall i :: 0 <= i < |g.sources| ==> g.sources[i].id != s.merges[a].stage.newId
    {
      assert MergeOk(s, s.merges[a]);
      NewIdFree(s, s.merges[a]);
    }
    MergeReplaced(s, mid, g);
  }

  lemma {:induction false} NewIdFree(s: State, m: Merge)
    requires MergeOk(s, m) && m.HasId()
    ensures forall i :: 0 <= i < |s.t.parts| ==> s.t.parts[i].id != m.stage.newId
  {
  }

  lemma {:induction false} AfterSelect(s: State, mid: nat, chosen: seq<nat>)
    requires Enabled(s, Select(mid, chosen)) && Readable(s.t.parts)
    ensures After(s, Select(mid, chosen)) == s.(merges := s.merges[mid := Merge(s.merges[mid].horizon,
      seq(|chosen|, i requires 0 <= i < |chosen| => s.t.parts[chosen[i]]), Selected)])
  {
  }

  /** Changing one merge in flight for another good one. */
  lemma {:induction false} MergeReplaced(s: State, mid: nat, g: Merge)
    requires Good(s) && MergeOk(s, g) && IdsApart(s.merges[mid := g])
    ensures Good(s.(merges := s.merges[mid := g]))
  {
    hide Inv;
    hide IdsApart;
    hide SourceOk;
    hide CapturedOne;
    hide UniqueIds;
    var s' := s.(merges := s.merges[mid := g]);
    forall m | m in s'.merges ensures MergeOk(s', s'.merges[m]) {
      assert m != mid ==> MergeOk(s, s.merges[m]);
    }
  }

  /** Reserving an id changes nothing a reader sees. */
  lemma {:induction false} HigherId(t: Table, h: seq<Op>, floor: Csn, cur: Csn)
    requires Inv(t, h, floor, cur)
    ensures Inv(t.(nextPartId := t.nextPartId + 1), h, floor, cur)
  {
    var t' := t.(nextPartId := t.nextPartId + 1);
    forall x | floor <= x < NEVER ensures Agrees(t', h, x) { assert Agrees(t, h, x); }
  }

  lemma {:induction false} NextIdUnused(t: Table, h: seq<Op>, floor: Csn, cur: Csn)
    requires Inv(t, h, floor, cur)
    ensures Holds(t.parts, t.nextPartId).None?
  {
  }

  lemma {:induction false} AfterReserve(s: State, mid: nat)
    requires Enabled(s, ReserveId(mid)) && Readable(s.t.parts)
    ensures After(s, ReserveId(mid)) == s.(t := s.t.(nextPartId := s.t.nextPartId + 1),
      merges := s.merges[mid := s.merges[mid].(stage := Reserved(s.t.nextPartId))])
  {
  }

  lemma {:induction false} ReserveKeepsGood(s: State, mid: nat)
    requires Good(s) && Enabled(s, ReserveId(mid)) && Readable(s.t.parts)
    ensures Good(After(s, ReserveId(mid)))
  {
    hide Inv;
    hide Holds;
    hide After;
    hide CapturedOne;
    AfterReserve(s, mid);
    var s' := After(s, ReserveId(mid));
    HigherId(s.t, s.h, s.floor, s.cur);
    NextIdUnused(s.t, s.h, s.floor, s.cur);
    forall m | m in s'.merges ensures MergeOk(s', s'.merges[m]) {
      assert MergeOk(s, s.merges[m]);
      forall i | 0 <= i < |s.merges[m].sources| ensures SourceOk(s'.t, s.merges[m].sources[i]) {
        assert SourceOk(s.t, s.merges[m].sources[i]);
      }
    }
    forall b, i | b in s'.merges && 0 <= i < |s'.merges[b].sources|
      ensures s'.merges[b].sources[i].id != s.t.nextPartId
    {
      assert MergeOk(s, s.merges[b]);
      assert SourceOk(s.t, s.merges[b].sources[i]);
    }
    forall b | b in s.merges && s.merges[b].HasId() ensures s.merges[b].stage.newId != s.t.nextPartId {
      assert MergeOk(s, s.merges[b]);
    }
  }

  lemma {:induction false} StampKeepsGood(s: State, mid: nat)
    requires Good(s) && Enabled(s, StampStart(mid)) && Readable(s.t.parts)
    ensures Good(After(s, StampStart(mid)))
  {
    hide Inv;
    hide CapturedOne;
    hide SourceOk;
    hide After;
    hide UniqueIds;
    var g := s.merges[mid];
    assert MergeOk(s, g);
    AfterStamp(s, mid);
    MergeReplaced(s, mid, g.(stage := Running(g.stage.newId, s.cur, [])));
  }

  /** A merge that takes in one more vector missing only what it may miss. */
  lemma {:induction false} CaptureTaken(s: State, mid: nat, cap: Dv)
    requires Good(s) && mid in s.merges && s.merges[mid].stage.Running? && |s.merges[mid].stage.caps| < |s.merges[mid].sources|
    requires var g := s.merges[mid];
      Here(s.t.parts, g.sources) ==> CapturedOne(s.t.parts, g.sources[|g.stage.caps|], cap, g.stage.startedAt)
    ensures var g := s.merges[mid];
      Good(s.(merges := s.merges[mid := g.(stage := g.stage.(caps := g.stage.caps + [cap]))]))
  {
    hide Inv;
    hide Holds;
    hide CapturedOne;
    hide SourceOk;
    hide Here;
    hide UniqueIds;
    var g := s.merges[mid];
    assert MergeOk(s, g);
    MergeReplaced(s, mid, g.(stage := g.stage.(caps := g.stage.caps + [cap])));
  }

  lemma {:induction false} CaptureKeepsGood(s: State, mid: nat, retired: Dv)
    requires Good(s) && Enabled(s, Capture(mid, retired)) && Readable(s.t.parts)
    ensures Good(After(s, Capture(mid, retired)))
  {
    var g := s.merges[mid];
    assert MergeOk(s, g);
    assert SourceOk(s.t, g.sources[|g.stage.caps|]);
    hide Good;
    hide CaptureOf;
    hide After;
    hide MergeOk;
    AfterCapture(s, mid, retired);
    FreshCapture(s.t, g.sources[|g.stage.caps|], retired, g.stage.startedAt);
    CaptureTaken(s, mid, CaptureOf(s.t.parts, g.sources[|g.stage.caps|], retired));
  }

  lemma {:induction false} AfterStamp(s: State, mid: nat)
    requires Enabled(s, StampStart(mid)) && Readable(s.t.parts)
    ensures After(s, StampStart(mid)) ==
      s.(merges := s.merges[mid := s.merges[mid].(stage := Running(s.merges[mid].stage.newId, s.cur, []))])
  {
  }

  lemma {:induction false} AfterCapture(s: State, mid: nat, retired: Dv)
    requires Enabled(s, Capture(mid, retired)) && Readable(s.t.parts)
    ensures var g := s.merges[mid];
      After(s, Capture(mid, retired)) == s.(merges := s.merges[mid := g.(stage := g.stage.(caps := g.stage.caps
        + [CaptureOf(s.t.parts, g.sources[|g.stage.caps|], retired)]))])
  {
    hide CaptureOf;
  }

  /** A vector captured now misses nothing. */
  lemma {:induction false} FreshCapture(t: Table, src: Part, retired: Dv, startedAt: Csn)
    requires SourceOk(t, src)
    ensures CapturedOne(t.parts, src, CaptureOf(t.parts, src, retired), startedAt)
  {
  }

  /** Before and after an installation every snapshot at or above the merge's
      horizon sees exactly the same rows, whatever was written while the merge
      ran; a stale plan changes no part at all. */
  lemma {:induction false} InstallUnseen(s: State, mid: nat, snap: Csn)
    requires Good(s) && Enabled(s, Install(mid)) && Readable(s.t.parts)
    requires s.merges[mid].horizon <= snap < NEVER
    ensures TableRows(After(s, Install(mid)).t, snap) == TableRows(s.t, snap)
    ensures !AllPresent(s.t.parts, IdsOf(s.merges[mid].sources)) ==> After(s, Install(mid)).t == s.t
  {
    var m := s.merges[mid];
    assert MergeOk(s, m);
    PlanIds(m.sources, m.stage.caps, m.stage.newId, m.horizon, m.stage.startedAt);
    if AllPresent(s.t.parts, IdsOf(m.sources)) {
      AllHere(s.t.parts, m.sources, IdsOf(m.sources));
      InstallInvisible(s.t.parts, m.sources, m.stage.caps, m.stage.newId, m.horizon, m.stage.startedAt, snap);
    }
  }

  /** Were a write not one atomic step: a writer takes its stamp `csn`, the clock
      moves on, and its tombstone lands just before an install. The install brings
      the row back, to every snapshot at or above the stamp, if and only if the part
      was among the sources, none of them is gone, and the stamp is not after the
      merge's start. */
  lemma {:induction false} LateDelete(s: State, mid: nat, i: nat, ord: nat, csn: Csn, snap: Csn)
    requires Good(s) && Enabled(s, Install(mid)) && Readable(s.t.parts) && s.merges[mid].horizon <= snap < NEVER
    requires i < |s.t.parts| && ord < |s.t.parts[i].rows| && ord !in s.t.parts[i].dv
    requires s.t.parts[i].stamps.At(ord) <= csn <= s.cur
    ensures var torn := s.(t := s.t.(parts := Struck(s.t.parts, i, ord, csn)));
      var m := s.merges[mid];
      && Readable(torn.t.parts)
      && TableRows(After(torn, Install(mid)).t, snap) == TableRows(torn.t, snap) +
           (if AllPresent(s.t.parts, IdsOf(m.sources)) && s.t.parts[i].id in IdsOf(m.sources) && csn <= m.stage.startedAt
            then Gone(s.t.parts[i].rows[ord], csn, snap) else multiset{})
  {
    hide ApplyPlan;
    hide PlanMerge;
    hide Inv;
    hide Holds;
    hide CapturedOne;
    hide SumOver;
    var m := s.merges[mid];
    assert MergeOk(s, m);
    UniqueFromInv(s.t, s.h, s.floor, s.cur);
    InvBounds(s.t, s.h, s.floor, s.cur);
    PlanIds(m.sources, m.stage.caps, m.stage.newId, m.horizon, m.stage.startedAt);
    forall id ensures Holds(Struck(s.t.parts, i, ord, csn), id) == Holds(s.t.parts, id) { StruckHolds(s.t.parts, i, ord, csn, id); }
    if AllPresent(s.t.parts, IdsOf(m.sources)) {
      AllHere(s.t.parts, m.sources, IdsOf(m.sources));
      LateTombstone(s.t.parts, m.sources, m.stage.caps, m.stage.newId, m.horizon, m.stage.startedAt, i, ord, csn, snap);
    } else {
      StaleSame(Struck(s.t.parts, i, ord, csn), m.Plan());
    }
  }

  lemma {:induction false} StaleSame(parts: seq<Part>, plan: Plan)
    requires !AllPresent(parts, plan.sourceIds)
    ensures ApplyPlan(parts, plan) == parts
  {
  }

  lemma {:induction false} InvBounds(t: Table, h: seq<Op>, floor: Csn, cur: Csn)
    requires Inv(t, h, floor, cur)
    ensures cur < NEVER
  {
  }

  lemma {:induction false} InstallShape(s: State, mid: nat)
    requires Good(s) && Enabled(s, Install(mid)) && Readable(s.t.parts)
    ensures Shape(After(s, Install(mid)).t, s.cur)
  {
    hide PartOk;
    hide Agrees;
    hide Retain;
    hide Replayed;
    hide Collect;
    hide IdsApart;
    hide Holds;
    hide After;
    AfterInstall(s, mid);
    var m := s.merges[mid];
    var plan := m.Plan();
    assert MergeOk(s, m);
    if AllPresent(s.t.parts, plan.sourceIds) {
      AllHere(s.t.parts, m.sources, plan.sourceIds);
      MergedOk(s.t.parts, m.sources, m.stage.caps, m.stage.newId, m.horizon, m.stage.startedAt, s.cur);
      RetainedShape(s.t, plan, s.cur);
    }
  }

  lemma {:induction false} AllHere(parts: seq<Part>, sources: seq<Part>, ids: seq<nat>)
    requires AllPresent(parts, ids) && ids == IdsOf(sources)
    ensures Here(parts, sources)
  {
    forall i | 0 <= i < |sources| ensures Holds(parts, sources[i].id).Some? { assert ids[i] == sources[i].id; }
  }

  lemma {:induction false} RetainedShape(t: Table, plan: Plan, cur: Csn)
    requires Shape(t, cur) && Holds(t.parts, plan.merged.id).None?
    ensures UniqueIds(Retain(t.parts, plan.sourceIds))
    ensures forall p :: p in Retain(t.parts, plan.sourceIds) ==> PartOk(p, cur) && p.id < t.nextPartId && p.id != plan.merged.id
  {
    hide PartOk;
    hide Retain;
    RetainUnique(t.parts, plan.sourceIds);
    forall p | p in Retain(t.parts, plan.sourceIds) ensures PartOk(p, cur) && p.id < t.nextPartId && p.id != plan.merged.id {
      RetainMembers(t.parts, plan.sourceIds, p);
      var j := IndexOf(t.parts, p);
      assert PartOk(t.parts[j], cur);
    }
  }

  lemma {:induction false} AfterInstall(s: State, mid: nat)
    requires Enabled(s, Install(mid)) && Readable(s.t.parts)
    ensures var (s', plan) := (After(s, Install(mid)), s.merges[mid].Plan());
      && s'.t == s.t.(parts := ApplyPlan(s.t.parts, plan)) && s'.merges == s.merges - {mid}
      && s'.cur == s.cur && s'.h == s.h && s'.handed == s.handed && s'.pins == s.pins
      && s'.floor == if AllPresent(s.t.parts, plan.sourceIds) && s.merges[mid].horizon > s.floor then s.merges[mid].horizon else s.floor
  {
    hide ApplyPlan;
    hide PlanMerge;
    hide AllPresent;
  }

  lemma {:induction false} InstallIds(s: State, mid: nat)
    requires Good(s) && Enabled(s, Install(mid)) && Readable(s.t.parts)
    ensures var plan := s.merges[mid].Plan();
      && plan.merged.id == s.merges[mid].stage.newId && UniqueIds(s.t.parts)
      && (!AllPresent(s.t.parts, plan.sourceIds) ==> ApplyPlan(s.t.parts, plan) == s.t.parts)
  {
    hide Inv;
    hide Collect;
    UniqueFromInv(s.t, s.h, s.floor, s.cur);
  }

  lemma {:induction false} InstallKeepsGood(s: State, mid: nat)
    requires Good(s) && Enabled(s, Install(mid)) && Readable(s.t.parts)
    ensures Good(After(s, Install(mid)))
  {
    hide After;
    hide Holds;
    hide PlanMerge;
    hide ApplyPlan;
    hide TableRows;
    hide Grown;
    AfterInstall(s, mid);
    var s' := After(s, Install(mid));
    InstallShape(s, mid);
    assert MergeOk(s, s.merges[mid]);
    var plan := s.merges[mid].Plan();
    InstallIds(s, mid);
    forall x | s'.floor <= x < NEVER ensures Agrees(s'.t, s'.h, x) {
      assert Agrees(s.t, s.h, x);
      if AllPresent(s.t.parts, plan.sourceIds) {
        InstallUnseen(s, mid, x);
      }
    }
    forall m | m in s'.merges ensures MergeOk(s', s'.merges[m]) {
      var g := s.merges[m];
      forall i | 0 <= i < |g.sources| ensures Grown(s.t.parts, s'.t.parts, g.sources[i].id, s.cur) {
        ApplyGrown(s.t.parts, plan, s.cur, g.sources[i].id);
      }
      if g.HasId() { ApplyGrown(s.t.parts, plan, s.cur, g.stage.newId); }
      MergeSurvives(s, s', g);
    }
  }

  lemma {:induction false} StepKeepsGood(s: State, step: Step)
    requires Good(s) && Enabled(s, step)
    ensures Readable(s.t.parts) && Good(After(s, step))
  {
    GoodReadable(s);
    match step
    case Call(call, threshold) => CallKeepsGood(s, call, threshold);
    case SealNow => SealKeepsGood(s);
    case OtherTable => ClockKeepsGood(s, step);
    case Pin => ClockKeepsGood(s, step);
    case Release(_) => ClockKeepsGood(s, step);
    case AskHorizon(m) => AskKeepsGood(s, m);
    case Select(m, chosen) => SelectKeepsGood(s, m, chosen);
    case ReserveId(m) => ReserveKeepsGood(s, m);
    case StampStart(m) => StampKeepsGood(s, m);
    case Capture(m, retired) => CaptureKeepsGood(s, m, retired);
    case Install(m) => InstallKeepsGood(s, m);
  }

  // ---- runs ----------------------------------------------------------------

  ghost predicate IsStep(s: State, s': State) {
    Readable(s.t.parts) && exists step :: Enabled(s, step) && s' == After(s, step)
  }

  ghost predicate IsRun(run: seq<State>) {
    |run| > 0 && run[0] == START && forall i :: 0 <= i < |run| - 1 ==> IsStep(run[i], run[i+1])
  }

  lemma {:induction false} ReachableGood(run: seq<State>, i: nat)
    requires IsRun(run) && i < |run|
    ensures Good(run[i])
  {
    if i == 0 {
      StartGood();
    } else {
      ReachableGood(run, i - 1);
      assert IsStep(run[i-1], run[i-1+1]);
      var step :| Enabled(run[i-1], step) && run[i] == After(run[i-1], step);
      StepKeepsGood(run[i-1], step);
    }
  }

  /** No step rewrites what the history says about a snapshot already taken. */
  lemma {:induction false} StepKeepsPast(s: State, step: Step, snap: Csn)
    requires Good(s) && Enabled(s, step) && Readable(s.t.parts) && snap <= s.cur
    ensures At(After(s, step).h, snap) == At(s.h, snap)
    ensures s.cur <= After(s, step).cur
  {
    if step.Call? {
      var (_, _, out) := Execute(s.t, s.cur, step.call, step.threshold);
      if out.Done? { AtExtended(s.h, step.call.AsOp(out.csn), snap); }
    }
  }

  /** A pinned snapshot reads the same rows for its whole life, in every run:
      whatever is written, sealed, merged or installed meanwhile. */
  lemma {:induction false} PinnedReadsStable(run: seq<State>, i: nat, j: nat, pin: Csn)
    requires IsRun(run) && i <= j < |run|
    requires forall k :: i <= k <= j ==> pin in run[k].pins
    ensures TableRows(run[j].t, pin) == TableRows(run[i].t, pin) == multiset(At(run[i].h, pin).Values)
    ensures At(run[j].h, pin) == At(run[i].h, pin)
    decreases j
  {
    ReachableGood(run, j);
    assert Agrees(run[j].t, run[j].h, pin);
    if i < j {
      PinnedReadsStable(run, i, j - 1, pin);
      ReachableGood(run, j - 1);
      assert IsStep(run[j-1], run[j-1+1]);
      var step :| Enabled(run[j-1], step) && run[j] == After(run[j-1], step);
      StepKeepsPast(run[j-1], step, pin);
    }
  }

  /** Every horizon handed out stays at or below every pin alive at any later time. */
  lemma {:induction false} HorizonBelowPins(run: seq<State>, i: nat, j: nat)
    requires IsRun(run) && i <= j < |run|
    ensures run[i].handed <= run[j].handed
    ensures forall c :: c in run[j].pins ==> run[i].handed <= c
    ensures run[i].handed <= GcHorizon(run[j].pins, run[j].cur)
    decreases j
  {
    hide Good;
    hide IsStep;
    ReachableGood(run, j);
    PinsAboveHanded(run[j]);
    if i < j {
      HorizonBelowPins(run, i, j - 1);
      HandedGrows(run, j - 1);
    }
  }

  lemma {:induction false} HandedGrows(run: seq<State>, i: nat)
    requires IsRun(run) && i + 1 < |run|
    ensures run[i].handed <= run[i+1].handed
  {
    assert IsStep(run[i], run[i+1]);
  }

  lemma {:induction false} PinsAboveHanded(s: State)
    requires Good(s)
    ensures s.handed <= s.cur && (forall c :: c in s.pins ==> s.handed <= c)
    ensures s.handed <= GcHorizon(s.pins, s.cur)
  {
  }
}
