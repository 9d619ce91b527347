/** The table object: its buffer, its part list and the shared clock, changed
    under the table lock (src/table.rs:164-320, 421-475, 555-617). */
module Tables {
  import opened Bags
  import opened Values
  import opened Wrappers
  import opened Mvcc
  import opened Reads
  import opened Compaction
  import opened Protocol
  import opened Storage
  import opened CrashSafety
  import opened L0Buffers
  import opened Clocks
  import opened MergeLoops
  import Bloom
  import Funnel = PartLookup

  /** What a call did: exactly the specified step, and one more operation in the
      history when it succeeded. */
  ghost predicate Ran(t: Table, cur: Csn, h: seq<Op>, call: Call, threshold: nat, t': Table, cur': Csn, h': seq<Op>, out: Outcome)
    requires Readable(t.parts)
  {
    (t', cur', out) == Execute(t, cur, call, threshold) && h' == if out.Done? then h + [call.AsOp(out.csn)] else h
  }

  ghost predicate IdsBelow(parts: seq<Part>, n: nat) { forall i :: 0 <= i < |parts| ==> parts[i].id < n }

  ghost predicate AllFine(parts: seq<Part>) { forall i :: 0 <= i < |parts| ==> parts[i].Ok() }

  function RowKeys(rows: seq<Row>): seq<Value> { seq(|rows|, i requires 0 <= i < |rows| => rows[i].key) }

  lemma {:induction false} KeySeeds(rows: seq<Row>)
    ensures forall i :: 0 <= i < |rows| ==> Bloom.Seed(rows[i].key) in Bloom.SeedsOf(RowKeys(rows))
  {
    forall i | 0 <= i < |rows| ensures Bloom.Seed(rows[i].key) in Bloom.SeedsOf(RowKeys(rows)) {
      assert RowKeys(rows)[i] == rows[i].key;
    }
  }

  class TableObject {
    const clock: CsnGenerator
    const l0: L0Buffer
    const threshold: nat
    var parts: seq<Part>
    var nextPartId: nat
    /** The Bloom filter of each part, by part id. */
    var filters: map<nat, Bloom.BloomFilter>
    /** The operations applied so far, and the largest horizon a merge used. */
    ghost var h: seq<Op>
    ghost var floor: Csn

    ghost function State(): Table
      reads this, l0
    {
      Table(l0.entries, parts, nextPartId)
    }

    /** The part has a filter that knows all its keys. */
    ghost predicate HasFilter(id: nat, rows: seq<Row>)
      reads this`filters, filters.Values
    {
      id in filters && filters[id].Valid() && forall i :: 0 <= i < |rows| ==> Bloom.Seed(rows[i].key) in filters[id].keys
    }

    ghost predicate Filtered()
      reads this`filters, this`parts, filters.Values
    {
      forall i :: 0 <= i < |parts| ==> HasFilter(parts[i].id, parts[i].rows)
    }

    ghost predicate Valid()
      reads this, l0, clock, filters.Values
    {
      clock.Valid() && l0.Valid() && Inv(State(), h, floor, clock.Now()) && Readable(parts) && Filtered()
    }

    constructor (shared: CsnGenerator, sealAt: nat)
      requires shared.Valid() && shared.Now() < NEVER
      ensures Valid() && h == [] && floor == 0 && clock == shared && threshold == sealAt && fresh(l0)
    {
      clock, threshold, parts, nextPartId, h, floor := shared, sealAt, [], 0, [], 0;
      filters := map[];
      l0 := new L0Buffer();
      new;
      InvEmpty();
      TickKeepsInv(EMPTY, [], 0, 0, clock.Now());
    }

    /** One part, through the four-stage funnel. */
    method Probe(p: Part, key: Value, s: Csn) returns (ord: Option<nat>)
      requires p.Ok() && s < NEVER && HasFilter(p.id, p.rows)
      ensures ord == PartLookup(p, key, s)
    {
      hide PartLookup;
      hide Bloom.BloomFilter.Valid;
      var r := Funnel.Lookup(p, filters[p.id], key, s);
      ord := if r.Found? then Some(r.ord) else None;
    }

    method FindInParts(key: Value, s: Csn) returns (loc: Option<Loc>)
      requires Filtered() && Readable(parts) && AllFine(parts) && s < NEVER
      ensures loc == PartsLookup(parts, key, s)
    {
      hide PartLookup;
      hide HasFilter;
      hide Part.Ok;
      assert PartsLookup(parts, key, s, 0) == PartsLookup(parts, key, s);
      for pi := 0 to |parts|
        invariant PartsLookup(parts, key, s) == PartsLookup(parts, key, s, pi)
      {
        var ord := Probe(parts[pi], key, s);
        if ord.Some? { return Some(InPart(pi, ord.value)); }
      }
      loc := None;
    }

    /** The live version of a key, newest tier first. */
    method Find(key: Value, s: Csn) returns (loc: Option<Loc>)
      requires Valid() && s < NEVER
      ensures loc == Locate(State(), key, s)
    {
      PartsAreOk(State(), h, floor, clock.Now());
      hide Inv;
      hide PartsLookup;
      hide L0Lookup;
      hide Filtered;
      hide AllFine;
      var i := l0.Lookup(key, s);
      if i.Some? { return Some(InL0(i.value)); }
      loc := FindInParts(key, s);
    }

    /** Put a tombstone on a located version, in whichever tier it is. */
    method Bury(loc: Loc, csn: Csn) returns (ok: bool)
      requires l0.Valid() && ValidLoc(State(), loc) && Filtered() && IdsBelow(parts, nextPartId)
      requires loc.InPart? ==> loc.ord in parts[loc.part].dv ==> parts[loc.part].dv[loc.ord] != NEVER
      modifies this`parts, l0
      ensures l0.Valid() && ok == (old(VersionIn(State(), loc)).deleted == NEVER)
      ensures State() == Tombstone(old(State()), loc, csn) && Filtered() && IdsBelow(parts, nextPartId)
    {
      match loc
      case InL0(i) => ok := l0.MarkDeleted(i, csn);
      case InPart(pi, ord) =>
        var p := parts[pi];
        ok := ord !in p.dv;
        parts := parts[pi := p.(dv := Mvcc.MarkDeleted(p.dv, ord, csn))];
    }

    /** Build the filter of a new part. */
    method Register(id: nat, rows: seq<Row>)
      requires Filtered()
      modifies this`filters
      ensures HasFilter(id, rows)
      ensures forall i :: 0 <= i < |parts| && parts[i].id != id ==> HasFilter(parts[i].id, parts[i].rows)
    {
      var f := new Bloom.BloomFilter.BuildValues(RowKeys(rows));
      KeySeeds(rows);
      hide Bloom.BloomFilter.Valid;
      forall i | 0 <= i < |parts| ensures HasFilter(parts[i].id, parts[i].rows) { }
      filters := filters[id := f];
    }

    method SealLocked()
      requires l0.Valid() && Filtered() && IdsBelow(parts, nextPartId)
      modifies this`parts, this`nextPartId, this`filters, l0
      ensures l0.Valid() && State() == Mvcc.Seal(old(State())) && Filtered()
    {
      hide HasFilter;
      if |l0.entries| == 0 { return; }
      var p := l0.Seal(nextPartId);
      Register(p.id, p.rows);
      parts, nextPartId := [p] + parts, nextPartId + 1;
    }

    method MaybeSealLocked()
      requires l0.Valid() && Filtered() && IdsBelow(parts, nextPartId)
      modifies this`parts, this`nextPartId, this`filters, l0
      ensures l0.Valid() && State() == MaybeSeal(old(State()), threshold) && Filtered()
    {
      hide Mvcc.Seal;
      hide Filtered;
      hide IdsBelow;
      if |l0.entries| >= threshold { SealLocked(); }
    }

    /** Tombstone the version being replaced if there is one, and buffer the new one. */
    method Supersede(row: Row, existing: Option<Loc>, csn: Csn, ghost at: Csn)
      requires l0.Valid() && Filtered() && IdsBelow(parts, nextPartId) && Readable(parts)
      requires existing == Locate(State(), row.key, at)
      requires existing.Some? && existing.value.InPart? ==> existing.value.ord !in parts[existing.value.part].dv
      modifies this`parts, l0
      ensures l0.Valid() && Filtered() && IdsBelow(parts, nextPartId)
      ensures State() == Mvcc.Write(old(State()), Op.Put(row, csn), at)
    {
      hide Locate;
      hide Filtered;
      hide IdsBelow;
      hide Readable;
      hide Indexes;
      if existing.Some? { var ok := Bury(existing.value, csn); }
      l0.Insert(row, csn);
    }

    /** Allocate, replace, seal when due: one step under the lock. */
    method Put(row: Row, existing: Option<Loc>) returns (csn: Csn)
      requires Valid() && clock.Now() + 1 < NEVER && existing == Locate(State(), row.key, clock.Now())
      modifies this`parts, this`nextPartId, this`filters, l0, clock`next
      ensures clock.Valid() && l0.Valid() && Filtered() && csn == clock.Now() == old(clock.Now()) + 1
      ensures State() == MaybeSeal(Mvcc.Write(old(State()), Op.Put(row, csn), old(clock.Now())), threshold)
    {
      LiveOnes(State(), h, floor, clock.Now(), row.key);
      PartsAreOk(State(), h, floor, clock.Now());
      hide Inv;
      hide Locate;
      hide Mvcc.Write;
      hide MaybeSeal;
      hide Filtered;
      hide IdsBelow;
      hide AllFine;
      hide Readable;
      hide Indexes;
      ghost var now := clock.Now();
      csn := clock.Allocate();
      Supersede(row, existing, csn, now);
      MaybeSealLocked();
    }

    method Insert(row: Row) returns (out: Outcome)
      requires Valid() && clock.Now() + 1 < NEVER
      modifies this, l0, clock`next
      ensures Valid() && floor == old(floor)
      ensures Ran(old(State()), old(clock.Now()), old(h), Call.Insert(row), threshold, State(), clock.Now(), h, out)
    {
      hide Inv;
      hide Execute;
      hide Locate;
      hide Mvcc.Write;
      hide MaybeSeal;
      hide Readable;
      hide Indexes;
      ghost var (t, cur) := (State(), clock.Now());
      Steps(t, h, floor, cur, Call.Insert(row), threshold);
      var now := clock.Current();
      var existing := Find(row.key, now);
      if existing.Some? { return DuplicateKey; }
      var csn := Put(row, existing);
      h := h + [Op.Put(row, csn)];
      out := Done(csn);
    }

    method Upsert(row: Row) returns (out: Outcome)
      requires Valid() && clock.Now() + 1 < NEVER
      modifies this, l0, clock`next
      ensures Valid() && floor == old(floor)
      ensures Ran(old(State()), old(clock.Now()), old(h), Call.Upsert(row), threshold, State(), clock.Now(), h, out)
    {
      hide Inv;
      hide Execute;
      hide Locate;
      hide Mvcc.Write;
      hide MaybeSeal;
      hide Readable;
      hide Indexes;
      ghost var (t, cur) := (State(), clock.Now());
      Steps(t, h, floor, cur, Call.Upsert(row), threshold);
      var now := clock.Current();
      var existing := Find(row.key, now);
      var csn := Put(row, existing);
      h := h + [Op.Put(row, csn)];
      out := Done(csn);
    }

    method Update(row: Row) returns (out: Outcome)
      requires Valid() && clock.Now() + 1 < NEVER
      modifies this, l0, clock`next
      ensures Valid() && floor == old(floor)
      ensures Ran(old(State()), old(clock.Now()), old(h), Call.Update(row), threshold, State(), clock.Now(), h, out)
    {
      hide Inv;
      hide Execute;
      hide Locate;
      hide Mvcc.Write;
      hide MaybeSeal;
      hide Readable;
      hide Indexes;
      ghost var (t, cur) := (State(), clock.Now());
      Steps(t, h, floor, cur, Call.Update(row), threshold);
      var now := clock.Current();
      var existing := Find(row.key, now);
      if existing.None? { return KeyNotFound; }
      var csn := Put(row, existing);
      h := h + [Op.Put(row, csn)];
      out := Done(csn);
    }

    method Delete(key: Value) returns (out: Outcome)
      requires Valid() && clock.Now() + 1 < NEVER
      modifies this, l0, clock`next
      ensures Valid() && floor == old(floor)
      ensures Ran(old(State()), old(clock.Now()), old(h), Call.Delete(key), threshold, State(), clock.Now(), h, out)
    {
      hide Inv;
      hide Execute;
      hide Locate;
      hide Mvcc.Write;
      hide MaybeSeal;
      hide Readable;
      hide Indexes;
      hide Filtered;
      hide IdsBelow;
      ghost var (t, cur) := (State(), clock.Now());
      Steps(t, h, floor, cur, Call.Delete(key), threshold);
      LiveOnes(t, h, floor, cur, key);
      PartsAreOk(t, h, floor, cur);
      var now := clock.Current();
      var existing := Find(key, now);
      if existing.None? { return KeyNotFound; }
      var csn := clock.Allocate();
      DeleteIsTombstone(t, key, cur, csn);
      var ok := Bury(existing.value, csn);
      h := h + [Op.Del(key, csn)];
      out := Done(csn);
    }

    /** A point read at any snapshot from the floor up: the history's value there. */
    method Read(key: Value, s: Csn) returns (r: Option<Row>)
      requires Valid() && floor <= s < NEVER
      ensures r == if key in At(h, s) then Some(At(h, s)[key]) else None
    {
      ReadsAreHistory(State(), h, floor, clock.Now(), s, key, Null, Null);
      hide Inv;
      hide Locate;
      var loc := Find(key, s);
      if loc.None? { return None; }
      r := Some(match loc.value case InL0(i) => l0.entries[i].row case InPart(pi, ord) => parts[pi].rows[ord]);
    }

    method SealNow()
      requires Valid()
      modifies this`parts, this`nextPartId, this`filters, l0
      ensures Valid() && State() == Mvcc.Seal(old(State()))
    {
      SealKeepsInv(State(), h, floor, clock.Now());
      SealKeepsReadable(State(), h, floor, clock.Now());
      PartsAreOk(State(), h, floor, clock.Now());
      hide Inv;
      SealLocked();
    }

    /** Plan and install a merge of every part, and build the new part's filter. */
    method MergeAll(newId: nat, horizon: Csn, startedAt: Csn)
      requires parts != [] && Filtered() && Readable(parts) && UniqueIds(parts) && RealStamps(parts)
      requires AllPresent(parts, IdsOf(parts)) && IdsBelow(parts, newId)
      modifies this`parts, this`filters
      ensures parts == MergedParts(old(parts), newId, horizon, startedAt) && Filtered()
    {
      hide ApplyPlan;
      hide PlanMerge;
      hide MapsTo;
      hide PlanShape;
      hide RealStamps;
      hide UniqueIds;
      hide AllPresent;
      hide Readable;
      hide HasFilter;
      var caps := CapsOf(parts);
      var plan, mapping := BuildPlan(parts, caps, newId, horizon, startedAt);
      PlanIsShaped(parts, caps, newId, horizon, startedAt);
      Register(newId, plan.value.merged.rows);
      AppliedParts(parts, plan.value);
      ghost var was := parts;
      var merged;
      parts, merged := InstallPlan(parts, plan.value, mapping);
      forall i | 0 <= i < |parts| ensures HasFilter(parts[i].id, parts[i].rows) {
        if parts[i] in was {
          var j :| 0 <= j < |was| && was[j] == parts[i];
          assert was[j].id != newId;
        }
      }
    }

    /** `force_compact` with nobody in between: merge every part, drop what no
        snapshot from the horizon up can see. */
    method ForceCompact(horizon: Csn) returns (merged: nat)
      requires Valid() && horizon <= clock.Now()
      modifies this
      ensures Valid() && h == old(h) && floor == (if old(parts) != [] && horizon > old(floor) then horizon else old(floor))
      ensures merged == |old(parts)| && (merged == 0 ==> State() == old(State()))
      ensures merged > 0 ==> State() == MergeTable(old(State()), old(parts), horizon, clock.Now())
    {
      hide Inv;
      hide ApplyPlan;
      hide PlanMerge;
      hide RealStamps;
      hide UniqueIds;
      hide AllPresent;
      hide Indexes;
      hide Readable;
      hide Filtered;
      hide IdsBelow;
      PartsAreOk(State(), h, floor, clock.Now());
      merged := |parts|;
      if parts == [] { return; }
      WholeMerge(State(), h, floor, clock.Now(), horizon);
      var newId := nextPartId;
      nextPartId := nextPartId + 1;
      var startedAt := clock.Current();
      MergeAll(newId, horizon, startedAt);
      floor := if horizon > floor then horizon else floor;
    }
  }

  function CapsOf(parts: seq<Part>): seq<Dv> { seq(|parts|, i requires 0 <= i < |parts| => parts[i].dv) }

  function MergedParts(parts: seq<Part>, newId: nat, horizon: Csn, startedAt: Csn): seq<Part>
    requires parts != [] && Readable(parts)
  {
    ApplyPlan(parts, PlanMerge(parts, CapsOf(parts), newId, horizon, startedAt).value)
  }

  /** What the part list holds once a plan is installed. */
  lemma {:induction false} AppliedParts(parts: seq<Part>, plan: Plan)
    requires AllPresent(parts, plan.sourceIds)
    ensures forall q :: q in ApplyPlan(parts, plan) ==> q in parts || (q.id == plan.merged.id && q.rows == plan.merged.rows)
  {
    hide AllPresent;
    hide Replayed;
    hide Retain;
    forall q | q in Retain(parts, plan.sourceIds) ensures q in parts { RetainMembers(parts, plan.sourceIds, q); }
  }

  lemma {:induction false} PartsAreOk(t: Table, h: seq<Op>, floor: Csn, cur: Csn)
    requires Inv(t, h, floor, cur)
    ensures IdsBelow(t.parts, t.nextPartId) && AllFine(t.parts)
  {
    forall i | 0 <= i < |t.parts| ensures t.parts[i].Ok() { assert PartOk(t.parts[i], cur); }
  }

  /** Located versions are live, and a part's tombstones are real. */
  lemma {:induction false} LiveOnes(t: Table, h: seq<Op>, floor: Csn, cur: Csn, key: Value)
    requires Inv(t, h, floor, cur) && Readable(t.parts)
    ensures var r := Locate(t, key, cur);
      r.Some? ==> VersionIn(t, r.value).deleted == NEVER && (r.value.InPart? ==> r.value.ord !in t.parts[r.value.part].dv)
  {
    LocatedIsLive(t, key, cur);
  }

  lemma {:induction false} DeleteIsTombstone(t: Table, key: Value, cur: Csn, csn: Csn)
    requires Readable(t.parts) && Locate(t, key, cur).Some?
    ensures Mvcc.Write(t, Op.Del(key, csn), cur) == Tombstone(t, Locate(t, key, cur).value, csn)
  {
  }

  /** The specified step, spelled out along the branches of the code. */
  lemma {:induction false} Steps(t: Table, h: seq<Op>, floor: Csn, cur: Csn, call: Call, threshold: nat)
    requires Inv(t, h, floor, cur) && Readable(t.parts) && cur + 1 < NEVER
    ensures var (t', cur', out) := Execute(t, cur, call, threshold);
      && Inv(t', if out.Done? then h + [call.AsOp(out.csn)] else h, floor, cur') && Readable(t'.parts)
      && (Execute(t, cur, call, threshold) ==
          if call.Insert? && Locate(t, call.Key(), cur).Some? then (t, cur, DuplicateKey)
          else if (call.Update? || call.Delete?) && Locate(t, call.Key(), cur).None? then (t, cur, KeyNotFound)
          else (if call.Delete? then Mvcc.Write(t, call.AsOp(cur + 1), cur)
                else MaybeSeal(Mvcc.Write(t, call.AsOp(cur + 1), cur), threshold), cur + 1, Done(cur + 1)))
  {
    ExecuteKeepsInv(t, h, floor, cur, call, threshold);
    ExecuteReadable(t, cur, call, threshold);
    LocatedIsLive(t, call.Key(), cur);
  }

  lemma {:induction false} SealKeepsReadable(t: Table, h: seq<Op>, floor: Csn, cur: Csn)
    requires Inv(t, h, floor, cur)
    ensures Readable(Mvcc.Seal(t).parts)
  {
    SealShape(t, cur);
    ReadableFromShape(Mvcc.Seal(t), cur);
  }

  lemma {:induction false} WholeMerge(t: Table, h: seq<Op>, floor: Csn, cur: Csn, horizon: Csn)
    requires Inv(t, h, floor, cur) && Readable(t.parts) && horizon <= cur && t.parts != []
    ensures var t' := MergeTable(t, t.parts, horizon, cur);
      Inv(t', h, if horizon > floor then horizon else floor, cur) && Readable(t'.parts)
    ensures UniqueIds(t.parts) && RealStamps(t.parts) && AllPresent(t.parts, IdsOf(t.parts))
  {
    var chosen: seq<nat> := seq(|t.parts|, i => i);
    assert Picked(t.parts, chosen) == t.parts;
    MergeKeepsInv(t, chosen, horizon, h, floor, cur);
    var t' := MergeTable(t, t.parts, horizon, cur);
    ReadableFromShape(t', cur);
    forall i, o | 0 <= i < |t.parts| && o in t.parts[i].dv ensures t.parts[i].dv[o] != NEVER { assert PartOk(t.parts[i], cur); }
    forall id | id in IdsOf(t.parts) ensures Holds(t.parts, id).Some? {
      var i :| 0 <= i < |t.parts| && IdsOf(t.parts)[i] == id;
    }
  }

  lemma {:induction false} PlanIsShaped(sources: seq<Part>, caps: seq<Dv>, newId: nat, horizon: Csn, startedAt: Csn)
    requires sources != [] && |sources| == |caps| && Readable(sources)
    ensures PlanMerge(sources, caps, newId, horizon, startedAt).Some?
    ensures PlanShape(PlanMerge(sources, caps, newId, horizon, startedAt).value)
    ensures PlanMerge(sources, caps, newId, horizon, startedAt).value.sourceIds == IdsOf(sources)
    ensures PlanMerge(sources, caps, newId, horizon, startedAt).value.merged.id == newId
  {
    hide Collect;
  }
}
