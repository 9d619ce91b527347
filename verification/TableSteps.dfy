/** What the steps of a table achieve, besides keeping its invariant: calls change the
    rows, seals drain the buffer, merges reclaim what no one can see, and the shortcuts
    are taken exactly when they can be (src/table.rs:164-475, src/compaction.rs:107-219,
    src/part.rs:58-74, 310-313, src/csn.rs:82-101). */
module TableSteps {
  import opened Bags
  import opened Sorting
  import opened Values
  import opened Wrappers
  import opened Mvcc
  import opened Compaction
  import opened Protocol
  import opened Txn
  import opened StoreCalls

  // ---- steps of the system -------------------------------------------------

  /** A write call leaves the present state changed as it promises, and the clock one
      further if it succeeds; no other step changes the present state. */
  lemma {:induction false} StepChanges(s: Protocol.State, step: Protocol.Step)
    requires Good(s) && Enabled(s, step) && Readable(s.t.parts)
    ensures var (s', m) := (After(s, step), At(s.h, s.cur));
      if step.Call? && Changed(m, step.call).Some? then
        s'.cur == s.cur + 1 && At(s'.h, s'.cur) == Changed(m, step.call).value
      else At(s'.h, s'.cur) == m && s'.h == s.h && (step.Call? ==> s'.t == s.t && s'.cur == s.cur)
  {
    var s' := After(s, step);
    match step
    case Call(call, threshold) =>
      ExecuteOutcome(s.t, s.h, s.floor, s.cur, call, threshold);
      hide Execute;
      AtExtended(s.h, call.AsOp(s.cur + 1), s.cur + 1);
      PastKept(s);
      if s'.h == s.h { assert Changed(At(s.h, s.cur), call).None?; }
    case OtherTable => PastKept(s);
    case _ =>
  }

  lemma {:induction false} PastKept(s: Protocol.State)
    requires Good(s)
    ensures At(s.h, s.cur + 1) == At(s.h, s.cur)
  {
    AtBeyond(s.h, s.cur, s.cur + 1);
  }

  /** Releasing a pin undoes pinning. */
  lemma {:induction false} PinThenRelease(s: Protocol.State)
    requires Good(s) && forall c :: c in s.pins ==> s.pins[c] > 0
    ensures Enabled(s, Pin) && Readable(s.t.parts)
    ensures var s1 := After(s, Pin);
      && s.cur in s1.pins && s1.pins[s.cur] == (if s.cur in s.pins then s.pins[s.cur] + 1 else 1)
      && Enabled(s1, Release(s.cur)) && Readable(s1.t.parts) && After(s1, Release(s.cur)) == s
  {
    GoodReadable(s);
    var s1 := After(s, Pin);
    assert After(s1, Release(s.cur)).pins == s.pins;
  }

  /** A seal moves exactly the buffered versions into one new part, in front of the others. */
  lemma {:induction false} SealDrains(t: Table)
    ensures Seal(t).l0 == []
    ensures t.l0 == [] ==> Seal(t) == t
    ensures t.l0 != [] ==>
      && |Seal(t).parts| == |t.parts| + 1 && Seal(t).parts[1..] == t.parts && Seal(t).nextPartId == t.nextPartId + 1
      && var p := Seal(t).parts[0]; p.id == t.nextPartId && p.Ok() && multiset(p.Versions()) == multiset(t.l0)
  {
    VersionLePreorder();
    SortBySorted(t.l0, VersionLe);
    PartOfOk(t.nextPartId, SortBy(t.l0, VersionLe));
  }

  /** The buffer never holds as many versions as the threshold once it has been below it:
      a call that fills it up seals it. */
  lemma {:induction false} BufferBounded(t: Table, cur: Csn, call: Call, threshold: nat)
    requires Readable(t.parts) && |t.l0| < threshold
    ensures |Execute(t, cur, call, threshold).0.l0| < threshold
    ensures |Execute(t, cur, call, threshold).0.parts| <= |t.parts| + 1
    ensures |Execute(t, cur, call, threshold).0.parts| > |t.parts| ==> |t.l0| == threshold - 1
  {
    hide Locate;
    hide VersionIn;
    hide Readable;
    hide Write;
    hide Seal;
    var op := call.AsOp(cur + 1);
    WriteGrows(t, op, cur);
    SealDrains(Write(t, op, cur));
  }

  lemma {:induction false} WriteGrows(t: Table, op: Op, at: Csn)
    requires Readable(t.parts)
    ensures |Write(t, op, at).l0| == |t.l0| + (if op.Put? then 1 else 0) && |Write(t, op, at).parts| == |t.parts|
  {
    hide Locate;
    hide Readable;
  }

  // ---- merges --------------------------------------------------------------

  /** Versions of the sources with the deletions the merge captured. */
  ghost function CapturedVersions(sources: seq<Part>, caps: seq<Dv>): seq<Version>
    requires |sources| == |caps| && Readable(sources)
  {
    if sources == [] then []
    else sources[0].(dv := caps[0]).Versions() + CapturedVersions(sources[1..], caps[1..])
  }

  /** No snapshot from the horizon up can see the version. */
  ghost predicate Unreachable(v: Version, horizon: Csn) { forall s :: horizon <= s ==> !v.VisibleTo(s) }

  /** A version is dead to every snapshot from the horizon up exactly when its deletion
      is no later than the horizon. */
  lemma {:induction false} UnreachableWhen(v: Version, horizon: Csn)
    requires v.created < v.deleted
    ensures Unreachable(v, horizon) <==> v.deleted <= horizon
  {
    if v.deleted > horizon {
      var s := if v.created > horizon then v.created else horizon;
      assert v.VisibleTo(s);
    }
  }

  ghost predicate Alive(v: Version, horizon: Csn) { v.deleted > horizon }

  ghost function LiveOnly(vs: seq<Version>, horizon: Csn): (r: seq<Version>)
  {
    if vs == [] then [] else (if Alive(vs[0], horizon) then [vs[0]] else []) + LiveOnly(vs[1..], horizon)
  }

  lemma {:induction false} LiveCount(vs: seq<Version>, horizon: Csn, v: Version)
    ensures multiset(LiveOnly(vs, horizon))[v] == if Alive(v, horizon) then multiset(vs)[v] else 0
  {
    if vs != [] {
      LiveCount(vs[1..], horizon, v);
      assert vs == [vs[0]] + vs[1..];
      var head := if Alive(vs[0], horizon) then [vs[0]] else [];
      assert multiset(LiveOnly(vs, horizon)) == multiset(head) + multiset(LiveOnly(vs[1..], horizon));
    }
  }

  lemma {:induction false} LiveAppend(a: seq<Version>, b: seq<Version>, horizon: Csn)
    ensures LiveOnly(a + b, horizon) == LiveOnly(a, horizon) + LiveOnly(b, horizon)
  {
    if a == [] {
      assert a + b == b;
    } else {
      LiveAppend(a[1..], b, horizon);
      assert (a + b)[1..] == a[1..] + b;
    }
  }

  lemma {:induction false} KeptFromLive(p: Part, cap: Dv, horizon: Csn, ord: nat)
    requires p.stamps.Covers(|p.rows|) && ord <= |p.rows|
    ensures VersionsOf(KeptFrom(p, cap, horizon, ord)) == LiveOnly(p.(dv := cap).Versions()[ord..], horizon)
    decreases |p.rows| - ord
  {
    var vs := p.(dv := cap).Versions();
    if ord < |p.rows| {
      KeptFromLive(p, cap, horizon, ord + 1);
      assert vs[ord..][0] == vs[ord] && vs[ord..][1..] == vs[ord + 1..];
      var rest := KeptFrom(p, cap, horizon, ord + 1);
      var d := DeletedIn(cap, ord);
      assert vs[ord] == Version(p.rows[ord], p.stamps.At(ord), d);
      if d > horizon {
        var k := Kept(vs[ord], p.id, ord);
        assert VersionsOf([k] + rest) == [k.version] + VersionsOf(rest);
      } else {
        assert [] + rest == rest;
      }
    }
  }

  lemma {:induction false} CollectLive(sources: seq<Part>, caps: seq<Dv>, horizon: Csn)
    requires |sources| == |caps| && Readable(sources)
    ensures VersionsOf(Collect(sources, caps, horizon)) == LiveOnly(CapturedVersions(sources, caps), horizon)
  {
    if sources != [] {
      CollectLive(sources[1..], caps[1..], horizon);
      KeptFromLive(sources[0], caps[0], horizon, 0);
      var (a, b) := (sources[0].(dv := caps[0]).Versions(), CapturedVersions(sources[1..], caps[1..]));
      assert a[0..] == a;
      LiveAppend(a, b, horizon);
      var (x, y) := (KeptFrom(sources[0], caps[0], horizon), Collect(sources[1..], caps[1..], horizon));
      assert VersionsOf(x + y) == VersionsOf(x) + VersionsOf(y);
    }
  }

  ghost function OneVersion(): Kept -> multiset<Version> { (k: Kept) => multiset{k.version} }

  lemma {:induction false} VersionsAreSum(ks: seq<Kept>)
    ensures multiset(VersionsOf(ks)) == SumOver(ks, OneVersion())
  {
    if ks != [] {
      VersionsAreSum(ks[1..]);
      assert VersionsOf(ks) == [ks[0].version] + VersionsOf(ks[1..]);
    }
  }

  lemma {:induction false} SameBagVersions(a: seq<Kept>, b: seq<Kept>)
    requires multiset(a) == multiset(b)
    ensures multiset(VersionsOf(a)) == multiset(VersionsOf(b))
  {
    VersionsAreSum(a);
    VersionsAreSum(b);
    SumPermuted(a, b, OneVersion());
  }

  /** A merge keeps every version of its sources that some snapshot from the horizon up
      could see, each as often as it was there, and no other. */
  lemma {:induction false} MergeReclaims(sources: seq<Part>, caps: seq<Dv>, newId: nat, horizon: Csn, startedAt: Csn, v: Version)
    requires sources != [] && |sources| == |caps| && Readable(sources) && v.created < v.deleted
    ensures var plan := PlanMerge(sources, caps, newId, horizon, startedAt).value;
      multiset(VersionsOf(plan.kept))[v] == if Unreachable(v, horizon) then 0 else multiset(CapturedVersions(sources, caps))[v]
  {
    var ks := Collect(sources, caps, horizon);
    CollectLive(sources, caps, horizon);
    LiveCount(CapturedVersions(sources, caps), horizon, v);
    UnreachableWhen(v, horizon);
    SameBagVersions(SortBy(ks, KeptLe), ks);
  }

  /** Installing a plan whose sources are all there puts the one merged part in their
      place; otherwise nothing happens. */
  lemma {:induction false} InstallReplaces(parts: seq<Part>, plan: Plan, p: Part)
    ensures var after := ApplyPlan(parts, plan);
      if AllPresent(parts, plan.sourceIds) then
        && p in after <==> (p in parts && p.id !in plan.sourceIds) || p == plan.merged.(dv := Replayed(parts, plan))
      else after == parts
  {
    RetainMembers(parts, plan.sourceIds, p);
    hide Replayed;
    hide Retain;
  }

  // ---- shortcuts -----------------------------------------------------------

  /** The snapshot sees one of two rows but not the other. */
  ghost predicate TellsApart(s: Csn, a: Csn, b: Csn) { a <= s < b }

  /** Stamps are collapsed to one exactly when no snapshot from the horizon up can tell
      any two of them apart. */
  lemma {:induction false} CollapseExact(cs: seq<Csn>, horizon: Csn)
    ensures MaybeCollapse(PerRow(cs), horizon).Uniform?
      <==> forall i, j, s: Csn :: 0 <= i < |cs| && 0 <= j < |cs| && horizon <= s ==> !TellsApart(s, cs[i], cs[j])
  {
    if cs != [] {
      var (mn, mx) := (MinOf(cs), MaxOf(cs));
      var a :| 0 <= a < |cs| && cs[a] == mn;
      var b :| 0 <= b < |cs| && cs[b] == mx;
      if mn != mx && mx > horizon {
        var s := mx - 1;
        assert TellsApart(s, cs[a], cs[b]);
      }
    }
  }

  /** The test for reading a part whole is exact, if its greatest stamp is: it holds
      just when the snapshot sees every row. */
  lemma {:induction false} FullyVisibleExact(p: Part, s: Csn)
    requires p.Ok() && s < NEVER && exists i :: 0 <= i < |p.rows| && p.stamps.At(i) == p.createdMax
    ensures p.FullyVisibleTo(s) <==> forall i :: 0 <= i < |p.rows| ==> p.VersionAt(i).VisibleTo(s)
  {
    if forall i :: 0 <= i < |p.rows| ==> p.VersionAt(i).VisibleTo(s) {
      var i :| 0 <= i < |p.rows| && p.stamps.At(i) == p.createdMax;
      assert p.VersionAt(i).VisibleTo(s);
      forall o | o in p.dv ensures s < p.dv[o] { assert p.VersionAt(o).VisibleTo(s); }
    }
  }
}
