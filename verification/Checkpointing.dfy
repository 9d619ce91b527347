/** A crash at any I/O call of a checkpoint loses nothing and repeats nothing
    (src/storage.rs:572-635). */
module Checkpointing {
  import opened Bags
  import opened Values
  import opened Wrappers
  import opened Mvcc
  import opened Compaction
  import opened Protocol
  import opened Replaying
  import opened Storage
  import opened Recovery

  // ---- sealed tables -------------------------------------------------------

  lemma {:induction false} SealKeepsTab(t: Table, base: Table, past: seq<Op>, tail: seq<Op>, ckpt: Csn, floor: Csn, cur: Csn)
    requires TabOk(t, base, past, tail, floor, cur) && Base(base, past, ckpt)
    ensures TabOk(Seal(t), base, past, tail, floor, cur) && Seal(t).l0 == []
  {
    SealKeepsInv(t, past + tail, floor, cur);
    SealTracks(t, base, past, ckpt, tail);
  }

  lemma {:induction false} BasesFromDisk(d: Disk, st: ManifestState, w: Witness)
    requires DiskOk(d, st, w)
    ensures BasesOk(w, st.checkpoint)
  {
    forall t | 0 <= t < |w.base| ensures Base(w.base[t], Of(w.past, t), st.checkpoint) {
      assert TableDiskOk(d, t, st.metas[t], w.base[t], Of(w.past, t), Of(w.tail, t), st.checkpoint);
    }
  }

  lemma {:induction false} SealAllKeepsTabs(mem: Mem, d: Disk, w: Witness, floor: Csn)
    requires DbInv(mem, d, w, floor)
    ensures TabsOk(SealAll(mem.tabs), mem.cur, w, mem.st.checkpoint, floor)
    ensures forall t :: 0 <= t < |w.base| ==> SealAll(mem.tabs)[t].l0 == []
  {
    BasesFromDisk(d, mem.st, w);
    forall t | 0 <= t < |w.base|
      ensures TabOk(SealAll(mem.tabs)[t], w.base[t], Of(w.past, t), Of(w.tail, t), floor, mem.cur)
      ensures SealAll(mem.tabs)[t].l0 == []
    {
      assert TabOk(mem.tabs[t], w.base[t], Of(w.past, t), Of(w.tail, t), floor, mem.cur);
      SealKeepsTab(mem.tabs[t], w.base[t], Of(w.past, t), Of(w.tail, t), mem.st.checkpoint, floor, mem.cur);
    }
  }

  // ---- phase 1 is legal ----------------------------------------------------

  lemma {:induction false} PersistedMembers(st: ManifestState, t: nat, id: nat)
    ensures (t, id) in PersistedOf(st) <==> t < |st.metas| && id in st.metas[t].partIds
    ensures (t, id) in PersistedOf(st) ==> PersistedOf(st)[(t, id)] == st.checkpoint
  {
  }

  lemma {:induction false} BaseIsReloaded(fs: seq<Frame>, base: Part, tail: seq<Op>)
    requires Loads(fs, base, tail)
    ensures base == Reloaded(base)
  {
    var p := DecodePart(fs).value;
    assert p == base.(dv := p.dv);
    assert base == p.(dv := base.dv);
  }

  lemma {:induction false} TableIsWritable(mem: Mem, d: Disk, w: Witness, floor: Csn, t: nat)
    requires DbInv(mem, d, w, floor) && t < |w.base|
    requires TabsOk(SealAll(mem.tabs), mem.cur, w, mem.st.checkpoint, floor)
    ensures TableWritable(d, mem.persisted, t, SealAll(mem.tabs)[t], w.base[t], Of(w.tail, t), mem.st.checkpoint, mem.cur)
  {
    var (tab, base, tail, ckpt) := (SealAll(mem.tabs)[t], w.base[t], Of(w.tail, t), mem.st.checkpoint);
    assert TableDiskOk(d, t, mem.st.metas[t], base, Of(w.past, t), tail, ckpt);
    assert TabOk(tab, base, Of(w.past, t), tail, floor, mem.cur);
    OfAscending(w.tail, ckpt, t);
    forall i | 0 <= i < |tab.parts| ensures Writable(d, mem.persisted, t, tab.parts[i], base, tail, ckpt) {
      var p := tab.parts[i];
      PersistedMembers(mem.st, t, p.id);
      if (t, p.id) in mem.persisted {
        var j :| 0 <= j < |base.parts| && IdsOf(base.parts)[j] == p.id;
        assert TracksPart(p, base.parts[j], tail);
        assert PartOk(base.parts[j], ckpt);
        BaseIsReloaded(FileAt(d, PartFile(t, p.id)).durable, base.parts[j], tail);
      }
    }
  }

  lemma {:induction false} TableIosLegal(mem: Mem, w: Witness, tabs: seq<Table>, t: nat, parts: seq<Part>)
    requires |tabs| == |w.base| == |mem.st.metas| && t < |tabs| && mem.persisted == PersistedOf(mem.st)
    requires mem.st.metas[t].partIds == IdsOf(w.base[t].parts)
    requires UniqueIds(tabs[t].parts) && forall i :: 0 <= i < |parts| ==> parts[i] in tabs[t].parts
    ensures forall i :: 0 <= i < |TableIos(mem.persisted, t, parts)| ==>
      PhaseOneIo(TableIos(mem.persisted, t, parts)[i], w, tabs, mem.st.checkpoint)
  {
    if parts != [] {
      var n := |parts| - 1;
      var p := parts[n];
      TableIosLegal(mem, w, tabs, t, parts[..n]);
      PersistedMembers(mem.st, t, p.id);
      HoldsAt(tabs[t].parts, IndexOf(tabs[t].parts, p));
      var ios := PartIos(mem.persisted, t, p);
      forall i | 0 <= i < |ios| ensures PhaseOneIo(ios[i], w, tabs, mem.st.checkpoint) {
        PartIosPath(mem.persisted, t, p);
      }
    }
  }

  lemma {:induction false} PartsIosLegal(mem: Mem, w: Witness, tabs: seq<Table>, n: nat)
    requires |tabs| == |w.base| == |mem.st.metas| && n <= |tabs| && mem.persisted == PersistedOf(mem.st)
    requires forall t :: 0 <= t < |tabs| ==> mem.st.metas[t].partIds == IdsOf(w.base[t].parts) && UniqueIds(tabs[t].parts)
    ensures forall i :: 0 <= i < |PartsIos(mem.persisted, tabs[..n])| ==>
      PhaseOneIo(PartsIos(mem.persisted, tabs[..n])[i], w, tabs, mem.st.checkpoint)
  {
    hide TableIos;
    hide PhaseOneIo;
    if n > 0 {
      PartsIosLegal(mem, w, tabs, n - 1);
      assert tabs[..n][..n-1] == tabs[..n-1];
      TableIosLegal(mem, w, tabs, n - 1, tabs[n-1].parts);
    }
  }

  lemma {:induction false} PhaseOneStarts(mem: Mem, d: Disk, w: Witness, tabs: seq<Table>)
    requires Settled(d, mem, w) && |tabs| == |w.base|
    ensures PhaseOne(d, d, w, tabs, mem.st.checkpoint)
  {
  }

  /** A crash during phase 1 recovers the very same log from the old manifest. */
  lemma {:induction false} PhaseOneCrash(mem: Mem, d: Disk, w: Witness, floor: Csn, ios: seq<Io>)
    requires DbInv(mem, d, w, floor) && ios <= PartsIos(mem.persisted, SealAll(mem.tabs))
    ensures DiskOk(Exec(d, ios), mem.st, w)
    ensures FileAt(Exec(d, ios), WalFile) == FileAt(d, WalFile)
  {
    var tabs := SealAll(mem.tabs);
    SealAllKeepsTabs(mem, d, w, floor);
    forall t | 0 <= t < |tabs|
      ensures mem.st.metas[t].partIds == IdsOf(w.base[t].parts) && UniqueIds(tabs[t].parts)
      ensures Tracks(tabs[t], w.base[t], Of(w.tail, t))
    {
      assert TableDiskOk(d, t, mem.st.metas[t], w.base[t], Of(w.past, t), Of(w.tail, t), mem.st.checkpoint);
      assert TabOk(tabs[t], w.base[t], Of(w.past, t), Of(w.tail, t), floor, mem.cur);
    }
    PartsIosLegal(mem, w, tabs, |tabs|);
    assert tabs[..|tabs|] == tabs;
    PhaseOneStarts(mem, d, w, tabs);
    PhaseOneRuns(d, w, tabs, mem.st.checkpoint, ios);
    PhaseOneRecovers(Exec(d, ios), d, mem.st, w, tabs);
  }

  // ---- the new base --------------------------------------------------------

  function ReloadedTable(t: Table): Table {
    Table([], seq(|t.parts|, i requires 0 <= i < |t.parts| => Reloaded(t.parts[i])), t.nextPartId)
  }

  function NewWitness(w: Witness, tabs: seq<Table>): Witness {
    Witness(w.past + w.tail, [], seq(|tabs|, t requires 0 <= t < |tabs| => ReloadedTable(tabs[t])))
  }

  lemma {:induction false} ReloadedOk(p: Part, cur: Csn)
    requires PartOk(p, cur)
    ensures PartOk(Reloaded(p), cur) && SameRows(p, Reloaded(p))
    ensures forall s :: PartRows(Reloaded(p), s) == PartRows(p, s)
  {
    var q := Reloaded(p);
    forall i | 0 <= i < |q.rows| ensures StampOk(q.VersionAt(i), cur) {
      assert StampOk(p.VersionAt(i), cur);
    }
    assert q.Versions() == p.Versions();
  }

  lemma {:induction false} ReloadedBase(t: Table, h: seq<Op>, floor: Csn, cur: Csn)
    requires Inv(t, h, floor, cur) && t.l0 == []
    ensures Base(ReloadedTable(t), h, cur)
  {
    var r := ReloadedTable(t);
    forall i | 0 <= i < |t.parts|
      ensures PartOk(r.parts[i], cur) && (forall s :: PartVis(s)(r.parts[i]) == PartVis(s)(t.parts[i]))
    {
      assert PartOk(t.parts[i], cur);
      ReloadedOk(t.parts[i], cur);
    }
    forall s | cur <= s < NEVER ensures Agrees(r, h, s) {
      assert Agrees(t, h, s);
      SumCongruent(r.parts, PartVis(s), t.parts, PartVis(s));
    }
  }

  lemma {:induction false} ReloadedTracks(t: Table, h: seq<Op>, floor: Csn, cur: Csn)
    requires Inv(t, h, floor, cur) && t.l0 == []
    ensures Tracks(t, ReloadedTable(t), [])
  {
    var r := ReloadedTable(t);
    forall i, j | 0 <= i < |t.parts| && 0 <= j < |r.parts| ensures TracksPart(t.parts[i], r.parts[j], []) {
      if t.parts[i].id == r.parts[j].id {
        assert i == j;
        assert PartOk(t.parts[i], cur);
        assert Expected(r.parts[i], []) == t.parts[i].dv;
      }
    }
  }

  lemma {:induction false} NewBases(tabs: seq<Table>, cur: Csn, w: Witness, ckpt: Csn, floor: Csn)
    requires TabsOk(tabs, cur, w, ckpt, floor) && forall t :: 0 <= t < |tabs| ==> tabs[t].l0 == []
    ensures TabsOk(tabs, cur, NewWitness(w, tabs), cur, floor)
    ensures BasesOk(NewWitness(w, tabs), cur)
    ensures NewWitness(w, tabs).Log() == w.Log()
  {
    var w' := NewWitness(w, tabs);
    assert w'.past + [] == w'.past;
    forall t | 0 <= t < |tabs|
      ensures Base(w'.base[t], Of(w'.past, t), cur)
      ensures TabOk(tabs[t], w'.base[t], Of(w'.past, t), Of(w'.tail, t), floor, cur)
    {
      assert TabOk(tabs[t], w.base[t], Of(w.past, t), Of(w.tail, t), floor, cur);
      OfAppend(w.past, w.tail, t);
      ReloadedBase(tabs[t], Of(w'.past, t), floor, cur);
      ReloadedTracks(tabs[t], Of(w'.past, t), floor, cur);
      assert Of(w'.past, t) + [] == Of(w'.past, t);
    }
  }

  // ---- phases 2 and 3 ------------------------------------------------------

  /** From the manifest switch on: the new catalog is durable, every live part is
      on disk exactly, and nothing in the log lies beyond the checkpoint. */
  ghost predicate PhaseTwo(d: Disk, tabs: seq<Table>, cur: Csn) {
    && LastCatalog(FileAt(d, ManifestFile).durable) == Some(CatalogOf(tabs, cur))
    && StampsUpTo(FileAt(d, WalFile).durable, cur) && StampsUpTo(FileAt(d, WalFile).live, cur)
    && forall t, i :: 0 <= t < |tabs| && 0 <= i < |tabs[t].parts| ==>
         Exact(FileAt(d, PartFile(t, tabs[t].parts[i].id)), tabs[t].parts[i])
  }

  ghost predicate PhaseTwoIo(io: Io, tabs: seq<Table>, cur: Csn) {
    match io
    case Truncate(p) => p == WalFile
    case Append(p, fs) => p == WalFile && StampsUpTo(fs, cur)
    case Sync(p) => p == WalFile
    case Remove(p) => p.PartFile? && p.table < |tabs| && p.part !in IdsOf(tabs[p.table].parts)
  }

  lemma {:induction false} PhaseTwoRuns(d: Disk, tabs: seq<Table>, cur: Csn, ios: seq<Io>)
    requires PhaseTwo(d, tabs, cur) && forall i :: 0 <= i < |ios| ==> PhaseTwoIo(ios[i], tabs, cur)
    ensures PhaseTwo(Exec(d, ios), tabs, cur)
  {
    if ios != [] {
      var n := |ios| - 1;
      PhaseTwoRuns(d, tabs, cur, ios[..n]);
      var (d1, io) := (Exec(d, ios[..n]), ios[n]);
      assert PhaseTwoIo(io, tabs, cur);
      forall t, i | 0 <= t < |tabs| && 0 <= i < |tabs[t].parts|
        ensures Exact(FileAt(Exec1(d1, io), PartFile(t, tabs[t].parts[i].id)), tabs[t].parts[i])
      {
        assert tabs[t].parts[i].id == IdsOf(tabs[t].parts)[i];
        assert FileAt(Exec1(d1, io), PartFile(t, tabs[t].parts[i].id)) == FileAt(d1, PartFile(t, tabs[t].parts[i].id));
      }
    }
  }

  lemma {:induction false} NoTail(fs: seq<Frame>, ckpt: Csn)
    requires StampsUpTo(fs, ckpt)
    ensures TailOf(fs, ckpt) == []
  {
    if fs != [] {
      var n := |fs| - 1;
      assert forall i :: 0 <= i < n ==> fs[..n][i] == fs[i];
      NoTail(fs[..n], ckpt);
    }
  }

  lemma {:induction false} ExactLoads(f: File, p: Part)
    requires Exact(f, p)
    ensures Loads(f.durable, Reloaded(p), [])
  {
  }

  lemma {:induction false} PhaseTwoRecovers(d: Disk, tabs: seq<Table>, cur: Csn, w: Witness)
    requires PhaseTwo(d, tabs, cur) && cur < NEVER && |tabs| == |w.base|
    requires BasesOk(NewWitness(w, tabs), cur)
    ensures DiskOk(d, CatalogOf(tabs, cur), NewWitness(w, tabs))
  {
    var (st, w') := (CatalogOf(tabs, cur), NewWitness(w, tabs));
    NoTail(FileAt(d, WalFile).durable, cur);
    forall t | 0 <= t < |w'.base|
      ensures TableDiskOk(d, t, st.metas[t], w'.base[t], Of(w'.past, t), Of(w'.tail, t), st.checkpoint)
    {
      assert IdsOf(w'.base[t].parts) == IdsOf(tabs[t].parts);
      forall i | 0 <= i < |w'.base[t].parts|
        ensures Loads(FileAt(d, PartFile(t, w'.base[t].parts[i].id)).durable, w'.base[t].parts[i], Of(w'.tail, t))
      {
        ExactLoads(FileAt(d, PartFile(t, tabs[t].parts[i].id)), tabs[t].parts[i]);
      }
    }
  }

  lemma {:induction false} DeadLegal(was: ManifestState, tabs: seq<Table>, cur: Csn, t: nat, ids: seq<nat>)
    requires t < |tabs|
    ensures forall i :: 0 <= i < |DeadIos(was, CatalogOf(tabs, cur), t, ids)| ==>
      PhaseTwoIo(DeadIos(was, CatalogOf(tabs, cur), t, ids)[i], tabs, cur)
  {
    if ids != [] {
      DeadLegal(was, tabs, cur, t, ids[..|ids|-1]);
    }
  }

  lemma {:induction false} AllDeadLegal(was: ManifestState, tabs: seq<Table>, cur: Csn, n: nat)
    requires n <= |was.metas| && n <= |tabs|
    ensures forall i :: 0 <= i < |AllDeadIos(was, CatalogOf(tabs, cur), n)| ==>
      PhaseTwoIo(AllDeadIos(was, CatalogOf(tabs, cur), n)[i], tabs, cur)
  {
    if n > 0 {
      AllDeadLegal(was, tabs, cur, n - 1);
      DeadLegal(was, tabs, cur, n - 1, was.metas[n-1].partIds);
    }
  }

  /** Everything in the log is at most the store's clock. */
  lemma {:induction false} LogBelowClock(mem: Mem, d: Disk, w: Witness, floor: Csn)
    requires DbInv(mem, d, w, floor)
    ensures StampsUpTo(FileAt(d, WalFile).live, mem.cur)
  {
    hide TableDiskOk;
    hide TabOk;
    hide PersistedOf;
    hide TailOf;
    hide LastCatalog;
    OfAscending(w.tail, mem.st.checkpoint, 0);
  }

  function SwitchIos(st: ManifestState): seq<Io> {
    [Truncate(ManifestFile), Append(ManifestFile, [Catalog(st)]), Sync(ManifestFile)]
  }

  /** The switch: old catalog until its sync, the new one from then on. */
  lemma {:induction false} SwitchRuns(d: Disk, st: ManifestState, k: nat)
    requires k <= 3
    ensures forall p :: p != ManifestFile ==> FileAt(Exec(d, SwitchIos(st)[..k]), p) == FileAt(d, p)
    ensures k < 3 ==> FileAt(Exec(d, SwitchIos(st)[..k]), ManifestFile).durable == FileAt(d, ManifestFile).durable
    ensures k == 3 ==> LastCatalog(FileAt(Exec(d, SwitchIos(st)[..k]), ManifestFile).durable) == Some(st)
  {
    var ios := SwitchIos(st);
    assert ios[..0] == [] && ios[..1] == [ios[0]] && ios[..2] == [ios[0], ios[1]] && ios[..3] == ios[..2] + [ios[2]];
    ExecOne(d, ios[0]);
    ExecTwo(d, ios[0], ios[1]);
    ExecAppend(d, ios[..2], [ios[2]]);
    ExecOne(Exec(d, ios[..2]), ios[2]);
  }

  lemma {:induction false} ManifestLiveOnly(d: Disk, d': Disk, st: ManifestState, w: Witness)
    requires DiskOk(d, st, w) && forall p :: FileAt(d', p).durable == FileAt(d, p).durable
    ensures DiskOk(d', st, w)
  {
    hide Loads;
    forall t | 0 <= t < |w.base|
      ensures TableDiskOk(d', t, st.metas[t], w.base[t], Of(w.past, t), Of(w.tail, t), st.checkpoint)
    {
      assert TableDiskOk(d, t, st.metas[t], w.base[t], Of(w.past, t), Of(w.tail, t), st.checkpoint);
    }
  }

  /** The disk right after the manifest switch. */
  lemma {:induction false} SwitchedDisk(mem: Mem, d: Disk, w: Witness, floor: Csn)
    requires DbInv(mem, d, w, floor)
    ensures var tabs := SealAll(mem.tabs);
      var ios := PartsIos(mem.persisted, tabs) + SwitchIos(CatalogOf(tabs, mem.cur));
      PhaseTwo(Exec(d, ios), tabs, mem.cur)
  {
    hide TableWritable;
    hide Exact;
    hide Exec;
    hide PartsIos;
    hide TableDiskOk;
    hide TabOk;
    var tabs := SealAll(mem.tabs);
    var (a, m) := (PartsIos(mem.persisted, tabs), SwitchIos(CatalogOf(tabs, mem.cur)));
    SealAllKeepsTabs(mem, d, w, floor);
    PhaseOneCrash(mem, d, w, floor, a);
    forall t | 0 <= t < |tabs|
      ensures TableWritable(d, mem.persisted, t, tabs[t], w.base[t], Of(w.tail, t), mem.st.checkpoint, mem.cur)
    {
      TableIsWritable(mem, d, w, floor, t);
    }
    PartsUpdated(d, mem.persisted, tabs, w, mem.st.checkpoint, mem.cur);
    LogBelowClock(mem, d, w, floor);
    SwitchRuns(Exec(d, a), CatalogOf(tabs, mem.cur), 3);
    assert m[..3] == m;
    ExecAppend(d, a, m);
  }

  lemma {:induction false} ResetLegal(mem: Mem, tabs: seq<Table>)
    ensures forall i :: 0 <= i < |LogResetIos(mem)| ==> PhaseTwoIo(LogResetIos(mem)[i], tabs, mem.cur)
  {
  }

  /** The checkpoint's I/O after the manifest switch. */
  function AfterSwitch(mem: Mem): seq<Io>
    requires |mem.st.metas| == |mem.tabs|
  {
    AllDeadIos(mem.st, CatalogOf(SealAll(mem.tabs), mem.cur), |mem.tabs|) + LogResetIos(mem)
  }

  function BeforeSwitch(mem: Mem): seq<Io> { PartsIos(mem.persisted, SealAll(mem.tabs)) }

  function NewCatalog(mem: Mem): ManifestState { CatalogOf(SealAll(mem.tabs), mem.cur) }

  lemma {:induction false} AfterSwitchRuns(mem: Mem, d: Disk, w: Witness, floor: Csn, ios: seq<Io>)
    requires DbInv(mem, d, w, floor) && ios <= AfterSwitch(mem)
    ensures PhaseTwo(Exec(d, BeforeSwitch(mem) + SwitchIos(NewCatalog(mem)) + ios), SealAll(mem.tabs), mem.cur)
    ensures DiskOk(Exec(d, BeforeSwitch(mem) + SwitchIos(NewCatalog(mem)) + ios), NewCatalog(mem), NewWitness(w, SealAll(mem.tabs)))
  {
    var tabs := SealAll(mem.tabs);
    var ios0 := PartsIos(mem.persisted, tabs) + SwitchIos(CatalogOf(tabs, mem.cur));
    SwitchedDisk(mem, d, w, floor);
    AllDeadLegal(mem.st, tabs, mem.cur, |tabs|);
    ResetLegal(mem, tabs);
    PhaseTwoRuns(Exec(d, ios0), tabs, mem.cur, ios);
    ExecAppend(d, ios0, ios);
    SealAllKeepsTabs(mem, d, w, floor);
    NewBases(tabs, mem.cur, w, mem.st.checkpoint, floor);
    PhaseTwoRecovers(Exec(d, ios0 + ios), tabs, mem.cur, w);
  }

  // ---- the theorem for checkpoints -----------------------------------------

  lemma {:induction false} ScriptOf(mem: Mem)
    requires |mem.st.metas| == |mem.tabs|
    ensures DoCheckpoint(mem).ios == BeforeSwitch(mem) + SwitchIos(NewCatalog(mem)) + AfterSwitch(mem)
  {
  }

  lemma {:induction false} SwitchCrash(mem: Mem, d: Disk, w: Witness, floor: Csn, k: nat)
    requires DbInv(mem, d, w, floor) && k < 3
    ensures DiskOk(Exec(d, BeforeSwitch(mem) + SwitchIos(NewCatalog(mem))[..k]), mem.st, w)
  {
    var (a, m) := (BeforeSwitch(mem), SwitchIos(NewCatalog(mem))[..k]);
    PhaseOneCrash(mem, d, w, floor, a);
    ExecAppend(d, a, m);
    SwitchRuns(Exec(d, a), NewCatalog(mem), k);
    forall p ensures FileAt(Exec(d, a + m), p).durable == FileAt(Exec(d, a), p).durable {
      assert p != ManifestFile ==> FileAt(Exec(d, a + m), p) == FileAt(Exec(d, a), p);
    }
    hide DiskOk;
    ManifestLiveOnly(Exec(d, a), Exec(d, a + m), mem.st, w);
  }

  lemma {:induction false} CutInFirst<T>(a: seq<T>, m: seq<T>, b: seq<T>, k: nat)
    requires k <= |a|
    ensures (a + m + b)[..k] == a[..k]
  {
  }

  lemma {:induction false} CutInSecond<T>(a: seq<T>, m: seq<T>, b: seq<T>, k: nat)
    requires k <= |m|
    ensures (a + m + b)[..|a| + k] == a + m[..k]
  {
  }

  lemma {:induction false} CutInThird<T>(a: seq<T>, m: seq<T>, b: seq<T>, k: nat)
    requires k <= |b|
    ensures (a + m + b)[..|a| + |m| + k] == a + m + b[..k]
  {
  }

  lemma {:induction false} CrashBeforeSwitch(mem: Mem, d: Disk, w: Witness, floor: Csn, k: nat)
    requires DbInv(mem, d, w, floor) && k <= |BeforeSwitch(mem)| && k <= |DoCheckpoint(mem).ios|
    ensures DiskOk(Exec(d, DoCheckpoint(mem).ios[..k]), mem.st, w)
  {
    assert DoCheckpoint(mem).ios[..k] == BeforeSwitch(mem)[..k] by {
      ScriptOf(mem);
      CutInFirst(BeforeSwitch(mem), SwitchIos(NewCatalog(mem)), AfterSwitch(mem), k);
    }
    PhaseOneCrash(mem, d, w, floor, BeforeSwitch(mem)[..k]);
  }

  lemma {:induction false} CrashInSwitch(mem: Mem, d: Disk, w: Witness, floor: Csn, j: nat)
    requires DbInv(mem, d, w, floor) && j < 3 && |BeforeSwitch(mem)| + j <= |DoCheckpoint(mem).ios|
    ensures DiskOk(Exec(d, DoCheckpoint(mem).ios[..|BeforeSwitch(mem)| + j]), mem.st, w)
  {
    var cut := SwitchIos(NewCatalog(mem))[..j];
    assert DoCheckpoint(mem).ios[..|BeforeSwitch(mem)| + j] == BeforeSwitch(mem) + cut by {
      ScriptOf(mem);
      CutInSecond(BeforeSwitch(mem), SwitchIos(NewCatalog(mem)), AfterSwitch(mem), j);
    }
    hide *;
    SwitchCrash(mem, d, w, floor, j);
  }

  lemma {:induction false} CrashAfterSwitch(mem: Mem, d: Disk, w: Witness, floor: Csn, j: nat)
    requires DbInv(mem, d, w, floor) && |BeforeSwitch(mem)| + 3 + j <= |DoCheckpoint(mem).ios|
    ensures DiskOk(Exec(d, DoCheckpoint(mem).ios[..|BeforeSwitch(mem)| + 3 + j]), NewCatalog(mem), NewWitness(w, SealAll(mem.tabs)))
  {
    hide *;
    SameTables(mem, d, w, floor);
    ScriptCut(mem, j);
    AfterSwitchRuns(mem, d, w, floor, AfterSwitch(mem)[..j]);
  }

  lemma {:induction false} SameTables(mem: Mem, d: Disk, w: Witness, floor: Csn)
    requires DbInv(mem, d, w, floor)
    ensures |mem.st.metas| == |mem.tabs|
  {
    hide TabOk;
    hide TableDiskOk;
  }

  /** A checkpoint cut some calls after the catalog switch. */
  lemma {:induction false} ScriptCut(mem: Mem, j: nat)
    requires |mem.st.metas| == |mem.tabs| && |BeforeSwitch(mem)| + 3 + j <= |DoCheckpoint(mem).ios|
    ensures j <= |AfterSwitch(mem)|
    ensures DoCheckpoint(mem).ios[..|BeforeSwitch(mem)| + 3 + j] == BeforeSwitch(mem) + SwitchIos(NewCatalog(mem)) + AfterSwitch(mem)[..j]
  {
    ScriptOf(mem);
    hide BeforeSwitch;
    hide AfterSwitch;
    hide DoCheckpoint;
    CutInThird(BeforeSwitch(mem), SwitchIos(NewCatalog(mem)), AfterSwitch(mem), j);
  }

  /** Crash after any number of a checkpoint's I/O calls: the disk recovers the
      same acknowledged log. */
  lemma {:induction false} CheckpointCrash(mem: Mem, d: Disk, w: Witness, floor: Csn, k: nat) returns (st: ManifestState, w': Witness)
    requires DbInv(mem, d, w, floor) && k <= |DoCheckpoint(mem).ios|
    ensures DiskOk(Exec(d, DoCheckpoint(mem).ios[..k]), st, w') && w'.Log() == w.Log() && |w'.base| == |w.base|
  {
    hide *;
    var n := |BeforeSwitch(mem)|;
    if k <= n {
      CrashBeforeSwitch(mem, d, w, floor, k);
      st, w' := mem.st, w;
    } else if k < n + 3 {
      CrashInSwitch(mem, d, w, floor, k - n);
      st, w' := mem.st, w;
    } else {
      CrashAfterSwitch(mem, d, w, floor, k - n - 3);
      SealsToNew(mem, d, w, floor);
      st, w' := NewCatalog(mem), NewWitness(w, SealAll(mem.tabs));
    }
  }

  lemma {:induction false} SealsToNew(mem: Mem, d: Disk, w: Witness, floor: Csn)
    requires DbInv(mem, d, w, floor)
    ensures NewWitness(w, SealAll(mem.tabs)).Log() == w.Log() && |NewWitness(w, SealAll(mem.tabs)).base| == |w.base|
    ensures TabsOk(SealAll(mem.tabs), mem.cur, NewWitness(w, SealAll(mem.tabs)), mem.cur, floor)
  {
    SealAllKeepsTabs(mem, d, w, floor);
    NewBases(SealAll(mem.tabs), mem.cur, w, mem.st.checkpoint, floor);
  }

  lemma {:induction false} LogEmptied(mem: Mem, d: Disk)
    requires |mem.st.metas| == |mem.tabs|
    ensures FileAt(Exec(d, DoCheckpoint(mem).ios), WalFile) == File([], [])
  {
    ScriptOf(mem);
    var head := BeforeSwitch(mem) + SwitchIos(NewCatalog(mem)) + (AllDeadIos(mem.st, NewCatalog(mem), |mem.tabs|) + LogIos(mem, Checkpointed(mem.cur)));
    var tail := [Truncate(WalFile), Sync(WalFile)];
    assert DoCheckpoint(mem).ios == head + tail;
    ExecAppend(d, head, tail);
    ExecTwo(Exec(d, head), tail[0], tail[1]);
  }

  /** A completed checkpoint leaves the store settled on the same log. */
  lemma {:induction false} CheckpointDone(mem: Mem, d: Disk, w: Witness, floor: Csn)
    requires DbInv(mem, d, w, floor)
    ensures DbInv(DoCheckpoint(mem).mem, Exec(d, DoCheckpoint(mem).ios), NewWitness(w, SealAll(mem.tabs)), floor)
    ensures NewWitness(w, SealAll(mem.tabs)).Log() == w.Log()
  {
    ScriptOf(mem);
    LogEmptied(mem, d);
    AfterSwitchRuns(mem, d, w, floor, AfterSwitch(mem));
    SealsToNew(mem, d, w, floor);
    var (tabs, d') := (SealAll(mem.tabs), Exec(d, DoCheckpoint(mem).ios));
    ExactSettled(d', tabs, mem.cur, w);
    hide DiskOk;
    hide TabsOk;
  }

  lemma {:induction false} ExactSettled(d: Disk, tabs: seq<Table>, cur: Csn, w: Witness)
    requires PhaseTwo(d, tabs, cur)
    ensures var w' := NewWitness(w, tabs);
      forall t, i :: 0 <= t < |w'.base| && 0 <= i < |w'.base[t].parts| ==>
        FileAt(d, PartFile(t, w'.base[t].parts[i].id)).live == FileAt(d, PartFile(t, w'.base[t].parts[i].id)).durable
  {
    var w' := NewWitness(w, tabs);
    forall t, i | 0 <= t < |w'.base| && 0 <= i < |w'.base[t].parts|
      ensures FileAt(d, PartFile(t, w'.base[t].parts[i].id)).live == FileAt(d, PartFile(t, w'.base[t].parts[i].id)).durable
    {
      assert Exact(FileAt(d, PartFile(t, tabs[t].parts[i].id)), tabs[t].parts[i]);
    }
  }
}
