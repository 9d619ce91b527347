/** The durability theorem: every sequential run of writes, transactions,
    compactions and checkpoints, with power loss between any two I/O calls and any
    number of reopenings, keeps exactly the acknowledged operations. */
module CrashSafety {
  import opened Bags
  import opened Values
  import opened Wrappers
  import opened Mvcc
  import opened Reads
  import opened Compaction
  import opened Protocol
  import opened Replaying
  import opened Storage
  import opened Recovery
  import opened Checkpointing
  import opened Txn
  import opened StoreCalls

  datatype DbOp =
    | WriteOp(table: nat, call: Call)
    | CommitOp(writes: seq<TxnWrite>)
    | CompactOp(table: nat, chosen: seq<nat>, horizon: Csn)
    | CheckpointOp

  /** Callers name existing tables; the clock has not run out. */
  ghost predicate Allowed(mem: Mem, op: DbOp) {
    match op
    case WriteOp(t, _) => t < |mem.tabs| && mem.cur + 1 < NEVER
    case CommitOp(ws) => mem.cur + |ws| < NEVER && forall i :: 0 <= i < |ws| ==> ws[i].table < |mem.tabs|
    case CompactOp(t, chosen, horizon) =>
      && t < |mem.tabs| && horizon <= mem.cur && chosen != [] && Distinct(chosen)
      && forall i :: 0 <= i < |chosen| ==> chosen[i] < |mem.tabs[t].parts|
    case CheckpointOp => true
  }

  function Picked(parts: seq<Part>, chosen: seq<nat>): seq<Part>
    requires forall i :: 0 <= i < |chosen| ==> chosen[i] < |parts|
  {
    seq(|chosen|, i requires 0 <= i < |chosen| => parts[chosen[i]])
  }

  ghost function EffectOf(mem: Mem, op: DbOp, threshold: nat): Effect
    requires AllReadable(mem.tabs) && |mem.st.metas| == |mem.tabs| && Allowed(mem, op)
  {
    match op
    case WriteOp(t, call) => DoWrite(mem, t, call, threshold)
    case CommitOp(ws) => DoCommit(mem, ws, threshold)
    case CompactOp(t, chosen, horizon) =>
      Effect(mem.(tabs := mem.tabs[t := MergeTable(mem.tabs[t], Picked(mem.tabs[t].parts, chosen), horizon, mem.cur)]), [], [])
    case CheckpointOp => DoCheckpoint(mem)
  }

  // ---- logged operations ---------------------------------------------------

  /** A transaction's stamp is that of its last write. */
  lemma {:induction false} StampIsLast(rec: Record, ckpt: Csn)
    requires rec.One? || rec.Txn?
    requires var es := rec.Entries(); es != [] && forall i, j :: 0 <= i < j < |es| ==> es[i].op.csn < es[j].op.csn
    ensures rec.Stamp() == rec.Entries()[|rec.Entries()|-1].op.csn
  {
    var es := rec.Entries();
    if rec.Txn? {
      var cs := seq(|es|, i requires 0 <= i < |es| => es[i].op.csn);
      assert cs[|es|-1] <= MaxOf(cs);
      var i :| 0 <= i < |cs| && cs[i] == MaxOf(cs);
    }
  }

  lemma {:induction false} RecordContinues(rec: Record, w: Witness, ckpt: Csn)
    requires rec.One? || rec.Txn?
    requires rec.Entries() != [] && w.Ordered(ckpt) && Extended(w, rec.Entries()).Ordered(ckpt)
    ensures Continues(rec, w, ckpt)
  {
    StampAtEnd(rec, w.tail, ckpt);
    StampsGrow(w.tail, rec.Entries(), ckpt);
  }

  lemma {:induction false} StampAtEnd(rec: Record, tail: seq<Tagged>, ckpt: Csn)
    requires rec.One? || rec.Txn?
    requires rec.Entries() != []
    requires var log := tail + rec.Entries();
      && (forall i, j :: 0 <= i < j < |log| ==> log[i].op.csn < log[j].op.csn)
      && (forall i :: 0 <= i < |log| ==> ckpt < log[i].op.csn)
    ensures ckpt < rec.Stamp() == LastStamp(tail + rec.Entries(), ckpt)
  {
    var (es, log) := (rec.Entries(), tail + rec.Entries());
    forall i, j | 0 <= i < j < |es| ensures es[i].op.csn < es[j].op.csn {
      assert es[i] == log[|tail| + i] && es[j] == log[|tail| + j];
    }
    StampIsLast(rec, ckpt);
    LastStampIs(log, ckpt);
    assert log[|log|-1] == es[|es|-1];
  }

  lemma {:induction false} StampsGrow(a: seq<Tagged>, b: seq<Tagged>, ckpt: Csn)
    ensures LastStamp(a, ckpt) <= LastStamp(a + b, ckpt)
  {
    if b == [] {
      assert a + b == a;
    } else {
      StampsGrow(a, b[..|b|-1], ckpt);
      assert (a + b)[..|a + b|-1] == a + b[..|b|-1];
    }
  }

  /** After both I/O calls of a logged operation the store is settled again. */
  lemma {:induction false} LogDone(mem: Mem, d: Disk, w: Witness, floor: Csn, mem': Mem, rec: Record)
    requires DbInv(mem, d, w, floor)
    requires mem' == mem.(tabs := mem'.tabs, cur := mem'.cur)
    requires Continues(rec, w, mem.st.checkpoint)
    requires TabsOk(mem'.tabs, mem'.cur, Extended(w, rec.Entries()), mem.st.checkpoint, floor)
    ensures LogIos(mem', rec) == LogIos(mem, rec)
    ensures DbInv(LogMem(mem'), Exec(d, LogIos(mem, rec)), Extended(w, rec.Entries()), floor)
  {
    LogSettles(mem, d, w, mem', rec);
    LogSynced(d, mem, w, rec);
    hide DiskOk;
    hide TabsOk;
    hide Settled;
    hide Exec;
    hide LogIos;
    hide PersistedOf;
  }

  lemma {:induction false} LogSettles(mem: Mem, d: Disk, w: Witness, mem': Mem, rec: Record)
    requires Settled(d, mem, w) && mem' == mem.(tabs := mem'.tabs, cur := mem'.cur)
    ensures LogIos(mem', rec) == LogIos(mem, rec)
    ensures Settled(Exec(d, LogIos(mem, rec)), LogMem(mem'), Extended(w, rec.Entries()))
  {
    LogRuns(d, mem, w, rec);
    hide Exec;
  }

  /** A logged operation, crashed after `k` of its I/O calls. */
  lemma {:induction false} LoggedCrash(mem: Mem, d: Disk, w: Witness, floor: Csn, rec: Record, k: nat)
    requires DbInv(mem, d, w, floor) && Continues(rec, w, mem.st.checkpoint) && k <= |LogIos(mem, rec)|
    ensures DiskOk(Exec(d, LogIos(mem, rec)[..k]), mem.st, if k < |LogIos(mem, rec)| then w else Extended(w, rec.Entries()))
  {
    LogCrash(d, mem, w, rec, k);
  }

  /** The record an operation logs, if it logs one. */
  lemma {:induction false} WriteLogs(mem: Mem, d: Disk, w: Witness, floor: Csn, table: nat, call: Call, threshold: nat)
    requires DbInv(mem, d, w, floor) && AllReadable(mem.tabs) && Allowed(mem, WriteOp(table, call))
    ensures var (t, cur, out) := Execute(mem.tabs[table], mem.cur, call, threshold);
      && (out.Done? ==>
          && Continues(One(Tagged(table, call.AsOp(out.csn))), w, mem.st.checkpoint)
          && TabsOk(mem.tabs[table := t], cur, Extended(w, [Tagged(table, call.AsOp(out.csn))]), mem.st.checkpoint, floor))
      && (!out.Done? ==> t == mem.tabs[table] && cur == mem.cur)
  {
    BasesFromDisk(d, mem.st, w);
    CallKeepsTabs(mem.tabs, mem.cur, w, mem.st.checkpoint, floor, table, call, threshold);
    CallAnswer(mem.tabs, mem.cur, w, mem.st.checkpoint, floor, table, call, threshold);
    hide Execute;
    hide DiskOk;
    var out := Execute(mem.tabs[table], mem.cur, call, threshold).2;
    if out.Done? {
      RecordContinues(One(Tagged(table, call.AsOp(out.csn))), w, mem.st.checkpoint);
    }
  }

  lemma {:induction false} CommitLogs(mem: Mem, d: Disk, w: Witness, floor: Csn, ws: seq<TxnWrite>, threshold: nat)
    requires DbInv(mem, d, w, floor) && AllReadable(mem.tabs) && Allowed(mem, CommitOp(ws))
    ensures var (tabs, cur, es, ok) := ApplyTxn(mem.tabs, mem.cur, ws, threshold);
      && ok
      && (es != [] ==>
          && Continues(Txn(es), w, mem.st.checkpoint)
          && TabsOk(tabs, cur, Extended(w, es), mem.st.checkpoint, floor))
      && (es == [] ==> tabs == mem.tabs && cur == mem.cur)
  {
    BasesFromDisk(d, mem.st, w);
    TxnKeepsTabs(mem.tabs, mem.cur, w, mem.st.checkpoint, floor, ws, threshold);
    hide ApplyTxn;
    hide DiskOk;
    var es := ApplyTxn(mem.tabs, mem.cur, ws, threshold).2;
    if es != [] {
      RecordContinues(Txn(es), w, mem.st.checkpoint);
    }
  }

  // ---- compaction ----------------------------------------------------------

  function DvsOf(parts: seq<Part>): seq<Dv> { seq(|parts|, i requires 0 <= i < |parts| => parts[i].dv) }

  /** The merge as a state of the step system, ready to install. */
  ghost function ReadyToInstall(t: Table, sources: seq<Part>, horizon: Csn, h: seq<Op>, floor: Csn, cur: Csn): State {
    State(t.(nextPartId := t.nextPartId + 1), cur, h, floor, cur, map[],
          map[0 := Merge(horizon, sources, Running(t.nextPartId, cur, DvsOf(sources)))])
  }

  lemma {:induction false} MergeKeepsInv(t: Table, chosen: seq<nat>, horizon: Csn, h: seq<Op>, floor: Csn, cur: Csn)
    requires Inv(t, h, floor, cur) && horizon <= cur && chosen != [] && Distinct(chosen) && Readable(t.parts)
    requires forall i :: 0 <= i < |chosen| ==> chosen[i] < |t.parts|
    ensures Readable(Picked(t.parts, chosen))
    ensures Inv(MergeTable(t, Picked(t.parts, chosen), horizon, cur), h, if horizon > floor then horizon else floor, cur)
  {
    var sources := Picked(t.parts, chosen);
    var s := ReadyToInstall(t, sources, horizon, h, floor, cur);
    ReadyIsGood(t, chosen, horizon, h, floor, cur);
    InstallKeepsGood(s, 0);
    var t' := MergeTable(t, sources, horizon, cur);
    var s' := After(s, Install(0));
    assert s'.t == t';
    if s'.floor != (if horizon > floor then horizon else floor) {
      forall x | (if horizon > floor then horizon else floor) <= x < NEVER ensures Agrees(t', h, x) {
        assert Agrees(s'.t, s'.h, x);
      }
    }
  }

  lemma {:induction false} ReadyIsGood(t: Table, chosen: seq<nat>, horizon: Csn, h: seq<Op>, floor: Csn, cur: Csn)
    requires Inv(t, h, floor, cur) && horizon <= cur && chosen != [] && Distinct(chosen) && Readable(t.parts)
    requires forall i :: 0 <= i < |chosen| ==> chosen[i] < |t.parts|
    ensures Readable(Picked(t.parts, chosen))
    ensures var s := ReadyToInstall(t, Picked(t.parts, chosen), horizon, h, floor, cur); Good(s) && Enabled(s, Install(0))
  {
    hide Inv;
    hide Holds;
    var sources := Picked(t.parts, chosen);
    var s := ReadyToInstall(t, sources, horizon, h, floor, cur);
    InvFacts(t, h, floor, cur);
    HigherId(t, h, floor, cur);
    NextIdUnused(t, h, floor, cur);
    forall i | 0 <= i < |sources|
      ensures SourceOk(s.t, sources[i]) && CapturedOne(s.t.parts, sources[i], DvsOf(sources)[i], cur)
    {
      HoldsAt(t.parts, chosen[i]);
    }
    assert UniqueIds(sources);
  }

  lemma {:induction false} InvFacts(t: Table, h: seq<Op>, floor: Csn, cur: Csn)
    requires Inv(t, h, floor, cur)
    ensures floor <= cur && UniqueIds(t.parts) && forall i :: 0 <= i < |t.parts| ==> t.parts[i].id < t.nextPartId
  {
    hide PartOk;
    hide Agrees;
  }

  lemma {:induction false} MergeTracks(t: Table, chosen: seq<nat>, horizon: Csn, cur: Csn, base: Table, past: seq<Op>, tail: seq<Op>, ckpt: Csn)
    requires Tracks(t, base, tail) && Base(base, past, ckpt) && chosen != [] && Readable(t.parts)
    requires forall i :: 0 <= i < |chosen| ==> chosen[i] < |t.parts|
    ensures Readable(Picked(t.parts, chosen))
    ensures Tracks(MergeTable(t, Picked(t.parts, chosen), horizon, cur), base, tail)
  {
    hide Collect;
    hide Replayed;
    hide Retain;
    hide Holds;
    var sources := Picked(t.parts, chosen);
    var t' := MergeTable(t, sources, horizon, cur);
    var plan := PlanMerge(sources, DvsOf(sources), t.nextPartId, horizon, cur).value;
    forall i, j | 0 <= i < |t'.parts| && 0 <= j < |base.parts| ensures TracksPart(t'.parts[i], base.parts[j], tail) {
      if t'.parts[i].id == base.parts[j].id {
        assert t'.parts[i] in t.parts by {
          if AllPresent(t.parts, plan.sourceIds) {
            RetainMembers(t.parts, plan.sourceIds, t'.parts[i]);
          }
        }
        var k := IndexOf(t.parts, t'.parts[i]);
        assert TracksPart(t.parts[k], base.parts[j], tail);
      }
    }
  }

  lemma {:induction false} RaiseFloor(t: Table, base: Table, past: seq<Op>, tail: seq<Op>, floor: Csn, floor': Csn, cur: Csn)
    requires TabOk(t, base, past, tail, floor, cur) && floor <= floor' <= cur
    ensures TabOk(t, base, past, tail, floor', cur)
  {
  }

  lemma {:induction false} CompactDone(mem: Mem, d: Disk, w: Witness, floor: Csn, op: DbOp, threshold: nat)
    requires DbInv(mem, d, w, floor) && AllReadable(mem.tabs) && Allowed(mem, op) && op.CompactOp?
    ensures DbInv(EffectOf(mem, op, threshold).mem, d, w, if op.horizon > floor then op.horizon else floor)
  {
    hide Inv;
    hide Tracks;
    hide MergeTable;
    hide Base;
    var floor' := if op.horizon > floor then op.horizon else floor;
    var (tabs, n) := (EffectOf(mem, op, threshold).mem.tabs, op.table);
    BasesFromDisk(d, mem.st, w);
    forall t | 0 <= t < |tabs| ensures TabOk(tabs[t], w.base[t], Of(w.past, t), Of(w.tail, t), floor', mem.cur) {
      assert TabOk(mem.tabs[t], w.base[t], Of(w.past, t), Of(w.tail, t), floor, mem.cur);
      if t == n {
        MergeKeepsInv(mem.tabs[n], op.chosen, op.horizon, Of(w.past, n) + Of(w.tail, n), floor, mem.cur);
        MergeTracks(mem.tabs[n], op.chosen, op.horizon, mem.cur, w.base[n], Of(w.past, n), Of(w.tail, n), mem.st.checkpoint);
      } else {
        RaiseFloor(mem.tabs[t], w.base[t], Of(w.past, t), Of(w.tail, t), floor, floor', mem.cur);
      }
    }
    hide DiskOk;
    hide TabOk;
  }

  // ---- one operation, completed or crashed ---------------------------------

  lemma {:induction false} LogExtends(w: Witness, es: seq<Tagged>)
    ensures Extended(w, es).Log() == w.Log() + es
    ensures w.Log() + [] == w.Log()
  {
  }

  lemma {:induction false} WriteDone(mem: Mem, d: Disk, w: Witness, floor: Csn, table: nat, call: Call, threshold: nat)
    requires DbInv(mem, d, w, floor) && AllReadable(mem.tabs) && Allowed(mem, WriteOp(table, call))
    ensures var e := DoWrite(mem, table, call, threshold); DbInv(e.mem, Exec(d, e.ios), Extended(w, e.entries), floor)
  {
    WriteLogs(mem, d, w, floor, table, call, threshold);
    var (t, cur, out) := Execute(mem.tabs[table], mem.cur, call, threshold);
    hide Execute;
    hide DbInv;
    if out.Done? {
      var rec := One(Tagged(table, call.AsOp(out.csn)));
      LogDone(mem, d, w, floor, mem.(tabs := mem.tabs[table := t], cur := cur), rec);
    } else {
      assert mem.tabs[table := t] == mem.tabs;
      assert Extended(w, []) == w by { assert w.tail + [] == w.tail; }
    }
  }

  lemma {:induction false} WriteCrash(mem: Mem, d: Disk, w: Witness, floor: Csn, table: nat, call: Call, threshold: nat, k: nat)
    requires DbInv(mem, d, w, floor) && AllReadable(mem.tabs) && Allowed(mem, WriteOp(table, call))
    requires k <= |DoWrite(mem, table, call, threshold).ios|
    ensures var e := DoWrite(mem, table, call, threshold);
      DiskOk(Exec(d, e.ios[..k]), mem.st, if k == |e.ios| then Extended(w, e.entries) else w)
  {
    WriteLogs(mem, d, w, floor, table, call, threshold);
    var (t, cur, out) := Execute(mem.tabs[table], mem.cur, call, threshold);
    hide Execute;
    hide DiskOk;
    if out.Done? {
      LoggedCrash(mem, d, w, floor, One(Tagged(table, call.AsOp(out.csn))), k);
    } else {
      assert Extended(w, []) == w by { assert w.tail + [] == w.tail; }
    }
  }

  lemma {:induction false} CommitDone(mem: Mem, d: Disk, w: Witness, floor: Csn, ws: seq<TxnWrite>, threshold: nat)
    requires DbInv(mem, d, w, floor) && AllReadable(mem.tabs) && Allowed(mem, CommitOp(ws))
    ensures var e := DoCommit(mem, ws, threshold); DbInv(e.mem, Exec(d, e.ios), Extended(w, e.entries), floor)
  {
    CommitLogs(mem, d, w, floor, ws, threshold);
    var (tabs, cur, es, ok) := ApplyTxn(mem.tabs, mem.cur, ws, threshold);
    hide ApplyTxn;
    hide DbInv;
    if es != [] {
      LogDone(mem, d, w, floor, mem.(tabs := tabs, cur := cur), Txn(es));
    } else {
      assert Extended(w, []) == w by { assert w.tail + [] == w.tail; }
    }
  }

  lemma {:induction false} CommitCut(mem: Mem, d: Disk, w: Witness, floor: Csn, ws: seq<TxnWrite>, threshold: nat, k: nat)
    requires DbInv(mem, d, w, floor) && AllReadable(mem.tabs) && Allowed(mem, CommitOp(ws))
    requires k <= |DoCommit(mem, ws, threshold).ios|
    ensures var e := DoCommit(mem, ws, threshold);
      DiskOk(Exec(d, e.ios[..k]), mem.st, if k == |e.ios| then Extended(w, e.entries) else w)
  {
    CommitLogs(mem, d, w, floor, ws, threshold);
    var (tabs, cur, es, ok) := ApplyTxn(mem.tabs, mem.cur, ws, threshold);
    hide ApplyTxn;
    hide DiskOk;
    if es != [] {
      LoggedCrash(mem, d, w, floor, Txn(es), k);
    } else {
      assert Extended(w, []) == w by { assert w.tail + [] == w.tail; }
    }
  }

  lemma {:induction false} OpDone(mem: Mem, d: Disk, w: Witness, floor: Csn, op: DbOp, threshold: nat) returns (w': Witness, floor': Csn)
    requires DbInv(mem, d, w, floor) && AllReadable(mem.tabs) && Allowed(mem, op)
    ensures var e := EffectOf(mem, op, threshold);
      DbInv(e.mem, Exec(d, e.ios), w', floor') && w'.Log() == w.Log() + e.entries
  {
    var e := EffectOf(mem, op, threshold);
    LogExtends(w, e.entries);
    w', floor' := Extended(w, e.entries), floor;
    hide MemOk;
    hide DiskOk;
    hide Settled;
    hide DoWrite;
    hide DoCommit;
    match op
    case WriteOp(table, call) => WriteDone(mem, d, w, floor, table, call, threshold);
    case CommitOp(ws) => CommitDone(mem, d, w, floor, ws, threshold);
    case CompactOp(_, _, horizon) =>
      CompactDone(mem, d, w, floor, op, threshold);
      w', floor' := w, if horizon > floor then horizon else floor;
    case CheckpointOp =>
      CheckpointDone(mem, d, w, floor);
      w' := NewWitness(w, SealAll(mem.tabs));
  }

  lemma {:induction false} OpCut(mem: Mem, d: Disk, w: Witness, floor: Csn, op: DbOp, threshold: nat, k: nat) returns (st: ManifestState, w': Witness)
    requires DbInv(mem, d, w, floor) && AllReadable(mem.tabs) && Allowed(mem, op)
    requires k <= |EffectOf(mem, op, threshold).ios|
    ensures var e := EffectOf(mem, op, threshold);
      && DiskOk(Exec(d, e.ios[..k]), st, w')
      && w'.Log() == (if k == |e.ios| then w.Log() + e.entries else w.Log()) && |w'.base| == |w.base|
  {
    var e := EffectOf(mem, op, threshold);
    LogExtends(w, e.entries);
    st, w' := mem.st, if k == |e.ios| then Extended(w, e.entries) else w;
    hide MemOk;
    hide DiskOk;
    hide Settled;
    hide DoWrite;
    hide DoCommit;
    match op
    case WriteOp(table, call) => WriteCrash(mem, d, w, floor, table, call, threshold, k);
    case CommitOp(ws) => CommitCut(mem, d, w, floor, ws, threshold, k);
    case CompactOp(_, _, _) =>
      w' := w;
    case CheckpointOp =>
      st, w' := CheckpointCrash(mem, d, w, floor, k);
  }

  // ---- runs ----------------------------------------------------------------

  /** A running store and the log of acknowledged operations. */
  datatype Store = Store(mem: Mem, disk: Disk, log: seq<Tagged>)

  ghost predicate StoreOk(s: Store) {
    exists w, floor :: DbInv(s.mem, s.disk, w, floor) && w.Log() == s.log
  }

  datatype Event = Completes(op: DbOp) | CrashesIn(op: DbOp, ioCalls: nat)

  // ---- what a run promises -------------------------------------------------

  /** Callers name existing tables. */
  predicate Known(op: DbOp, tables: nat) {
    match op
    case WriteOp(t, _) => t < tables
    case CommitOp(ws) => forall i :: 0 <= i < |ws| ==> ws[i].table < tables
    case _ => true
  }

  /** The rows an operation leaves of the rows it finds; maintenance leaves them all. */
  function Promised(ms: seq<View>, op: DbOp): (r: seq<View>)
    requires Known(op, |ms|)
    ensures |r| == |ms|
  {
    match op
    case WriteOp(t, call) => var m := Changed(ms[t], call); if m.Some? then ms[t := m.value] else ms
    case CommitOp(ws) => Batch(ms, ws)
    case CompactOp(_, _, _) => ms
    case CheckpointOp => ms
  }

  /** The entries an operation is acknowledged with. */
  function Acked(ms: seq<View>, cur: Csn, op: DbOp): seq<Tagged>
    requires Known(op, |ms|)
  {
    match op
    case WriteOp(t, call) => if Changed(ms[t], call).Some? then [EntryOf(t, call, cur + 1)] else []
    case CommitOp(ws) => Entries(ms, cur, ws)
    case CompactOp(_, _, _) => []
    case CheckpointOp => []
  }

  /** An operation stays if it completed, or if power failed after both its I/O calls,
      the write to the log and its sync. */
  predicate Stays(ev: Event) { ev.Completes? || ev.ioCalls >= 2 }

  /** The rows after a run of events on `n` tables, all empty at first. */
  function Expected(n: nat, events: seq<Event>): (ms: seq<View>)
    requires forall i :: 0 <= i < |events| ==> Known(events[i].op, n)
    ensures |ms| == n
  {
    if events == [] then seq(n, i => map[])
    else
      var ms := Expected(n, events[..|events|-1]);
      var ev := events[|events|-1];
      if Stays(ev) then Promised(ms, ev.op) else ms
  }

  /** The rows a log describes. */
  ghost function LogViews(log: seq<Tagged>, n: nat): seq<View> {
    seq(n, t requires 0 <= t < n => Mvcc.At(Of(log, t), NEVER))
  }

  ghost predicate CanHappen(s: Store, ev: Event, threshold: nat) {
    && AllReadable(s.mem.tabs) && |s.mem.st.metas| == |s.mem.tabs| && Allowed(s.mem, ev.op)
    && (ev.CrashesIn? ==>
        && ev.ioCalls <= |EffectOf(s.mem, ev.op, threshold).ios|
        && Open(Crash(Exec(s.disk, EffectOf(s.mem, ev.op, threshold).ios[..ev.ioCalls]))).Some?)
  }

  /** The store after an operation, or after power loss inside one and reopening. The
      log is what callers were promised, not what the operation reports. */
  ghost function Then(s: Store, ev: Event, threshold: nat): Store
    requires CanHappen(s, ev, threshold)
  {
    var e := EffectOf(s.mem, ev.op, threshold);
    var acked := Acked(LogViews(s.log, |s.mem.tabs|), s.mem.cur, ev.op);
    var log := if Stays(ev) then s.log + acked else s.log;
    match ev
    case Completes(_) => Store(e.mem, Exec(s.disk, e.ios), log)
    case CrashesIn(_, k) =>
      var d := Crash(Exec(s.disk, e.ios[..k]));
      Store(Open(d).value, d, log)
  }

  /** Every table shows what the log describes. */
  lemma {:induction false} LogDisplays(mem: Mem, d: Disk, w: Witness, floor: Csn)
    requires DbInv(mem, d, w, floor)
    ensures AllDisplay(mem.tabs, LogViews(w.Log(), |mem.tabs|), mem.cur)
  {
    hide Inv;
    hide Displays;
    hide DiskOk;
    hide Settled;
    hide Tracks;
    forall t | 0 <= t < |mem.tabs| ensures Displays(mem.tabs[t], Mvcc.At(Of(w.Log(), t), NEVER), mem.cur) {
      assert TabOk(mem.tabs[t], w.base[t], Of(w.past, t), Of(w.tail, t), floor, mem.cur);
      OfAppend(w.past, w.tail, t);
      HistoryDisplays(mem.tabs[t], Of(w.Log(), t), floor, mem.cur);
      HistoryEnds(mem.tabs[t], Of(w.Log(), t), floor, mem.cur);
    }
  }

  lemma {:induction false} HistoryEnds(t: Table, h: seq<Op>, floor: Csn, cur: Csn)
    requires Inv(t, h, floor, cur)
    ensures Mvcc.At(h, NEVER) == Mvcc.At(h, cur)
  {
    AtBeyond(h, cur, NEVER);
  }

  lemma {:induction false} DisplayDecides(tabs: seq<Table>, a: seq<View>, b: seq<View>, cur: Csn)
    requires AllDisplay(tabs, a, cur) && AllDisplay(tabs, b, cur)
    ensures a == b
  {
    hide Displays;
    forall t | 0 <= t < |tabs| ensures a[t] == b[t] { DisplaysDecide(tabs[t], a[t], b[t], cur); }
  }

  lemma {:induction false} WritePromised(mem: Mem, ms: seq<View>, t: nat, call: Call, threshold: nat)
    requires AllDisplay(mem.tabs, ms, mem.cur) && AllReadable(mem.tabs) && Allowed(mem, WriteOp(t, call)) && |ms| == |mem.tabs|
    requires mem.watermark == mem.written
    ensures var e := DoWrite(mem, t, call, threshold);
      && e.entries == Acked(ms, mem.cur, WriteOp(t, call)) && (e.entries != [] ==> |e.ios| == 2)
      && AllDisplay(e.mem.tabs, Promised(ms, WriteOp(t, call)), e.mem.cur)
  {
    hide AllDisplay;
    hide AllReadable;
    hide Shows;
    hide DoWrite;
    hide Changed;
    WriteExact(mem, ms, t, call, threshold);
  }

  lemma {:induction false} CommitPromised(mem: Mem, ms: seq<View>, ws: seq<TxnWrite>, threshold: nat)
    requires AllDisplay(mem.tabs, ms, mem.cur) && AllReadable(mem.tabs) && Allowed(mem, CommitOp(ws)) && |ms| == |mem.tabs|
    requires mem.watermark == mem.written
    ensures var e := DoCommit(mem, ws, threshold);
      && e.entries == Acked(ms, mem.cur, CommitOp(ws)) && (e.entries != [] ==> |e.ios| == 2)
      && AllDisplay(e.mem.tabs, Promised(ms, CommitOp(ws)), e.mem.cur)
  {
    hide AllDisplay;
    hide AllReadable;
    hide Shows;
    hide DoCommit;
    hide Entries;
    hide Batch;
    CommitExact(mem, ms, ws, threshold);
    assert ws[..Reached(ws, |mem.tabs|)] == ws;
  }

  /** An operation reports the entries it was to be acknowledged with, in two I/O calls
      if there are any; and with them the log describes the rows promised. */
  lemma {:induction false} OpPromised(mem: Mem, d: Disk, w: Witness, floor: Csn, op: DbOp, threshold: nat)
    requires DbInv(mem, d, w, floor) && AllReadable(mem.tabs) && Allowed(mem, op)
    ensures Known(op, |mem.tabs|)
    ensures var (e, ms) := (EffectOf(mem, op, threshold), LogViews(w.Log(), |mem.tabs|));
      && |e.mem.tabs| == |mem.tabs|
      && e.entries == Acked(ms, mem.cur, op)
      && (e.entries != [] ==> |e.ios| == 2)
      && LogViews(w.Log() + e.entries, |mem.tabs|) == Promised(ms, op)
  {
    var (e, ms) := (EffectOf(mem, op, threshold), LogViews(w.Log(), |mem.tabs|));
    LogDisplays(mem, d, w, floor);
    var w', floor' := OpDone(mem, d, w, floor, op, threshold);
    LogDisplays(e.mem, Exec(d, e.ios), w', floor');
    AllSized(mem, d, w, floor);
    hide DbInv;
    hide AllDisplay;
    hide AllReadable;
    hide LogViews;
    hide DoWrite;
    hide DoCommit;
    hide DoCheckpoint;
    hide MergeTable;
    hide Acked;
    hide Promised;
    match op
    case WriteOp(t, call) =>
      WritePromised(mem, ms, t, call, threshold);
      Promises(e.mem, ms, op, w', w.Log() + e.entries);
    case CommitOp(ws) =>
      CommitPromised(mem, ms, ws, threshold);
      Promises(e.mem, ms, op, w', w.Log() + e.entries);
    case CompactOp(_, _, _) =>
      Upkeep(w, e, ms, op, mem.cur);
    case CheckpointOp =>
      KeepsSize(mem);
      Upkeep(w, e, ms, op, mem.cur);
  }

  /** Power loss after `k` of an operation's I/O calls: what survives recovers the log as
      it was, or from the second call on the log with the entries promised. */
  lemma {:induction false} OpCrash(mem: Mem, d: Disk, w: Witness, floor: Csn, op: DbOp, threshold: nat, k: nat) returns (st: ManifestState, w': Witness)
    requires DbInv(mem, d, w, floor) && AllReadable(mem.tabs) && Allowed(mem, op)
    requires k <= |EffectOf(mem, op, threshold).ios|
    ensures Known(op, |mem.tabs|)
    ensures DiskOk(Exec(d, EffectOf(mem, op, threshold).ios[..k]), st, w') && |w'.base| == |w.base|
    ensures w'.Log() == if k < 2 then w.Log() else w.Log() + Acked(LogViews(w.Log(), |mem.tabs|), mem.cur, op)
  {
    hide DbInv;
    hide EffectOf;
    hide LogViews;
    hide Acked;
    hide Promised;
    hide DiskOk;
    hide Allowed;
    hide AllReadable;
    OpPromised(mem, d, w, floor, op, threshold);
    LogExtends(w, []);
    st, w' := OpCut(mem, d, w, floor, op, threshold, k);
  }

  /** A transaction's single record makes it all-or-nothing across a crash: before the
      sync the rows recovered are those there were, from then on those with all its writes. */
  lemma {:induction false} CommitCrash(mem: Mem, d: Disk, w: Witness, floor: Csn, ws: seq<TxnWrite>, threshold: nat, k: nat) returns (st: ManifestState, w': Witness)
    requires DbInv(mem, d, w, floor) && AllReadable(mem.tabs) && Allowed(mem, CommitOp(ws))
    requires k <= |DoCommit(mem, ws, threshold).ios|
    ensures DiskOk(Exec(d, DoCommit(mem, ws, threshold).ios[..k]), st, w')
    ensures var ms := LogViews(w.Log(), |mem.tabs|);
      LogViews(w'.Log(), |mem.tabs|) == if k < 2 then ms else Overridden(ms, AsMap(ws))
  {
    AllSized(mem, d, w, floor);
    hide DbInv;
    hide LogViews;
    hide Acked;
    hide DiskOk;
    hide AllReadable;
    hide DoCommit;
    OpPromised(mem, d, w, floor, CommitOp(ws), threshold);
    BatchIsOverride(LogViews(w.Log(), |mem.tabs|), ws);
    st, w' := OpCrash(mem, d, w, floor, CommitOp(ws), threshold, k);
  }

  lemma {:induction false} KeepsSize(mem: Mem)
    requires |mem.st.metas| == |mem.tabs|
    ensures |DoCheckpoint(mem).mem.tabs| == |mem.tabs| && DoCheckpoint(mem).entries == []
  {
  }

  lemma {:induction false} AllSized(mem: Mem, d: Disk, w: Witness, floor: Csn)
    requires DbInv(mem, d, w, floor)
    ensures mem.watermark == mem.written && |LogViews(w.Log(), |mem.tabs|)| == |mem.tabs|
  {
  }

  lemma {:induction false} Promises(mem: Mem, ms: seq<View>, op: DbOp, w: Witness, log: seq<Tagged>)
    requires Known(op, |ms|) && w.Log() == log
    requires AllDisplay(mem.tabs, LogViews(w.Log(), |mem.tabs|), mem.cur) && AllDisplay(mem.tabs, Promised(ms, op), mem.cur)
    ensures |mem.tabs| == |ms| && LogViews(log, |mem.tabs|) == Promised(ms, op)
  {
    DisplayDecides(mem.tabs, LogViews(w.Log(), |mem.tabs|), Promised(ms, op), mem.cur);
  }

  lemma {:induction false} Upkeep(w: Witness, e: Effect, ms: seq<View>, op: DbOp, cur: Csn)
    requires (op.CompactOp? || op.CheckpointOp?) && e.entries == []
    ensures Acked(ms, cur, op) == e.entries && w.Log() + e.entries == w.Log() && Promised(ms, op) == ms
  {
  }

  lemma {:induction false} StoreReadable(s: Store)
    requires StoreOk(s)
    ensures AllReadable(s.mem.tabs) && |s.mem.st.metas| == |s.mem.tabs|
  {
    var w, floor :| DbInv(s.mem, s.disk, w, floor) && w.Log() == s.log;
    TabsReadable(s.mem.tabs, s.mem.cur, w, s.mem.st.checkpoint, floor);
  }

  /** Reopening always succeeds, wherever the power failed. */
  lemma {:induction false} AlwaysReopens(s: Store, op: DbOp, threshold: nat, k: nat)
    requires StoreOk(s)
    ensures AllReadable(s.mem.tabs) && |s.mem.st.metas| == |s.mem.tabs|
    ensures Allowed(s.mem, op) && k <= |EffectOf(s.mem, op, threshold).ios| ==>
      CanHappen(s, CrashesIn(op, k), threshold) && StoreOk(Then(s, CrashesIn(op, k), threshold))
  {
    StoreReadable(s);
    if Allowed(s.mem, op) && k <= |EffectOf(s.mem, op, threshold).ios| {
      ReopensAt(s, op, threshold, k);
    }
  }

  lemma {:induction false} ReopensAt(s: Store, op: DbOp, threshold: nat, k: nat)
    requires StoreOk(s) && AllReadable(s.mem.tabs) && |s.mem.st.metas| == |s.mem.tabs| && Allowed(s.mem, op)
    requires k <= |EffectOf(s.mem, op, threshold).ios|
    ensures CanHappen(s, CrashesIn(op, k), threshold)
    ensures StoreOk(Then(s, CrashesIn(op, k), threshold)) && |Then(s, CrashesIn(op, k), threshold).mem.tabs| == |s.mem.tabs|
  {
    hide DbInv;
    hide DiskOk;
    hide EffectOf;
    hide Open;
    hide Crash;
    hide Exec;
    hide Allowed;
    hide AllReadable;
    hide LogViews;
    hide Acked;
    hide Promised;
    var w, floor :| DbInv(s.mem, s.disk, w, floor) && w.Log() == s.log;
    OpPromised(s.mem, s.disk, w, floor, op, threshold);
    assert s.log + [] == s.log;
    var st, w' := OpCrash(s.mem, s.disk, w, floor, op, threshold, k);
    var d := Exec(s.disk, EffectOf(s.mem, op, threshold).ios[..k]);
    OpenOk(d, st, w');
    BaseSize(s.mem, s.disk, w, floor);
    BaseSize(Open(Crash(d)).value, Crash(d), w', st.checkpoint);
    assert CanHappen(s, CrashesIn(op, k), threshold);
    var s' := Then(s, CrashesIn(op, k), threshold);
    Reopened(s', w', st.checkpoint);
  }

  lemma {:induction false} BaseSize(mem: Mem, d: Disk, w: Witness, floor: Csn)
    requires DbInv(mem, d, w, floor)
    ensures |mem.tabs| == |w.base|
  {
  }

  lemma {:induction false} Reopened(s: Store, w: Witness, floor: Csn)
    requires DbInv(s.mem, s.disk, w, floor) && w.Log() == s.log
    ensures StoreOk(s)
  {
  }

  lemma {:induction false} EventKeepsOk(s: Store, ev: Event, threshold: nat)
    requires StoreOk(s) && CanHappen(s, ev, threshold)
    ensures StoreOk(Then(s, ev, threshold)) && |Then(s, ev, threshold).mem.tabs| == |s.mem.tabs|
  {
    if ev.CrashesIn? {
      StoreReadable(s);
      ReopensAt(s, ev.op, threshold, ev.ioCalls);
    } else {
      var w, floor :| DbInv(s.mem, s.disk, w, floor) && w.Log() == s.log;
      hide DbInv;
      hide EffectOf;
      hide LogViews;
      hide Acked;
      hide Promised;
      OpPromised(s.mem, s.disk, w, floor, ev.op, threshold);
      var w', floor' := OpDone(s.mem, s.disk, w, floor, ev.op, threshold);
      var s' := Then(s, ev, threshold);
      assert DbInv(s'.mem, s'.disk, w', floor') && w'.Log() == s'.log;
    }
  }

  ghost predicate IsHistory(run: seq<Store>, events: seq<Event>, threshold: nat) {
    && |run| == |events| + 1 && run[0] == Created(|run[0].mem.tabs|)
    && forall i :: 0 <= i < |events| ==> CanHappen(run[i], events[i], threshold) && run[i+1] == Then(run[i], events[i], threshold)
  }

  /** A freshly created store of `n` empty tables, its catalog durable. */
  function Created(n: nat): Store {
    var st := ManifestState(0, seq(n, i => TableMeta([], 0)));
    Store(Mem(seq(n, i => EMPTY), 0, st, PersistedOf(st), 0, 0),
          map[ManifestFile := File([Catalog(st)], [Catalog(st)])], [])
  }

  lemma {:induction false} CreatedOk(n: nat)
    ensures StoreOk(Created(n))
  {
    var s := Created(n);
    var w := Witness([], [], seq(n, i => EMPTY));
    InvEmpty();
    forall t | 0 <= t < n
      ensures TabOk(s.mem.tabs[t], w.base[t], Of(w.past, t), Of(w.tail, t), 0, 0)
      ensures TableDiskOk(s.disk, t, s.mem.st.metas[t], w.base[t], Of(w.past, t), Of(w.tail, t), 0)
    {
      assert Of([], t) == [] && Of([], t) + Of([], t) == [];
      assert IdsOf(EMPTY.parts) == [];
    }
    assert w.past + w.tail == [];
    assert DbInv(s.mem, s.disk, w, 0);
  }

  /** In every run, however often the power fails and wherever, reads return exactly
      what the calls completed so far, and those whose record was synced when the power
      failed, promised their callers; and each table's history is its share of the
      log of those calls. */
  lemma {:induction false} AcknowledgedSurvives(run: seq<Store>, events: seq<Event>, threshold: nat, i: nat)
    requires IsHistory(run, events, threshold) && i < |run|
    ensures StoreOk(run[i]) && |run[i].mem.tabs| == |run[0].mem.tabs|
    ensures forall j :: 0 <= j < i ==> Known(events[j].op, |run[0].mem.tabs|)
    ensures Shows(run[i].mem.tabs, Expected(|run[0].mem.tabs|, events[..i]), run[i].mem.cur)
    ensures LogViews(run[i].log, |run[0].mem.tabs|) == Expected(|run[0].mem.tabs|, events[..i])
  {
    hide Shows;
    hide Created;
    hide Promised;
    var n := |run[0].mem.tabs|;
    if i == 0 {
      CreatedOk(n);
      NothingLogged(n);
      assert run[0].log == [] by { StartsEmpty(n); }
    } else {
      AcknowledgedSurvives(run, events, threshold, i - 1);
      EventKeepsOk(run[i-1], events[i-1], threshold);
      assert run[i-1+1] == Then(run[i-1], events[i-1], threshold);
      EventExpected(run[i-1], events[i-1], threshold);
      assert events[..i][..i-1] == events[..i-1];
      hide LogViews;
    }
    OkShows(run[i]);
  }

  lemma {:induction false} StartsEmpty(n: nat)
    ensures Created(n).log == []
  {
  }

  lemma {:induction false} NothingLogged(n: nat)
    ensures LogViews([], n) == Expected(n, [])
  {
    forall t | 0 <= t < n ensures LogViews([], n)[t] == map[] { assert Of([], t) == []; }
  }

  /** An event turns the rows the log describes into those it was to leave. */
  lemma {:induction false} EventExpected(s: Store, ev: Event, threshold: nat)
    requires StoreOk(s) && CanHappen(s, ev, threshold) && |Then(s, ev, threshold).mem.tabs| == |s.mem.tabs|
    ensures Known(ev.op, |s.mem.tabs|)
    ensures var (s', ms) := (Then(s, ev, threshold), LogViews(s.log, |s.mem.tabs|));
      && |s'.mem.tabs| == |s.mem.tabs|
      && LogViews(s'.log, |s.mem.tabs|) == if Stays(ev) then Promised(ms, ev.op) else ms
  {
    var w, floor :| DbInv(s.mem, s.disk, w, floor) && w.Log() == s.log;
    hide DbInv;
    hide EffectOf;
    hide LogViews;
    hide Acked;
    hide Promised;
    hide Open;
    OpPromised(s.mem, s.disk, w, floor, ev.op, threshold);
  }

  /** Reads of a store are what its log describes. */
  lemma {:induction false} OkShows(s: Store)
    requires StoreOk(s)
    ensures Shows(s.mem.tabs, LogViews(s.log, |s.mem.tabs|), s.mem.cur)
  {
    hide DbInv;
    hide AllDisplay;
    hide Shows;
    hide LogViews;
    var w, floor :| DbInv(s.mem, s.disk, w, floor) && w.Log() == s.log;
    LogDisplays(s.mem, s.disk, w, floor);
    DisplayShows(s.mem.tabs, LogViews(s.log, |s.mem.tabs|), s.mem.cur);
  }

  // ---- where the guarantee ends --------------------------------------------

  /** A delete of a key the table does not hold, which is skipped. */
  ghost predicate DeletesNothing(tabs: seq<Table>, cur: Csn, w: TxnWrite)
    requires AllReadable(tabs)
  {
    w.DeleteFrom? && w.table < |tabs| && Locate(tabs[w.table], w.key, cur).None?
  }

  /** `commit_transaction` naming a table that does not exist: the call fails and
      logs nothing, but the writes before it stay applied in memory. The failed
      commit is harmless if and only if each of those deletes a key that is not there. */
  lemma {:induction false} MissingTable(mem: Mem, ws: seq<TxnWrite>, threshold: nat, n: nat)
    requires AllReadable(mem.tabs) && n < |ws| && ws[n].table >= |mem.tabs|
    requires forall i :: 0 <= i < n ==> ws[i].table < |mem.tabs|
    ensures var e := DoCommit(mem, ws, threshold);
      && e.ios == [] && e.entries == []
      && (e.mem == mem <==> forall i :: 0 <= i < n ==> DeletesNothing(mem.tabs, mem.cur, ws[i]))
  {
    hide ApplyTxn;
    hide DeletesNothing;
    HaltsAt(mem.tabs, mem.cur, ws, threshold, n);
    IdleBatch(mem.tabs, mem.cur, ws[..n], threshold);
  }

  /** A batch leaves the store alone exactly when it deletes only absent keys. */
  lemma {:induction false} IdleBatch(tabs: seq<Table>, cur: Csn, ws: seq<TxnWrite>, threshold: nat)
    requires AllReadable(tabs) && forall i :: 0 <= i < |ws| ==> ws[i].table < |tabs|
    ensures var r := ApplyTxn(tabs, cur, ws, threshold);
      && r.3 && cur <= r.1 && (r.1 == cur ==> r.0 == tabs)
      && (r.1 == cur <==> forall i :: 0 <= i < |ws| ==> DeletesNothing(tabs, cur, ws[i]))
  {
    hide ApplyTxn;
    hide DeletesNothing;
    if ws == [] {
      NoWrites(tabs, cur, threshold);
    } else {
      var n := |ws| - 1;
      IdleBatch(tabs, cur, ws[..n], threshold);
      IdleNext(tabs, cur, ws, threshold);
    }
  }

  lemma {:induction false} NoWrites(tabs: seq<Table>, cur: Csn, threshold: nat)
    requires AllReadable(tabs)
    ensures ApplyTxn(tabs, cur, [], threshold) == (tabs, cur, [], true)
  {
  }

  lemma {:induction false} IdleNext(tabs: seq<Table>, cur: Csn, ws: seq<TxnWrite>, threshold: nat)
    requires AllReadable(tabs) && ws != [] && ws[|ws|-1].table < |tabs| && ApplyTxn(tabs, cur, ws[..|ws|-1], threshold).3
    ensures var (r, pre, w) := (ApplyTxn(tabs, cur, ws, threshold), ApplyTxn(tabs, cur, ws[..|ws|-1], threshold), ws[|ws|-1]);
      && r.3 && pre.1 <= r.1
      && (r.1 == pre.1 <==> DeletesNothing(pre.0, pre.1, w)) && (r.1 == pre.1 ==> r.0 == pre.0)
  {
    hide Locate;
    hide Write;
    hide Readable;
    hide MaybeSeal;
    hide VersionIn;
  }

  /** A put followed by a delete from a table that is not there: the commit fails
      and leaves nothing in the log, yet the row can be read. */
  lemma {:induction false} FailedCommitShows(mem: Mem, row: Row)
    requires mem.tabs == [EMPTY]
    ensures var e := DoCommit(mem, [PutTo(0, row), DeleteFrom(1, row.key)], 2);
      && e.ios == [] && e.entries == [] && |e.mem.tabs| == 1 && Readable(e.mem.tabs[0].parts)
      && Get(mem.tabs[0], row.key, mem.cur) == None && (e.mem.cur < NEVER ==> Get(e.mem.tabs[0], row.key, e.mem.cur) == Some(row))
  {
    var ws := [PutTo(0, row), DeleteFrom(1, row.key)];
    var none: seq<TxnWrite> := [];
    assert ws[..1] == [ws[0]] && ws[..1][..0] == none;
    NoWrites(mem.tabs, mem.cur, 2);
    var t := EMPTY.(l0 := [Version(row, mem.cur + 1, NEVER)]);
    assert Locate(EMPTY, row.key, mem.cur).None?;
    assert EMPTY.l0 + t.l0 == t.l0;
    assert Execute(EMPTY, mem.cur, Upsert(row), 2) == (t, mem.cur + 1, Done(mem.cur + 1));
    assert ApplyTxn(mem.tabs, mem.cur, ws[..1], 2).0 == [t];
  }

  /** The store as `open` leaves it when the log holds nothing to replay: its
      parts are registered but not installed (src/storage.rs:86-106, 176-180). */
  function Cold(st: ManifestState, walFrames: nat): Mem {
    Mem(seq(|st.metas|, i => EMPTY), st.checkpoint, st, PersistedOf(st), walFrames, walFrames)
  }

  /** A checkpoint of a store that was never warmed replaces the catalog by one
      without parts: whatever the store held, it reopens empty. */
  lemma {:induction false} ColdCheckpointLosesAll(d: Disk, st: ManifestState, w: Witness)
    requires DiskOk(d, st, w) && w.tail == [] && FileAt(d, WalFile).live == FileAt(d, WalFile).durable
    ensures var d' := Exec(d, DoCheckpoint(Cold(st, |FileAt(d, WalFile).live|)).ios);
      Open(Crash(d')).Some? && Open(Crash(d')).value.tabs == seq(|st.metas|, i => EMPTY)
  {
    hide TableDiskOk;
    hide Exec;
    var mem := Cold(st, |FileAt(d, WalFile).live|);
    var d' := Exec(d, DoCheckpoint(mem).ios);
    ColdSwitch(d, st, w, mem);
    assert TailOf([], NewCatalog(mem).checkpoint) == [];
    hide TailOf;
    hide LastCatalog;
    hide DiskOk;
    LogEmptied(mem, d);
    CrashFile(d', ManifestFile);
    CrashFile(d', WalFile);
    hide DoCheckpoint;
    EmptyTabs(Crash(d'), NewCatalog(mem).metas);
  }

  lemma {:induction false} ColdSwitch(d: Disk, st: ManifestState, w: Witness, mem: Mem)
    requires DiskOk(d, st, w) && w.tail == [] && FileAt(d, WalFile).live == FileAt(d, WalFile).durable
    requires mem == Cold(st, |FileAt(d, WalFile).live|)
    ensures LastCatalog(FileAt(Exec(d, DoCheckpoint(mem).ios), ManifestFile).durable) == Some(NewCatalog(mem))
  {
    hide TableDiskOk;
    hide Exec;
    hide LastCatalog;
    hide TailOf;
    var tabs := SealAll(mem.tabs);
    assert tabs == mem.tabs;
    var (m, b) := (SwitchIos(NewCatalog(mem)), AfterSwitch(mem));
    ScriptOf(mem);
    NothingToWrite(mem.persisted, tabs);
    assert BeforeSwitch(mem) + m == m && m[..3] == m;
    hide DoCheckpoint;
    hide PartsIos;
    SwitchRuns(d, NewCatalog(mem), 3);
    ExecAppend(d, m, b);
    AllDeadLegal(st, tabs, mem.cur, |tabs|);
    ResetLegal(mem, tabs);
    PhaseTwoRuns(Exec(d, m), tabs, mem.cur, b);
  }

  lemma {:induction false} NothingToWrite(persisted: map<(nat, nat), Csn>, tabs: seq<Table>)
    requires forall t :: 0 <= t < |tabs| ==> tabs[t] == EMPTY
    ensures PartsIos(persisted, tabs) == []
  {
    if tabs != [] {
      NothingToWrite(persisted, tabs[..|tabs|-1]);
    }
  }

  lemma {:induction false} EmptyTabs(d: Disk, metas: seq<TableMeta>)
    requires forall t :: 0 <= t < |metas| ==> metas[t] == TableMeta([], 0)
    ensures RecoverTabs(d, metas, []).Some?
    ensures RecoverTabs(d, metas, []).value == seq(|metas|, i => EMPTY)
  {
    assert forall t :: 0 <= t < |metas| ==> LoadParts(d, t, metas[t].partIds) == Some([]);
    var r := RecoverTabs(d, metas, []).value;
    forall t | 0 <= t < |metas| ensures r[t] == EMPTY {
      assert r[t - 0] == Replay(Table([], LoadParts(d, t, metas[t].partIds).value, metas[t].nextPartId), Of([], t));
      assert Of([], t) == [];
    }
  }
}
