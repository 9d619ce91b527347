/** The durable store: write-ahead log, incremental checkpoint, manifest, part
    files and recovery, over files that revert to their last synced image
    (src/storage.rs, wal.rs, persist.rs, manifest.rs, io.rs). Files hold whole
    checksummed frames here; module WalBytes deals with their bytes. */
module Storage {
  import opened Values
  import opened Wrappers
  import opened Mvcc
  import opened Compaction
  import opened Protocol
  import opened Replaying

  // ---- disk ----------------------------------------------------------------

  datatype Path = WalFile | ManifestFile | PartFile(table: nat, part: nat)

  datatype TableMeta = TableMeta(partIds: seq<nat>, nextPartId: nat)

  datatype ManifestState = ManifestState(checkpoint: Csn, metas: seq<TableMeta>)

  /** One logged operation and the table it belongs to. */
  datatype Tagged = Tagged(table: nat, op: Op)

  datatype Record = One(entry: Tagged) | Txn(entries: seq<Tagged>) | Checkpointed(csn: Csn) {
    function Entries(): seq<Tagged> {
      match this case One(e) => [e] case Txn(es) => es case Checkpointed(_) => []
    }
    /** The record's stamp: for a transaction its largest (src/wal.rs:78-87). */
    function Stamp(): Csn {
      match this
      case One(e) => e.op.csn
      case Txn(es) => MaxOf(seq(|es|, i requires 0 <= i < |es| => es[i].op.csn))
      case Checkpointed(c) => c
    }
  }

  datatype Frame =
    | Logged(record: Record)
    | Catalog(state: ManifestState)
    | Summary(id: nat)
    | Image(id: nat, rows: seq<Row>, stamps: Stamps)
    | Tombs(entries: seq<(nat, Csn)>)

  datatype File = File(live: seq<Frame>, durable: seq<Frame>)

  type Disk = map<Path, File>

  datatype Io =
    | Truncate(path: Path)
    | Append(path: Path, frames: seq<Frame>)
    | Sync(path: Path)
    | Remove(path: Path)

  /** Opening creates an empty file (src/io.rs:172-180). */
  function FileAt(d: Disk, path: Path): File { if path in d then d[path] else File([], []) }

  function Exec1(d: Disk, io: Io): Disk {
    match io
    case Truncate(p) => d[p := FileAt(d, p).(live := [])]
    case Append(p, fs) => d[p := FileAt(d, p).(live := FileAt(d, p).live + fs)]
    case Sync(p) => d[p := File(FileAt(d, p).live, FileAt(d, p).live)]
    case Remove(p) => d - {p}
  }

  function Exec(d: Disk, ios: seq<Io>): Disk {
    if ios == [] then d else Exec1(Exec(d, ios[..|ios|-1]), ios[|ios|-1])
  }

  /** Power loss: every file reverts to its last synced image (src/io.rs:116-121, 225-229). */
  function Crash(d: Disk): Disk { map p | p in d :: File(d[p].durable, d[p].durable) }

  // ---- recovery ------------------------------------------------------------

  function MarkAll(dv: Dv, es: seq<(nat, Csn)>): Dv {
    if es == [] then dv else MarkDeleted(MarkAll(dv, es[..|es|-1]), es[|es|-1].0, es[|es|-1].1)
  }

  function MarkFrames(dv: Dv, fs: seq<Frame>): Dv
    decreases |fs|
  {
    if fs == [] || !fs[0].Tombs? then dv else MarkFrames(MarkAll(dv, fs[0].entries), fs[1..])
  }

  /** `Part::new`: bounds recomputed from the stamps. */
  function NewPart(id: nat, rows: seq<Row>, stamps: Stamps): Part {
    if stamps.Uniform? then Part(id, rows, stamps, stamps.csn, stamps.csn, map[])
    else Part(id, rows, stamps, MinOf(stamps.csns), MaxOf(stamps.csns), map[])
  }

  /** Summary, image, then tombstone frames up to the first that is not one (src/persist.rs:211-233). */
  function DecodePart(fs: seq<Frame>): (r: Option<Part>)
    ensures r.Some? ==> r.value.stamps.Covers(|r.value.rows|)
  {
    if |fs| < 2 || !fs[0].Summary? || !fs[1].Image? || !fs[1].stamps.Covers(|fs[1].rows|) then None
    else Some(NewPart(fs[1].id, fs[1].rows, fs[1].stamps).(dv := MarkFrames(map[], fs[2..])))
  }

  function LoadParts(d: Disk, table: nat, ids: seq<nat>): (r: Option<seq<Part>>)
    ensures r.Some? ==> Readable(r.value)
  {
    if ids == [] then Some([])
    else
      var (p, rest) := (DecodePart(FileAt(d, PartFile(table, ids[0])).live), LoadParts(d, table, ids[1..]));
      if p.None? || rest.None? then None else Some([p.value] + rest.value)
  }

  /** Logged operations beyond the checkpoint, in log order (src/storage.rs:194-226). */
  function TailOf(fs: seq<Frame>, checkpoint: Csn): seq<Tagged> {
    if fs == [] then []
    else
      var f := fs[|fs|-1];
      TailOf(fs[..|fs|-1], checkpoint)
      + (if f.Logged? && f.record.Stamp() > checkpoint then f.record.Entries() else [])
  }

  /** The operations of one table. */
  function Of(log: seq<Tagged>, table: nat): seq<Op> {
    if log == [] then []
    else
      var e := log[|log|-1];
      Of(log[..|log|-1], table) + (if e.table == table then [e.op] else [])
  }

  function LastStamp(log: seq<Tagged>, checkpoint: Csn): Csn {
    if log == [] then checkpoint
    else
      var c := LastStamp(log[..|log|-1], checkpoint);
      if log[|log|-1].op.csn > c then log[|log|-1].op.csn else c
  }

  function LastCatalog(fs: seq<Frame>): Option<ManifestState> {
    if fs == [] then None
    else if fs[|fs|-1].Catalog? then Some(fs[|fs|-1].state)
    else LastCatalog(fs[..|fs|-1])
  }

  /** `(table, part)` of every part the catalog names. */
  function KeysOf(metas: seq<TableMeta>): (r: set<(nat, nat)>)
    ensures forall t: nat, id: nat :: (t, id) in r <==> t < |metas| && id in metas[t].partIds
  {
    if metas == [] then {}
    else
      var n := |metas| - 1;
      KeysOf(metas[..n]) + set id | id in metas[n].partIds :: (n, id)
  }

  function PersistedOf(st: ManifestState): map<(nat, nat), Csn> {
    map k | k in KeysOf(st.metas) :: st.checkpoint
  }

  /** The store in memory. `written` and `watermark` count log frames. */
  datatype Mem = Mem(tabs: seq<Table>, cur: Csn, st: ManifestState,
                     persisted: map<(nat, nat), Csn>, written: nat, watermark: nat)

  function RecoverTabs(d: Disk, metas: seq<TableMeta>, tail: seq<Tagged>, from: nat := 0): (r: Option<seq<Table>>)
    requires from <= |metas|
    ensures r.Some? ==> |r.value| == |metas| - from
    ensures r.Some? <==> forall t :: from <= t < |metas| ==> LoadParts(d, t, metas[t].partIds).Some?
    ensures r.Some? ==> forall t :: from <= t < |metas| ==>
      r.value[t - from] == Replay(Table([], LoadParts(d, t, metas[t].partIds).value, metas[t].nextPartId), Of(tail, t))
    decreases |metas| - from
  {
    if from == |metas| then Some([])
    else
      var (ps, rest) := (LoadParts(d, from, metas[from].partIds), RecoverTabs(d, metas, tail, from + 1));
      if ps.None? || rest.None? then None
      else Some([Replay(Table([], ps.value, metas[from].nextPartId), Of(tail, from))] + rest.value)
  }

  /** `Storage::open` followed by `warm` (src/storage.rs:73-181, 254-276). */
  function Open(d: Disk): Option<Mem> {
    var st := LastCatalog(FileAt(d, ManifestFile).live);
    if st.None? then None
    else
      var wal := FileAt(d, WalFile).live;
      var tail := TailOf(wal, st.value.checkpoint);
      var tabs := RecoverTabs(d, st.value.metas, tail);
      if tabs.None? then None
      else Some(Mem(tabs.value, LastStamp(tail, st.value.checkpoint), st.value, PersistedOf(st.value), |wal|, |wal|))
  }

  // ---- operations: what they do to memory, and their I/O calls in order -----

  datatype Effect = Effect(mem: Mem, ios: seq<Io>, entries: seq<Tagged>)

  /** `Wal::append` in Sync or Group mode: write, then sync unless the watermark
      already covers the record (src/wal.rs:245-300). */
  function LogIos(mem: Mem, rec: Record): seq<Io> {
    [Append(WalFile, [Logged(rec)])] + (if mem.watermark >= mem.written + 1 then [] else [Sync(WalFile)])
  }

  function LogMem(mem: Mem): Mem {
    mem.(written := mem.written + 1,
         watermark := if mem.watermark >= mem.written + 1 then mem.watermark else mem.written + 1)
  }

  /** insert / upsert / update / delete: apply in memory, then log (src/storage.rs:457-511). */
  function DoWrite(mem: Mem, table: nat, call: Call, threshold: nat): Effect
    requires table < |mem.tabs| && Readable(mem.tabs[table].parts)
  {
    var (t, cur, out) := Execute(mem.tabs[table], mem.cur, call, threshold);
    var mem' := mem.(tabs := mem.tabs[table := t], cur := cur);
    if out.Done? then
      var e := Tagged(table, call.AsOp(out.csn));
      Effect(LogMem(mem'), LogIos(mem', One(e)), [e])
    else Effect(mem', [], [])
  }

  datatype TxnWrite = PutTo(table: nat, row: Row) | DeleteFrom(table: nat, key: Value) {
    function Call(): Call { if PutTo? then Upsert(row) else Delete(key) }
  }

  ghost predicate AllReadable(tabs: seq<Table>) { forall t :: 0 <= t < |tabs| ==> Readable(tabs[t].parts) }

  /** Tables, clock and log entries after the writes of a transaction, and whether
      every named table exists: a missing one stops the loop where it stands
      (src/storage.rs:515-552). */
  ghost function ApplyTxn(tabs: seq<Table>, cur: Csn, ws: seq<TxnWrite>, threshold: nat): (r: (seq<Table>, Csn, seq<Tagged>, bool))
    requires AllReadable(tabs)
    ensures AllReadable(r.0) && |r.0| == |tabs|
  {
    if ws == [] then (tabs, cur, [], true)
    else
      var n := |ws| - 1;
      var (tabs1, cur1, es, ok) := ApplyTxn(tabs, cur, ws[..n], threshold);
      var w := ws[n];
      if !ok || w.table >= |tabs1| then (tabs1, cur1, es, false)
      else
        var (t, cur2, out) := Execute(tabs1[w.table], cur1, w.Call(), threshold);
        ExecuteReadable(tabs1[w.table], cur1, w.Call(), threshold);
        (tabs1[w.table := t], cur2, es + (if out.Done? then [Tagged(w.table, w.Call().AsOp(out.csn))] else []), true)
  }

  lemma {:induction false} ExecuteReadable(t: Table, cur: Csn, call: Call, threshold: nat)
    requires Readable(t.parts)
    ensures Readable(Execute(t, cur, call, threshold).0.parts)
  {
    hide Write;
    hide Seal;
    hide Locate;
    hide VersionIn;
    hide Readable;
    var op := call.AsOp(cur + 1);
    WriteReadable(t, op, cur);
    SealReadable(Write(t, op, cur));
  }

  lemma {:induction false} WriteReadable(t: Table, op: Op, at: Csn)
    requires Readable(t.parts)
    ensures Readable(Write(t, op, at).parts)
  {
    hide Locate;
  }

  lemma {:induction false} SealReadable(t: Table)
    requires Readable(t.parts)
    ensures Readable(Seal(t).parts)
  {
  }

  ghost function DoCommit(mem: Mem, ws: seq<TxnWrite>, threshold: nat): Effect
    requires AllReadable(mem.tabs)
  {
    var (tabs, cur, es, ok) := ApplyTxn(mem.tabs, mem.cur, ws, threshold);
    var mem' := mem.(tabs := tabs, cur := cur);
    if ok && es != [] then Effect(LogMem(mem'), LogIos(mem', Txn(es)), es)
    else Effect(mem', [], [])
  }

  /** One merge of one table, in memory only. */
  function MergeTable(t: Table, sources: seq<Part>, horizon: Csn, cur: Csn): Table
    requires sources != [] && Readable(sources)
  {
    var caps := seq(|sources|, i requires 0 <= i < |sources| => sources[i].dv);
    t.(parts := ApplyPlan(t.parts, PlanMerge(sources, caps, t.nextPartId, horizon, cur).value), nextPartId := t.nextPartId + 1)
  }

  // ---- checkpoint ----------------------------------------------------------

  /** Tombstones stamped after `since`, by ordinal (src/delete_vector.rs:129-135). */
  function EntriesAfter(p: Part, since: Csn, n: nat): (es: seq<(nat, Csn)>)
    requires n <= |p.rows|
    ensures forall i :: 0 <= i < |es| ==> es[i].0 < n && es[i].0 in p.dv && es[i].1 == p.dv[es[i].0] && since < es[i].1
    ensures forall o :: o < n && o in p.dv && since < p.dv[o] ==> (o, p.dv[o]) in es
  {
    if n == 0 then []
    else EntriesAfter(p, since, n - 1) + (if n - 1 in p.dv && since < p.dv[n-1] then [(n - 1, p.dv[n-1])] else [])
  }

  function StampsOut(p: Part): Stamps { if p.stamps.Uniform? then Uniform(p.createdMin) else p.stamps }

  /** Write a new part in full, append to a known one only its new tombstones
      (src/storage.rs:592-609, src/persist.rs:166-191). */
  function PartIos(persisted: map<(nat, nat), Csn>, t: nat, p: Part): seq<Io> {
    var path := PartFile(t, p.id);
    if (t, p.id) in persisted then
      var es := EntriesAfter(p, persisted[(t, p.id)], |p.rows|);
      if es == [] then [] else [Append(path, [Tombs(es)]), Sync(path)]
    else
      var es := EntriesAfter(p, 0, |p.rows|);
      [Truncate(path), Append(path, [Summary(p.id), Image(p.id, p.rows, StampsOut(p))])]
      + (if es == [] then [] else [Append(path, [Tombs(es)])]) + [Sync(path)]
  }

  function TableIos(persisted: map<(nat, nat), Csn>, t: nat, parts: seq<Part>): seq<Io> {
    if parts == [] then []
    else TableIos(persisted, t, parts[..|parts|-1]) + PartIos(persisted, t, parts[|parts|-1])
  }

  function PartsIos(persisted: map<(nat, nat), Csn>, tabs: seq<Table>): seq<Io> {
    if tabs == [] then []
    else PartsIos(persisted, tabs[..|tabs|-1]) + TableIos(persisted, |tabs| - 1, tabs[|tabs|-1].parts)
  }

  function SealAll(tabs: seq<Table>): seq<Table> { seq(|tabs|, t requires 0 <= t < |tabs| => Seal(tabs[t])) }

  function CatalogOf(tabs: seq<Table>, cur: Csn): ManifestState {
    ManifestState(cur, seq(|tabs|, t requires 0 <= t < |tabs| => TableMeta(IdsOf(tabs[t].parts), tabs[t].nextPartId)))
  }

  /** Files of parts the new catalog no longer names. */
  function DeadIos(was: ManifestState, now: ManifestState, t: nat, ids: seq<nat>): seq<Io>
    requires t < |now.metas|
  {
    if ids == [] then []
    else
      DeadIos(was, now, t, ids[..|ids|-1])
      + (if ids[|ids|-1] in now.metas[t].partIds then [] else [Remove(PartFile(t, ids[|ids|-1]))])
  }

  function AllDeadIos(was: ManifestState, now: ManifestState, n: nat): seq<Io>
    requires n <= |was.metas| && n <= |now.metas|
  {
    if n == 0 then [] else AllDeadIos(was, now, n - 1) + DeadIos(was, now, n - 1, was.metas[n-1].partIds)
  }

  /** Log the checkpoint, flush, then drop the whole log (src/storage.rs:629-633). */
  function LogResetIos(mem: Mem): seq<Io> {
    LogIos(mem, Checkpointed(mem.cur)) + [Truncate(WalFile), Sync(WalFile)]
  }

  /** Seal, persist parts, switch the manifest, drop dead files, empty the log
      (src/storage.rs:572-635). */
  function DoCheckpoint(mem: Mem): Effect
    requires |mem.st.metas| == |mem.tabs|
  {
    var tabs := SealAll(mem.tabs);
    var st := CatalogOf(tabs, mem.cur);
    Effect(Mem(tabs, mem.cur, st, PersistedOf(st), 0, 0),
           PartsIos(mem.persisted, tabs)
           + [Truncate(ManifestFile), Append(ManifestFile, [Catalog(st)]), Sync(ManifestFile)]
           + AllDeadIos(mem.st, st, |mem.tabs|)
           + LogResetIos(mem),
           [])
  }
}
