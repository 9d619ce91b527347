/** Crash safety: after any prefix of any operation's I/O calls, power loss and
    reopening give the state of all acknowledged operations, or that plus the
    one in flight. */
module Recovery {
  import opened Bags
  import opened Values
  import opened Wrappers
  import opened Mvcc
  import opened Compaction
  import opened Protocol
  import opened Replaying
  import opened Storage

  /** The acknowledged log, split at the last checkpoint, and the tables as they
      were checkpointed. */
  datatype Witness = Witness(past: seq<Tagged>, tail: seq<Tagged>, base: seq<Table>) {
    function Log(): seq<Tagged> { past + tail }
    ghost predicate Ordered(ckpt: Csn) {
      && ckpt < NEVER
      && (forall i, j :: 0 <= i < j < |tail| ==> tail[i].op.csn < tail[j].op.csn)
      && (forall i :: 0 <= i < |tail| ==> ckpt < tail[i].op.csn < NEVER && tail[i].table < |base|)
    }
  }

  // ---- the log, table by table ---------------------------------------------

  lemma {:induction false} OfAppend(a: seq<Tagged>, b: seq<Tagged>, t: nat)
    ensures Of(a + b, t) == Of(a, t) + Of(b, t)
  {
    if b == [] {
      assert a + b == a;
    } else {
      assert (a + b)[..|a + b|-1] == a + b[..|b|-1];
      OfAppend(a, b[..|b|-1], t);
    }
  }

  lemma {:induction false} OfMembers(log: seq<Tagged>, t: nat, i: nat)
    requires i < |Of(log, t)|
    ensures exists j :: 0 <= j < |log| && log[j].table == t && log[j].op == Of(log, t)[i]
  {
    var n := |log| - 1;
    if i < |Of(log[..n], t)| {
      OfMembers(log[..n], t, i);
      var j :| 0 <= j < n && log[..n][j].table == t && log[..n][j].op == Of(log[..n], t)[i];
      assert log[j].op == Of(log, t)[i];
    } else {
      assert log[n].op == Of(log, t)[i];
    }
  }

  lemma {:induction false} OfAscending(log: seq<Tagged>, ckpt: Csn, t: nat)
    requires forall i, j :: 0 <= i < j < |log| ==> log[i].op.csn < log[j].op.csn
    requires ckpt < NEVER && forall i :: 0 <= i < |log| ==> ckpt < log[i].op.csn < NEVER
    ensures Ascending(Of(log, t), ckpt)
    ensures LastOf(Of(log, t), ckpt) <= LastStamp(log, ckpt) < NEVER
    ensures log != [] ==> LastStamp(log, ckpt) == log[|log|-1].op.csn
    ensures log == [] ==> LastStamp(log, ckpt) == ckpt
  {
    hide LastStamp;
    hide Of;
    hide Ascending;
    hide LastOf;
    LastStampIs(log, ckpt);
    if log == [] {
      OfNothing(ckpt, t);
    } else {
      var n := |log| - 1;
      OfAscending(log[..n], ckpt, t);
      OfBelow(log[..n], log[n].op.csn, t);
      OfLast(log, t);
      AscendingNext(Of(log[..n], t), log[n].op, ckpt);
      if log[n].table != t { assert Of(log[..n], t) + [] == Of(log[..n], t); }
    }
  }

  lemma {:induction false} OfNothing(ckpt: Csn, t: nat)
    ensures Of([], t) == [] && Ascending([], ckpt) && LastOf([], ckpt) == ckpt
  {
  }

  lemma {:induction false} AscendingNext(ops: seq<Op>, op: Op, ckpt: Csn)
    requires Ascending(ops, ckpt) && ckpt < op.csn < NEVER && forall i :: 0 <= i < |ops| ==> ops[i].csn < op.csn
    ensures Ascending(ops + [op], ckpt) && LastOf(ops + [op], ckpt) == op.csn && LastOf(ops, ckpt) < op.csn
  {
  }

  /** The last stamp of an ascending log. */
  lemma {:induction false} LastStampIs(log: seq<Tagged>, ckpt: Csn)
    requires forall i, j :: 0 <= i < j < |log| ==> log[i].op.csn < log[j].op.csn
    requires forall i :: 0 <= i < |log| ==> ckpt < log[i].op.csn
    ensures log != [] ==> LastStamp(log, ckpt) == log[|log|-1].op.csn
    ensures log == [] ==> LastStamp(log, ckpt) == ckpt
  {
    if log != [] { LastStampIs(log[..|log|-1], ckpt); }
  }

  lemma {:induction false} OfLast(log: seq<Tagged>, t: nat)
    requires log != []
    ensures var e := log[|log|-1]; Of(log, t) == Of(log[..|log|-1], t) + (if e.table == t then [e.op] else [])
  {
  }

  lemma {:induction false} OfBelow(log: seq<Tagged>, bound: Csn, t: nat)
    requires forall i :: 0 <= i < |log| ==> log[i].op.csn < bound
    ensures forall i :: 0 <= i < |Of(log, t)| ==> Of(log, t)[i].csn < bound
  {
    hide Of;
    forall i | 0 <= i < |Of(log, t)| ensures Of(log, t)[i].csn < bound { OfMembers(log, t, i); }
  }

  // ---- part files ----------------------------------------------------------

  ghost predicate AllTombs(fs: seq<Frame>) { forall i :: 0 <= i < |fs| ==> fs[i].Tombs? }

  lemma {:induction false} MarkFramesAppend(dv: Dv, a: seq<Frame>, f: Frame)
    requires AllTombs(a) && f.Tombs?
    ensures MarkFrames(dv, a + [f]) == MarkAll(MarkFrames(dv, a), f.entries)
    decreases |a|
  {
    if a == [] {
      assert a + [f] == [f] && [f][1..] == [];
    } else {
      assert (a + [f])[1..] == a[1..] + [f];
      MarkFramesAppend(MarkAll(dv, a[0].entries), a[1..], f);
    }
  }

  /** The frames decode to the checkpointed part plus some of the tail's tombstones. */
  ghost predicate Loads(fs: seq<Frame>, base: Part, tail: seq<Op>) {
    && |fs| >= 2 && AllTombs(fs[2..])
    && DecodePart(fs).Some? && Between(DecodePart(fs).value, base, tail)
  }

  ghost predicate Genuine(es: seq<(nat, Csn)>, base: Part, tail: seq<Op>) {
    forall i :: 0 <= i < |es| ==>
      es[i].0 < |base.rows| && es[i].0 !in base.dv && FirstOf(tail, base.rows[es[i].0].key) == Some(es[i].1)
  }

  lemma {:induction false} MarkGenuine(p: Part, base: Part, tail: seq<Op>, es: seq<(nat, Csn)>)
    requires Between(p, base, tail) && Genuine(es, base, tail)
    ensures Between(p.(dv := MarkAll(p.dv, es)), base, tail)
    ensures forall o :: o in p.dv ==> o in MarkAll(p.dv, es)
    ensures forall i :: 0 <= i < |es| ==> es[i].0 in MarkAll(p.dv, es)
    decreases |es|
  {
    if es != [] {
      MarkGenuine(p, base, tail, es[..|es|-1]);
    }
  }

  /** Appending genuine tombstones, once or again, keeps the file loadable. */
  lemma {:induction false} AppendLoads(fs: seq<Frame>, base: Part, tail: seq<Op>, es: seq<(nat, Csn)>)
    requires Loads(fs, base, tail) && Genuine(es, base, tail)
    ensures Loads(fs + [Tombs(es)], base, tail)
    ensures DecodePart(fs + [Tombs(es)]).value.dv == MarkAll(DecodePart(fs).value.dv, es)
  {
    var fs' := fs + [Tombs(es)];
    assert fs'[2..] == fs[2..] + [Tombs(es)];
    MarkFramesAppend(map[], fs[2..], Tombs(es));
    MarkGenuine(DecodePart(fs).value, base, tail, es);
  }

  lemma {:induction false} GrownLoads(fs: seq<Frame>, more: seq<Frame>, base: Part, tail: seq<Op>, es: seq<(nat, Csn)>)
    requires Loads(fs, base, tail) && Genuine(es, base, tail)
    requires forall i :: 0 <= i < |more| ==> more[i] == Tombs(es)
    ensures Loads(fs + more, base, tail)
  {
    if more == [] {
      assert fs + more == fs;
    } else {
      var n := |more| - 1;
      GrownLoads(fs, more[..n], base, tail, es);
      AppendLoads(fs + more[..n], base, tail, es);
      assert fs + more == fs + more[..n] + [more[n]];
    }
  }

  /** A longer tail keeps every tombstone genuine. */
  lemma {:induction false} LoadsLonger(fs: seq<Frame>, base: Part, tail: seq<Op>, more: seq<Op>)
    requires Loads(fs, base, tail)
    ensures Loads(fs, base, tail + more)
  {
    var p := DecodePart(fs).value;
    forall o | o in p.dv && o !in base.dv ensures FirstOf(tail + more, base.rows[o].key) == Some(p.dv[o]) {
      FirstOfLonger(tail, more, base.rows[o].key);
    }
  }

  lemma {:induction false} FirstOfLonger(tail: seq<Op>, more: seq<Op>, key: Value)
    requires FirstOf(tail, key).Some?
    ensures FirstOf(tail + more, key) == FirstOf(tail, key)
  {
    if more == [] {
      assert tail + more == tail;
    } else {
      FirstOfLonger(tail, more[..|more|-1], key);
      assert (tail + more)[..|tail + more|-1] == tail + more[..|more|-1];
    }
  }

  // ---- what makes a disk recoverable ---------------------------------------

  ghost predicate TableDiskOk(d: Disk, t: nat, meta: TableMeta, base: Table, past: seq<Op>, tail: seq<Op>, ckpt: Csn) {
    && Base(base, past, ckpt)
    && meta.partIds == IdsOf(base.parts) && meta.nextPartId == base.nextPartId
    && forall i :: 0 <= i < |base.parts| ==> Loads(FileAt(d, PartFile(t, base.parts[i].id)).durable, base.parts[i], tail)
  }

  ghost predicate StampsUpTo(fs: seq<Frame>, c: Csn) {
    forall i :: 0 <= i < |fs| && fs[i].Logged? ==> fs[i].record.Stamp() <= c
  }

  /** What survives a crash of `d` recovers to the witness's log. */
  ghost predicate DiskOk(d: Disk, st: ManifestState, w: Witness) {
    && LastCatalog(FileAt(d, ManifestFile).durable) == Some(st)
    && |st.metas| == |w.base|
    && w.Ordered(st.checkpoint)
    && TailOf(FileAt(d, WalFile).durable, st.checkpoint) == w.tail
    && StampsUpTo(FileAt(d, WalFile).durable, LastStamp(w.tail, st.checkpoint))
    && forall t :: 0 <= t < |w.base| ==>
         TableDiskOk(d, t, st.metas[t], w.base[t], Of(w.past, t), Of(w.tail, t), st.checkpoint)
  }

  ghost predicate TabOk(t: Table, base: Table, past: seq<Op>, tail: seq<Op>, floor: Csn, cur: Csn) {
    Inv(t, past + tail, floor, cur) && Tracks(t, base, tail)
  }

  /** Every table agrees with the log and carries the tail's tombstones. */
  ghost predicate TabsOk(tabs: seq<Table>, cur: Csn, w: Witness, ckpt: Csn, floor: Csn) {
    && |tabs| == |w.base|
    && ckpt <= cur < NEVER && floor <= cur
    && w.Ordered(ckpt)
    && (w.tail != [] ==> w.tail[|w.tail|-1].op.csn <= cur)
    && forall t :: 0 <= t < |w.base| ==> TabOk(tabs[t], w.base[t], Of(w.past, t), Of(w.tail, t), floor, cur)
  }

  ghost predicate MemOk(mem: Mem, w: Witness, floor: Csn) {
    && |mem.st.metas| == |mem.tabs|
    && mem.persisted == PersistedOf(mem.st)
    && TabsOk(mem.tabs, mem.cur, w, mem.st.checkpoint, floor)
  }

  /** Files the store may still write to have nothing unsynced between operations. */
  ghost predicate Settled(d: Disk, mem: Mem, w: Witness) {
    && mem.written == mem.watermark == |FileAt(d, WalFile).live|
    && FileAt(d, WalFile).live == FileAt(d, WalFile).durable
    && forall t, i :: 0 <= t < |w.base| && 0 <= i < |w.base[t].parts| ==>
         FileAt(d, PartFile(t, w.base[t].parts[i].id)).live == FileAt(d, PartFile(t, w.base[t].parts[i].id)).durable
  }

  /** The invariant between operations. */
  ghost predicate DbInv(mem: Mem, d: Disk, w: Witness, floor: Csn) {
    DiskOk(d, mem.st, w) && MemOk(mem, w, floor) && Settled(d, mem, w)
  }

  // ---- opening -------------------------------------------------------------

  lemma {:induction false} CrashFile(d: Disk, p: Path)
    ensures FileAt(Crash(d), p) == File(FileAt(d, p).durable, FileAt(d, p).durable)
  {
  }

  lemma {:induction false} LoadPartsOk(d: Disk, t: nat, base: seq<Part>, tail: seq<Op>)
    requires forall i :: 0 <= i < |base| ==> Loads(FileAt(d, PartFile(t, base[i].id)).durable, base[i], tail)
    ensures LoadParts(Crash(d), t, IdsOf(base)).Some?
    ensures BetweenAll(LoadParts(Crash(d), t, IdsOf(base)).value, base, tail)
  {
    if base != [] {
      assert IdsOf(base)[1..] == IdsOf(base[1..]);
      LoadPartsOk(d, t, base[1..], tail);
      CrashFile(d, PartFile(t, base[0].id));
      assert Loads(FileAt(d, PartFile(t, base[0].id)).durable, base[0], tail);
    }
  }

  /** One recovered table: exactly the logged history of that table. */
  lemma {:induction false} RecoverTableOk(d: Disk, t: nat, meta: TableMeta, base: Table, past: seq<Op>, tail: seq<Op>, ckpt: Csn, cur: Csn)
    requires TableDiskOk(d, t, meta, base, past, tail, ckpt)
    requires Ascending(tail, ckpt) && LastOf(tail, ckpt) <= cur < NEVER
    ensures var ps := LoadParts(Crash(d), t, meta.partIds);
      && ps.Some?
      && var r := Replay(Table([], ps.value, meta.nextPartId), tail);
         Inv(r, past + tail, ckpt, cur) && Tracks(r, base, tail)
  {
    LoadPartsOk(d, t, base.parts, tail);
    var loaded := Table([], LoadParts(Crash(d), t, meta.partIds).value, meta.nextPartId);
    ReadableFromShape(base, ckpt);
    ReplayIdempotent(loaded, base, past, ckpt, tail);
    ReplayFromBase(base, past, ckpt, tail);
    TickKeepsInv(Replay(base, tail), past + tail, ckpt, LastOf(tail, ckpt), cur);
  }

  lemma {:induction false} RecoverTabsOk(d: Disk, st: ManifestState, w: Witness)
    requires DiskOk(d, st, w)
    ensures var r := RecoverTabs(Crash(d), st.metas, w.tail);
      && r.Some? && |r.value| == |st.metas|
      && forall t :: 0 <= t < |st.metas| ==>
           TabOk(r.value[t], w.base[t], Of(w.past, t), Of(w.tail, t), st.checkpoint, LastStamp(w.tail, st.checkpoint))
  {
    hide Inv;
    hide Tracks;
    hide TableDiskOk;
    forall t | 0 <= t < |st.metas|
      ensures var ps := LoadParts(Crash(d), t, st.metas[t].partIds);
        && ps.Some?
        && var r := Replay(Table([], ps.value, st.metas[t].nextPartId), Of(w.tail, t));
           TabOk(r, w.base[t], Of(w.past, t), Of(w.tail, t), st.checkpoint, LastStamp(w.tail, st.checkpoint))
    {
      assert TableDiskOk(d, t, st.metas[t], w.base[t], Of(w.past, t), Of(w.tail, t), st.checkpoint);
      OfAscending(w.tail, st.checkpoint, t);
      RecoverTableOk(d, t, st.metas[t], w.base[t], Of(w.past, t), Of(w.tail, t), st.checkpoint,
                     LastStamp(w.tail, st.checkpoint));
    }
  }

  /** Reopening whatever a crash leaves of a recoverable disk restores the invariant. */
  lemma {:induction false} OpenOk(d: Disk, st: ManifestState, w: Witness)
    requires DiskOk(d, st, w)
    ensures Open(Crash(d)).Some?
    ensures DbInv(Open(Crash(d)).value, Crash(d), w, st.checkpoint)
    ensures Open(Crash(d)).value.cur == if w.tail == [] then st.checkpoint else w.tail[|w.tail|-1].op.csn
  {
    hide Crash;
    hide TableDiskOk;
    hide TabOk;
    hide RecoverTabs;
    hide LastCatalog;
    hide TailOf;
    hide PersistedOf;
    CrashFile(d, ManifestFile);
    CrashFile(d, WalFile);
    RecoverTabsOk(d, st, w);
    OfAscending(w.tail, st.checkpoint, 0);
    CrashKeepsTables(d, st, w);
    assert Settled(Crash(d), Open(Crash(d)).value, w) by {
      forall t, i | 0 <= t < |w.base| && 0 <= i < |w.base[t].parts|
        ensures FileAt(Crash(d), PartFile(t, w.base[t].parts[i].id)).live == FileAt(Crash(d), PartFile(t, w.base[t].parts[i].id)).durable
      {
        CrashFile(d, PartFile(t, w.base[t].parts[i].id));
      }
    }
  }

  lemma {:induction false} CrashKeepsTables(d: Disk, st: ManifestState, w: Witness)
    requires DiskOk(d, st, w)
    ensures forall t :: 0 <= t < |w.base| ==>
      TableDiskOk(Crash(d), t, st.metas[t], w.base[t], Of(w.past, t), Of(w.tail, t), st.checkpoint)
  {
    hide Loads;
    forall t | 0 <= t < |w.base|
      ensures TableDiskOk(Crash(d), t, st.metas[t], w.base[t], Of(w.past, t), Of(w.tail, t), st.checkpoint)
    {
      assert TableDiskOk(d, t, st.metas[t], w.base[t], Of(w.past, t), Of(w.tail, t), st.checkpoint);
      forall i | 0 <= i < |w.base[t].parts|
        ensures Loads(FileAt(Crash(d), PartFile(t, w.base[t].parts[i].id)).durable, w.base[t].parts[i], Of(w.tail, t))
      {
        CrashFile(d, PartFile(t, w.base[t].parts[i].id));
      }
    }
  }

  // ---- logging an operation ------------------------------------------------

  /** A record whose entries continue the log in stamp order. */
  ghost predicate Continues(rec: Record, w: Witness, ckpt: Csn) {
    && rec.Entries() != []
    && Witness(w.past, w.tail + rec.Entries(), w.base).Ordered(ckpt)
    && ckpt < rec.Stamp() <= LastStamp(w.tail + rec.Entries(), ckpt)
    && LastStamp(w.tail, ckpt) <= LastStamp(w.tail + rec.Entries(), ckpt)
  }

  ghost function Extended(w: Witness, es: seq<Tagged>): Witness { w.(tail := w.tail + es) }

  /** The two I/O calls of a logged operation, and the log file after them. */
  lemma {:induction false} LogRuns(d: Disk, mem: Mem, w: Witness, rec: Record)
    requires Settled(d, mem, w)
    ensures LogIos(mem, rec) == [Append(WalFile, [Logged(rec)]), Sync(WalFile)]
    ensures var (d1, d2) := (Exec(d, LogIos(mem, rec)[..1]), Exec(d, LogIos(mem, rec)));
      && (forall p :: p != WalFile ==> FileAt(d1, p) == FileAt(d2, p) == FileAt(d, p))
      && FileAt(d1, WalFile).durable == FileAt(d, WalFile).durable
      && FileAt(d2, WalFile) == File(FileAt(d, WalFile).live + [Logged(rec)], FileAt(d, WalFile).live + [Logged(rec)])
  {
    var ios := LogIos(mem, rec);
    var app := Append(WalFile, [Logged(rec)]);
    assert ios[..1] == [app] && [app][..0] == [] && Exec(d, [app]) == Exec1(d, app);
    assert ios[..|ios|-1] == [app];
  }

  lemma {:induction false} NothingRun(d: Disk)
    ensures Exec(d, []) == d
  {
  }

  /** Until the sync the log is what it was; from the sync on the whole record is
      in it, all entries or none. */
  lemma {:induction false} LogCrash(d: Disk, mem: Mem, w: Witness, rec: Record, k: nat)
    requires DiskOk(d, mem.st, w) && Settled(d, mem, w) && Continues(rec, w, mem.st.checkpoint)
    requires k <= |LogIos(mem, rec)|
    ensures |LogIos(mem, rec)| == 2
    ensures DiskOk(Exec(d, LogIos(mem, rec)[..k]), mem.st, if k < 2 then w else Extended(w, rec.Entries()))
  {
    hide TableDiskOk;
    hide Exec;
    hide LastCatalog;
    hide TailOf;
    hide LastStamp;
    hide StampsUpTo;
    hide Settled;
    hide Continues;
    LogRuns(d, mem, w, rec);
    var ios := LogIos(mem, rec);
    if k == 0 {
      assert ios[..0] == [];
      NothingRun(d);
    } else if k == 1 {
      WalOnly(d, Exec(d, ios[..1]), mem.st, w, w);
    } else {
      LogSynced(d, mem, w, rec);
      assert ios[..2] == ios;
    }
  }

  lemma {:induction false} TailLogged(fs: seq<Frame>, rec: Record, w: Witness, ckpt: Csn)
    requires TailOf(fs, ckpt) == w.tail && StampsUpTo(fs, LastStamp(w.tail, ckpt)) && Continues(rec, w, ckpt)
    ensures TailOf(fs + [Logged(rec)], ckpt) == w.tail + rec.Entries()
    ensures StampsUpTo(fs + [Logged(rec)], LastStamp(w.tail + rec.Entries(), ckpt))
  {
    hide LastStamp;
    hide Witness.Ordered;
    var fs' := fs + [Logged(rec)];
    assert fs'[..|fs|] == fs && fs'[|fs|] == Logged(rec);
  }

  lemma {:induction false} LogSynced(d: Disk, mem: Mem, w: Witness, rec: Record)
    requires DiskOk(d, mem.st, w) && Settled(d, mem, w) && Continues(rec, w, mem.st.checkpoint)
    ensures DiskOk(Exec(d, LogIos(mem, rec)), mem.st, Extended(w, rec.Entries()))
  {
    hide TableDiskOk;
    hide LastCatalog;
    hide TailOf;
    hide LastStamp;
    hide StampsUpTo;
    hide Exec;
    hide LogIos;
    LogRuns(d, mem, w, rec);
    TailLogged(FileAt(d, WalFile).durable, rec, w, mem.st.checkpoint);
    WalOnly(d, Exec(d, LogIos(mem, rec)), mem.st, w, Extended(w, rec.Entries()));
  }

  /** Only the log file's durable image may differ, and it holds a longer tail. */
  lemma {:induction false} WalOnly(d: Disk, d': Disk, st: ManifestState, w: Witness, w': Witness)
    requires DiskOk(d, st, w)
    requires forall p :: p != WalFile ==> FileAt(d', p).durable == FileAt(d, p).durable
    requires w'.past == w.past && w'.base == w.base && w.tail <= w'.tail && w'.Ordered(st.checkpoint)
    requires TailOf(FileAt(d', WalFile).durable, st.checkpoint) == w'.tail
    requires StampsUpTo(FileAt(d', WalFile).durable, LastStamp(w'.tail, st.checkpoint))
    ensures DiskOk(d', st, w')
  {
    hide TableDiskOk;
    hide Of;
    hide TailOf;
    hide LastCatalog;
    hide StampsUpTo;
    var more := w'.tail[|w.tail|..];
    assert w'.tail == w.tail + more;
    forall t | 0 <= t < |w.base|
      ensures TableDiskOk(d', t, st.metas[t], w.base[t], Of(w.past, t), Of(w'.tail, t), st.checkpoint)
    {
      assert TableDiskOk(d, t, st.metas[t], w.base[t], Of(w.past, t), Of(w.tail, t), st.checkpoint);
      OfAppend(w.tail, more, t);
      TableLonger(d, d', t, st.metas[t], w.base[t], Of(w.past, t), Of(w.tail, t), Of(more, t), st.checkpoint);
    }
  }

  lemma {:induction false} TableLonger(d: Disk, d': Disk, t: nat, meta: TableMeta, base: Table, past: seq<Op>, tail: seq<Op>, more: seq<Op>, ckpt: Csn)
    requires TableDiskOk(d, t, meta, base, past, tail, ckpt)
    requires forall p :: p != WalFile ==> FileAt(d', p).durable == FileAt(d, p).durable
    ensures TableDiskOk(d', t, meta, base, past, tail + more, ckpt)
  {
    hide Loads;
    hide FileAt;
    hide Base;
    forall i | 0 <= i < |base.parts| ensures Loads(FileAt(d', PartFile(t, base.parts[i].id)).durable, base.parts[i], tail + more) {
      LoadsLonger(FileAt(d, PartFile(t, base.parts[i].id)).durable, base.parts[i], tail, more);
    }
  }

  // ---- memory side of writes and transactions ------------------------------

  lemma {:induction false} SealTracks(t: Table, base: Table, h: seq<Op>, ckpt: Csn, tail: seq<Op>)
    requires Base(base, h, ckpt) && Tracks(t, base, tail)
    ensures Tracks(Seal(t), base, tail)
  {
    forall i, j | 0 <= i < |Seal(t).parts| && 0 <= j < |base.parts|
      ensures TracksPart(Seal(t).parts[i], base.parts[j], tail)
    {
      if t.l0 == [] || i > 0 {
        assert TracksPart(t.parts[if t.l0 == [] then i else i - 1], base.parts[j], tail);
      }
    }
  }

  lemma {:induction false} CallTracks(t: Table, base: Table, past: seq<Op>, tail: seq<Op>, ckpt: Csn, floor: Csn, cur: Csn, call: Call, threshold: nat)
    requires TabOk(t, base, past, tail, floor, cur) && Base(base, past, ckpt) && Readable(t.parts) && cur + 1 < NEVER
    requires Execute(t, cur, call, threshold).2.Done?
    ensures Tracks(Execute(t, cur, call, threshold).0, base, tail + [call.AsOp(cur + 1)])
  {
    var op := call.AsOp(cur + 1);
    WriteTracks(t, base, past + tail, floor, cur, tail, op);
    hide Inv;
    SealTracks(Write(t, op, cur), base, past, ckpt, tail + [op]);
    hide Tracks;
  }

  lemma {:induction false} CallKeepsTab(t: Table, base: Table, past: seq<Op>, tail: seq<Op>, ckpt: Csn, floor: Csn, cur: Csn, call: Call, threshold: nat)
    requires TabOk(t, base, past, tail, floor, cur) && Base(base, past, ckpt) && Readable(t.parts) && cur + 1 < NEVER
    ensures var (t', cur', out) := Execute(t, cur, call, threshold);
      && (out.Done? ==> out.csn == cur' == cur + 1) && (!out.Done? ==> cur' == cur && t' == t)
      && TabOk(t', base, past, if out.Done? then tail + [call.AsOp(out.csn)] else tail, floor, cur')
  {
    hide Inv;
    hide Tracks;
    ExecuteOutcome(t, past + tail, floor, cur, call, threshold);
    ExecuteKeepsInv(t, past + tail, floor, cur, call, threshold);
    var out := Execute(t, cur, call, threshold).2;
    if out.Done? {
      ExecuteStamp(t, cur, call, threshold);
      CallTracks(t, base, past, tail, ckpt, floor, cur, call, threshold);
      assert past + tail + [call.AsOp(out.csn)] == past + (tail + [call.AsOp(out.csn)]);
    }
  }

  lemma {:induction false} ExecuteStamp(t: Table, cur: Csn, call: Call, threshold: nat)
    requires Readable(t.parts)
    ensures var (t', cur', out) := Execute(t, cur, call, threshold); out.Done? ==> out.csn == cur' == cur + 1
  {
  }

  ghost predicate BasesOk(w: Witness, ckpt: Csn) {
    forall t :: 0 <= t < |w.base| ==> Base(w.base[t], Of(w.past, t), ckpt)
  }

  lemma {:induction false} TabsReadable(tabs: seq<Table>, cur: Csn, w: Witness, ckpt: Csn, floor: Csn)
    requires TabsOk(tabs, cur, w, ckpt, floor)
    ensures AllReadable(tabs)
  {
    forall t | 0 <= t < |tabs| ensures Readable(tabs[t].parts) {
      assert TabOk(tabs[t], w.base[t], Of(w.past, t), Of(w.tail, t), floor, cur);
      ReadableFromShape(tabs[t], cur);
    }
  }

  lemma {:induction false} TickTab(t: Table, base: Table, past: seq<Op>, tail: seq<Op>, floor: Csn, cur: Csn, later: Csn)
    requires TabOk(t, base, past, tail, floor, cur) && cur <= later < NEVER
    ensures TabOk(t, base, past, tail, floor, later)
  {
    TickKeepsInv(t, past + tail, floor, cur, later);
  }

  lemma {:induction false} OfOne(log: seq<Tagged>, e: Tagged, t: nat)
    ensures Of(log + [e], t) == if e.table == t then Of(log, t) + [e.op] else Of(log, t)
  {
    assert (log + [e])[..|log|] == log;
  }

  lemma {:induction false} OrderedExtends(w: Witness, ckpt: Csn, cur: Csn, e: Tagged)
    requires w.Ordered(ckpt) && (w.tail != [] ==> w.tail[|w.tail|-1].op.csn <= cur)
    requires ckpt <= cur < e.op.csn < NEVER && e.table < |w.base|
    ensures Extended(w, [e]).Ordered(ckpt)
  {
    var tail := w.tail + [e];
    forall i, j | 0 <= i < j < |tail| ensures tail[i].op.csn < tail[j].op.csn {
      if j == |w.tail| && i < |w.tail| - 1 {
        assert w.tail[i].op.csn < w.tail[|w.tail|-1].op.csn;
      }
    }
  }

  /** One write call on one table of the store. */
  lemma {:induction false} CallKeepsTabs(tabs: seq<Table>, cur: Csn, w: Witness, ckpt: Csn, floor: Csn, table: nat, call: Call, threshold: nat)
    requires TabsOk(tabs, cur, w, ckpt, floor) && BasesOk(w, ckpt) && AllReadable(tabs)
    requires table < |tabs| && cur + 1 < NEVER
    ensures var (t', cur', out) := Execute(tabs[table], cur, call, threshold);
      TabsOk(tabs[table := t'], cur', Extended(w, if out.Done? then [Tagged(table, call.AsOp(out.csn))] else []), ckpt, floor)
  {
    hide Execute;
    hide TabOk;
    hide Base;
    hide Readable;
    hide Of;
    var (t', cur', out) := Execute(tabs[table], cur, call, threshold);
    assert TabOk(tabs[table], w.base[table], Of(w.past, table), Of(w.tail, table), floor, cur);
    CallKeepsTab(tabs[table], w.base[table], Of(w.past, table), Of(w.tail, table), ckpt, floor, cur, call, threshold);
    if out.Done? {
      var e := Tagged(table, call.AsOp(out.csn));
      OrderedExtends(w, ckpt, cur, e);
      forall t | 0 <= t < |w.base|
        ensures TabOk(tabs[table := t'][t], w.base[t], Of(w.past, t), Of(w.tail + [e], t), floor, cur')
      {
        OfOne(w.tail, e, t);
        if t != table {
          TickTab(tabs[t], w.base[t], Of(w.past, t), Of(w.tail, t), floor, cur, cur');
        }
      }
    } else {
      assert w.tail + [] == w.tail;
      assert tabs[table := t'] == tabs;
    }
  }

  /** A transaction's writes one after another. */
  lemma {:induction false} TxnKeepsTabs(tabs: seq<Table>, cur: Csn, w: Witness, ckpt: Csn, floor: Csn, ws: seq<TxnWrite>, threshold: nat)
    requires TabsOk(tabs, cur, w, ckpt, floor) && BasesOk(w, ckpt) && AllReadable(tabs)
    requires cur + |ws| < NEVER && forall i :: 0 <= i < |ws| ==> ws[i].table < |tabs|
    ensures var (tabs', cur', es, ok) := ApplyTxn(tabs, cur, ws, threshold);
      && ok && cur <= cur' <= cur + |ws|
      && TabsOk(tabs', cur', Extended(w, es), ckpt, floor)
      && (es == [] ==> tabs' == tabs && cur' == cur)
  {
    hide Execute;
    hide TabsOk;
    hide TabOk;
    hide Base;
    if ws == [] {
      assert w.tail + [] == w.tail;
    } else {
      var n := |ws| - 1;
      TxnKeepsTabs(tabs, cur, w, ckpt, floor, ws[..n], threshold);
      var (tabs1, cur1, es, ok) := ApplyTxn(tabs, cur, ws[..n], threshold);
      var wn := ws[n];
      CallKeepsTabs(tabs1, cur1, Extended(w, es), ckpt, floor, wn.table, wn.Call(), threshold);
      CallAnswer(tabs1, cur1, Extended(w, es), ckpt, floor, wn.table, wn.Call(), threshold);
      var out := Execute(tabs1[wn.table], cur1, wn.Call(), threshold).2;
      var more := if out.Done? then [Tagged(wn.table, wn.Call().AsOp(out.csn))] else [];
      assert w.tail + es + more == w.tail + (es + more);
    }
  }

  lemma {:induction false} CallAnswer(tabs: seq<Table>, cur: Csn, w: Witness, ckpt: Csn, floor: Csn, table: nat, call: Call, threshold: nat)
    requires TabsOk(tabs, cur, w, ckpt, floor) && AllReadable(tabs) && table < |tabs|
    ensures var (t', cur', out) := Execute(tabs[table], cur, call, threshold);
      cur <= cur' <= cur + 1 && (!out.Done? ==> cur' == cur && t' == tabs[table])
  {
    assert TabOk(tabs[table], w.base[table], Of(w.past, table), Of(w.tail, table), floor, cur);
    ExecuteOutcome(tabs[table], Of(w.past, table) + Of(w.tail, table), floor, cur, call, threshold);
    hide Inv;
  }

  // ---- running I/O ---------------------------------------------------------

  lemma {:induction false} ExecAppend(d: Disk, a: seq<Io>, b: seq<Io>)
    ensures Exec(d, a + b) == Exec(Exec(d, a), b)
  {
    if b == [] {
      assert a + b == a;
    } else {
      var n := |b| - 1;
      ExecAppend(d, a, b[..n]);
      assert (a + b)[..|a + b|-1] == a + b[..n];
    }
  }

  ghost predicate Avoids(ios: seq<Io>, path: Path) { forall i :: 0 <= i < |ios| ==> ios[i].path != path }

  lemma {:induction false} ExecAvoids(d: Disk, ios: seq<Io>, path: Path)
    requires Avoids(ios, path)
    ensures FileAt(Exec(d, ios), path) == FileAt(d, path)
  {
    if ios != [] {
      ExecAvoids(d, ios[..|ios|-1], path);
    }
  }

  // ---- checkpoint, phase 1: part files -------------------------------------

  /** `f0` followed by any number of copies of one tombstone frame. */
  ghost predicate Stretch(fs: seq<Frame>, f0: seq<Frame>, es: seq<(nat, Csn)>) {
    f0 <= fs && forall i :: |f0| <= i < |fs| ==> fs[i] == Tombs(es)
  }

  /** The tombstones a checkpoint appends to part `id` of a table. */
  ghost function NewTombs(t: Table, id: nat, ckpt: Csn): seq<(nat, Csn)> {
    var i := Holds(t.parts, id);
    if i.Some? then EntriesAfter(t.parts[i.value], ckpt, |t.parts[i.value].rows|) else []
  }

  ghost predicate PhaseOne(d': Disk, d: Disk, w: Witness, tabs: seq<Table>, ckpt: Csn)
    requires |tabs| == |w.base|
  {
    && FileAt(d', WalFile) == FileAt(d, WalFile)
    && FileAt(d', ManifestFile) == FileAt(d, ManifestFile)
    && forall t, i :: 0 <= t < |w.base| && 0 <= i < |w.base[t].parts| ==>
         var path := PartFile(t, w.base[t].parts[i].id);
         var es := NewTombs(tabs[t], w.base[t].parts[i].id, ckpt);
         Stretch(FileAt(d', path).live, FileAt(d, path).durable, es) && Stretch(FileAt(d', path).durable, FileAt(d, path).durable, es)
  }

  ghost predicate PhaseOneIo(io: Io, w: Witness, tabs: seq<Table>, ckpt: Csn)
    requires |tabs| == |w.base|
  {
    && io.path.PartFile?
    && (io.path.table < |w.base| && io.path.part in IdsOf(w.base[io.path.table].parts) ==>
          io == Sync(io.path) || io == Append(io.path, [Tombs(NewTombs(tabs[io.path.table], io.path.part, ckpt))]))
  }

  lemma {:induction false} PhaseOneRuns(d: Disk, w: Witness, tabs: seq<Table>, ckpt: Csn, ios: seq<Io>)
    requires |tabs| == |w.base|
    requires PhaseOne(d, d, w, tabs, ckpt)
    requires forall i :: 0 <= i < |ios| ==> PhaseOneIo(ios[i], w, tabs, ckpt)
    ensures PhaseOne(Exec(d, ios), d, w, tabs, ckpt)
  {
    if ios != [] {
      var n := |ios| - 1;
      PhaseOneRuns(d, w, tabs, ckpt, ios[..n]);
      var (d1, io) := (Exec(d, ios[..n]), ios[n]);
      forall t, i | 0 <= t < |w.base| && 0 <= i < |w.base[t].parts|
        ensures var path := PartFile(t, w.base[t].parts[i].id);
          var es := NewTombs(tabs[t], w.base[t].parts[i].id, ckpt);
          Stretch(FileAt(Exec1(d1, io), path).live, FileAt(d, path).durable, es) && Stretch(FileAt(Exec1(d1, io), path).durable, FileAt(d, path).durable, es)
      {
        assert w.base[t].parts[i].id == IdsOf(w.base[t].parts)[i];
        assert PhaseOneIo(io, w, tabs, ckpt);
      }
    }
  }

  /** Every tombstone the checkpoint appends is one the log tail accounts for. */
  lemma {:induction false} NewTombsGenuine(t: Table, base: Table, past: seq<Op>, tail: seq<Op>, ckpt: Csn, i: nat)
    requires Tracks(t, base, tail) && Base(base, past, ckpt) && i < |base.parts|
    ensures Genuine(NewTombs(t, base.parts[i].id, ckpt), base.parts[i], tail)
  {
    var b := base.parts[i];
    var h := Holds(t.parts, b.id);
    if h.Some? {
      var p := t.parts[h.value];
      assert TracksPart(p, b, tail);
      var es := EntriesAfter(p, ckpt, |p.rows|);
      assert PartOk(b, ckpt);
      forall o | o in b.dv ensures b.dv[o] <= ckpt { assert StampOk(b.VersionAt(o), ckpt); }
      forall k | 0 <= k < |es|
        ensures es[k].0 < |b.rows| && es[k].0 !in b.dv && FirstOf(tail, b.rows[es[k].0].key) == Some(es[k].1)
      {
      }
    }
  }

  lemma {:induction false} PhaseOneRecovers(d': Disk, d: Disk, st: ManifestState, w: Witness, tabs: seq<Table>)
    requires DiskOk(d, st, w) && |tabs| == |w.base| && PhaseOne(d', d, w, tabs, st.checkpoint)
    requires forall t :: 0 <= t < |tabs| ==> Tracks(tabs[t], w.base[t], Of(w.tail, t))
    ensures DiskOk(d', st, w)
  {
    forall t | 0 <= t < |w.base|
      ensures TableDiskOk(d', t, st.metas[t], w.base[t], Of(w.past, t), Of(w.tail, t), st.checkpoint)
    {
      assert TableDiskOk(d, t, st.metas[t], w.base[t], Of(w.past, t), Of(w.tail, t), st.checkpoint);
      forall i | 0 <= i < |w.base[t].parts|
        ensures Loads(FileAt(d', PartFile(t, w.base[t].parts[i].id)).durable, w.base[t].parts[i], Of(w.tail, t))
      {
        var path := PartFile(t, w.base[t].parts[i].id);
        var (f0, fs) := (FileAt(d, path).durable, FileAt(d', path).durable);
        NewTombsGenuine(tabs[t], w.base[t], Of(w.past, t), Of(w.tail, t), st.checkpoint, i);
        assert fs == f0 + fs[|f0|..];
        GrownLoads(f0, fs[|f0|..], w.base[t].parts[i], Of(w.tail, t), NewTombs(tabs[t], w.base[t].parts[i].id, st.checkpoint));
      }
    }
  }

  // ---- what phase 1 leaves behind ------------------------------------------

  /** `Part::new` on what was written: same rows and tombstones, bounds recomputed. */
  function Reloaded(p: Part): Part { NewPart(p.id, p.rows, p.stamps).(dv := p.dv) }

  ghost predicate Exact(f: File, p: Part) {
    && f.live == f.durable && |f.durable| >= 2 && AllTombs(f.durable[2..])
    && DecodePart(f.durable) == Some(Reloaded(p))
  }

  lemma MarkAllFrom(dv: Dv, es: seq<(nat, Csn)>, target: Dv)
    requires forall o :: o in dv ==> o in target && dv[o] == target[o]
    requires forall i :: 0 <= i < |es| ==> es[i].0 in target && target[es[i].0] == es[i].1
    ensures forall o :: o in MarkAll(dv, es) ==> o in target && MarkAll(dv, es)[o] == target[o]
    ensures forall o :: o in dv ==> o in MarkAll(dv, es)
    ensures forall i :: 0 <= i < |es| ==> es[i].0 in MarkAll(dv, es)
  {
  }

  /** A vector plus every entry it misses is the whole vector, in whatever order and however often. */
  lemma {:induction false} MarkAllExact(dv: Dv, es: seq<(nat, Csn)>, target: Dv)
    requires forall o :: o in dv ==> o in target && dv[o] == target[o]
    requires forall i :: 0 <= i < |es| ==> es[i].0 in target && target[es[i].0] == es[i].1
    requires forall o :: o in target && o !in dv ==> (o, target[o]) in es
    ensures MarkAll(dv, es) == target
  {
    MarkAllFrom(dv, es, target);
    forall o | o in target ensures o in MarkAll(dv, es) {
      if o !in dv {
        var i :| 0 <= i < |es| && es[i] == (o, target[o]);
      }
    }
  }

  lemma {:induction false} ExecOne(d: Disk, a: Io)
    ensures Exec(d, [a]) == Exec1(d, a)
  {
    assert [a][..0] == [];
  }

  lemma {:induction false} ExecTwo(d: Disk, a: Io, b: Io)
    ensures Exec(d, [a, b]) == Exec1(Exec1(d, a), b)
  {
    assert [a, b] == [a] + [b];
    ExecAppend(d, [a], [b]);
    ExecOne(d, a);
    ExecOne(Exec1(d, a), b);
  }

  function Head(p: Part): seq<Frame> { [Summary(p.id), Image(p.id, p.rows, StampsOut(p))] }

  /** The frames of a freshly written part file. */
  function WholeFile(p: Part): seq<Frame> {
    var es := EntriesAfter(p, 0, |p.rows|);
    if es == [] then Head(p) else Head(p) + [Tombs(es)]
  }

  lemma {:induction false} StampsOutReload(p: Part, cur: Csn)
    requires PartOk(p, cur)
    ensures StampsOut(p).Covers(|p.rows|) && NewPart(p.id, p.rows, StampsOut(p)) == NewPart(p.id, p.rows, p.stamps)
  {
  }

  lemma {:induction false} WholeFileDecodes(p: Part, cur: Csn)
    requires PartOk(p, cur)
    ensures Exact(File(WholeFile(p), WholeFile(p)), p)
  {
    hide MarkAll;
    hide EntriesAfter;
    hide PartOk;
    hide NewPart;
    hide StampsOut;
    var es := EntriesAfter(p, 0, |p.rows|);
    BaseStamps(p, cur);
    MarkAllExact(map[], es, p.dv);
    StampsOutReload(p, cur);
    if es == [] {
      assert Head(p)[2..] == [];
    } else {
      assert WholeFile(p)[2..] == [] + [Tombs(es)];
      MarkFramesAppend(map[], [], Tombs(es));
    }
  }

  /** A part the catalog does not know yet is written whole. */
  lemma {:induction false} NewPartWritten(d: Disk, persisted: map<(nat, nat), Csn>, t: nat, p: Part)
    requires (t, p.id) !in persisted
    ensures FileAt(Exec(d, PartIos(persisted, t, p)), PartFile(t, p.id)) == File(WholeFile(p), WholeFile(p))
  {
    hide EntriesAfter;
    var path := PartFile(t, p.id);
    var es := EntriesAfter(p, 0, |p.rows|);
    var two := [Truncate(path), Append(path, Head(p))];
    ExecTwo(d, two[0], two[1]);
    if es == [] {
      assert PartIos(persisted, t, p) == two + [Sync(path)];
      ExecAppend(d, two, [Sync(path)]);
      ExecOne(Exec(d, two), Sync(path));
    } else {
      var more := [Append(path, [Tombs(es)]), Sync(path)];
      assert PartIos(persisted, t, p) == two + more;
      ExecAppend(d, two, more);
      ExecTwo(Exec(d, two), more[0], more[1]);
    }
  }

  /** The frames of a known part's file once brought up to date. */
  function GrownFile(fs: seq<Frame>, p: Part, ckpt: Csn): seq<Frame> {
    var es := EntriesAfter(p, ckpt, |p.rows|);
    if es == [] then fs else fs + [Tombs(es)]
  }

  lemma {:induction false} GrownFileDecodes(fs: seq<Frame>, p: Part, base: Part, tail: seq<Op>, ckpt: Csn)
    requires p.id == base.id && TracksPart(p, base, tail) && PartOk(base, ckpt)
    requires base == Reloaded(base) && Loads(fs, base, tail)
    requires forall i :: 0 <= i < |tail| ==> ckpt < tail[i].csn
    ensures Exact(File(GrownFile(fs, p, ckpt), GrownFile(fs, p, ckpt)), p)
  {
    KnownEntries(p, base, tail, ckpt, DecodePart(fs).value);
    hide PartOk;
    hide EntriesAfter;
    hide Genuine;
    var es := EntriesAfter(p, ckpt, |p.rows|);
    if es != [] { AppendLoads(fs, base, tail, es); }
  }

  lemma {:induction false} KnownPartRuns(d: Disk, persisted: map<(nat, nat), Csn>, t: nat, p: Part, ckpt: Csn)
    requires (t, p.id) in persisted && persisted[(t, p.id)] == ckpt
    requires var f := FileAt(d, PartFile(t, p.id)); f.live == f.durable
    ensures var fs := GrownFile(FileAt(d, PartFile(t, p.id)).durable, p, ckpt);
      FileAt(Exec(d, PartIos(persisted, t, p)), PartFile(t, p.id)) == File(fs, fs)
  {
    var path := PartFile(t, p.id);
    var es := EntriesAfter(p, ckpt, |p.rows|);
    if es != [] { ExecTwo(d, Append(path, [Tombs(es)]), Sync(path)); }
  }

  /** A part the catalog knows gets exactly the tombstones its file lacks. */
  lemma {:induction false} KnownPartAppended(d: Disk, persisted: map<(nat, nat), Csn>, t: nat, p: Part, base: Part, tail: seq<Op>, ckpt: Csn)
    requires (t, p.id) in persisted && persisted[(t, p.id)] == ckpt
    requires p.id == base.id && TracksPart(p, base, tail) && PartOk(base, ckpt)
    requires base == Reloaded(base)
    requires var f := FileAt(d, PartFile(t, p.id)); f.live == f.durable && Loads(f.durable, base, tail)
    requires forall i :: 0 <= i < |tail| ==> ckpt < tail[i].csn
    ensures Exact(FileAt(Exec(d, PartIos(persisted, t, p)), PartFile(t, p.id)), p)
  {
    KnownPartRuns(d, persisted, t, p, ckpt);
    GrownFileDecodes(FileAt(d, PartFile(t, p.id)).durable, p, base, tail, ckpt);
  }

  lemma {:induction false} BaseStamps(base: Part, ckpt: Csn)
    requires PartOk(base, ckpt)
    ensures forall o :: o in base.dv ==> o < |base.rows| && 0 < base.dv[o] <= ckpt
  {
    forall o | o in base.dv ensures 0 < base.dv[o] <= ckpt { assert StampOk(base.VersionAt(o), ckpt); }
  }

  lemma {:induction false} KnownEntries(p: Part, base: Part, tail: seq<Op>, ckpt: Csn, q: Part)
    requires p.id == base.id && TracksPart(p, base, tail) && PartOk(base, ckpt) && Between(q, base, tail)
    requires forall i :: 0 <= i < |tail| ==> ckpt < tail[i].csn
    ensures Genuine(EntriesAfter(p, ckpt, |p.rows|), base, tail)
    ensures MarkAll(q.dv, EntriesAfter(p, ckpt, |p.rows|)) == p.dv
  {
    hide PartOk;
    hide MarkAll;
    hide EntriesAfter;
    hide Between;
    hide TracksPart;
    var es := EntriesAfter(p, ckpt, |p.rows|);
    forall o | o in p.dv ensures o < |p.rows| && (ckpt < p.dv[o] ==> Fresh(o, p.dv[o], base, tail)) && (o !in q.dv ==> ckpt < p.dv[o]) {
      LateIsFresh(p, base, tail, ckpt, q, o);
    }
    BaseStamps(base, ckpt);
    forall o | o in q.dv ensures o in p.dv && q.dv[o] == p.dv[o] { EarlierKept(p, base, tail, q, o); }
    forall i | 0 <= i < |es| ensures Fresh(es[i].0, es[i].1, base, tail) { assert es[i].0 in p.dv; }
    MarkAllExact(q.dv, es, p.dv);
  }

  /** A tombstone the log tail accounts for. */
  ghost predicate Fresh(o: nat, csn: Csn, base: Part, tail: seq<Op>) {
    o < |base.rows| && o !in base.dv && FirstOf(tail, base.rows[o].key) == Some(csn)
  }

  lemma {:induction false} LateIsFresh(p: Part, base: Part, tail: seq<Op>, ckpt: Csn, q: Part, o: nat)
    requires p.id == base.id && TracksPart(p, base, tail) && PartOk(base, ckpt) && Between(q, base, tail) && o in p.dv
    requires forall i :: 0 <= i < |tail| ==> ckpt < tail[i].csn
    ensures o < |p.rows| && (ckpt < p.dv[o] ==> Fresh(o, p.dv[o], base, tail)) && (o !in q.dv ==> ckpt < p.dv[o])
  {
    BaseStamps(base, ckpt);
    hide PartOk;
    hide FirstOf;
    FirstIsLate(tail, base.rows[o].key, ckpt);
  }

  lemma {:induction false} EarlierKept(p: Part, base: Part, tail: seq<Op>, q: Part, o: nat)
    requires p.id == base.id && TracksPart(p, base, tail) && Between(q, base, tail) && o in q.dv
    requires forall x :: x in base.dv ==> x < |base.rows|
    ensures o in p.dv && q.dv[o] == p.dv[o]
  {
    hide FirstOf;
  }

  lemma {:induction false} FirstIsLate(tail: seq<Op>, key: Value, ckpt: Csn)
    requires forall i :: 0 <= i < |tail| ==> ckpt < tail[i].csn
    ensures FirstOf(tail, key).Some? ==> ckpt < FirstOf(tail, key).value
  {
    if tail != [] { FirstIsLate(tail[..|tail|-1], key, ckpt); }
  }

  // ---- all part files ------------------------------------------------------

  /** What one part needs of the disk before its file is brought up to date. */
  ghost predicate Writable(d: Disk, persisted: map<(nat, nat), Csn>, t: nat, p: Part, base: Table, tail: seq<Op>, ckpt: Csn) {
    (t, p.id) in persisted ==>
      && persisted[(t, p.id)] == ckpt
      && exists i :: 0 <= i < |base.parts| && base.parts[i].id == p.id
           && TracksPart(p, base.parts[i], tail) && PartOk(base.parts[i], ckpt) && base.parts[i] == Reloaded(base.parts[i])
           && FileAt(d, PartFile(t, p.id)).live == FileAt(d, PartFile(t, p.id)).durable
           && Loads(FileAt(d, PartFile(t, p.id)).durable, base.parts[i], tail)
  }

  lemma {:induction false} PartUpdated(d: Disk, persisted: map<(nat, nat), Csn>, t: nat, p: Part, base: Table, tail: seq<Op>, ckpt: Csn, cur: Csn)
    requires Writable(d, persisted, t, p, base, tail, ckpt) && PartOk(p, cur)
    requires forall i :: 0 <= i < |tail| ==> ckpt < tail[i].csn
    ensures Exact(FileAt(Exec(d, PartIos(persisted, t, p)), PartFile(t, p.id)), p)
  {
    if (t, p.id) in persisted {
      var i :| 0 <= i < |base.parts| && base.parts[i].id == p.id
           && TracksPart(p, base.parts[i], tail) && PartOk(base.parts[i], ckpt) && base.parts[i] == Reloaded(base.parts[i])
           && Loads(FileAt(d, PartFile(t, p.id)).durable, base.parts[i], tail);
      KnownPartAppended(d, persisted, t, p, base.parts[i], tail, ckpt);
    } else {
      NewPartWritten(d, persisted, t, p);
      WholeFileDecodes(p, cur);
    }
  }

  lemma {:induction false} PartIosPath(persisted: map<(nat, nat), Csn>, t: nat, p: Part)
    ensures forall i :: 0 <= i < |PartIos(persisted, t, p)| ==> PartIos(persisted, t, p)[i].path == PartFile(t, p.id)
  {
  }

  lemma {:induction false} TableIosPath(persisted: map<(nat, nat), Csn>, t: nat, parts: seq<Part>)
    ensures forall i :: 0 <= i < |TableIos(persisted, t, parts)| ==>
      TableIos(persisted, t, parts)[i].path.PartFile? && TableIos(persisted, t, parts)[i].path.table == t
      && TableIos(persisted, t, parts)[i].path.part in IdsOf(parts)
  {
    if parts != [] {
      var n := |parts| - 1;
      TableIosPath(persisted, t, parts[..n]);
      PartIosPath(persisted, t, parts[n]);
      assert IdsOf(parts) == IdsOf(parts[..n]) + [parts[n].id];
    }
  }

  lemma {:induction false} SamePartWritable(d: Disk, d': Disk, persisted: map<(nat, nat), Csn>, t: nat, p: Part, base: Table, tail: seq<Op>, ckpt: Csn)
    requires Writable(d, persisted, t, p, base, tail, ckpt) && FileAt(d', PartFile(t, p.id)) == FileAt(d, PartFile(t, p.id))
    ensures Writable(d', persisted, t, p, base, tail, ckpt)
  {
    hide Loads;
    hide TracksPart;
    hide PartOk;
    hide FileAt;
    hide Reloaded;
  }

  lemma {:induction false} TableUpdated(d: Disk, persisted: map<(nat, nat), Csn>, t: nat, parts: seq<Part>, base: Table, tail: seq<Op>, ckpt: Csn, cur: Csn)
    requires UniqueIds(parts) && forall i :: 0 <= i < |parts| ==> PartOk(parts[i], cur) && Writable(d, persisted, t, parts[i], base, tail, ckpt)
    requires forall i :: 0 <= i < |tail| ==> ckpt < tail[i].csn
    ensures forall i :: 0 <= i < |parts| ==> Exact(FileAt(Exec(d, TableIos(persisted, t, parts)), PartFile(t, parts[i].id)), parts[i])
  {
    hide Exact;
    hide PartOk;
    hide PartIos;
    hide Loads;
    hide TracksPart;
    hide Exec;
    hide FileAt;
    hide Writable;
    if parts != [] {
      var n := |parts| - 1;
      var (before, last) := (TableIos(persisted, t, parts[..n]), PartIos(persisted, t, parts[n]));
      TableUpdated(d, persisted, t, parts[..n], base, tail, ckpt, cur);
      TableIosPath(persisted, t, parts[..n]);
      PartIosPath(persisted, t, parts[n]);
      ExecAppend(d, before, last);
      assert Avoids(before, PartFile(t, parts[n].id));
      ExecAvoids(d, before, PartFile(t, parts[n].id));
      SamePartWritable(d, Exec(d, before), persisted, t, parts[n], base, tail, ckpt);
      PartUpdated(Exec(d, before), persisted, t, parts[n], base, tail, ckpt, cur);
      forall i | 0 <= i < n ensures Exact(FileAt(Exec(d, before + last), PartFile(t, parts[i].id)), parts[i]) {
        assert parts[..n][i] == parts[i];
        ExecAvoids(Exec(d, before), last, PartFile(t, parts[i].id));
      }
    }
  }

  lemma {:induction false} PartsIosPath(persisted: map<(nat, nat), Csn>, tabs: seq<Table>)
    ensures forall i :: 0 <= i < |PartsIos(persisted, tabs)| ==>
      PartsIos(persisted, tabs)[i].path.PartFile? && PartsIos(persisted, tabs)[i].path.table < |tabs|
  {
    if tabs != [] {
      PartsIosPath(persisted, tabs[..|tabs|-1]);
      TableIosPath(persisted, |tabs| - 1, tabs[|tabs|-1].parts);
    }
  }

  ghost predicate TableWritable(d: Disk, persisted: map<(nat, nat), Csn>, t: nat, tab: Table, base: Table, tail: seq<Op>, ckpt: Csn, cur: Csn) {
    && UniqueIds(tab.parts)
    && (forall i :: 0 <= i < |tail| ==> ckpt < tail[i].csn)
    && forall i :: 0 <= i < |tab.parts| ==> PartOk(tab.parts[i], cur) && Writable(d, persisted, t, tab.parts[i], base, tail, ckpt)
  }

  lemma {:induction false} SameWritable(d: Disk, d': Disk, persisted: map<(nat, nat), Csn>, t: nat, tab: Table, base: Table, tail: seq<Op>, ckpt: Csn, cur: Csn)
    requires TableWritable(d, persisted, t, tab, base, tail, ckpt, cur)
    requires forall p :: FileAt(d', PartFile(t, p)) == FileAt(d, PartFile(t, p))
    ensures TableWritable(d', persisted, t, tab, base, tail, ckpt, cur)
  {
    forall i | 0 <= i < |tab.parts| ensures Writable(d', persisted, t, tab.parts[i], base, tail, ckpt) {
      assert Writable(d, persisted, t, tab.parts[i], base, tail, ckpt);
      assert FileAt(d', PartFile(t, tab.parts[i].id)) == FileAt(d, PartFile(t, tab.parts[i].id));
    }
  }

  /** After phase 1 every part of every table is on disk exactly as it is in memory. */
  lemma {:induction false} PartsUpdated(d: Disk, persisted: map<(nat, nat), Csn>, tabs: seq<Table>, w: Witness, ckpt: Csn, cur: Csn)
    requires |tabs| <= |w.base|
    requires forall t :: 0 <= t < |tabs| ==> TableWritable(d, persisted, t, tabs[t], w.base[t], Of(w.tail, t), ckpt, cur)
    ensures forall t, i :: 0 <= t < |tabs| && 0 <= i < |tabs[t].parts| ==>
      Exact(FileAt(Exec(d, PartsIos(persisted, tabs)), PartFile(t, tabs[t].parts[i].id)), tabs[t].parts[i])
  {
    hide Exact;
    hide TableWritable;
    hide Exec;
    hide Of;
    hide FileAt;
    if tabs != [] {
      var n := |tabs| - 1;
      var (before, last) := (PartsIos(persisted, tabs[..n]), TableIos(persisted, n, tabs[n].parts));
      PartsUpdated(d, persisted, tabs[..n], w, ckpt, cur);
      PartsIosPath(persisted, tabs[..n]);
      TableIosPath(persisted, n, tabs[n].parts);
      ExecAppend(d, before, last);
      forall p ensures FileAt(Exec(d, before), PartFile(n, p)) == FileAt(d, PartFile(n, p)) {
        ExecAvoids(d, before, PartFile(n, p));
      }
      SameWritable(d, Exec(d, before), persisted, n, tabs[n], w.base[n], Of(w.tail, n), ckpt, cur);
      LastUpdated(Exec(d, before), persisted, n, tabs[n], w.base[n], Of(w.tail, n), ckpt, cur);
      forall t, i | 0 <= t < n && 0 <= i < |tabs[t].parts|
        ensures Exact(FileAt(Exec(d, before + last), PartFile(t, tabs[t].parts[i].id)), tabs[t].parts[i])
      {
        assert tabs[..n][t] == tabs[t];
        ExecAvoids(Exec(d, before), last, PartFile(t, tabs[t].parts[i].id));
      }
    }
  }

  lemma {:induction false} LastUpdated(d: Disk, persisted: map<(nat, nat), Csn>, t: nat, tab: Table, base: Table, tail: seq<Op>, ckpt: Csn, cur: Csn)
    requires TableWritable(d, persisted, t, tab, base, tail, ckpt, cur)
    ensures forall i :: 0 <= i < |tab.parts| ==> Exact(FileAt(Exec(d, TableIos(persisted, t, tab.parts)), PartFile(t, tab.parts[i].id)), tab.parts[i])
  {
    TableUpdated(d, persisted, t, tab.parts, base, tail, ckpt, cur);
  }
}
