/** What each call of the durable store promises its caller, over plain maps from
    keys to rows: the rows it leaves, the entries it logs and how the log grows
    (src/storage.rs:457-557). */
module StoreCalls {
  import opened Values
  import opened Wrappers
  import opened Mvcc
  import opened Reads
  import opened Protocol
  import opened Storage
  import opened Recovery
  import opened Txn

  // ---- one write -----------------------------------------------------------

  /** The rows a call leaves of the rows it finds; none if it fails. */
  function Changed(m: View, call: Call): Option<View> {
    match call
    case Insert(row) => if row.key in m then None else Some(m[row.key := row])
    case Upsert(row) => Some(m[row.key := row])
    case Update(row) => if row.key in m then Some(m[row.key := row]) else None
    case Delete(key) => if key in m then Some(m - {key}) else None
  }

  /** What a call that succeeds logs: a row is logged whole, whichever call wrote it. */
  function EntryOf(table: nat, call: Call, csn: Csn): Tagged {
    match call
    case Insert(row) => Tagged(table, Put(row, csn))
    case Upsert(row) => Tagged(table, Put(row, csn))
    case Update(row) => Tagged(table, Put(row, csn))
    case Delete(key) => Tagged(table, Del(key, csn))
  }

  /** The latest reads of every table are those of `ms`: each key and the whole scan. */
  ghost predicate Shows(tabs: seq<Table>, ms: seq<View>, cur: Csn) {
    && |tabs| == |ms| && AllReadable(tabs)
    && (forall t, key :: 0 <= t < |tabs| ==> Get(tabs[t], key, cur) == Find(ms[t], key))
    && forall t :: 0 <= t < |tabs| ==> multiset(Scan(tabs[t], cur)) == multiset(ms[t].Values)
  }

  lemma {:induction false} DisplayShows(tabs: seq<Table>, ms: seq<View>, cur: Csn)
    requires AllDisplay(tabs, ms, cur)
    ensures AllReadable(tabs) && Shows(tabs, ms, cur)
  {
    hide Displays;
    hide Readable;
    hide Get;
    hide Find;
    forall t | 0 <= t < |tabs| ensures Readable(tabs[t].parts) && multiset(Scan(tabs[t], cur)) == multiset(ms[t].Values) {
      DisplaysReads(tabs[t], ms[t], cur, Null);
    }
    forall t, key | 0 <= t < |tabs| ensures Get(tabs[t], key, cur) == Find(ms[t], key) {
      DisplaysReads(tabs[t], ms[t], cur, key);
    }
  }

  /** A call that fails does nothing at all. One that succeeds takes the next stamp,
      leaves the changed rows in its table, and logs one record with its one entry. */
  lemma {:induction false} WriteExact(mem: Mem, ms: seq<View>, table: nat, call: Call, threshold: nat)
    requires AllDisplay(mem.tabs, ms, mem.cur) && table < |mem.tabs| && mem.cur + 1 < NEVER
    ensures AllReadable(mem.tabs) && |mem.tabs| == |ms|
    ensures var (e, m) := (DoWrite(mem, table, call, threshold), Changed(ms[table], call));
      if m.None? then e == Effect(mem, [], [])
      else
        && e.entries == [EntryOf(table, call, mem.cur + 1)] && e.ios == LogIos(mem, One(EntryOf(table, call, mem.cur + 1)))
        && e.mem == LogMem(mem.(tabs := e.mem.tabs, cur := mem.cur + 1))
        && AllDisplay(e.mem.tabs, ms[table := m.value], mem.cur + 1) && Shows(e.mem.tabs, ms[table := m.value], mem.cur + 1)
  {
    hide AllDisplay;
    hide AllReadable;
    hide Shows;
    hide LogMem;
    hide LogIos;
    hide DoWrite;
    hide Changed;
    DisplayShows(mem.tabs, ms, mem.cur);
    SameSize(mem.tabs, ms, mem.cur);
    WriteRuns(mem, ms, table, call, threshold);
    var (e, m) := (DoWrite(mem, table, call, threshold), Changed(ms[table], call));
    if m.Some? { DisplayShows(e.mem.tabs, ms[table := m.value], mem.cur + 1); }
  }

  lemma {:induction false} WriteRuns(mem: Mem, ms: seq<View>, table: nat, call: Call, threshold: nat)
    requires AllDisplay(mem.tabs, ms, mem.cur) && table < |mem.tabs| == |ms| && mem.cur + 1 < NEVER && AllReadable(mem.tabs)
    ensures Readable(mem.tabs[table].parts)
    ensures var (e, m) := (DoWrite(mem, table, call, threshold), Changed(ms[table], call));
      if m.None? then e == Effect(mem, [], [])
      else
        && e.entries == [EntryOf(table, call, mem.cur + 1)] && e.ios == LogIos(mem, One(EntryOf(table, call, mem.cur + 1)))
        && e.mem == LogMem(mem.(tabs := e.mem.tabs, cur := mem.cur + 1))
        && AllDisplay(e.mem.tabs, ms[table := m.value], mem.cur + 1)
  {
    hide AllDisplay;
    hide Execute;
    hide Readable;
    hide Changed;
    hide LogMem;
    hide LogIos;
    ReadableAt(mem.tabs, table);
    hide AllReadable;
    WriteTables(mem.tabs, ms, mem.cur, table, call, threshold);
    var (t, cur, out) := Execute(mem.tabs[table], mem.cur, call, threshold);
    LogOf(mem, mem.tabs[table := t], cur, One(Tagged(table, call.AsOp(cur))));
    if out.Done? {
      EntryIs(table, call, cur);
    } else {
      assert mem.tabs[table := t] == mem.tabs;
    }
  }

  lemma {:induction false} LogOf(mem: Mem, tabs: seq<Table>, cur: Csn, rec: Record)
    ensures var mem' := mem.(tabs := tabs, cur := cur);
      LogIos(mem', rec) == LogIos(mem, rec) && LogMem(mem').tabs == tabs && LogMem(mem').cur == cur
  {
  }

  lemma {:induction false} ReadableAt(tabs: seq<Table>, table: nat)
    requires AllReadable(tabs) && table < |tabs|
    ensures Readable(tabs[table].parts)
  {
  }

  lemma {:induction false} EntryIs(table: nat, call: Call, csn: Csn)
    ensures Tagged(table, call.AsOp(csn)) == EntryOf(table, call, csn)
  {
  }

  lemma {:induction false} WriteTables(tabs: seq<Table>, ms: seq<View>, cur: Csn, table: nat, call: Call, threshold: nat)
    requires AllDisplay(tabs, ms, cur) && table < |tabs| && cur + 1 < NEVER && Readable(tabs[table].parts)
    ensures |tabs| == |ms|
    ensures var ((t, cur', out), m) := (Execute(tabs[table], cur, call, threshold), Changed(ms[table], call));
      if m.None? then !out.Done? && t == tabs[table] && cur' == cur
      else out == Done(cur + 1) && cur' == cur + 1 && AllDisplay(tabs[table := t], ms[table := m.value], cur')
  {
    hide Displays;
    hide Execute;
    hide Readable;
    assert Displays(tabs[table], ms[table], cur);
    ExecuteDisplays(tabs[table], ms[table], cur, call, threshold);
    var (t, cur', out) := Execute(tabs[table], cur, call, threshold);
    var m := Changed(ms[table], call);
    if m.Some? {
      assert Stepped(ms[table], call, cur + 1) == m.value;
      forall u | 0 <= u < |tabs| && u != table ensures Displays(tabs[u], ms[u], cur') {
        DisplaysLater(tabs[u], ms[u], cur, cur');
      }
    }
  }

  /** Logging a record: the log ends with it, no other file is touched, and unless the
      watermark lies beyond the log already, the whole log is durable. */
  lemma {:induction false} LogGrows(d: Disk, mem: Mem, rec: Record)
    ensures var (d', log) := (Exec(d, LogIos(mem, rec)), FileAt(d, WalFile));
      && FileAt(d', WalFile).live == log.live + [Logged(rec)]
      && (mem.watermark <= mem.written ==> FileAt(d', WalFile).durable == log.live + [Logged(rec)])
      && (mem.watermark > mem.written ==> FileAt(d', WalFile).durable == log.durable)
      && forall p :: p != WalFile ==> FileAt(d', p) == FileAt(d, p)
    ensures LogMem(mem).written == mem.written + 1
    ensures LogMem(mem).watermark == if mem.watermark > mem.written then mem.watermark else mem.written + 1
  {
    var a := Append(WalFile, [Logged(rec)]);
    var none: seq<Io> := [];
    assert [a, Sync(WalFile)][..1] == [a] && [a][..0] == none;
    assert [a] + [Sync(WalFile)] == [a, Sync(WalFile)] && [a] + none == [a];
    assert Exec(d, none) == d;
    assert Exec(d, [a]) == Exec1(d, a);
    assert Exec(d, [a, Sync(WalFile)]) == Exec1(Exec(d, [a]), Sync(WalFile));
  }

  // ---- a transaction -------------------------------------------------------

  /** How many writes come before the first that names an unknown table. */
  function Reached(ws: seq<TxnWrite>, tables: nat): (n: nat)
    ensures n <= |ws| && (forall i :: 0 <= i < n ==> ws[i].table < tables) && (n < |ws| ==> ws[n].table >= tables)
  {
    if ws == [] then 0
    else
      var n := Reached(ws[..|ws|-1], tables);
      if n == |ws| - 1 && ws[n].table < tables then n + 1 else n
  }

  /** The rows the writes leave, one after another. */
  function Batch(ms: seq<View>, ws: seq<TxnWrite>): (r: seq<View>)
    requires forall i :: 0 <= i < |ws| ==> ws[i].table < |ms|
    ensures |r| == |ms|
  {
    if ws == [] then ms
    else
      var r := Batch(ms, ws[..|ws|-1]);
      match ws[|ws|-1]
      case PutTo(t, row) => r[t := r[t][row.key := row]]
      case DeleteFrom(t, key) => r[t := r[t] - {key}]
  }

  /** The entries the writes log: every put, and every delete of a key then present,
      with consecutive stamps after `cur`. */
  function Entries(ms: seq<View>, cur: Csn, ws: seq<TxnWrite>): (es: seq<Tagged>)
    requires forall i :: 0 <= i < |ws| ==> ws[i].table < |ms|
    ensures |es| <= |ws|
  {
    if ws == [] then []
    else
      var es := Entries(ms, cur, ws[..|ws|-1]);
      match ws[|ws|-1]
      case PutTo(t, row) => es + [Tagged(t, Put(row, cur + |es| + 1))]
      case DeleteFrom(t, key) =>
        if key in Batch(ms, ws[..|ws|-1])[t] then es + [Tagged(t, Del(key, cur + |es| + 1))] else es
  }

  /** In whatever order a key is written, its last write decides. */
  lemma {:induction false} BatchIsOverride(ms: seq<View>, ws: seq<TxnWrite>)
    requires forall i :: 0 <= i < |ws| ==> ws[i].table < |ms|
    ensures Batch(ms, ws) == Overridden(ms, AsMap(ws))
  {
    hide Override;
    if ws == [] {
      forall t | 0 <= t < |ms| ensures Overridden(ms, AsMap(ws))[t] == ms[t] { OverrideNone(ms[t], t); }
    } else {
      var (w, ws') := (ws[|ws|-1], ws[..|ws|-1]);
      BatchIsOverride(ms, ws');
      forall t | 0 <= t < |ms| ensures Batch(ms, ws)[t] == Override(ms[t], AsMap(ws), t) {
        OverrideNext(ms[t], AsMap(ws'), t, w.Call().AsOp(0));
        if t != w.table { OverrideOther(ms[t], AsMap(ws'), t, w); }
      }
    }
  }

  /** The loop over the writes of a transaction. */
  lemma {:induction false} LoopExact(tabs: seq<Table>, ms: seq<View>, cur: Csn, ws: seq<TxnWrite>, threshold: nat)
    requires AllDisplay(tabs, ms, cur) && AllReadable(tabs) && cur + |ws| < NEVER
    requires forall i :: 0 <= i < |ws| ==> ws[i].table < |tabs|
    ensures ApplyTxn(tabs, cur, ws, threshold).3
    ensures ApplyTxn(tabs, cur, ws, threshold).2 == Entries(ms, cur, ws)
    ensures ApplyTxn(tabs, cur, ws, threshold).1 == cur + |Entries(ms, cur, ws)|
    ensures AllDisplay(ApplyTxn(tabs, cur, ws, threshold).0, Batch(ms, ws), cur + |Entries(ms, cur, ws)|)
  {
    hide AllDisplay;
    hide Execute;
    hide Readable;
    if ws != [] {
      hide ApplyTxn;
      hide Entries;
      hide Batch;
      SameSize(tabs, ms, cur);
      LoopExact(tabs, ms, cur, ws[..|ws|-1], threshold);
      LoopNext(tabs, ms, cur, ws, threshold);
    }
  }

  lemma {:induction false} LoopNext(tabs: seq<Table>, ms: seq<View>, cur: Csn, ws: seq<TxnWrite>, threshold: nat)
    requires |tabs| == |ms| && AllReadable(tabs) && ws != [] && cur + |ws| < NEVER
    requires forall i :: 0 <= i < |ws| ==> ws[i].table < |tabs|
    requires var (r, es) := (ApplyTxn(tabs, cur, ws[..|ws|-1], threshold), Entries(ms, cur, ws[..|ws|-1]));
      r.3 && r.2 == es && r.1 == cur + |es| && AllDisplay(r.0, Batch(ms, ws[..|ws|-1]), r.1)
    ensures var (r, es) := (ApplyTxn(tabs, cur, ws, threshold), Entries(ms, cur, ws));
      r.3 && r.2 == es && r.1 == cur + |es| && AllDisplay(r.0, Batch(ms, ws), r.1)
  {
    hide Displays;
    hide Execute;
    hide Readable;
    var (w, r) := (ws[|ws|-1], ApplyTxn(tabs, cur, ws[..|ws|-1], threshold));
    var ms1 := Batch(ms, ws[..|ws|-1]);
    ExecuteDisplays(r.0[w.table], ms1[w.table], r.1, w.Call(), threshold);
    CallSteps(ms1[w.table], w, r.1 + 1);
    var (t, cur', out) := Execute(r.0[w.table], r.1, w.Call(), threshold);
    forall u | 0 <= u < |tabs| ensures Displays(r.0[w.table := t][u], Batch(ms, ws)[u], cur') {
      if u != w.table { DisplaysLater(r.0[u], ms1[u], r.1, cur'); }
    }
  }

  /** A transaction applies its writes up to the first unknown table. If there is none,
      everything it did is one record of the log, unless it did nothing; if there is one
      it logs nothing, whatever it did. */
  lemma {:induction false} CommitExact(mem: Mem, ms: seq<View>, ws: seq<TxnWrite>, threshold: nat)
    requires AllDisplay(mem.tabs, ms, mem.cur) && mem.cur + |ws| < NEVER
    ensures AllReadable(mem.tabs) && |mem.tabs| == |ms|
    ensures var (e, done) := (DoCommit(mem, ws, threshold), ws[..Reached(ws, |mem.tabs|)]);
      && var es := Entries(ms, mem.cur, done);
      && AllDisplay(e.mem.tabs, Batch(ms, done), mem.cur + |es|) && Shows(e.mem.tabs, Batch(ms, done), mem.cur + |es|)
      && var mem' := mem.(tabs := e.mem.tabs, cur := mem.cur + |es|);
      && if done == ws && es != [] then e == Effect(LogMem(mem'), LogIos(mem, Txn(es)), es) else e == Effect(mem', [], [])
  {
    hide AllDisplay;
    hide AllReadable;
    hide Shows;
    hide LogMem;
    hide LogIos;
    hide DoCommit;
    hide Entries;
    hide Batch;
    DisplayShows(mem.tabs, ms, mem.cur);
    SameSize(mem.tabs, ms, mem.cur);
    CommitRuns(mem, ms, ws, threshold);
    var done := ws[..Reached(ws, |mem.tabs|)];
    DisplayShows(DoCommit(mem, ws, threshold).mem.tabs, Batch(ms, done), mem.cur + |Entries(ms, mem.cur, done)|);
  }

  lemma {:induction false} CommitRuns(mem: Mem, ms: seq<View>, ws: seq<TxnWrite>, threshold: nat)
    requires AllDisplay(mem.tabs, ms, mem.cur) && mem.cur + |ws| < NEVER && AllReadable(mem.tabs) && |mem.tabs| == |ms|
    ensures var (e, done) := (DoCommit(mem, ws, threshold), ws[..Reached(ws, |mem.tabs|)]);
      && var es := Entries(ms, mem.cur, done);
      && AllDisplay(e.mem.tabs, Batch(ms, done), mem.cur + |es|)
      && var mem' := mem.(tabs := e.mem.tabs, cur := mem.cur + |es|);
      && if done == ws && es != [] then e == Effect(LogMem(mem'), LogIos(mem, Txn(es)), es) else e == Effect(mem', [], [])
  {
    hide ApplyTxn;
    hide AllDisplay;
    hide Entries;
    hide Batch;
    hide AllReadable;
    var n := Reached(ws, |mem.tabs|);
    LoopExact(mem.tabs, ms, mem.cur, ws[..n], threshold);
    if n < |ws| {
      HaltsAt(mem.tabs, mem.cur, ws, threshold, n);
    } else {
      assert ws[..n] == ws;
    }
  }

  lemma {:induction false} SameSize(tabs: seq<Table>, ms: seq<View>, cur: Csn)
    requires AllDisplay(tabs, ms, cur)
    ensures |tabs| == |ms|
  {
  }

  /** A write to an unknown table ends the loop where it stands. */
  lemma {:induction false} HaltsAt(tabs: seq<Table>, cur: Csn, ws: seq<TxnWrite>, threshold: nat, n: nat)
    requires AllReadable(tabs) && n < |ws| && ws[n].table >= |tabs|
    requires forall i :: 0 <= i < n ==> ws[i].table < |tabs|
    ensures var (r, before) := (ApplyTxn(tabs, cur, ws, threshold), ApplyTxn(tabs, cur, ws[..n], threshold));
      !r.3 && r.0 == before.0 && r.1 == before.1
    decreases |ws|
  {
    var m := |ws| - 1;
    if n < m {
      HaltsAt(tabs, cur, ws[..m], threshold, n);
      assert ws[..m][..n] == ws[..n];
    } else {
      assert ws[..n] == ws[..m];
    }
  }
}
