/** Transactions: a private overlay over a begin snapshot, a change-set, and a
    first-committer-wins check at commit (src/sql/txn.rs:62-156, 212-242). The
    catalog is fixed; a table is its index in it. */
module Txn {
  import opened Bags
  import opened Sorting
  import opened Values
  import opened Wrappers
  import opened Mvcc
  import opened Reads
  import opened Protocol
  import opened Storage
  import opened Recovery

  // ---- tables that display a state -----------------------------------------

  /** From `cur` on, every snapshot of `t` sees exactly the rows of `m`. */
  ghost predicate Displays(t: Table, m: View, cur: Csn) {
    Shape(t, cur) && cur < NEVER && Keyed(m) && TableRows(t, cur) == multiset(m.Values)
  }

  lemma {:induction false} DisplaysReadable(t: Table, m: View, cur: Csn)
    requires Displays(t, m, cur)
    ensures Readable(t.parts)
  {
    ReadableFromShape(t, cur);
  }

  lemma {:induction false} DisplaysLater(t: Table, m: View, cur: Csn, later: Csn)
    requires Displays(t, m, cur) && cur <= later < NEVER
    ensures Displays(t, m, later)
  {
    ShapeLater(t, cur, later);
    RowsBeyond(t, cur, later);
  }

  lemma {:induction false} HistoryDisplays(t: Table, h: seq<Op>, floor: Csn, cur: Csn)
    requires Inv(t, h, floor, cur)
    ensures Displays(t, At(h, cur), cur)
  {
    assert Agrees(t, h, cur);
  }

  function Find(m: View, key: Value): Option<Row> { if key in m then Some(m[key]) else None }

  lemma {:induction false} DisplaysReads(t: Table, m: View, cur: Csn, key: Value)
    requires Displays(t, m, cur)
    ensures Readable(t.parts) && Get(t, key, cur) == Find(m, key) && multiset(Scan(t, cur)) == multiset(m.Values)
  {
    DisplaysReadable(t, m, cur);
    LocateShows(t, m, key, cur);
    ScanRows(t, cur, cur);
  }

  /** How a call must answer in state `m`. */
  function Answer(m: View, call: Call, next: Csn): Outcome {
    if call.Insert? && call.Key() in m then DuplicateKey
    else if (call.Update? || call.Delete?) && call.Key() !in m then KeyNotFound
    else Done(next)
  }

  function Stepped(m: View, call: Call, next: Csn): View {
    if Answer(m, call, next).Done? then Apply(m, call.AsOp(next)) else m
  }

  lemma {:induction false} WriteDisplays(t: Table, m: View, cur: Csn, op: Op)
    requires Displays(t, m, cur) && op.csn == cur + 1 < NEVER
    ensures Readable(t.parts) && Displays(Write(t, op, cur), Apply(m, op), op.csn)
  {
    hide TableRows;
    DisplaysReadable(t, m, cur);
    hide Write;
    hide Shape;
    WriteShape(t, cur, op);
    WriteShows(t, m, cur, op, op.csn);
  }

  lemma {:induction false} SealDisplays(t: Table, m: View, cur: Csn, threshold: nat)
    requires Displays(t, m, cur)
    ensures Displays(MaybeSeal(t, threshold), m, cur)
  {
    hide TableRows;
    hide Shape;
    hide Seal;
    SealShape(t, cur);
    SealInvisible(t, cur);
  }

  lemma {:induction false} LocatedWhere(t: Table, m: View, cur: Csn, key: Value)
    requires Displays(t, m, cur)
    ensures Readable(t.parts)
    ensures Locate(t, key, cur).Some? <==> key in m
    ensures Locate(t, key, cur).Some? ==> VersionIn(t, Locate(t, key, cur).value).deleted == NEVER
  {
    DisplaysReadable(t, m, cur);
    hide TableRows;
    hide Shape;
    LocateShows(t, m, key, cur);
    LocatedIsLive(t, key, cur);
  }

  /** The call along its branches, once the located version is known to be live. */
  lemma {:induction false} ExecuteIs(t: Table, cur: Csn, call: Call, threshold: nat)
    requires Readable(t.parts)
    requires Locate(t, call.Key(), cur).Some? ==> VersionIn(t, Locate(t, call.Key(), cur).value).deleted == NEVER
    ensures Execute(t, cur, call, threshold) ==
      if call.Insert? && Locate(t, call.Key(), cur).Some? then (t, cur, DuplicateKey)
      else if (call.Update? || call.Delete?) && Locate(t, call.Key(), cur).None? then (t, cur, KeyNotFound)
      else (if call.Delete? then Mvcc.Write(t, call.AsOp(cur + 1), cur)
            else MaybeSeal(Mvcc.Write(t, call.AsOp(cur + 1), cur), threshold), cur + 1, Done(cur + 1))
  {
    hide Locate;
    hide Mvcc.Write;
    hide MaybeSeal;
    hide VersionIn;
    hide Readable;
  }

  lemma {:induction false} DoneDisplays(t: Table, m: View, cur: Csn, call: Call, threshold: nat)
    requires Displays(t, m, cur) && cur + 1 < NEVER && Readable(t.parts)
    ensures var (op, w) := (call.AsOp(cur + 1), Write(t, call.AsOp(cur + 1), cur));
      && Displays(w, Apply(m, op), cur + 1) && Displays(MaybeSeal(w, threshold), Apply(m, op), cur + 1)
  {
    hide Displays;
    hide Write;
    hide MaybeSeal;
    hide Apply;
    hide Readable;
    var op := call.AsOp(cur + 1);
    WriteDisplays(t, m, cur, op);
    SealDisplays(Write(t, op, cur), Apply(m, op), op.csn, threshold);
  }

  lemma {:induction false} ExecuteDisplays(t: Table, m: View, cur: Csn, call: Call, threshold: nat)
    requires Displays(t, m, cur) && cur + 1 < NEVER
    ensures Readable(t.parts)
    ensures var (t', cur', out) := Execute(t, cur, call, threshold);
      && out == Answer(m, call, cur + 1)
      && cur <= cur' <= cur + 1 && (out.Done? ==> cur' == cur + 1) && (!out.Done? ==> t' == t && cur' == cur)
      && Displays(t', Stepped(m, call, cur + 1), cur')
  {
    hide Displays;
    hide Locate;
    hide Write;
    hide MaybeSeal;
    hide Apply;
    hide Execute;
    hide VersionIn;
    hide Readable;
    LocatedWhere(t, m, cur, call.Key());
    ExecuteIs(t, cur, call, threshold);
    DoneDisplays(t, m, cur, call, threshold);
  }

  // ---- bulk load into an empty overlay table -------------------------------

  predicate RowLe(a: Row, b: Row) { KeyLe(a.key, b.key) }

  const PART_ROWS: nat := 131072

  function Chunk(id: nat, rows: seq<Row>, csn: Csn): Part {
    Part(id, rows, Uniform(csn), csn, csn, map[])
  }

  /** Sorted rows cut into parts, each new one in front (src/table.rs:215-221). */
  function Chunks(t: Table, rows: seq<Row>, csn: Csn): Table
    decreases |rows|
  {
    if rows == [] then t
    else
      var n := if |rows| < PART_ROWS then |rows| else PART_ROWS;
      Chunks(Table(t.l0, [Chunk(t.nextPartId, rows[..n], csn)] + t.parts, t.nextPartId + 1), rows[n..], csn)
  }

  function BulkLoad(rows: seq<Row>, csn: Csn): Table { Chunks(EMPTY, SortBy(rows, RowLe), csn) }

  lemma {:induction false} RowLePreorder()
    ensures TotalPreorder(RowLe)
  {
    forall x, y ensures RowLe(x, y) || RowLe(y, x) { KeyCmpEqual(x.key, y.key); }
    forall x, y, z | RowLe(x, y) && RowLe(y, z) ensures RowLe(x, z) { KeyLeTransitive(x.key, y.key, z.key); }
  }

  lemma {:induction false} AllVisible(rows: seq<Row>, id: nat, csn: Csn)
    requires csn < NEVER
    ensures PartRows(Chunk(id, rows, csn), csn) == multiset(rows)
  {
    hide Seen;
    hide SumOver;
    var vs := Chunk(id, rows, csn).Versions();
    SeenRows(vs, csn);
    SeenAll(vs, csn);
    assert RowsOf(vs) == rows;
  }

  lemma {:induction false} ChunksShow(t: Table, rows: seq<Row>, csn: Csn)
    requires Shape(t, csn) && 0 < csn < NEVER && SortedBy(rows, RowLe)
    ensures Shape(Chunks(t, rows, csn), csn)
    ensures TableRows(Chunks(t, rows, csn), csn) == TableRows(t, csn) + multiset(rows)
    decreases |rows|
  {
    hide Shape;
    hide TableRows;
    hide PartRows;
    hide SortedBy;
    if rows != [] {
      var n := if |rows| < PART_ROWS then |rows| else PART_ROWS;
      var p := Chunk(t.nextPartId, rows[..n], csn);
      var t1 := Table(t.l0, [p] + t.parts, t.nextPartId + 1);
      SortedSlices(rows, n);
      ChunkOk(t.nextPartId, rows[..n], csn);
      AddPart(t, p, csn);
      AllVisible(rows[..n], t.nextPartId, csn);
      ChunksShow(t1, rows[n..], csn);
      assert rows == rows[..n] + rows[n..];
    }
  }

  lemma {:induction false} SortedSlices(rows: seq<Row>, n: nat)
    requires SortedBy(rows, RowLe) && n <= |rows|
    ensures SortedBy(rows[..n], RowLe) && SortedBy(rows[n..], RowLe)
  {
  }

  lemma {:induction false} ChunkOk(id: nat, rows: seq<Row>, csn: Csn)
    requires SortedBy(rows, RowLe) && csn < NEVER
    ensures PartOk(Chunk(id, rows, csn), csn)
  {
    assert SortedByKey(rows) by {
      forall i, j | 0 <= i < j < |rows| ensures KeyLe(rows[i].key, rows[j].key) { assert RowLe(rows[i], rows[j]); }
    }
  }

  lemma {:induction false} AddPart(t: Table, p: Part, csn: Csn)
    requires Shape(t, csn) && PartOk(p, csn) && p.id == t.nextPartId
    ensures Shape(Table(t.l0, [p] + t.parts, t.nextPartId + 1), csn)
    ensures TableRows(Table(t.l0, [p] + t.parts, t.nextPartId + 1), csn) == TableRows(t, csn) + PartRows(p, csn)
  {
    hide PartOk;
    hide PartRows;
    hide SumOver;
    SumAppend([p], t.parts, PartVis(csn));
    SumSingle(p, PartVis(csn));
  }

  lemma {:induction false} BulkLoadDisplays(rows: seq<Row>, m: View, csn: Csn)
    requires 0 < csn < NEVER && Keyed(m) && multiset(rows) == multiset(m.Values)
    ensures Displays(BulkLoad(rows, csn), m, csn)
  {
    RowLePreorder();
    SortBySorted(rows, RowLe);
    InvEmpty();
    ShapeLater(EMPTY, 0, csn);
    ChunksShow(EMPTY, SortBy(rows, RowLe), csn);
  }

  /** It makes parts of at most `PART_ROWS` rows, and no more of them than needed. */
  lemma {:induction false} BulkLoadParts(rows: seq<Row>, csn: Csn)
    ensures var t := BulkLoad(rows, csn);
      && t.l0 == [] && |t.parts| == (|rows| + PART_ROWS - 1) / PART_ROWS && t.nextPartId == |t.parts|
      && forall i :: 0 <= i < |t.parts| ==> 0 < |t.parts[i].rows| <= PART_ROWS
  {
    ChunkParts(EMPTY, SortBy(rows, RowLe), csn);
  }

  lemma {:induction false} ChunkParts(t: Table, rows: seq<Row>, csn: Csn)
    requires forall i :: 0 <= i < |t.parts| ==> 0 < |t.parts[i].rows| <= PART_ROWS
    ensures var t' := Chunks(t, rows, csn);
      var n := (|rows| + PART_ROWS - 1) / PART_ROWS;
      && t'.l0 == t.l0 && |t'.parts| == |t.parts| + n && t'.nextPartId == t.nextPartId + n
      && forall i :: 0 <= i < |t'.parts| ==> 0 < |t'.parts[i].rows| <= PART_ROWS
    decreases |rows|
  {
    if rows != [] {
      var n := if |rows| < PART_ROWS then |rows| else PART_ROWS;
      ChunkParts(Table(t.l0, [Chunk(t.nextPartId, rows[..n], csn)] + t.parts, t.nextPartId + 1), rows[n..], csn);
    }
  }

  // ---- change-sets ---------------------------------------------------------

  /** The last write per table and key: a row put, or nothing for a delete. */
  type ChangeSet = map<(nat, Value), Option<Row>>

  ghost predicate Proper(ws: ChangeSet) { forall p :: p in ws && ws[p].Some? ==> ws[p].value.key == p.1 }

  ghost function KeysAt(ws: ChangeSet, t: nat): set<Value> { set p | p in ws && p.0 == t :: p.1 }

  /** The state of table `t` overridden by its share of the change-set. */
  ghost function Override(m: View, ws: ChangeSet, t: nat): View {
    map k | k in m.Keys + KeysAt(ws, t) && ((t, k) in ws ==> ws[(t, k)].Some?) ::
      if (t, k) in ws then ws[(t, k)].value else m[k]
  }

  /** Key by key: the transaction's own write where there is one, else the state below. */
  lemma {:induction false} OverrideAt(m: View, ws: ChangeSet, t: nat, key: Value)
    ensures Find(Override(m, ws, t), key) == if (t, key) in ws then ws[(t, key)] else Find(m, key)
  {
    if (t, key) in ws { assert key in KeysAt(ws, t); }
  }

  lemma {:induction false} OverrideNone(m: View, t: nat)
    ensures Override(m, map[], t) == m
  {
  }

  ghost predicate SameFinds(a: View, b: View) { forall k :: Find(a, k) == Find(b, k) }

  lemma {:induction false} FindsDecide(a: View, b: View)
    requires SameFinds(a, b)
    ensures a == b
  {
    forall k ensures k in a <==> k in b { assert Find(a, k) == Find(b, k); }
    forall k | k in a ensures a[k] == b[k] { assert Find(a, k) == Find(b, k); }
  }

  /** One more write, put or delete, is one more operation on the state. */
  lemma {:induction false} OverrideNext(m: View, ws: ChangeSet, t: nat, op: Op)
    ensures Override(m, ws[(t, op.Key()) := if op.Put? then Some(op.row) else None], t) == Apply(Override(m, ws, t), op)
    ensures forall u :: u != t ==> Override(m, ws[(t, op.Key()) := if op.Put? then Some(op.row) else None], u) == Override(m, ws, u)
  {
    var ws' := ws[(t, op.Key()) := if op.Put? then Some(op.row) else None];
    var (a, b) := (Override(m, ws', t), Apply(Override(m, ws, t), op));
    forall k ensures Find(a, k) == Find(b, k) {
      OverrideAt(m, ws', t, k);
      OverrideAt(m, ws, t, k);
    }
    FindsDecide(a, b);
    forall u | u != t ensures Override(m, ws', u) == Override(m, ws, u) {
      forall k ensures Find(Override(m, ws', u), k) == Find(Override(m, ws, u), k) {
        OverrideAt(m, ws', u, k);
        OverrideAt(m, ws, u, k);
      }
      FindsDecide(Override(m, ws', u), Override(m, ws, u));
    }
  }

  // ---- the committed store -------------------------------------------------

  datatype Db = Db(tabs: seq<Table>, cur: Csn)

  /** Every table agrees with its history from the GC floor up. */
  ghost predicate Committed(db: Db, hs: seq<seq<Op>>, floor: Csn) {
    |hs| == |db.tabs| && floor <= db.cur < NEVER && forall t :: 0 <= t < |hs| ==> Inv(db.tabs[t], hs[t], floor, db.cur)
  }

  /** What a snapshot sees of each table. */
  ghost function Views(hs: seq<seq<Op>>, s: Csn): seq<View> { seq(|hs|, t requires 0 <= t < |hs| => At(hs[t], s)) }

  ghost predicate AllDisplay(tabs: seq<Table>, ms: seq<View>, cur: Csn) {
    |tabs| == |ms| && cur < NEVER && forall t :: 0 <= t < |tabs| ==> Displays(tabs[t], ms[t], cur)
  }

  lemma {:induction false} CommittedDisplays(db: Db, hs: seq<seq<Op>>, floor: Csn)
    requires Committed(db, hs, floor)
    ensures AllDisplay(db.tabs, Views(hs, db.cur), db.cur) && AllReadable(db.tabs)
  {
    forall t | 0 <= t < |hs| ensures Displays(db.tabs[t], Views(hs, db.cur)[t], db.cur) && Readable(db.tabs[t].parts) {
      HistoryDisplays(db.tabs[t], hs[t], floor, db.cur);
      DisplaysReadable(db.tabs[t], At(hs[t], db.cur), db.cur);
    }
  }

  // ---- applying a batch ----------------------------------------------------

  function Place(w: TxnWrite): (nat, Value) { (w.table, if w.PutTo? then w.row.key else w.key) }

  function Content(w: TxnWrite): Option<Row> { if w.PutTo? then Some(w.row) else None }

  /** A batch as a change-set: the last write of a key wins. */
  ghost function AsMap(ws: seq<TxnWrite>): ChangeSet {
    if ws == [] then map[] else AsMap(ws[..|ws|-1])[Place(ws[|ws|-1]) := Content(ws[|ws|-1])]
  }

  lemma {:induction false} AsMapProper(ws: seq<TxnWrite>)
    ensures Proper(AsMap(ws))
  {
    if ws != [] { AsMapProper(ws[..|ws|-1]); }
  }

  ghost function Overridden(ms: seq<View>, ws: ChangeSet): seq<View> {
    seq(|ms|, t requires 0 <= t < |ms| => Override(ms[t], ws, t))
  }

  /** A delete of a missing key is skipped and a put always lands, so either way
      the write becomes the state of its key. */
  lemma {:induction false} CallSteps(m: View, w: TxnWrite, next: Csn)
    ensures Stepped(m, w.Call(), next) == Apply(m, w.Call().AsOp(next))
  {
    if w.DeleteFrom? && w.key !in m { assert m - {w.key} == m; }
  }

  /** Applying a batch in order overrides the state by the batch, whatever the order. */
  lemma {:induction false} BatchOverrides(tabs: seq<Table>, ms: seq<View>, cur: Csn, ws: seq<TxnWrite>, threshold: nat)
    requires AllDisplay(tabs, ms, cur) && AllReadable(tabs) && cur + |ws| < NEVER
    requires forall i :: 0 <= i < |ws| ==> ws[i].table < |tabs|
    ensures var (tabs', cur', es, ok) := ApplyTxn(tabs, cur, ws, threshold);
      ok && cur <= cur' <= cur + |ws| && AllDisplay(tabs', Overridden(ms, AsMap(ws)), cur')
  {
    if ws == [] {
      forall t | 0 <= t < |ms| ensures Overridden(ms, AsMap(ws))[t] == ms[t] { OverrideNone(ms[t], t); }
    } else {
      var n := |ws| - 1;
      BatchOverrides(tabs, ms, cur, ws[..n], threshold);
      BatchNext(tabs, ms, cur, ws, threshold);
    }
  }

  lemma {:induction false} BatchNext(tabs: seq<Table>, ms: seq<View>, cur: Csn, ws: seq<TxnWrite>, threshold: nat)
    requires |tabs| == |ms| && AllReadable(tabs) && ws != [] && cur + |ws| < NEVER && ws[|ws|-1].table < |tabs|
    requires var (tabs1, cur1, es1, ok1) := ApplyTxn(tabs, cur, ws[..|ws|-1], threshold);
      ok1 && cur <= cur1 <= cur + |ws| - 1 && AllDisplay(tabs1, Overridden(ms, AsMap(ws[..|ws|-1])), cur1)
    ensures var (tabs', cur', es, ok) := ApplyTxn(tabs, cur, ws, threshold);
      ok && cur <= cur' <= cur + |ws| && AllDisplay(tabs', Overridden(ms, AsMap(ws)), cur')
  {
    hide Displays;
    var n := |ws| - 1;
    var w := ws[n];
    var (tabs1, cur1, es1, ok1) := ApplyTxn(tabs, cur, ws[..n], threshold);
    var ms1 := Overridden(ms, AsMap(ws[..n]));
    var (t', cur2, out) := Execute(tabs1[w.table], cur1, w.Call(), threshold);
    assert Displays(tabs1[w.table], ms1[w.table], cur1);
    ExecuteDisplays(tabs1[w.table], ms1[w.table], cur1, w.Call(), threshold);
    CallSteps(ms1[w.table], w, cur1 + 1);
    OverrideNext(ms[w.table], AsMap(ws[..n]), w.table, w.Call().AsOp(cur1 + 1));
    var (tabs2, ms2) := (tabs1[w.table := t'], Overridden(ms, AsMap(ws)));
    forall t | 0 <= t < |tabs2| ensures Displays(tabs2[t], ms2[t], cur2) {
      if t != w.table {
        assert Displays(tabs1[t], ms1[t], cur1);
        DisplaysLater(tabs1[t], ms1[t], cur1, cur2);
        OverrideOther(ms[t], AsMap(ws[..n]), t, w);
      }
    }
  }

  lemma {:induction false} OverrideOther(m: View, ws: ChangeSet, t: nat, w: TxnWrite)
    requires t != w.table
    ensures Override(m, ws[Place(w) := Content(w)], t) == Override(m, ws, t)
  {
    OverrideNext(m, ws, w.table, w.Call().AsOp(0));
  }

  // ---- histories after a batch ---------------------------------------------

  ghost function Longer(hs: seq<seq<Op>>, es: seq<Tagged>): seq<seq<Op>> {
    seq(|hs|, t requires 0 <= t < |hs| => hs[t] + Of(es, t))
  }

  lemma {:induction false} BatchKeepsHistory(db: Db, hs: seq<seq<Op>>, floor: Csn, ws: seq<TxnWrite>, threshold: nat)
    requires Committed(db, hs, floor) && AllReadable(db.tabs) && db.cur + |ws| < NEVER
    requires forall i :: 0 <= i < |ws| ==> ws[i].table < |db.tabs|
    ensures var (tabs, cur, es, ok) := ApplyTxn(db.tabs, db.cur, ws, threshold);
      && ok && db.cur <= cur <= db.cur + |ws| && Committed(Db(tabs, cur), Longer(hs, es), floor)
      && forall i :: 0 <= i < |es| ==> db.cur < es[i].op.csn
  {
    if ws == [] {
      forall t | 0 <= t < |hs| ensures hs[t] + Of([], t) == hs[t] { assert Of([], t) == []; }
    } else {
      BatchKeepsHistory(db, hs, floor, ws[..|ws|-1], threshold);
      HistoryNext(db, hs, floor, ws, threshold);
    }
  }

  lemma {:induction false} HistoryNext(db: Db, hs: seq<seq<Op>>, floor: Csn, ws: seq<TxnWrite>, threshold: nat)
    requires AllReadable(db.tabs) && ws != [] && db.cur + |ws| < NEVER && ws[|ws|-1].table < |db.tabs| == |hs|
    requires var (tabs1, cur1, es1, ok1) := ApplyTxn(db.tabs, db.cur, ws[..|ws|-1], threshold);
      && ok1 && db.cur <= cur1 <= db.cur + |ws| - 1 && Committed(Db(tabs1, cur1), Longer(hs, es1), floor)
      && forall i :: 0 <= i < |es1| ==> db.cur < es1[i].op.csn
    ensures var (tabs, cur, es, ok) := ApplyTxn(db.tabs, db.cur, ws, threshold);
      && ok && db.cur <= cur <= db.cur + |ws| && Committed(Db(tabs, cur), Longer(hs, es), floor)
      && forall i :: 0 <= i < |es| ==> db.cur < es[i].op.csn
  {
    hide Inv;
    hide Execute;
    hide Longer;
    hide Of;
    var n := |ws| - 1;
    var w := ws[n];
    var (tabs1, cur1, es1, ok1) := ApplyTxn(db.tabs, db.cur, ws[..n], threshold);
    var (hs1, call) := (Longer(hs, es1), w.Call());
    LongerSize(hs, es1);
    ExecuteKeepsInv(tabs1[w.table], hs1[w.table], floor, cur1, call, threshold);
    ExecuteClock(tabs1[w.table], hs1[w.table], floor, cur1, call, threshold);
    var (t2, cur2, out) := Execute(tabs1[w.table], cur1, call, threshold);
    var e := Tagged(w.table, call.AsOp(cur1 + 1));
    assert es1 + [] == es1;
    var tabs2 := tabs1[w.table := t2];
    LongerSize(hs, es1 + [e]);
    forall t | 0 <= t < |hs| && t != w.table ensures Inv(tabs2[t], hs1[t], floor, cur2) {
      TickKeepsInv(tabs1[t], hs1[t], floor, cur1, cur2);
    }
    forall t | 0 <= t < |hs| ensures Longer(hs, es1 + [e])[t] == if t == w.table then hs1[t] + [e.op] else hs1[t] {
      LongerNext(hs, es1, e, t);
    }
  }

  lemma {:induction false} LongerSize(hs: seq<seq<Op>>, es: seq<Tagged>)
    ensures |Longer(hs, es)| == |hs|
  {
  }

  lemma {:induction false} LongerNext(hs: seq<seq<Op>>, es: seq<Tagged>, e: Tagged, t: nat)
    requires t < |hs|
    ensures Longer(hs, es + [e])[t] == if t == e.table then Longer(hs, es)[t] + [e.op] else Longer(hs, es)[t]
  {
    OfAppend(es, [e], t);
    OfOne(e, t);
  }

  lemma {:induction false} OfOne(e: Tagged, t: nat)
    ensures Of([e], t) == if e.table == t then [e.op] else []
  {
    assert [e][..0] == [];
  }

  lemma {:induction false} ExecuteClock(t: Table, h: seq<Op>, floor: Csn, cur: Csn, call: Call, threshold: nat)
    requires Inv(t, h, floor, cur) && Readable(t.parts) && cur + 1 < NEVER
    ensures var (t', cur', out) := Execute(t, cur, call, threshold);
      cur <= cur' <= cur + 1 && (out.Done? ==> out.csn == cur' == cur + 1)
  {
    ExecuteOutcome(t, h, floor, cur, call, threshold);
  }

  /** Operations stamped after `s` change nothing a snapshot at `s` sees. */
  lemma {:induction false} AtUnmoved(h: seq<Op>, more: seq<Op>, s: Csn)
    requires forall i :: 0 <= i < |more| ==> s < more[i].csn
    ensures At(h + more, s) == At(h, s)
    decreases |more|
  {
    if more == [] {
      assert h + more == h;
    } else {
      var n := |more| - 1;
      assert h + more == (h + more[..n]) + [more[n]];
      AtExtended(h + more[..n], more[n], s);
      AtUnmoved(h, more[..n], s);
    }
  }

  lemma {:induction false} ViewsUnmoved(hs: seq<seq<Op>>, es: seq<Tagged>, s: Csn)
    requires forall i :: 0 <= i < |es| ==> s < es[i].op.csn
    ensures Views(Longer(hs, es), s) == Views(hs, s)
  {
    forall t | 0 <= t < |hs| ensures At(Longer(hs, es)[t], s) == At(hs[t], s) {
      forall i | 0 <= i < |Of(es, t)| ensures s < Of(es, t)[i].csn { OfMembers(es, t, i); }
      AtUnmoved(hs[t], Of(es, t), s);
    }
  }

  /** The rows displayed determine the state. */
  lemma {:induction false} DisplaysDecide(t: Table, a: View, b: View, cur: Csn)
    requires Displays(t, a, cur) && Displays(t, b, cur)
    ensures a == b
  {
    DisplaysReadable(t, a, cur);
    hide TableRows;
    hide Shape;
    forall k ensures Find(a, k) == Find(b, k) {
      LocateShows(t, a, k, cur);
      LocateShows(t, b, k, cur);
    }
    FindsDecide(a, b);
  }

  /** Committing a batch: the latest state is the old one overridden by it, and
      no earlier snapshot sees a difference. */
  lemma {:induction false} BatchCommits(db: Db, hs: seq<seq<Op>>, floor: Csn, ws: seq<TxnWrite>, threshold: nat)
    requires Committed(db, hs, floor) && AllReadable(db.tabs) && db.cur + |ws| < NEVER
    requires forall i :: 0 <= i < |ws| ==> ws[i].table < |db.tabs|
    ensures var (tabs, cur, es, ok) := ApplyTxn(db.tabs, db.cur, ws, threshold);
      && ok && db.cur <= cur <= db.cur + |ws| && Committed(Db(tabs, cur), Longer(hs, es), floor)
      && Views(Longer(hs, es), cur) == Overridden(Views(hs, db.cur), AsMap(ws))
      && forall s: Csn :: s <= db.cur ==> Views(Longer(hs, es), s) == Views(hs, s)
  {
    BatchKeepsHistory(db, hs, floor, ws, threshold);
    CommittedDisplays(db, hs, floor);
    BatchOverrides(db.tabs, Views(hs, db.cur), db.cur, ws, threshold);
    hide ApplyTxn;
    var (tabs, cur, es, ok) := ApplyTxn(db.tabs, db.cur, ws, threshold);
    CommittedDisplays(Db(tabs, cur), Longer(hs, es), floor);
    var (a, b) := (Views(Longer(hs, es), cur), Overridden(Views(hs, db.cur), AsMap(ws)));
    forall t | 0 <= t < |a| ensures a[t] == b[t] { DisplaysDecide(tabs[t], a[t], b[t], cur); }
    forall s: Csn | s <= db.cur ensures Views(Longer(hs, es), s) == Views(hs, s) { ViewsUnmoved(hs, es, s); }
  }

  // ---- conflicts -----------------------------------------------------------

  /** No written key has changed value since the transaction began. */
  ghost predicate Unchanged(base: seq<View>, now: seq<View>, ws: ChangeSet)
    requires |base| == |now| && forall p :: p in ws ==> p.0 < |base|
  {
    forall p :: p in ws ==> Find(base[p.0], p.1) == Find(now[p.0], p.1)
  }

  /** The derived `==` on rows, which the check uses (src/schema.rs:293-296). */
  predicate SameRow(a: Row, b: Row) {
    SameValue(a.key, b.key) && |a.cells| == |b.cells| && forall i :: 0 <= i < |a.cells| ==> SameValue(a.cells[i], b.cells[i])
  }

  predicate SameFind(a: Option<Row>, b: Option<Row>) {
    if a.Some? && b.Some? then SameRow(a.value, b.value) else a == b
  }

  /** The check of `commit`: every written key compares equal to its begin value. */
  ghost predicate Passes(base: seq<View>, now: seq<View>, ws: ChangeSet)
    requires |base| == |now| && forall p :: p in ws ==> p.0 < |base|
  {
    forall p :: p in ws ==> SameFind(Find(base[p.0], p.1), Find(now[p.0], p.1))
  }

  predicate NanCell(v: Value) { v.Float? && IsNan(v.bits) }

  predicate ZeroCell(v: Value) { v.Float? && IsZero(v.bits) }

  predicate HasNan(r: Row) { NanCell(r.key) || exists i :: 0 <= i < |r.cells| && NanCell(r.cells[i]) }

  predicate HasZero(r: Row) { exists i :: 0 <= i < |r.cells| && ZeroCell(r.cells[i]) }

  /** No written key had a NaN in its row at begin. */
  ghost predicate NoNans(base: seq<View>, ws: ChangeSet)
    requires forall p :: p in ws ==> p.0 < |base|
  {
    forall p :: p in ws && p.1 in base[p.0] ==> !HasNan(base[p.0][p.1])
  }

  /** No cell that was and is a zero has changed sign. */
  predicate SignsKept(a: Row, b: Row) {
    && (ZeroCell(a.key) && ZeroCell(b.key) ==> a.key == b.key)
    && forall i :: 0 <= i < |a.cells| && i < |b.cells| && ZeroCell(a.cells[i]) && ZeroCell(b.cells[i]) ==> a.cells[i] == b.cells[i]
  }

  ghost predicate ZerosKept(base: seq<View>, now: seq<View>, ws: ChangeSet)
    requires |base| == |now| && forall p :: p in ws ==> p.0 < |base|
  {
    forall p :: p in ws && p.1 in base[p.0] && p.1 in now[p.0] ==> SignsKept(base[p.0][p.1], now[p.0][p.1])
  }

  lemma {:induction false} RowsSame(a: Row, b: Row)
    ensures SameRow(a, a) <==> !HasNan(a)
    ensures SameRow(a, b) ==> (a == b <==> SignsKept(a, b))
  {
    if SameRow(a, b) && SignsKept(a, b) {
      assert a.cells == b.cells;
    }
  }

  /** When nothing changed the check passes if and only if no written key had a NaN
      in its row: a NaN differs from itself, so such a transaction always aborts. */
  lemma {:induction false} UntouchedPasses(base: seq<View>, now: seq<View>, ws: ChangeSet)
    requires |base| == |now| && forall p :: p in ws ==> p.0 < |base|
    requires Unchanged(base, now, ws)
    ensures Passes(base, now, ws) <==> NoNans(base, ws)
  {
    hide SameRow;
    hide HasNan;
    forall p | p in ws ensures SameFind(Find(base[p.0], p.1), Find(now[p.0], p.1)) <==> (p.1 in base[p.0] ==> !HasNan(base[p.0][p.1])) {
      if p.1 in base[p.0] { RowsSame(base[p.0][p.1], base[p.0][p.1]); }
    }
  }

  /** When the check passes nothing changed if and only if no zero changed sign. */
  lemma {:induction false} PassedUnchanged(base: seq<View>, now: seq<View>, ws: ChangeSet)
    requires |base| == |now| && forall p :: p in ws ==> p.0 < |base|
    requires Passes(base, now, ws)
    ensures Unchanged(base, now, ws) <==> ZerosKept(base, now, ws)
  {
    hide SameRow;
    hide SignsKept;
    forall p | p in ws ensures p.1 in base[p.0] <==> p.1 in now[p.0] {
      assert SameFind(Find(base[p.0], p.1), Find(now[p.0], p.1));
    }
    forall p | p in ws && p.1 in base[p.0] ensures base[p.0][p.1] == now[p.0][p.1] <==> SignsKept(base[p.0][p.1], now[p.0][p.1]) {
      assert SameFind(Find(base[p.0], p.1), Find(now[p.0], p.1));
      RowsSame(base[p.0][p.1], now[p.0][p.1]);
    }
  }

  ghost predicate AllKeyed(ms: seq<View>) { forall t :: 0 <= t < |ms| ==> Keyed(ms[t]) }

  /** Whatever happens to the store, the check means "unchanged". */
  ghost predicate Faithful(base: seq<View>, ws: ChangeSet)
    requires forall p :: p in ws ==> p.0 < |base|
  {
    forall now: seq<View> :: |now| == |base| && AllKeyed(now) ==> (Passes(base, now, ws) <==> Unchanged(base, now, ws))
  }

  /** No written key had a NaN or a zero float in its row at begin. */
  ghost predicate Plain(base: seq<View>, ws: ChangeSet)
    requires forall p :: p in ws ==> p.0 < |base|
  {
    NoNans(base, ws) && forall p :: p in ws && p.1 in base[p.0] ==> !HasZero(base[p.0][p.1])
  }

  /** The check means "unchanged" for every later state of the store if and only if
      no written key had a NaN or a zero float in its row when the transaction began. */
  lemma {:induction false} CheckExact(base: seq<View>, ws: ChangeSet)
    requires AllKeyed(base) && forall p :: p in ws ==> p.0 < |base|
    ensures Faithful(base, ws) <==> Plain(base, ws)
  {
    hide HasNan;
    hide HasZero;
    hide SameRow;
    if Plain(base, ws) {
      forall now: seq<View> | |now| == |base| && AllKeyed(now) ensures Passes(base, now, ws) <==> Unchanged(base, now, ws) {
        PlainExact(base, now, ws);
      }
    } else if !NoNans(base, ws) {
      UntouchedPasses(base, base, ws);
    } else {
      var p :| p in ws && p.1 in base[p.0] && HasZero(base[p.0][p.1]);
      var now := SignFlipped(base, ws, p);
      assert Passes(base, now, ws) && !Unchanged(base, now, ws);
    }
  }

  lemma {:induction false} PlainExact(base: seq<View>, now: seq<View>, ws: ChangeSet)
    requires AllKeyed(base) && |now| == |base| && AllKeyed(now) && (forall p :: p in ws ==> p.0 < |base|) && Plain(base, ws)
    ensures Passes(base, now, ws) <==> Unchanged(base, now, ws)
  {
    hide HasNan;
    hide SameRow;
    if Unchanged(base, now, ws) { UntouchedPasses(base, now, ws); }
    if Passes(base, now, ws) {
      PassedUnchanged(base, now, ws);
      forall p | p in ws && p.1 in base[p.0] && p.1 in now[p.0] ensures SignsKept(base[p.0][p.1], now[p.0][p.1]) {
        assert !HasZero(base[p.0][p.1]);
      }
    }
  }

  /** A later state in which one zero of a written key has the other sign. */
  lemma {:induction false} SignFlipped(base: seq<View>, ws: ChangeSet, p: (nat, Value)) returns (now: seq<View>)
    requires AllKeyed(base) && (forall q :: q in ws ==> q.0 < |base|) && NoNans(base, ws)
    requires p in ws && p.1 in base[p.0] && HasZero(base[p.0][p.1])
    ensures |now| == |base| && AllKeyed(now) && Passes(base, now, ws) && !Unchanged(base, now, ws)
  {
    var r := base[p.0][p.1];
    var i :| 0 <= i < |r.cells| && ZeroCell(r.cells[i]);
    var r' := r.(cells := r.cells[i := Float(if r.cells[i].bits == 0 then SIGN else 0)]);
    now := base[p.0 := base[p.0][p.1 := r']];
    assert r'.cells[i] != r.cells[i];
    assert Find(base[p.0], p.1) != Find(now[p.0], p.1);
    RowsSame(r, r);
    hide HasNan;
    forall q | q in ws ensures SameFind(Find(base[q.0], q.1), Find(now[q.0], q.1)) {
      if q == p {
        assert SameRow(r, r');
      } else {
        assert Find(now[q.0], q.1) == Find(base[q.0], q.1);
        if q.1 in base[q.0] { RowsSame(base[q.0][q.1], base[q.0][q.1]); }
      }
    }
  }

  /** A row holding a NaN that nobody touched aborts the transaction, and a zero
      whose sign another transaction flipped is overwritten unseen. */
  lemma {:induction false} NanAbortsAndZeroPasses(key: Value)
    requires key == Int(1)
    ensures var (nan, zero, minus) := (Row(key, [Float(0x7FF8_0000_0000_0000)]), Row(key, [Float(0)]), Row(key, [Float(SIGN)]));
      var ws: ChangeSet := map[(0, key) := None];
      && Unchanged([map[key := nan]], [map[key := nan]], ws) && !Passes([map[key := nan]], [map[key := nan]], ws)
      && !Unchanged([map[key := zero]], [map[key := minus]], ws) && Passes([map[key := zero]], [map[key := minus]], ws)
  {
    var (nan, zero, minus) := (Row(key, [Float(0x7FF8_0000_0000_0000)]), Row(key, [Float(0)]), Row(key, [Float(SIGN)]));
    assert !SameRow(nan, nan) by { assert !SameValue(nan.cells[0], nan.cells[0]); }
    assert zero.cells[0] != minus.cells[0];
    assert SameRow(zero, minus);
    var ws: ChangeSet := map[(0, key) := None];
    assert (0, key) in ws;
  }

  /** Of two transactions over the same state writing the same key, once one has
      committed a change of that key the other cannot commit. */
  lemma {:induction false} FirstCommitterWins(base: seq<View>, now: seq<View>, first: ChangeSet, second: ChangeSet, p: (nat, Value))
    requires |base| == |now| && forall q :: q in first || q in second ==> q.0 < |base|
    requires p in first && p in second && !SameFind(Find(base[p.0], p.1), first[p])
    ensures !Passes(base, Overridden(now, first), second)
  {
    OverrideAt(now[p.0], first, p.0, p.1);
  }

  /** Transactions over disjoint keys both commit, in either order with the same result. */
  lemma {:induction false} DisjointCommute(m: View, a: ChangeSet, b: ChangeSet, t: nat)
    requires a.Keys !! b.Keys
    ensures Override(Override(m, a, t), b, t) == Override(Override(m, b, t), a, t)
    ensures forall p :: p in b && p.0 == t ==> Find(Override(m, a, t), p.1) == Find(m, p.1)
  {
    var (x, y) := (Override(Override(m, a, t), b, t), Override(Override(m, b, t), a, t));
    forall k ensures Find(x, k) == Find(y, k) {
      OverrideAt(Override(m, a, t), b, t, k);
      OverrideAt(m, a, t, k);
      OverrideAt(Override(m, b, t), a, t, k);
      OverrideAt(m, b, t, k);
    }
    FindsDecide(x, y);
    forall p | p in b && p.0 == t ensures Find(Override(m, a, t), p.1) == Find(m, p.1) { OverrideAt(m, a, t, p.1); }
  }

  // ---- the transaction -----------------------------------------------------

  /** The overlay tables in use display the begin state overridden by the writes. */
  ghost predicate OverlayOk(overlay: map<nat, Table>, clock: Csn, materialized: set<nat>, writes: ChangeSet, base: seq<View>) {
    && clock < NEVER && Proper(writes)
    && (forall t :: t in overlay ==> t in materialized && t < |base| && Displays(overlay[t], Override(base[t], writes, t), clock))
    && (forall t :: t in materialized && t < |base| ==> t in overlay)
    && (forall p :: p in writes ==> p.0 in overlay)
  }

  lemma {:induction false} LoadedOk(overlay: map<nat, Table>, clock: Csn, materialized: set<nat>, writes: ChangeSet, base: seq<View>, t: nat, rows: seq<Row>)
    requires OverlayOk(overlay, clock, materialized, writes, base) && clock + 1 < NEVER && t !in materialized && t < |base|
    requires Keyed(base[t]) && multiset(rows) == multiset(base[t].Values)
    ensures OverlayOk(overlay[t := BulkLoad(rows, clock + 1)], clock + 1, materialized + {t}, writes, base)
  {
    hide Displays;
    hide Override;
    hide BulkLoad;
    assert forall p :: p in writes ==> p.0 != t;
    NothingWritten(base[t], writes, t);
    BulkLoadDisplays(rows, base[t], clock + 1);
    var clock' := clock + 1;
    forall u | u in overlay ensures Displays(overlay[u], Override(base[u], writes, u), clock') {
      DisplaysLater(overlay[u], Override(base[u], writes, u), clock, clock');
    }
  }

  ghost function Recorded(writes: ChangeSet, t: nat, call: Call): ChangeSet {
    writes[(t, call.Key()) := if call.Delete? then None else Some(call.row)]
  }

  lemma {:induction false} WrittenOk(overlay: map<nat, Table>, clock: Csn, materialized: set<nat>, writes: ChangeSet, base: seq<View>, t: nat, call: Call, threshold: nat)
    requires OverlayOk(overlay, clock, materialized, writes, base) && clock + 1 < NEVER && t in overlay
    ensures t < |base| && Readable(overlay[t].parts)
    ensures var (t', clock', out) := Execute(overlay[t], clock, call, threshold);
      && out == Answer(Override(base[t], writes, t), call, clock + 1) && (out.Done? ==> clock' == clock + 1)
      && (out.Done? ==> OverlayOk(overlay[t := t'], clock', materialized, Recorded(writes, t, call), base))
  {
    hide Displays;
    hide Override;
    hide Execute;
    ExecuteDisplays(overlay[t], Override(base[t], writes, t), clock, call, threshold);
    var (t', clock', out) := Execute(overlay[t], clock, call, threshold);
    RecordedAll(base, writes, t, call.AsOp(clock + 1));
    forall u | u in overlay && u != t ensures Displays(overlay[u], Override(base[u], writes, u), clock') {
      DisplaysLater(overlay[u], Override(base[u], writes, u), clock, clock');
    }
  }

  /** The two sides of the commit check, key by key. */
  lemma {:induction false} SameAtBegin(db: Db, hs: seq<seq<Op>>, floor: Csn, t: nat, key: Value, s: Csn)
    requires Committed(db, hs, floor) && t < |hs| && floor <= s <= db.cur
    ensures Readable(db.tabs[t].parts) && Get(db.tabs[t], key, s) == Find(Views(hs, s)[t], key)
    ensures Keyed(Views(hs, s)[t]) && multiset(Scan(db.tabs[t], s)) == multiset(Views(hs, s)[t].Values)
  {
    ReadsAreHistory(db.tabs[t], hs[t], floor, db.cur, s, key, Null, Null);
  }

  ghost function Without(writes: ChangeSet, left: set<(nat, Value)>): ChangeSet { writes - left }

  lemma {:induction false} BatchedNext(writes: ChangeSet, left: set<(nat, Value)>, ws: seq<TxnWrite>, p: (nat, Value), w: TxnWrite)
    requires p in left && left <= writes.Keys && AsMap(ws) == Without(writes, left) && Place(w) == p && Content(w) == writes[p]
    ensures AsMap(ws + [w]) == Without(writes, left - {p}) && |left - {p}| == |left| - 1
  {
    assert (ws + [w])[..|ws + [w]|-1] == ws;
    assert Without(writes, left - {p}) == Without(writes, left)[p := writes[p]];
  }

  class Transaction {
    const snapshot: Csn
    /** The private overlay catalog and its own clock. */
    var overlay: map<nat, Table>
    var clock: Csn
    var materialized: set<nat>
    var writes: ChangeSet
    /** The committed state of every table when the transaction began. */
    ghost const base: seq<View>

    /** What the transaction reads in table `t`. */
    ghost function Sees(t: nat): View
      requires t < |base|
      reads this
    {
      Override(base[t], writes, t)
    }

    ghost predicate Valid()
      reads this
    {
      OverlayOk(overlay, clock, materialized, writes, base)
    }

    /** The committed store may move on, but still shows the begin snapshot. */
    ghost predicate Pinned(db: Db, hs: seq<seq<Op>>, floor: Csn) {
      Committed(db, hs, floor) && floor <= snapshot <= db.cur && Views(hs, snapshot) == base
    }

    constructor Begin(db: Db, ghost hs: seq<seq<Op>>, ghost floor: Csn)
      requires Committed(db, hs, floor)
      ensures Valid() && Pinned(db, hs, floor)
      ensures snapshot == db.cur && base == Views(hs, db.cur) && writes == map[]
    {
      snapshot, base := db.cur, Views(hs, db.cur);
      overlay, clock, materialized, writes := map[], 0, {}, map[];
    }

    /** Copy a table's rows at the begin snapshot into the overlay, once. */
    method Materialize(t: nat, db: Db, ghost hs: seq<seq<Op>>, ghost floor: Csn)
      requires Valid() && Pinned(db, hs, floor) && clock + 1 < NEVER
      modifies this`overlay, this`clock, this`materialized
      ensures Valid() && t in materialized && (t in overlay <==> t < |base|) && old(clock) <= clock <= old(clock) + 1
    {
      hide Displays;
      hide Override;
      hide Inv;
      hide BulkLoad;
      hide Scan;
      if t in materialized { return; }
      if t < |db.tabs| {
        SameAtBegin(db, hs, floor, t, Null, snapshot);
        var rows := Scan(db.tabs[t], snapshot);
        LoadedOk(overlay, clock, materialized, writes, base, t, rows);
        overlay := overlay[t := BulkLoad(rows, clock + 1)];
        clock := clock + 1;
      }
      materialized := materialized + {t};
    }

    /** A point read: the transaction's own write of the key, else its value at begin. */
    method Read(t: nat, key: Value, db: Db, ghost hs: seq<seq<Op>>, ghost floor: Csn) returns (known: bool, row: Option<Row>)
      requires Valid() && Pinned(db, hs, floor) && clock + 1 < NEVER
      modifies this`overlay, this`clock, this`materialized
      ensures Valid() && known == (t < |base|)
      ensures known ==> row == if (t, key) in writes then writes[(t, key)] else Find(base[t], key)
    {
      hide Displays;
      hide Override;
      Materialize(t, db, hs, floor);
      if t !in overlay { return false, None; }
      DisplaysReads(overlay[t], Sees(t), clock, key);
      OverrideAt(base[t], writes, t, key);
      known, row := true, Get(overlay[t], key, clock);
    }

    /** A full scan: every row of the begin state overridden by the own writes, once. */
    method ReadAll(t: nat, db: Db, ghost hs: seq<seq<Op>>, ghost floor: Csn) returns (known: bool, rows: seq<Row>)
      requires Valid() && Pinned(db, hs, floor) && clock + 1 < NEVER
      modifies this`overlay, this`clock, this`materialized
      ensures Valid() && known == (t < |base|)
      ensures known ==> multiset(rows) == multiset(Sees(t).Values)
    {
      hide Displays;
      hide Override;
      Materialize(t, db, hs, floor);
      if t !in overlay { return false, []; }
      DisplaysReads(overlay[t], Sees(t), clock, Null);
      known, rows := true, Scan(overlay[t], clock);
    }

    /** insert / upsert / update / delete inside the transaction: answered from
        what it sees, applied to the overlay and recorded, and to nothing else. */
    method Write(t: nat, call: Call, threshold: nat, db: Db, ghost hs: seq<seq<Op>>, ghost floor: Csn) returns (out: Option<Outcome>)
      requires Valid() && Pinned(db, hs, floor) && clock + 2 < NEVER
      modifies this`overlay, this`clock, this`materialized, this`writes
      ensures Valid()
      ensures out.None? <==> t >= |base|
      ensures out.Some? ==> out.value == Answer(old(Sees(t)), call, clock)
      ensures writes == if out.Some? && out.value.Done? then Recorded(old(writes), t, call) else old(writes)
    {
      hide OverlayOk;
      hide Execute;
      Materialize(t, db, hs, floor);
      if t !in overlay { return None; }
      WrittenOk(overlay, clock, materialized, writes, base, t, call, threshold);
      var (t', clock', answer) := Execute(overlay[t], clock, call, threshold);
      assert answer == Answer(old(Sees(t)), call, clock + 1);
      if answer.Done? {
        writes := writes[(t, call.Key()) := if call.Delete? then None else Some(call.row)];
        overlay, clock := overlay[t := t'], clock';
      }
      out := Some(answer);
    }

    /** Compare each written key's value at begin with its latest committed value. */
    method Conflicts(db: Db, ghost hs: seq<seq<Op>>, ghost floor: Csn) returns (conflict: bool)
      requires Valid() && Pinned(db, hs, floor)
      ensures |base| == |hs| && forall p :: p in writes ==> p.0 < |base|
      ensures conflict <==> !Passes(base, Views(hs, db.cur), writes)
    {
      hide Displays;
      hide Inv;
      hide Override;
      hide SameFind;
      hide Get;
      var left := writes.Keys;
      while left != {}
        invariant left <= writes.Keys
        invariant forall p :: p in writes && p !in left ==> SameFind(Find(base[p.0], p.1), Find(Views(hs, db.cur)[p.0], p.1))
        decreases left
      {
        var p :| p in left;
        SameAtBegin(db, hs, floor, p.0, p.1, snapshot);
        SameAtBegin(db, hs, floor, p.0, p.1, db.cur);
        if !SameFind(Get(db.tabs[p.0], p.1, snapshot), Get(db.tabs[p.0], p.1, db.cur)) { return true; }
        left := left - {p};
      }
      conflict := false;
    }

    /** The change-set as a batch of writes, in some order. */
    method Batch() returns (ws: seq<TxnWrite>)
      requires Valid()
      ensures AsMap(ws) == writes && |ws| == |writes| && forall i :: 0 <= i < |ws| ==> ws[i].table < |base|
    {
      hide Displays;
      hide Override;
      hide Without;
      var left := writes.Keys;
      ws := [];
      NoneBatched(writes);
      while left != {}
        invariant left <= writes.Keys && |ws| + |left| == |writes|
        invariant AsMap(ws) == Without(writes, left)
        invariant forall i :: 0 <= i < |ws| ==> ws[i].table < |base|
        decreases left
      {
        var p :| p in left;
        var w := if writes[p].Some? then PutTo(p.0, writes[p].value) else DeleteFrom(p.0, p.1);
        BatchedNext(writes, left, ws, p, w);
        ws := ws + [w];
        left := left - {p};
      }
    }

    /** Commit, check and apply as one step: it succeeds exactly when every written
        key still compares equal to its begin value, and then the latest state is the old one overridden by
        the change-set; otherwise nothing happens. */
    method Commit(db: Db, threshold: nat, ghost hs: seq<seq<Op>>, ghost floor: Csn)
        returns (db': Db, committed: bool, ghost hs': seq<seq<Op>>)
      requires Valid() && Pinned(db, hs, floor) && db.cur + |writes| < NEVER
      ensures |base| == |hs| && forall p :: p in writes ==> p.0 < |base|
      ensures committed <==> Passes(base, Views(hs, db.cur), writes)
      ensures !committed ==> db' == db && hs' == hs
      ensures Committed(db', hs', floor) && db.cur <= db'.cur <= db.cur + |writes|
      ensures committed ==> Views(hs', db'.cur) == Overridden(Views(hs, db.cur), writes)
      ensures forall s: Csn :: s <= db.cur ==> Views(hs', s) == Views(hs, s)
    {
      hide OverlayOk;
      hide Overridden;
      hide Passes;
      hide Committed;
      var conflict := Conflicts(db, hs, floor);
      if conflict { return db, false, hs; }
      var ws := Batch();
      CommittedDisplays(db, hs, floor);
      SameCount(db, hs, floor);
      BatchCommits(db, hs, floor, ws, threshold);
      hide ApplyTxn;
      var entries, ok;
      db', entries, ok := CommitBatch(db, ws, threshold);
      hs' := Longer(hs, entries);
      committed := true;
    }
  }

  lemma {:induction false} WritesInRange(overlay: map<nat, Table>, clock: Csn, materialized: set<nat>, writes: ChangeSet, base: seq<View>)
    requires OverlayOk(overlay, clock, materialized, writes, base)
    ensures forall p :: p in writes ==> p.0 < |base|
  {
    hide Displays;
    hide Override;
  }

  /** Some key both write whose value `first` changes, compared to what `second` began with. */
  ghost predicate Clash(first: ChangeSet, second: ChangeSet, base: seq<View>)
    requires forall p :: p in second ==> p.0 < |base|
  {
    exists p :: p in first && p in second && !SameFind(Find(base[p.0], p.1), first[p])
  }

  /** Two transactions committing one after the other. Once the first has committed,
      the second cannot if they clash; if they write different keys it commits as it
      would have alone, and the order makes no difference to the result. */
  method CommitBoth(first: Transaction, second: Transaction, db: Db, threshold: nat, ghost hs: seq<seq<Op>>, ghost floor: Csn)
      returns (db': Db, won: bool, also: bool, ghost hs': seq<seq<Op>>)
    requires first.Valid() && first.Pinned(db, hs, floor) && second.Valid() && second.Pinned(db, hs, floor)
    requires db.cur + |first.writes| + |second.writes| < NEVER
    ensures |first.base| == |hs| == |second.base|
    ensures (forall p :: p in first.writes ==> p.0 < |hs|) && (forall p :: p in second.writes ==> p.0 < |hs|)
    ensures Committed(db', hs', floor)
    ensures won <==> Passes(first.base, Views(hs, db.cur), first.writes)
    ensures won && Clash(first.writes, second.writes, second.base) ==> !also
    ensures !won || first.writes.Keys !! second.writes.Keys ==> (also <==> Passes(second.base, Views(hs, db.cur), second.writes))
    ensures won && also ==>
      Views(hs', db'.cur) == Overridden(Overridden(Views(hs, db.cur), first.writes), second.writes)
    ensures won && also && first.writes.Keys !! second.writes.Keys ==>
      Views(hs', db'.cur) == Overridden(Overridden(Views(hs, db.cur), second.writes), first.writes)
  {
    hide OverlayOk;
    hide Committed;
    hide Override;
    hide SameFind;
    WritesInRange(second.overlay, second.clock, second.materialized, second.writes, second.base);
    var db1;
    ghost var hs1;
    db1, won, hs1 := first.Commit(db, threshold, hs, floor);
    ghost var now := Views(hs, db.cur);
    if won {
      if p :| p in first.writes && p in second.writes && !SameFind(Find(second.base[p.0], p.1), first.writes[p]) {
        FirstCommitterWins(second.base, now, first.writes, second.writes, p);
      }
      if first.writes.Keys !! second.writes.Keys { Independent(now, second.base, first.writes, second.writes); }
    }
    db', also, hs' := second.Commit(db1, threshold, hs1, floor);
  }

  /** Writes of other keys neither disturb the check nor depend on the order. */
  lemma {:induction false} Independent(now: seq<View>, base: seq<View>, a: ChangeSet, b: ChangeSet)
    requires a.Keys !! b.Keys && |now| == |base| && forall p :: p in b ==> p.0 < |base|
    ensures Passes(base, Overridden(now, a), b) <==> Passes(base, now, b)
    ensures Overridden(Overridden(now, a), b) == Overridden(Overridden(now, b), a)
  {
    hide SameFind;
    hide Override;
    forall p | p in b ensures Find(Overridden(now, a)[p.0], p.1) == Find(now[p.0], p.1) {
      DisjointCommute(now[p.0], a, b, p.0);
    }
    var (x, y) := (Overridden(Overridden(now, a), b), Overridden(Overridden(now, b), a));
    forall t | 0 <= t < |now| ensures x[t] == y[t] { DisjointCommute(now[t], a, b, t); }
    assert x == y;
  }

  lemma {:induction false} SameCount(db: Db, hs: seq<seq<Op>>, floor: Csn)
    requires Committed(db, hs, floor)
    ensures |db.tabs| == |hs|
  {
  }

  lemma {:induction false} NoneBatched(writes: ChangeSet)
    ensures AsMap([]) == Without(writes, writes.Keys) && |writes.Keys| == |writes|
    ensures Without(writes, {}) == writes
  {
  }

  /** `commit_transaction`: upsert or delete each write in turn; a write naming an
      unknown table stops the loop where it stands (src/storage.rs:515-552). */
  method CommitBatch(db: Db, ws: seq<TxnWrite>, threshold: nat) returns (db': Db, entries: seq<Tagged>, ok: bool)
    requires AllReadable(db.tabs)
    ensures (db'.tabs, db'.cur, entries, ok) == ApplyTxn(db.tabs, db.cur, ws, threshold)
  {
    var tabs, cur := db.tabs, db.cur;
    entries := [];
    for i := 0 to |ws|
      invariant (tabs, cur, entries, true) == ApplyTxn(db.tabs, db.cur, ws[..i], threshold)
    {
      assert ws[..i+1][..i] == ws[..i];
      if ws[i].table >= |tabs| {
        Stopped(db.tabs, db.cur, ws, threshold, i + 1);
        return Db(tabs, cur), entries, false;
      }
      var (t, c, out) := Execute(tabs[ws[i].table], cur, ws[i].Call(), threshold);
      entries := entries + (if out.Done? then [Tagged(ws[i].table, ws[i].Call().AsOp(out.csn))] else []);
      tabs, cur := tabs[ws[i].table := t], c;
    }
    assert ws[..|ws|] == ws;
    db', ok := Db(tabs, cur), true;
  }

  /** Once a batch has stopped, the rest of it does nothing. */
  lemma {:induction false} Stopped(tabs: seq<Table>, cur: Csn, ws: seq<TxnWrite>, threshold: nat, n: nat)
    requires AllReadable(tabs) && n <= |ws| && !ApplyTxn(tabs, cur, ws[..n], threshold).3
    ensures ApplyTxn(tabs, cur, ws, threshold) == ApplyTxn(tabs, cur, ws[..n], threshold)
    decreases |ws|
  {
    if n < |ws| {
      assert ws[..|ws|-1][..n] == ws[..n];
      Stopped(tabs, cur, ws[..|ws|-1], threshold, n);
    } else {
      assert ws[..n] == ws;
    }
  }

  lemma {:induction false} NothingWritten(m: View, ws: ChangeSet, t: nat)
    requires forall p :: p in ws ==> p.0 != t
    ensures Override(m, ws, t) == m
  {
    assert KeysAt(ws, t) == {};
  }

  /** What the transaction sees after a recorded write: that write, applied to
      what it saw before; other tables are untouched. */
  lemma {:induction false} WriteSeen(base: seq<View>, ws: ChangeSet, t: nat, call: Call, next: Csn)
    requires t < |base| && Answer(Override(base[t], ws, t), call, next).Done?
    ensures Override(base[t], Recorded(ws, t, call), t) == Stepped(Override(base[t], ws, t), call, next)
    ensures forall u: nat :: u < |base| && u != t ==> Override(base[u], Recorded(ws, t, call), u) == Override(base[u], ws, u)
  {
    hide Override;
    RecordedAll(base, ws, t, call.AsOp(next));
  }

  /** Recording a write changes what is seen of its own table as the write says,
      and nothing else. */
  lemma {:induction false} RecordedAll(base: seq<View>, ws: ChangeSet, t: nat, op: Op)
    requires t < |base|
    ensures var ws' := ws[(t, op.Key()) := if op.Put? then Some(op.row) else None];
      && Override(base[t], ws', t) == Apply(Override(base[t], ws, t), op)
      && forall u: nat :: u < |base| && u != t ==> Override(base[u], ws', u) == Override(base[u], ws, u)
  {
    OverrideNext(base[t], ws, t, op);
    forall u: nat | u < |base| && u != t
      ensures Override(base[u], ws[(t, op.Key()) := if op.Put? then Some(op.row) else None], u) == Override(base[u], ws, u)
    {
      OverrideNext(base[u], ws, t, op);
    }
  }
}
