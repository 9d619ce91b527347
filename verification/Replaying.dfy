/** Log replay on one table, and why replaying over part files that already hold
    some of the tail's tombstones changes nothing (src/table.rs:503-536,
    src/storage.rs:184-230, 585-609). */
module Replaying {
  import opened Bags
  import opened Values
  import opened Wrappers
  import opened Mvcc
  import opened Compaction
  import opened Reads

  /** Apply a logged operation as of just before its own stamp, keeping that stamp. */
  function ReplayOp(t: Table, op: Op): (t': Table)
    requires Readable(t.parts)
    ensures Readable(t'.parts)
  {
    Write(t, op, if op.csn == 0 then 0 else op.csn - 1)
  }

  function Replay(t: Table, ops: seq<Op>): (t': Table)
    requires Readable(t.parts)
    ensures Readable(t'.parts)
  {
    if ops == [] then t
    else ReplayOp(Replay(t, ops[..|ops|-1]), ops[|ops|-1])
  }

  ghost predicate Ascending(ops: seq<Op>, from: Csn) {
    && (forall i, j :: 0 <= i < j < |ops| ==> ops[i].csn < ops[j].csn)
    && (forall i :: 0 <= i < |ops| ==> from < ops[i].csn < NEVER)
  }

  function LastOf(ops: seq<Op>, from: Csn): Csn { if ops == [] then from else ops[|ops|-1].csn }

  /** The stamp of the first operation on `key`: the one that ends the version
      of `key` that was live before `ops`. */
  function FirstOf(ops: seq<Op>, key: Value): (r: Option<Csn>)
    ensures r.Some? ==> exists i :: 0 <= i < |ops| && ops[i].Key() == key && ops[i].csn == r.value
    ensures r.None? ==> forall i :: 0 <= i < |ops| ==> ops[i].Key() != key
  {
    if ops == [] then None
    else
      var r := FirstOf(ops[..|ops|-1], key);
      if r.Some? then r else if ops[|ops|-1].Key() == key then Some(ops[|ops|-1].csn) else None
  }

  // ---- the tombstones a tail puts on a part --------------------------------

  /** The deletion vector of a checkpointed part once `tail` has been applied. */
  function Expected(base: Part, tail: seq<Op>): Dv {
    map o | 0 <= o < |base.rows| && (o in base.dv || FirstOf(tail, base.rows[o].key).Some?)
      :: if o in base.dv then base.dv[o] else FirstOf(tail, base.rows[o].key).value
  }

  ghost predicate TracksPart(p: Part, base: Part, tail: seq<Op>) {
    p.id == base.id ==> SameRows(p, base) && p.dv == Expected(base, tail)
  }

  /** Every checkpointed part still in the table carries exactly the tombstones
      the tail gives it. */
  ghost predicate Tracks(t: Table, base: Table, tail: seq<Op>) {
    && base.nextPartId <= t.nextPartId
    && forall i, j :: 0 <= i < |t.parts| && 0 <= j < |base.parts| ==> TracksPart(t.parts[i], base.parts[j], tail)
  }

  /** The base is a checkpoint: nothing buffered, consistent at `ckpt`. */
  ghost predicate Base(base: Table, h: seq<Op>, ckpt: Csn) {
    base.l0 == [] && Inv(base, h, ckpt, ckpt)
  }

  lemma {:induction false} BaseTracks(base: Table, h: seq<Op>, ckpt: Csn)
    requires Base(base, h, ckpt)
    ensures Tracks(base, base, [])
  {
    forall i, j | 0 <= i < |base.parts| && 0 <= j < |base.parts| ensures TracksPart(base.parts[i], base.parts[j], []) {
      if base.parts[i].id == base.parts[j].id {
        assert i == j;
        assert PartOk(base.parts[i], ckpt);
        assert Expected(base.parts[i], []) == base.parts[i].dv;
      }
    }
  }

  /** One write extends what every checkpointed part must carry, and does it. */
  lemma {:induction false} WriteTracks(t: Table, base: Table, h: seq<Op>, floor: Csn, cur: Csn, tail: seq<Op>, op: Op)
    requires Inv(t, h, floor, cur) && op.csn == cur + 1 < NEVER && Readable(t.parts)
    requires Tracks(t, base, tail)
    ensures Tracks(Write(t, op, cur), base, tail + [op])
  {
    var t' := Write(t, op, cur);
    forall i, j | 0 <= i < |t'.parts| && 0 <= j < |base.parts|
      ensures TracksPart(t'.parts[i], base.parts[j], tail + [op])
    {
      assert TracksPart(t.parts[i], base.parts[j], tail);
      if t.parts[i].id == base.parts[j].id {
        WriteTracksPart(t, h, floor, cur, op, i, base.parts[j], tail);
      }
    }
  }

  /** A live version of `key` in a part is the one lookup finds. */
  lemma {:induction false} LiveIsLocated(t: Table, h: seq<Op>, floor: Csn, cur: Csn, key: Value, i: nat, o: nat)
    requires Inv(t, h, floor, cur) && Readable(t.parts)
    requires i < |t.parts| && o < |t.parts[i].rows| && o !in t.parts[i].dv && t.parts[i].rows[o].key == key
    ensures Locate(t, key, cur) == Some(InPart(i, o))
  {
    assert PartOk(t.parts[i], cur);
    assert StampOk(t.parts[i].VersionAt(o), cur);
    LocateComplete(t, key, cur, InPart(i, o));
    OneVisibleVersion(t, h, floor, cur, cur, Locate(t, key, cur).value, InPart(i, o));
  }

  lemma {:induction false} WriteTracksPart(t: Table, h: seq<Op>, floor: Csn, cur: Csn, op: Op, i: nat, base: Part, tail: seq<Op>)
    requires Inv(t, h, floor, cur) && op.csn == cur + 1 < NEVER && Readable(t.parts)
    requires i < |t.parts| && t.parts[i].id == base.id && TracksPart(t.parts[i], base, tail)
    ensures TracksPart(Write(t, op, cur).parts[i], base, tail + [op])
  {
    var p := t.parts[i];
    var loc := Locate(t, op.Key(), cur);
    LocatedIsLive(t, op.Key(), cur);
    forall o | 0 <= o < |p.rows| && o !in p.dv && p.rows[o].key == op.Key() ensures loc == Some(InPart(i, o)) {
      LiveIsLocated(t, h, floor, cur, op.Key(), i, o);
    }
    hide Inv;
    TombstoneTracks(p, base, tail, op, if loc.Some? && loc.value.InPart? && loc.value.part == i then Some(loc.value.ord) else None);
  }

  lemma {:induction false} TombstoneTracks(p: Part, base: Part, tail: seq<Op>, op: Op, hit: Option<nat>)
    requires p.id == base.id && TracksPart(p, base, tail)
    requires hit.Some? ==> hit.value < |p.rows| && hit.value !in p.dv && p.rows[hit.value].key == op.Key()
    requires forall o :: 0 <= o < |p.rows| && o !in p.dv && p.rows[o].key == op.Key() ==> hit == Some(o)
    ensures TracksPart(if hit.Some? then p.(dv := p.dv[hit.value := op.csn]) else p, base, tail + [op])
  {
    hide FirstOf;
    var p' := if hit.Some? then p.(dv := p.dv[hit.value := op.csn]) else p;
    var e := Expected(base, tail + [op]);
    forall o: nat ensures o in p'.dv <==> o in e {
      if o < |base.rows| { FirstOfNext(tail, op, base.rows[o].key); }
    }
    forall o: nat | o in e ensures p'.dv[o] == e[o] {
      FirstOfNext(tail, op, base.rows[o].key);
    }
    assert p'.dv == e;
  }

  lemma {:induction false} FirstOfNext(tail: seq<Op>, op: Op, key: Value)
    ensures FirstOf(tail + [op], key) ==
      if FirstOf(tail, key).None? && key == op.Key() then Some(op.csn) else FirstOf(tail, key)
  {
    assert (tail + [op])[..|tail|] == tail;
  }

  // ---- replay from a clean base --------------------------------------------

  lemma {:induction false} ReplayOpKeeps(t: Table, base: Table, h: seq<Op>, floor: Csn, cur: Csn, tail: seq<Op>, op: Op)
    requires Inv(t, h, floor, cur) && Tracks(t, base, tail) && cur < op.csn < NEVER && Readable(t.parts)
    ensures Inv(t, h, floor, op.csn - 1)
    ensures Inv(ReplayOp(t, op), h + [op], floor, op.csn)
    ensures Tracks(ReplayOp(t, op), base, tail + [op])
  {
    hide Inv;
    hide Tracks;
    TickKeepsInv(t, h, floor, cur, op.csn - 1);
    WriteKeepsInv(t, h, floor, op.csn - 1, op);
    WriteTracks(t, base, h, floor, op.csn - 1, tail, op);
  }

  /** From a clean checkpoint, replay rebuilds exactly the logged history. */
  lemma {:induction false} ReplayFromBase(base: Table, h: seq<Op>, ckpt: Csn, tail: seq<Op>)
    requires Base(base, h, ckpt) && Ascending(tail, ckpt) && Readable(base.parts)
    ensures Inv(Replay(base, tail), h + tail, ckpt, LastOf(tail, ckpt))
    ensures Tracks(Replay(base, tail), base, tail)
  {
    hide Inv;
    hide Tracks;
    hide Write;
    hide Readable;
    if tail == [] {
      BaseTracks(base, h, ckpt);
      assert h + tail == h;
    } else {
      var n := |tail| - 1;
      ReplayFromBase(base, h, ckpt, tail[..n]);
      ReplayOpKeeps(Replay(base, tail[..n]), base, h + tail[..n], ckpt, LastOf(tail[..n], ckpt), tail[..n], tail[n]);
      assert h + tail[..n] + [tail[n]] == h + tail;
      assert tail[..n] + [tail[n]] == tail;
    }
  }

  // ---- replay over parts that already hold later tombstones ----------------

  /** `p` is the checkpointed part `base` plus any subset of the tail's tombstones. */
  ghost predicate Between(p: Part, base: Part, tail: seq<Op>) {
    && p == base.(dv := p.dv)
    && (forall o :: o in base.dv ==> o in p.dv && p.dv[o] == base.dv[o])
    && (forall o :: o in p.dv && o !in base.dv ==>
          o < |base.rows| && FirstOf(tail, base.rows[o].key) == Some(p.dv[o]))
  }

  ghost predicate BetweenAll(parts: seq<Part>, base: seq<Part>, tail: seq<Op>) {
    |parts| == |base| && forall i :: 0 <= i < |base| ==> Between(parts[i], base[i], tail)
  }

  /** `a` is `b` plus tombstones that `rest` is still going to write. */
  ghost predicate Ahead(a: Table, b: Table, rest: seq<Op>) {
    && a.l0 == b.l0 && a.nextPartId == b.nextPartId
    && BetweenAll(a.parts, b.parts, rest)
  }

  /** Tombstones from the future are invisible now, so lookup cannot tell. */
  lemma {:induction false} AheadLocates(a: Table, b: Table, rest: seq<Op>, key: Value, s: Csn)
    requires Ahead(a, b, rest) && Readable(b.parts) && Ascending(rest, s) && s < NEVER
    ensures Readable(a.parts)
    ensures Locate(a, key, s) == Locate(b, key, s)
  {
    forall i | 0 <= i < |b.parts| ensures a.parts[i].stamps.Covers(|a.parts[i].rows|) {
      assert Between(a.parts[i], b.parts[i], rest);
    }
    forall i | 0 <= i < |b.parts| ensures PartLookup(a.parts[i], key, s) == PartLookup(b.parts[i], key, s) {
      assert Between(a.parts[i], b.parts[i], rest);
      SameLookup(a.parts[i], b.parts[i], key, s, 0);
    }
    SamePartsLookup(a.parts, b.parts, key, s, 0);
  }

  lemma {:induction false} SameLookup(p: Part, q: Part, key: Value, s: Csn, from: nat)
    requires p.stamps.Covers(|p.rows|) && q.stamps.Covers(|q.rows|) && p.rows == q.rows && from <= |p.rows|
    requires forall o :: 0 <= o < |p.rows| ==> (p.VersionAt(o).Shows(key, s) <==> q.VersionAt(o).Shows(key, s))
    ensures PartLookup(p, key, s, from) == PartLookup(q, key, s, from)
    decreases |p.rows| - from
  {
  }

  lemma SamePartsLookup(a: seq<Part>, b: seq<Part>, key: Value, s: Csn, from: nat)
    requires Readable(a) && Readable(b) && |a| == |b| && from <= |a|
    requires forall i :: 0 <= i < |a| ==> PartLookup(a[i], key, s) == PartLookup(b[i], key, s)
    ensures PartsLookup(a, key, s, from) == PartsLookup(b, key, s, from)
    decreases |a| - from
  {
  }

  lemma {:induction false} FirstOfFront(op: Op, rest: seq<Op>, key: Value)
    ensures FirstOf([op] + rest, key) == if op.Key() == key then Some(op.csn) else FirstOf(rest, key)
  {
    if rest == [] {
      assert ([op] + rest)[..0] == [];
    } else {
      assert ([op] + rest)[..|rest|] == [op] + rest[..|rest|-1];
      FirstOfFront(op, rest[..|rest|-1], key);
    }
  }

  /** A tombstone the operation writes is already there, or is not: afterwards it is. */
  lemma {:induction false} AheadPart(p: Part, q: Part, op: Op, rest: seq<Op>, hit: Option<nat>)
    requires Between(p, q, [op] + rest)
    requires hit.Some? ==> hit.value < |q.rows| && hit.value !in q.dv && q.rows[hit.value].key == op.Key()
    requires forall o :: 0 <= o < |q.rows| && o !in q.dv && q.rows[o].key == op.Key() ==> hit == Some(o)
    ensures hit.None? ==> Between(p, q, rest)
    ensures hit.Some? ==> Between(p.(dv := MarkDeleted(p.dv, hit.value, op.csn)), q.(dv := MarkDeleted(q.dv, hit.value, op.csn)), rest)
  {
    forall o | 0 <= o < |q.rows| ensures FirstOf([op] + rest, q.rows[o].key)
      == if op.Key() == q.rows[o].key then Some(op.csn) else FirstOf(rest, q.rows[o].key)
    {
      FirstOfFront(op, rest, q.rows[o].key);
    }
  }

  /** Where in part `i`, if there, lookup finds the live version of the operation's key. */
  ghost function Hit(t: Table, op: Op, i: nat): Option<nat>
    requires Readable(t.parts) && 0 < op.csn
  {
    var loc := Locate(t, op.Key(), op.csn - 1);
    if loc.Some? && loc.value.InPart? && loc.value.part == i then Some(loc.value.ord) else None
  }

  lemma {:induction false} HitIsOnlyLive(t: Table, h: seq<Op>, floor: Csn, op: Op, i: nat)
    requires 0 < op.csn < NEVER && Inv(t, h, floor, op.csn - 1) && Readable(t.parts) && i < |t.parts|
    ensures var (q, hit) := (t.parts[i], Hit(t, op, i));
      && (hit.Some? ==> hit.value < |q.rows| && hit.value !in q.dv && q.rows[hit.value].key == op.Key())
      && (forall o :: 0 <= o < |q.rows| && o !in q.dv && q.rows[o].key == op.Key() ==> hit == Some(o))
  {
    LocatedIsLive(t, op.Key(), op.csn - 1);
    var q := t.parts[i];
    forall o | 0 <= o < |q.rows| && o !in q.dv && q.rows[o].key == op.Key() ensures Hit(t, op, i) == Some(o) {
      LiveIsLocated(t, h, floor, op.csn - 1, op.Key(), i, o);
    }
  }

  lemma {:induction false} AheadStep(a: Table, b: Table, h: seq<Op>, floor: Csn, op: Op, rest: seq<Op>)
    requires 0 < op.csn < NEVER && Inv(b, h, floor, op.csn - 1) && Readable(b.parts) && Readable(a.parts)
    requires Ahead(a, b, [op] + rest) && Ascending([op] + rest, op.csn - 1)
    ensures Ahead(ReplayOp(a, op), ReplayOp(b, op), rest)
  {
    hide Inv;
    hide Between;
    hide Ascending;
    AheadLocates(a, b, [op] + rest, op.Key(), op.csn - 1);
    LocatedIsLiveInv(b, h, floor, op.Key(), op.csn - 1);
    forall i | 0 <= i < |b.parts| ensures Between(ReplayOp(a, op).parts[i], ReplayOp(b, op).parts[i], rest) {
      HitIsOnlyLive(b, h, floor, op, i);
      AheadPart(a.parts[i], b.parts[i], op, rest, Hit(b, op, i));
    }
  }

  lemma {:induction false} LocatedIsLiveInv(t: Table, h: seq<Op>, floor: Csn, key: Value, cur: Csn)
    requires Inv(t, h, floor, cur) && Readable(t.parts)
    ensures var r := Locate(t, key, cur); r.Some? ==> VersionIn(t, r.value).deleted == NEVER
  {
    LocatedIsLive(t, key, cur);
  }

  /** Whatever subset of the tail's tombstones the part files already hold,
      loading them and replaying the tail rebuilds the very table that replay
      from the bare checkpoint builds; so a checkpoint may be interrupted after
      any append, and appending again later is harmless. */
  lemma {:induction false} ReplayIdempotent(loaded: Table, base: Table, h: seq<Op>, ckpt: Csn, tail: seq<Op>)
    requires Base(base, h, ckpt) && Ascending(tail, ckpt) && Ahead(loaded, base, tail)
    requires Readable(base.parts) && Readable(loaded.parts)
    ensures Replay(loaded, tail) == Replay(base, tail)
  {
    ReplayAhead(loaded, base, h, ckpt, tail, |tail|);
    assert tail[..|tail|] == tail && tail[|tail|..] == [];
    var (a, b) := (Replay(loaded, tail), Replay(base, tail));
    forall i | 0 <= i < |b.parts| ensures a.parts[i] == b.parts[i] {
      assert Between(a.parts[i], b.parts[i], []);
      assert a.parts[i].dv == b.parts[i].dv;
    }
  }

  lemma {:induction false} ReplayTicked(base: Table, h: seq<Op>, ckpt: Csn, tail: seq<Op>, n: nat)
    requires Base(base, h, ckpt) && Ascending(tail, ckpt) && n < |tail| && Readable(base.parts)
    ensures 0 < tail[n].csn < NEVER && Ascending(tail[n..], tail[n].csn - 1)
    ensures Inv(Replay(base, tail[..n]), h + tail[..n], ckpt, tail[n].csn - 1)
  {
    ReplayFromBase(base, h, ckpt, tail[..n]);
    TickKeepsInv(Replay(base, tail[..n]), h + tail[..n], ckpt, LastOf(tail[..n], ckpt), tail[n].csn - 1);
  }

  lemma {:induction false} ReplayAhead(loaded: Table, base: Table, h: seq<Op>, ckpt: Csn, tail: seq<Op>, n: nat)
    requires Base(base, h, ckpt) && Ascending(tail, ckpt) && Ahead(loaded, base, tail) && n <= |tail|
    requires Readable(base.parts) && Readable(loaded.parts)
    ensures Ahead(Replay(loaded, tail[..n]), Replay(base, tail[..n]), tail[n..])
    decreases n
  {
    hide Inv;
    hide Ahead;
    hide Ascending;
    if n == 0 {
      assert tail[0..] == tail;
    } else {
      var before := tail[..n-1];
      assert tail[..n][..n-1] == before;
      assert tail[n-1..] == [tail[n-1]] + tail[n..];
      ReplayAhead(loaded, base, h, ckpt, tail, n - 1);
      ReplayTicked(base, h, ckpt, tail, n - 1);
      AheadStep(Replay(loaded, before), Replay(base, before), h + before, ckpt, tail[n-1], tail[n..]);
    }
  }
}
