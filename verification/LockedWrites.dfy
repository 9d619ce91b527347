/** Inside a write. A write call holds the table lock from its lookup to its last
    change, but the clock, pins, horizons and the lock-free half of a merge (its
    start stamp and its captures) go on meanwhile (src/table.rs:247-308, 452-475,
    src/compaction.rs:107-131). */
module LockedWrites {
  import opened Bags
  import opened Sorting
  import opened Values
  import opened Wrappers
  import opened Mvcc
  import opened Compaction
  import opened Protocol

  // ---- the finer step system -----------------------------------------------

  /** A writer that has looked its key up at `seen`, or has also taken its stamp. */
  datatype Writer =
    | Located(call: Call, seen: Csn)
    | Stamped(op: Op, loc: Option<Loc>, struck: bool)

  /** A table, and who holds its lock. */
  datatype Shared = Shared(base: State, writer: Option<Writer>)

  const BEGIN: Shared := Shared(START, None)

  datatype Move =
    | Lock(call: Call)           // take the lock, look the key up at the clock
    | Allocate                   // take the stamp
    | Strike                     // tombstone the old version
    | Finish(threshold: nat)     // buffer the new version, seal if due, release the lock
    | Free(step: Step)           // anything else

  /** What needs no lock of the table. */
  predicate LockFree(step: Step) {
    step.OtherTable? || step.Pin? || step.Release? || step.AskHorizon? || step.StampStart? || step.Capture?
  }

  /** The tests a call makes on its lookup; a call that fails them changes nothing. */
  predicate Admitted(t: Table, cur: Csn, call: Call)
    requires Readable(t.parts)
  {
    var loc := Locate(t, call.Key(), cur);
    (call.Insert? ==> loc.None?) && (call.Update? || call.Delete? ==> loc.Some?)
  }

  ghost predicate Allowed(w: Shared, move: Move) {
    && Readable(w.base.t.parts)
    && match move
       case Lock(call) => w.writer.None? && Admitted(w.base.t, w.base.cur, call)
       case Allocate => w.writer.Some? && w.writer.value.Located? && w.base.cur + 1 < NEVER
       case Strike => w.writer.Some? && w.writer.value.Stamped? && !w.writer.value.struck
         && w.writer.value.loc.Some? && ValidLoc(w.base.t, w.writer.value.loc.value)
       case Finish(_) => w.writer.Some? && w.writer.value.Stamped? && (w.writer.value.loc.Some? ==> w.writer.value.struck)
       case Free(step) => !step.Call? && Enabled(w.base, step) && (w.writer.Some? ==> LockFree(step))
  }

  function Buffered(t: Table, op: Op): Table { if op.Put? then Buffer(t, op.row, op.csn) else t }

  ghost function Next(w: Shared, move: Move): Shared
    requires Allowed(w, move)
  {
    match move
    case Lock(call) => w.(writer := Some(Located(call, w.base.cur)))
    case Allocate =>
      var Located(call, seen) := w.writer.value;
      Shared(w.base.(cur := w.base.cur + 1),
             Some(Stamped(call.AsOp(w.base.cur + 1), Locate(w.base.t, call.Key(), seen), false)))
    case Strike =>
      var p := w.writer.value;
      Shared(w.base.(t := Tombstone(w.base.t, p.loc.value, p.op.csn)), Some(p.(struck := true)))
    case Finish(threshold) =>
      var op := w.writer.value.op;
      var t := Buffered(w.base.t, op);
      Shared(w.base.(t := if op.Put? then MaybeSeal(t, threshold) else t, h := w.base.h + [op]), None)
    case Free(step) => w.(base := After(w.base, step))
  }

  // ---- the write as if done ------------------------------------------------

  predicate Pending(w: Shared) { w.writer.Some? && w.writer.value.Stamped? }

  predicate Unstruck(w: Shared) { Pending(w) && w.writer.value.loc.Some? && !w.writer.value.struck }

  ghost predicate PlaceOk(w: Shared) { Unstruck(w) ==> ValidLoc(w.base.t, w.writer.value.loc.value) }

  ghost function StruckTable(w: Shared): Table
    requires PlaceOk(w)
  {
    if Unstruck(w) then Tombstone(w.base.t, w.writer.value.loc.value, w.writer.value.op.csn) else w.base.t
  }

  /** The state with a stamped write completed. */
  ghost function Done(w: Shared): State
    requires PlaceOk(w)
  {
    if !Pending(w) then w.base
    else w.base.(t := Buffered(StruckTable(w), w.writer.value.op), h := w.base.h + [w.writer.value.op])
  }

  /** The version to strike is alive, and nothing has touched the table since the lookup. */
  ghost predicate WriterOk(w: Shared) {
    && (Unstruck(w) ==>
         var p := w.writer.value;
         ValidLoc(w.base.t, p.loc.value) && VersionIn(w.base.t, p.loc.value).deleted == NEVER
         && VersionIn(w.base.t, p.loc.value).created < p.op.csn
         && (p.loc.value.InPart? ==> p.loc.value.ord !in w.base.t.parts[p.loc.value.part].dv))
    && (Pending(w) ==> w.writer.value.op.csn <= w.base.cur)
    && (w.writer.Some? && w.writer.value.Located? ==>
         Shape(w.base.t, w.writer.value.seen) && w.writer.value.seen <= w.base.cur
         && Readable(w.base.t.parts) && Admitted(w.base.t, w.writer.value.seen, w.writer.value.call))
  }

  /** The invariant: with the write completed, the state is a good one. */
  ghost predicate Fine(w: Shared) { WriterOk(w) && Good(Done(w)) }

  /** The race: a merge that began at or after a write's stamp captures the part of
      the version that write has still to strike, and all its sources are there. */
  ghost predicate Races(w: Shared, move: Move) {
    && Allowed(w, move) && move.Free? && move.step.Capture? && Unstruck(w) && WriterOk(w)
    && var (loc, m) := (w.writer.value.loc.value, w.base.merges[move.step.mid]);
       && loc.InPart? && m.sources[|m.stage.caps|].id == w.base.t.parts[loc.part].id
       && w.writer.value.op.csn <= m.stage.startedAt && Here(w.base.t.parts, m.sources)
  }

  // ---- every step but that one ---------------------------------------------

  lemma {:induction false} TombstoneReadable(t: Table, loc: Loc, csn: Csn)
    requires ValidLoc(t, loc)
    ensures Readable(Tombstone(t, loc, csn).parts) <==> Readable(t.parts)
  {
    var t' := Tombstone(t, loc, csn);
    if loc.InPart? {
      assert forall i :: 0 <= i < |t.parts| ==> t'.parts[i].rows == t.parts[i].rows && t'.parts[i].stamps == t.parts[i].stamps;
    }
  }

  lemma {:induction false} FineReadable(w: Shared)
    requires Fine(w)
    ensures Readable(w.base.t.parts)
  {
    GoodReadable(Done(w));
    if Unstruck(w) { TombstoneReadable(w.base.t, w.writer.value.loc.value, w.writer.value.op.csn); }
  }

  // The lookup made under the lock stays right however far the clock moves on.

  lemma {:induction false} LookupLater(l0: seq<Version>, key: Value, a: Csn, b: Csn)
    requires forall i :: 0 <= i < |l0| ==> (l0[i].VisibleTo(a) <==> l0[i].VisibleTo(b))
    ensures L0Lookup(l0, key, a) == L0Lookup(l0, key, b)
  {
    if l0 != [] { LookupLater(l0[..|l0|-1], key, a, b); }
  }

  lemma {:induction false} PartLookupLater(p: Part, key: Value, a: Csn, b: Csn, from: nat)
    requires p.stamps.Covers(|p.rows|) && from <= |p.rows|
    requires forall i :: 0 <= i < |p.rows| ==> (p.VersionAt(i).VisibleTo(a) <==> p.VersionAt(i).VisibleTo(b))
    ensures PartLookup(p, key, a, from) == PartLookup(p, key, b, from)
    decreases |p.rows| - from
  {
    if from < |p.rows| { PartLookupLater(p, key, a, b, from + 1); }
  }

  lemma {:induction false} PartsLookupLater(parts: seq<Part>, key: Value, a: Csn, b: Csn, from: nat)
    requires Readable(parts) && from <= |parts|
    requires forall k, i :: 0 <= k < |parts| && 0 <= i < |parts[k].rows| ==> (parts[k].VersionAt(i).VisibleTo(a) <==> parts[k].VersionAt(i).VisibleTo(b))
    ensures PartsLookup(parts, key, a, from) == PartsLookup(parts, key, b, from)
    decreases |parts| - from
  {
    if from < |parts| {
      PartLookupLater(parts[from], key, a, b, 0);
      PartsLookupLater(parts, key, a, b, from + 1);
    }
  }

  lemma {:induction false} LocateLater(t: Table, key: Value, seen: Csn, cur: Csn)
    requires Shape(t, seen) && seen <= cur < NEVER && Readable(t.parts)
    ensures Locate(t, key, seen) == Locate(t, key, cur)
  {
    LookupLater(t.l0, key, seen, cur) by {
      forall i | 0 <= i < |t.l0| ensures t.l0[i].VisibleTo(seen) <==> t.l0[i].VisibleTo(cur) { assert StampOk(t.l0[i], seen); }
    }
    forall k, i | 0 <= k < |t.parts| && 0 <= i < |t.parts[k].rows|
      ensures t.parts[k].VersionAt(i).VisibleTo(seen) <==> t.parts[k].VersionAt(i).VisibleTo(cur)
    {
      assert PartOk(t.parts[k], seen);
      assert StampOk(t.parts[k].VersionAt(i), seen);
    }
    PartsLookupLater(t.parts, key, seen, cur, 0);
  }

  // Taking the stamp is, seen with the write completed, the whole write at once.

  lemma {:induction false} AllocateDone(w: Shared)
    requires Fine(w) && Allowed(w, Allocate)
    ensures PlaceOk(Next(w, Allocate))
    ensures Done(Next(w, Allocate)) == After(w.base, Step.Call(w.writer.value.call, |w.base.t.l0| + 2))
    ensures WriterOk(Next(w, Allocate))
  {
    hide Good;
    hide Inv;
    var (t, cur, call) := (w.base.t, w.base.cur, w.writer.value.call);
    ShapeNow(w.base);
    LocateLater(t, call.Key(), w.writer.value.seen, cur);
    LocatedIsLive(t, call.Key(), cur);
    hide Locate;
    hide Shape;
    var loc := Locate(t, call.Key(), cur);
    if loc.Some? { assert |Tombstone(t, loc.value, cur + 1).l0| == |t.l0|; }
  }

  lemma {:induction false} ShapeNow(s: State)
    requires Good(s)
    ensures Shape(s.t, s.cur) && s.cur < NEVER
  {
  }

  lemma {:induction false} AllocateFine(w: Shared)
    requires Fine(w) && Allowed(w, Allocate)
    ensures Fine(Next(w, Allocate))
  {
    AllocateDone(w);
    hide Next;
    hide Good;
    hide WriterOk;
    CallKeepsGood(w.base, w.writer.value.call, |w.base.t.l0| + 2);
  }

  lemma {:induction false} LockFine(w: Shared, call: Call)
    requires Fine(w) && Allowed(w, Lock(call))
    ensures Fine(Next(w, Lock(call)))
  {
    ShapeNow(w.base);
    hide Good;
    hide Shape;
    hide Admitted;
  }

  lemma {:induction false} StrikeFine(w: Shared)
    requires Fine(w) && Allowed(w, Strike)
    ensures Fine(Next(w, Strike)) && Done(Next(w, Strike)) == Done(w)
  {
    hide Good;
    hide Tombstone;
  }

  lemma {:induction false} FinishDone(w: Shared, threshold: nat)
    requires Fine(w) && Allowed(w, Finish(threshold))
    ensures var (d, e) := (Done(w), Done(Next(w, Finish(threshold))));
      e == d || e == d.(t := Seal(d.t))
  {
    hide Good;
    hide Seal;
    hide Buffer;
  }

  lemma {:induction false} FinishFine(w: Shared, threshold: nat)
    requires Fine(w) && Allowed(w, Finish(threshold))
    ensures Fine(Next(w, Finish(threshold)))
  {
    FinishDone(w, threshold);
    hide Next;
    hide Good;
    hide Seal;
    GoodReadable(Done(w));
    if Done(Next(w, Finish(threshold))) != Done(w) { SealKeepsGood(Done(w)); }
    assert Next(w, Finish(threshold)).writer.None? by { FinishFrees(w, threshold); }
  }

  lemma {:induction false} FinishFrees(w: Shared, threshold: nat)
    requires Allowed(w, Finish(threshold))
    ensures Next(w, Finish(threshold)).writer.None?
  {
  }

  /** A step that needs no lock and captures nothing is the same step on the completed write. */
  lemma {:induction false} LockFreeDone(w: Shared, step: Step)
    requires Fine(w) && Allowed(w, Free(step)) && w.writer.Some? && !step.Capture?
    ensures Readable(Done(w).t.parts) && Enabled(Done(w), step)
    ensures PlaceOk(Next(w, Free(step))) && Done(Next(w, Free(step))) == After(Done(w), step) && WriterOk(Next(w, Free(step)))
  {
    GoodReadable(Done(w));
    hide Good;
    hide StruckTable;
    hide Shape;
    hide Admitted;
    hide GcHorizon;
  }

  /** And so is a capture, as long as it does not see the version still to strike. */
  lemma {:induction false} CaptureDone(w: Shared, mid: nat, retired: Dv)
    requires Fine(w) && Allowed(w, Free(Capture(mid, retired))) && w.writer.Some?
    ensures Readable(Done(w).t.parts) && Enabled(Done(w), Capture(mid, retired))
    ensures var (w', g) := (Next(w, Free(Capture(mid, retired))), w.base.merges[mid]);
      var src := g.sources[|g.stage.caps|];
      && PlaceOk(w') && WriterOk(w')
      && Done(w') == Done(w).(merges := w.base.merges[mid := g.(stage := g.stage.(caps := g.stage.caps + [CaptureOf(w.base.t.parts, src, retired)]))])
  {
    GoodReadable(Done(w));
    hide Good;
    hide StruckTable;
    hide Shape;
    hide Admitted;
    hide CaptureOf;
  }

  /** The part list of the completed write, when an old version in a part is still to strike. */
  lemma {:induction false} DoneParts(w: Shared)
    requires Fine(w)
    ensures UniqueIds(w.base.t.parts)
    ensures !(Unstruck(w) && w.writer.value.loc.value.InPart?) ==> Done(w).t.parts == w.base.t.parts
    ensures Unstruck(w) && w.writer.value.loc.value.InPart? ==>
      var p := w.writer.value;
      Done(w).t.parts == Struck(w.base.t.parts, p.loc.value.part, p.loc.value.ord, p.op.csn)
  {
    UniqueFromInv(Done(w).t, Done(w).h, Done(w).floor, Done(w).cur);
    hide Good;
    if Unstruck(w) && w.writer.value.loc.value.InPart? {
      var parts := Done(w).t.parts;
      assert forall i :: 0 <= i < |parts| ==> parts[i].id == w.base.t.parts[i].id;
    }
  }

  lemma {:induction false} DoneMerge(w: Shared, mid: nat)
    requires Fine(w) && mid in w.base.merges
    ensures MergeOk(Done(w), w.base.merges[mid]) && IdsApart(w.base.merges)
  {
    assert Done(w).merges == w.base.merges;
  }

  /** A tombstone after the merge's start may be missed by a capture. */
  lemma {:induction false} MissedLater(parts: seq<Part>, i: nat, ord: nat, csn: Csn, src: Part, startedAt: Csn)
    requires UniqueIds(parts) && i < |parts| && ord !in parts[i].dv && csn < NEVER && startedAt < csn
    requires SameRows(src, parts[i])
    ensures CapturedOne(Struck(parts, i, ord, csn), src, parts[i].dv, startedAt)
  {
    StruckHolds(parts, i, ord, csn, src.id);
  }

  lemma {:induction false} CaptureSeen(w: Shared, mid: nat, retired: Dv)
    requires Fine(w) && Allowed(w, Free(Capture(mid, retired))) && w.writer.Some? && !Races(w, Free(Capture(mid, retired)))
    ensures var g := w.base.merges[mid];
      var src := g.sources[|g.stage.caps|];
      Here(Done(w).t.parts, g.sources) ==> CapturedOne(Done(w).t.parts, src, CaptureOf(w.base.t.parts, src, retired), g.stage.startedAt)
  {
    var g := w.base.merges[mid];
    var src := g.sources[|g.stage.caps|];
    DoneParts(w);
    DoneMerge(w, mid);
    assert SourceOk(Done(w).t, src);
    FreshCapture(Done(w).t, src, retired, g.stage.startedAt);
    if Unstruck(w) && w.writer.value.loc.value.InPart? {
      var Stamped(op, loc, _) := w.writer.value;
      var (parts, i, ord) := (w.base.t.parts, loc.value.part, loc.value.ord);
      ShapeNow(Done(w));
      hide Good;
      forall id ensures Holds(Struck(parts, i, ord, op.csn), id) == Holds(parts, id) { StruckHolds(parts, i, ord, op.csn, id); }
      StruckHolds(parts, i, ord, op.csn, src.id);
      if src.id == parts[i].id && Here(parts, g.sources) {
        MissedLater(parts, i, ord, op.csn, src, g.stage.startedAt);
      }
    }
  }

  lemma {:induction false} CaptureFine(w: Shared, mid: nat, retired: Dv)
    requires Fine(w) && Allowed(w, Free(Capture(mid, retired))) && w.writer.Some? && !Races(w, Free(Capture(mid, retired)))
    ensures Fine(Next(w, Free(Capture(mid, retired))))
  {
    CaptureDone(w, mid, retired);
    CaptureSeen(w, mid, retired);
    DoneMerge(w, mid);
    hide Next;
    hide Good;
    hide CaptureOf;
    hide Races;
    hide WriterOk;
    var g := w.base.merges[mid];
    CaptureTaken(Done(w), mid, CaptureOf(w.base.t.parts, g.sources[|g.stage.caps|], retired));
  }

  /** Every step but the race keeps the invariant. */
  lemma {:induction false} MoveKeepsFine(w: Shared, move: Move)
    requires Fine(w) && Allowed(w, move) && !Races(w, move)
    ensures Fine(Next(w, move))
  {
    match move
    case Lock(call) => LockFine(w, call);
    case Allocate => AllocateFine(w);
    case Strike => StrikeFine(w);
    case Finish(threshold) => FinishFine(w, threshold);
    case Free(step) =>
      if w.writer.None? {
        StepKeepsGood(w.base, step);
      } else if step.Capture? {
        CaptureFine(w, step.mid, step.retired);
      } else {
        LockFreeDone(w, step);
        hide Next;
        hide Good;
        hide WriterOk;
        StepKeepsGood(Done(w), step);
      }
  }

  // ---- every run -----------------------------------------------------------

  /** A run of the finer system without the race. */
  ghost predicate IsCalm(run: seq<Shared>, moves: seq<Move>) {
    && |run| == |moves| + 1 && run[0] == BEGIN
    && forall i :: 0 <= i < |moves| ==> Allowed(run[i], moves[i]) && !Races(run[i], moves[i]) && run[i+1] == Next(run[i], moves[i])
  }

  lemma {:induction false} BeginFine()
    ensures Fine(BEGIN)
  {
    StartGood();
  }

  lemma {:induction false} CalmFine(run: seq<Shared>, moves: seq<Move>, i: nat)
    requires IsCalm(run, moves) && i < |run|
    ensures Fine(run[i])
  {
    hide Fine;
    hide Next;
    hide Allowed;
    hide Races;
    if i == 0 {
      BeginFine();
    } else {
      CalmFine(run, moves, i - 1);
      MoveKeepsFine(run[i-1], moves[i-1]);
    }
  }

  /** In every such run, whenever the lock is free, every snapshot from the floor up
      reads what the history says. */
  lemma {:induction false} CalmReads(run: seq<Shared>, moves: seq<Move>, i: nat, snap: Csn)
    requires IsCalm(run, moves) && i < |run| && run[i].writer.None? && run[i].base.floor <= snap < NEVER
    ensures Agrees(run[i].base.t, run[i].base.h, snap)
  {
    CalmFine(run, moves, i);
  }

  lemma {:induction false} MoveKeepsPast(w: Shared, move: Move, pin: Csn)
    requires Fine(w) && Allowed(w, move) && pin <= w.base.cur && PlaceOk(Next(w, move))
    ensures At(Done(Next(w, move)).h, pin) == At(Done(w).h, pin)
    ensures w.base.cur <= Next(w, move).base.cur
  {
    hide Good;
    hide Inv;
    hide At;
    hide WriterOk;
    if move.Allocate? { AtExtended(w.base.h, w.writer.value.call.AsOp(w.base.cur + 1), pin); }
  }

  lemma {:induction false} PinsUpToNow(w: Shared, pin: Csn)
    requires Fine(w) && pin in w.base.pins
    ensures pin <= w.base.cur && w.base.floor <= pin < NEVER
  {
    ShapeNow(Done(w));
    assert Done(w).pins == w.base.pins;
  }

  lemma {:induction false} FinePlaced(w: Shared)
    requires Fine(w)
    ensures PlaceOk(w)
  {
  }

  lemma {:induction false} PastKept(run: seq<Shared>, moves: seq<Move>, i: nat, j: nat, pin: Csn)
    requires IsCalm(run, moves) && i <= j < |run| && forall k :: i <= k <= j ==> pin in run[k].base.pins
    ensures PlaceOk(run[i]) && PlaceOk(run[j]) && At(Done(run[j]).h, pin) == At(Done(run[i]).h, pin)
    decreases j
  {
    hide Fine;
    hide PlaceOk;
    hide Allowed;
    hide Races;
    hide Next;
    hide At;
    hide Done;
    CalmFine(run, moves, j);
    FinePlaced(run[j]);
    if i < j {
      PastKept(run, moves, i, j - 1, pin);
      CalmFine(run, moves, j - 1);
      PinsUpToNow(run[j-1], pin);
      MoveKeepsPast(run[j-1], moves[j-1], pin);
    }
  }

  /** And a pinned snapshot reads the same rows whenever it can read at all, whatever
      happens inside and around the writes. */
  lemma {:induction false} PinnedThroughWrites(run: seq<Shared>, moves: seq<Move>, i: nat, j: nat, pin: Csn)
    requires IsCalm(run, moves) && i <= j < |run| && forall k :: i <= k <= j ==> pin in run[k].base.pins
    requires run[i].writer.None? && run[j].writer.None?
    ensures TableRows(run[j].base.t, pin) == TableRows(run[i].base.t, pin)
  {
    PastKept(run, moves, i, j, pin);
    CalmFine(run, moves, i);
    CalmFine(run, moves, j);
    PinsUpToNow(run[i], pin);
    PinsUpToNow(run[j], pin);
    CalmReads(run, moves, i, pin);
    CalmReads(run, moves, j, pin);
    hide Fine;
    hide At;
    hide TableRows;
  }

  // ---- the race loses rows -------------------------------------------------

  ghost predicate Calm(w: Shared, moves: seq<Move>)
    decreases |moves|
  {
    moves != [] ==> Allowed(w, moves[0]) && !Races(w, moves[0]) && Calm(Next(w, moves[0]), moves[1..])
  }

  ghost function Moves(w: Shared, moves: seq<Move>): Shared
    requires Calm(w, moves)
    decreases |moves|
  {
    if moves == [] then w else Moves(Next(w, moves[0]), moves[1..])
  }

  lemma {:induction false} CalmKeepsFine(w: Shared, moves: seq<Move>)
    requires Fine(w) && Calm(w, moves)
    ensures Fine(Moves(w, moves))
    decreases |moves|
  {
    hide Fine;
    hide Next;
    hide Allowed;
    hide Races;
    if moves != [] {
      MoveKeepsFine(w, moves[0]);
      CalmKeepsFine(Next(w, moves[0]), moves[1..]);
    }
  }

  /** The lock is free and the table's present rows are not the history's. */
  ghost predicate Wrong(w: Shared) { w.writer.None? && !Agrees(w.base.t, w.base.h, w.base.cur) }

  ghost predicate CanGoWrong(w: Shared) { exists moves :: Calm(w, moves) && Wrong(Moves(w, moves)) }

  lemma {:induction false} FineNotWrong(w: Shared)
    requires Fine(w)
    ensures !Wrong(w)
  {
  }

  lemma {:induction false} Then(w: Shared, move: Move, rest: seq<Move>)
    requires Allowed(w, move) && !Races(w, move) && Calm(Next(w, move), rest)
    ensures Calm(w, [move] + rest) && Moves(w, [move] + rest) == Moves(Next(w, move), rest)
  {
    hide Allowed;
    hide Races;
    hide Next;
    assert ([move] + rest)[1..] == rest;
  }

  /** The vectors the remaining sources have now. */
  ghost function RestCaps(parts: seq<Part>, sources: seq<Part>, n: nat): (r: seq<Dv>)
    requires n <= |sources| && Here(parts, sources)
    ensures |r| == |sources| - n
    ensures forall k :: n <= k < |sources| ==> r[k - n] == parts[Holds(parts, sources[k].id).value].dv
    decreases |sources| - n
  {
    if n == |sources| then [] else [parts[Holds(parts, sources[n].id).value].dv] + RestCaps(parts, sources, n + 1)
  }

  ghost predicate Filling(s: State, mid: nat) {
    && mid in s.merges && s.merges[mid].stage.Running? && |s.merges[mid].stage.caps| <= |s.merges[mid].sources|
    && Here(s.t.parts, s.merges[mid].sources)
  }

  ghost function Filled(s: State, mid: nat): State
    requires Filling(s, mid)
  {
    var g := s.merges[mid];
    s.(merges := s.merges[mid := g.(stage := g.stage.(caps := g.stage.caps + RestCaps(s.t.parts, g.sources, |g.stage.caps|)))])
  }

  /** With the lock free, a merge can take in all it still has to. */
  lemma {:induction false} FillUp(w: Shared, mid: nat) returns (moves: seq<Move>)
    requires w.writer.None? && Readable(w.base.t.parts) && Filling(w.base, mid)
    ensures Calm(w, moves) && Moves(w, moves) == w.(base := Filled(w.base, mid))
    decreases |w.base.merges[mid].sources| - |w.base.merges[mid].stage.caps|
  {
    hide Holds;
    var g := w.base.merges[mid];
    if |g.stage.caps| == |g.sources| {
      moves := [];
      assert g.stage.caps + [] == g.stage.caps;
      assert w.base.merges[mid := g] == w.base.merges;
    } else {
      var move := Free(Capture(mid, map[]));
      var w' := Next(w, move);
      AfterCapture(w.base, mid, map[]);
      var g' := w'.base.merges[mid];
      var rest := FillUp(w', mid);
      assert g'.stage.caps + RestCaps(w.base.t.parts, g.sources, |g'.stage.caps|) == g.stage.caps + RestCaps(w.base.t.parts, g.sources, |g.stage.caps|);
      assert Filled(w'.base, mid) == Filled(w.base, mid);
      Then(w, move, rest);
      moves := [move] + rest;
    }
  }

  /** After the race: the strike and the end of the write, the merge's remaining captures. */
  ghost predicate RacedState(w: Shared, mid: nat) {
    && Fine(w) && mid in w.base.merges && Unstruck(w) && Readable(w.base.t.parts)
    && var (g, p) := (w.base.merges[mid], w.writer.value);
       && g.stage.Running? && |g.stage.caps| < |g.sources| && p.loc.value.InPart?
       && g.sources[|g.stage.caps|].id == w.base.t.parts[p.loc.value.part].id
       && p.op.csn <= g.stage.startedAt && Here(w.base.t.parts, g.sources)
  }

  lemma {:induction false} RaceMeans(w: Shared, mid: nat, retired: Dv)
    requires Fine(w) && Races(w, Free(Capture(mid, retired)))
    ensures RacedState(w, mid)
    ensures var (w', p) := (Next(w, Free(Capture(mid, retired))), w.writer.value);
      && w' == w.(base := w.base.(merges := w'.base.merges)) && mid in w'.base.merges
      && w'.base.merges[mid] == Raced(w, mid)
  {
    hide Fine;
    hide WriterOk;
    hide Holds;
    AfterCapture(w.base, mid, retired);
    var g := w.base.merges[mid];
    var n := |g.stage.caps|;
    assert Holds(w.base.t.parts, g.sources[n].id).Some?;
  }

  /** The merge once it has taken in the vector without the tombstone. */
  ghost function Raced(w: Shared, mid: nat): Merge
    requires RacedState(w, mid)
  {
    var g := w.base.merges[mid];
    g.(stage := g.stage.(caps := g.stage.caps + [w.base.t.parts[Holds(w.base.t.parts, g.sources[|g.stage.caps|].id).value].dv]))
  }

  lemma {:induction false} StruckPlace(w: Shared, mid: nat)
    requires RacedState(w, mid)
    ensures var p := w.writer.value;
      && UniqueIds(w.base.t.parts) && p.loc.value.part < |w.base.t.parts|
      && Done(w).t.parts == Struck(w.base.t.parts, p.loc.value.part, p.loc.value.ord, p.op.csn)
      && MergeOk(Done(w), w.base.merges[mid])
  {
    DoneParts(w);
    DoneMerge(w, mid);
    hide Good;
  }

  /** A part that is not struck is captured the same with the strike and without. */
  lemma {:induction false} CapturedAside(parts: seq<Part>, i: nat, ord: nat, csn: Csn, src: Part, cap: Dv, startedAt: Csn)
    requires UniqueIds(parts) && i < |parts| && src.id != parts[i].id
    ensures CapturedOne(Struck(parts, i, ord, csn), src, cap, startedAt) <==> CapturedOne(parts, src, cap, startedAt)
  {
    StruckHolds(parts, i, ord, csn, src.id);
  }

  /** Its vector as it is now, of a part with the same rows, misses nothing. */
  lemma {:induction false} CapturedNow(parts: seq<Part>, i: nat, ord: nat, csn: Csn, src: Part, startedAt: Csn)
    requires UniqueIds(parts) && i < |parts| && Holds(parts, src.id).Some?
    requires SameRows(src, Struck(parts, i, ord, csn)[Holds(parts, src.id).value])
    ensures CapturedOne(parts, src, parts[Holds(parts, src.id).value].dv, startedAt)
    ensures src.id != parts[i].id ==> Struck(parts, i, ord, csn)[Holds(parts, src.id).value].dv == parts[Holds(parts, src.id).value].dv
  {
    StruckHolds(parts, i, ord, csn, src.id);
  }

  /** Everything the merge has captured in the end is what it would have captured
      had the write not been there at all. */
  lemma {:induction false} AllCaptured(w: Shared, mid: nat)
    requires RacedState(w, mid)
    ensures var (g, p) := (w.base.merges[mid], w.writer.value);
      var after := Struck(w.base.t.parts, p.loc.value.part, p.loc.value.ord, p.op.csn);
      && Here(after, g.sources)
      && Captured(w.base.t.parts, g.sources, Raced(w, mid).stage.caps + RestCaps(after, g.sources, |g.stage.caps| + 1), g.stage.startedAt)
  {
    hide Fine;
    hide Done;
    hide CapturedOne;
    hide SameRows;
    FinePlaced(w);
    StruckPlace(w, mid);
    var (g, p) := (w.base.merges[mid], w.writer.value);
    var (parts, i, ord, csn) := (w.base.t.parts, p.loc.value.part, p.loc.value.ord, p.op.csn);
    var after := Struck(parts, i, ord, csn);
    var n := |g.stage.caps|;
    forall id ensures Holds(after, id) == Holds(parts, id) { StruckHolds(parts, i, ord, csn, id); }
    hide Holds;
    var caps := Raced(w, mid).stage.caps + RestCaps(after, g.sources, n + 1);
    forall k | 0 <= k < |g.sources| ensures CapturedOne(parts, g.sources[k], caps[k], g.stage.startedAt) {
      assert SourceOk(Done(w).t, g.sources[k]);
      CapturedNow(parts, i, ord, csn, g.sources[k], g.stage.startedAt);
      if k != n { CapturedAside(parts, i, ord, csn, g.sources[k], caps[k], g.stage.startedAt); }
    }
  }

  /** The merge with everything captured, just before its install. */
  ghost function Complete(w: Shared, mid: nat): Merge
    requires RacedState(w, mid)
    requires Here(Done(w).t.parts, w.base.merges[mid].sources)
  {
    var g := Raced(w, mid);
    g.(stage := g.stage.(caps := g.stage.caps + RestCaps(Done(w).t.parts, g.sources, |g.stage.caps|)))
  }

  lemma {:induction false} SourcesReadable(w: Shared, mid: nat)
    requires RacedState(w, mid)
    ensures Readable(w.base.merges[mid].sources) && UniqueIds(w.base.merges[mid].sources)
    ensures w.base.merges[mid].horizon <= w.base.cur
  {
    DoneMerge(w, mid);
    forall i | 0 <= i < |w.base.merges[mid].sources| ensures w.base.merges[mid].sources[i].stamps.Covers(|w.base.merges[mid].sources[i].rows|) {
      assert SourceOk(Done(w).t, w.base.merges[mid].sources[i]);
    }
  }

  /** The row still to strike, and its place. */
  lemma {:induction false} StruckFacts(w: Shared, mid: nat)
    requires RacedState(w, mid)
    ensures var p := w.writer.value;
      var (parts, i, ord) := (w.base.t.parts, p.loc.value.part, p.loc.value.ord);
      && UniqueIds(parts) && i < |parts| && parts[i].stamps.Covers(|parts[i].rows|) && ord < |parts[i].rows| && ord !in parts[i].dv
      && parts[i].stamps.At(ord) <= p.op.csn <= w.base.cur < NEVER
      && Done(w).t.parts == Struck(parts, i, ord, p.op.csn)
      && Agrees(Done(w).t, Done(w).h, w.base.cur)
      && Here(Done(w).t.parts, w.base.merges[mid].sources)
  {
    DoneParts(w);
    ShapeNow(Done(w));
    AllCaptured(w, mid);
    NowAgrees(Done(w));
    hide Good;
  }

  lemma {:induction false} NowAgrees(s: State)
    requires Good(s)
    ensures Agrees(s.t, s.h, s.cur)
  {
  }

  /** The install brings the struck row back. */
  lemma {:induction false} InstallAddsRow(w: Shared, mid: nat)
    requires RacedState(w, mid)
    requires Here(Done(w).t.parts, w.base.merges[mid].sources) && Readable(w.base.merges[mid].sources)
    ensures var (g, p) := (Complete(w, mid), w.writer.value);
      && g.Ready()
      && SumOver(ApplyPlan(Done(w).t.parts, g.Plan()), PartVis(w.base.cur))
           == SumOver(Done(w).t.parts, PartVis(w.base.cur)) + multiset{w.base.t.parts[p.loc.value.part].rows[p.loc.value.ord]}
  {
    StruckFacts(w, mid);
    SourcesReadable(w, mid);
    AllCaptured(w, mid);
    var (g, p) := (Complete(w, mid), w.writer.value);
    var (parts, i, ord) := (w.base.t.parts, p.loc.value.part, p.loc.value.ord);
    var n := |w.base.merges[mid].stage.caps|;
    assert IdsOf(g.sources)[n] == parts[i].id;
    hide Fine;
    hide Captured;
    hide Done;
    hide PlanMerge;
    hide ApplyPlan;
    hide SumOver;
    hide UniqueIds;
    assert AllPresent(parts, IdsOf(g.sources)) by { AllFound(parts, g.sources); }
    PlanIds(g.sources, g.stage.caps, g.stage.newId, g.horizon, g.stage.startedAt);
    LateTombstone(parts, g.sources, g.stage.caps, g.stage.newId, g.horizon, g.stage.startedAt, i, ord, p.op.csn, w.base.cur);
  }

  lemma {:induction false} AllFound(parts: seq<Part>, sources: seq<Part>)
    requires Here(parts, sources)
    ensures AllPresent(parts, IdsOf(sources))
  {
    forall id | id in IdsOf(sources) ensures Holds(parts, id).Some? {
      var i :| 0 <= i < |sources| && IdsOf(sources)[i] == id;
      assert Holds(parts, sources[i].id).Some?;
    }
  }

  lemma {:induction false} InstallReady(w: Shared, mid: nat, merges: map<nat, Merge>)
    requires RacedState(w, mid) && Readable(Done(w).t.parts)
    requires Here(Done(w).t.parts, w.base.merges[mid].sources)
    requires mid in merges && merges[mid] == Complete(w, mid)
    ensures Enabled(Done(w).(merges := merges), Install(mid)) && merges[mid].sources == w.base.merges[mid].sources
  {
    SourcesReadable(w, mid);
    hide Fine;
    hide Done;
    hide Holds;
  }

  lemma {:induction false} InstallRows(d: State, mid: nat, merges: map<nat, Merge>, row: Row)
    requires Readable(d.t.parts) && Enabled(d.(merges := merges), Install(mid))
    requires SumOver(ApplyPlan(d.t.parts, merges[mid].Plan()), PartVis(d.cur)) == SumOver(d.t.parts, PartVis(d.cur)) + multiset{row}
    ensures var e := After(d.(merges := merges), Install(mid));
      e.h == d.h && e.cur == d.cur && TableRows(e.t, e.cur) == TableRows(d.t, d.cur) + multiset{row}
  {
    AfterInstall(d.(merges := merges), mid);
    hide After;
    hide ApplyPlan;
    hide SumOver;
  }

  lemma {:induction false} RowTooMany(d: State, e: State, row: Row)
    requires Agrees(d.t, d.h, d.cur) && e.h == d.h && e.cur == d.cur
    requires TableRows(e.t, e.cur) == TableRows(d.t, d.cur) + multiset{row}
    ensures !Agrees(e.t, e.h, e.cur)
  {
    hide TableRows;
    hide At;
    var (a, b) := (TableRows(d.t, d.cur), TableRows(e.t, e.cur));
    assert b[row] == a[row] + 1;
  }

  /** Where the facts about the completed write come together. */
  lemma {:induction false} RacedDone(w: Shared, mid: nat, merges: map<nat, Merge>) returns (row: Row)
    requires RacedState(w, mid) && Readable(Done(w).t.parts)
    requires Here(Done(w).t.parts, w.base.merges[mid].sources)
    requires mid in merges && merges[mid] == Complete(w, mid)
    ensures var d := Done(w);
      && Agrees(d.t, d.h, d.cur) && Enabled(d.(merges := merges), Install(mid))
      && SumOver(ApplyPlan(d.t.parts, merges[mid].Plan()), PartVis(d.cur)) == SumOver(d.t.parts, PartVis(d.cur)) + multiset{row}
  {
    InstallReady(w, mid, merges);
    SourcesReadable(w, mid);
    InstallAddsRow(w, mid);
    StruckFacts(w, mid);
    row := w.base.t.parts[w.writer.value.loc.value.part].rows[w.writer.value.loc.value.ord];
    assert Done(w).cur == w.base.cur;
    hide Fine;
    hide Done;
    hide Complete;
    hide ApplyPlan;
    hide SumOver;
    hide PlanMerge;
    hide Agrees;
    hide Holds;
    hide Enabled;
  }

  lemma {:induction false} FreeStep(s: State, step: Step)
    requires Readable(s.t.parts) && Enabled(s, step) && !step.Call?
    ensures Allowed(Shared(s, None), Free(step)) && Next(Shared(s, None), Free(step)) == Shared(After(s, step), None)
  {
    hide Enabled;
    hide After;
  }

  lemma {:induction false} InstallWrong(d: State, mid: nat, merges: map<nat, Merge>, row: Row)
    requires Readable(d.t.parts) && Agrees(d.t, d.h, d.cur) && Enabled(d.(merges := merges), Install(mid))
    requires SumOver(ApplyPlan(d.t.parts, merges[mid].Plan()), PartVis(d.cur)) == SumOver(d.t.parts, PartVis(d.cur)) + multiset{row}
    ensures var w := Shared(d.(merges := merges), None);
      Allowed(w, Free(Install(mid))) && Wrong(Next(w, Free(Install(mid))))
  {
    InstallRows(d, mid, merges, row);
    hide After;
    hide ApplyPlan;
    hide SumOver;
    hide PlanMerge;
    hide Agrees;
    hide TableRows;
    hide Enabled;
    hide Next;
    hide Allowed;
    RowTooMany(d, After(d.(merges := merges), Install(mid)), row);
    FreeStep(d.(merges := merges), Install(mid));
  }

  lemma {:induction false} ThenLast(w: Shared, moves: seq<Move>, last: Move)
    requires Calm(w, moves) && Allowed(Moves(w, moves), last) && !Races(Moves(w, moves), last)
    ensures Calm(w, moves + [last]) && Moves(w, moves + [last]) == Next(Moves(w, moves), last)
    decreases |moves|
  {
    hide Allowed;
    hide Races;
    hide Next;
    if moves == [] {
      assert moves + [last] == [last] && [last][1..] == [];
    } else {
      ThenLast(Next(w, moves[0]), moves[1..], last);
      assert (moves + [last])[1..] == moves[1..] + [last];
    }
  }

  /** From the race to the completed write. */
  lemma {:induction false} StrikeAndFinish(w: Shared, merges: map<nat, Merge>)
    requires Fine(w) && Unstruck(w) && Readable(w.base.t.parts)
    ensures var (w1, last) := (w.(base := w.base.(merges := merges)), Finish(|w.base.t.l0| + 2));
      && Allowed(w1, Strike) && Allowed(Next(w1, Strike), last)
      && Next(Next(w1, Strike), last) == Shared(Done(w).(merges := merges), None) && Readable(Done(w).t.parts)
  {
    var p := w.writer.value;
    TombstoneReadable(w.base.t, p.loc.value, p.op.csn);
    assert |Tombstone(w.base.t, p.loc.value, p.op.csn).l0| == |w.base.t.l0|;
    hide Good;
    hide Tombstone;
    hide Seal;
  }

  lemma {:induction false} RaceLoses(w: Shared, mid: nat, retired: Dv) returns (moves: seq<Move>)
    requires Fine(w) && Races(w, Free(Capture(mid, retired)))
    ensures var w1 := Next(w, Free(Capture(mid, retired))); Calm(w1, moves) && Wrong(Moves(w1, moves))
  {
    RaceMeans(w, mid, retired);
    var w1 := Next(w, Free(Capture(mid, retired)));
    var merges := w1.base.merges;
    StrikeAndFinish(w, merges);
    StruckFacts(w, mid);
    var last := Finish(|w.base.t.l0| + 2);
    var w2 := Next(w1, Strike);
    var w3 := Next(w2, last);
    hide Next;
    hide Allowed;
    hide Fine;
    hide Done;
    hide Holds;
    var fill := FillUp(w3, mid);
    var full := Filled(w3.base, mid).merges;
    assert full[mid] == Complete(w, mid);
    var row := RacedDone(w, mid, full);
    InstallWrong(Done(w), mid, full, row);
    hide Filled;
    var install := Free(Install(mid));
    ThenLast(w3, fill, install);
    Then(w2, last, fill + [install]);
    Then(w1, Strike, [last] + (fill + [install]));
    moves := [Strike] + ([last] + (fill + [install]));
  }

  /** The race, and it alone, can make the table read something else than its history:
      a capture that sees no tombstone where a stamped write has still to strike one,
      taken by a merge that began at or after that stamp and has all its sources. */
  lemma {:induction false} RaceExact(w: Shared, mid: nat, retired: Dv)
    requires Fine(w) && Allowed(w, Free(Capture(mid, retired)))
    ensures Races(w, Free(Capture(mid, retired))) <==> CanGoWrong(Next(w, Free(Capture(mid, retired))))
  {
    var w1 := Next(w, Free(Capture(mid, retired)));
    hide Fine;
    hide Allowed;
    hide Next;
    if Races(w, Free(Capture(mid, retired))) {
      var moves := RaceLoses(w, mid, retired);
    } else {
      hide Races;
      forall moves | Calm(w1, moves) ensures !Wrong(Moves(w1, moves)) {
        MoveKeepsFine(w, Free(Capture(mid, retired)));
        CalmKeepsFine(w1, moves);
        FineNotWrong(Moves(w1, moves));
      }
    }
  }

  /** The part holding one row written at 1. */
  function OnePart(row: Row): Part { Part(0, [row], PerRow([1]), 1, 1, map[]) }

  lemma {:induction false} OneSealed(row: Row)
    ensures Seal(Buffer(EMPTY, row, 1)) == Table([], [OnePart(row)], 1)
  {
    var v := Version(row, 1, NEVER);
    assert EMPTY.l0 + [v] == [v];
    assert SortBy([v], VersionLe) == [v];
    assert RowsOf([v]) == [row] && CreatedOf([v]) == [1];
    assert PartOf(0, [v]).dv == map[];
    assert PartOf(0, [v]) == OnePart(row);
  }

  lemma {:induction false} OneFound(row: Row)
    ensures Readable([OnePart(row)]) && Locate(Table([], [OnePart(row)], 2), row.key, 1) == Some(InPart(0, 0))
    ensures Locate(EMPTY, row.key, 0) == None
  {
    assert OnePart(row).VersionAt(0) == Version(row, 1, NEVER);
  }

  lemma {:induction false} SelectOne(s: State, part: Part)
    requires s.t.parts == [part] && Readable(s.t.parts) && s.merges == map[0 := Merge(1, [], Asked)]
    ensures var (w, move) := (Shared(s, None), Free(Step.Select(0, [0])));
      Allowed(w, move) && Next(w, move) == Shared(s.(merges := map[0 := Merge(1, [part], Selected)]), None)
  {
    var picked := seq(|[0]|, i requires 0 <= i < |[0]| => s.t.parts[[0][i]]);
    assert picked == [part];
    assert Allowed(Shared(s, None), Free(Step.Select(0, [0])));
    AfterSelect(s, 0, [0]);
    assert After(s, Step.Select(0, [0])).merges == map[0 := Merge(1, [part], Selected)];
    FreeStep(s, Step.Select(0, [0]));
  }

  /** A run: the row is written and sealed, a merge of its part is prepared, a delete
      of the row takes its stamp, and the merge begins. */
  ghost function RaceRun(row: Row): (r: seq<Shared>)
    ensures |r| == 10
  {
    var part := OnePart(row);
    var s3 := State(Table([], [part], 1), 1, [Put(row, 1)], 0, 0, map[], map[]);
    var s4 := s3.(handed := 1, merges := map[0 := Merge(1, [], Asked)]);
    var s6 := s4.(t := Table([], [part], 2), merges := map[0 := Merge(1, [part], Reserved(1))]);
    var deleting := Some(Stamped(Del(row.key, 2), Some(InPart(0, 0)), false));
    [ BEGIN,
      Shared(START, Some(Located(Insert(row), 0))),
      Shared(START.(cur := 1), Some(Stamped(Put(row, 1), None, false))),
      Shared(s3, None),
      Shared(s4, None),
      Shared(s4.(merges := map[0 := Merge(1, [part], Selected)]), None),
      Shared(s6, None),
      Shared(s6, Some(Located(Delete(row.key), 1))),
      Shared(s6.(cur := 2), deleting),
      Shared(s6.(cur := 2, merges := map[0 := Merge(1, [part], Running(1, 2, []))]), deleting) ]
  }

  ghost function RaceMoves(row: Row): (r: seq<Move>)
    ensures |r| == 9
  {
    [ Lock(Insert(row)), Allocate, Finish(1), Free(AskHorizon(0)), Free(Step.Select(0, [0])), Free(ReserveId(0)),
      Lock(Delete(row.key)), Allocate, Free(StampStart(0)) ]
  }

  ghost predicate Follows(row: Row, i: nat)
    requires i < 9
  {
    Allowed(RaceRun(row)[i], RaceMoves(row)[i]) && Next(RaceRun(row)[i], RaceMoves(row)[i]) == RaceRun(row)[i+1]
  }

  lemma {:induction false} WriteFollows(row: Row)
    ensures Follows(row, 0) && Follows(row, 1) && Follows(row, 2)
  {
    OneSealed(row);
    OneFound(row);
    hide Locate;
    hide Seal;
  }

  lemma {:induction false} MergeFollows(row: Row)
    ensures Follows(row, 3) && Follows(row, 4) && Follows(row, 5)
  {
    OneFound(row);
    SelectOne(RaceRun(row)[4].base, OnePart(row));
    hide Locate;
  }

  lemma {:induction false} DeleteFollows(row: Row)
    ensures Follows(row, 6) && Follows(row, 7) && Follows(row, 8)
  {
    OneFound(row);
    hide Locate;
  }

  lemma {:induction false} RaceRunCalm(row: Row)
    ensures IsCalm(RaceRun(row), RaceMoves(row))
  {
    hide Allowed;
    hide Next;
    hide Races;
    RaceRunStarts(row);
    hide RaceRun;
    hide RaceMoves;
    WriteFollows(row);
    MergeFollows(row);
    DeleteFollows(row);
    NoRaceBefore(row);
  }

  lemma {:induction false} RaceRunStarts(row: Row)
    ensures RaceRun(row)[0] == BEGIN
  {
  }

  /** It does happen: the run above ends where a capture races, and a wrong read can
      follow. */
  lemma {:induction false} RaceReached(row: Row)
    ensures IsCalm(RaceRun(row), RaceMoves(row)) && Fine(RaceRun(row)[9])
    ensures Races(RaceRun(row)[9], Free(Capture(0, map[]))) && CanGoWrong(Next(RaceRun(row)[9], Free(Capture(0, map[]))))
  {
    hide RaceRun;
    hide RaceMoves;
    hide IsCalm;
    hide Fine;
    hide Next;
    hide CanGoWrong;
    RaceRunCalm(row);
    RaceAtEnd(row);
    CalmFine(RaceRun(row), RaceMoves(row), 9);
    RaceExact(RaceRun(row)[9], 0, map[]);
  }

  lemma {:induction false} NoRaceBefore(row: Row)
    ensures forall i :: 0 <= i < 9 ==> !Races(RaceRun(row)[i], RaceMoves(row)[i])
  {
    hide RaceRun;
    hide Allowed;
  }

  lemma {:induction false} RaceAtEnd(row: Row)
    ensures Races(RaceRun(row)[9], Free(Capture(0, map[])))
  {
    OneFound(row);
    hide Locate;
    assert OnePart(row).VersionAt(0) == Version(row, 1, NEVER);
  }
}
