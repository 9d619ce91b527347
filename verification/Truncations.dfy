/** Inside a truncation of the log. It holds the append lock, but empties the file,
    writes the tail back, stores the length, syncs and resets the watermark one after
    the other, and committers go on in between (src/wal.rs:276-334). */
module Truncations {
  import opened GroupCommit

  datatype Stage = Locked | Emptied | Rewritten | Stored | Synced

  /** A truncation at `offset` of a log of `total` bytes, whose first `offset` bytes
      the caller has checkpointed. While it runs, `log.filled` and `log.synced` count
      the bytes of the old log that the file holds and that are durable, and `acked`
      those that some committer was told are durable; `recent` holds the threads whose
      commit began after the new length was stored. */
  datatype Window = Window(log: State, acked: nat, offset: nat, total: nat, stage: Stage, recent: set<nat>)

  function Begin(s: State, offset: nat, acked: nat): Window { Window(s, acked, offset, s.written, Locked, {}) }

  datatype Move = Empty | Rewrite | Store | SyncTail | Own(step: Step)

  predicate Late(w: Window) { w.stage.Stored? || w.stage.Synced? }

  function Tail(w: Window): nat { if w.offset <= w.total then w.total - w.offset else 0 }

  /** The bytes of the old log that a crash leaves somewhere. */
  function Kept(w: Window): nat { Max(w.log.synced, w.offset) }

  /** The end, in the old log, of what a commit to `o` waits for. */
  function Need(w: Window, t: nat, o: nat): nat {
    if t in w.log.before then 0 else if t in w.recent then w.offset + o else o
  }

  /** The end of what a watermark `x` calls durable, to old commits and to new ones. */
  function Claim(w: Window, x: nat): nat { if Late(w) then Max(x, w.offset + Min(x, Tail(w))) else x }

  predicate Committers(step: Step) { !step.Pwrite? && !step.Publish? && !step.Truncate? }

  ghost predicate Allowed(w: Window, move: Move) {
    match move
    case Empty => w.stage.Locked?
    case Rewrite => w.stage.Emptied?
    case Store => w.stage.Rewritten?
    case SyncTail => w.stage.Stored?
    case Own(step) => Committers(step) && Possible(w.log, step)
  }

  /** What a committer's step does to the log. A sync makes durable what the file
      holds: once the file was emptied that can be less than there was. */
  ghost function LogAfter(w: Window, step: Step): State
    requires Committers(step) && Possible(w.log, step)
  {
    var log := After(w.log, step);
    if step.SyncEnd? && step.ok && !w.stage.Locked? then log.(synced := w.log.filled) else log
  }

  ghost function Next(w: Window, move: Move): Window
    requires Allowed(w, move)
  {
    match move
    case Empty => w.(stage := Emptied, log := w.log.(filled := w.offset))
    case Rewrite => w.(stage := Rewritten, log := w.log.(filled := w.total))
    case Store => w.(stage := Stored, log := w.log.(written := Tail(w)))
    case SyncTail => w.(stage := Synced, log := w.log.(synced := w.total))
    case Own(step) =>
      var log := LogAfter(w, step);
      w.(log := log,
         acked := if log.threads[step.t].Returned? && log.threads[step.t].ok then Max(w.acked, Need(w, step.t, log.threads[step.t].offset)) else w.acked,
         recent := if !step.Flush? then w.recent else if Late(w) then w.recent + {step.t} else w.recent - {step.t})
  }

  /** A committer was told, or will be by the next test, that bytes are durable which
      a crash would lose. */
  predicate Bad(w: Window) { w.acked > Kept(w) || Claim(w, w.log.watermark) > Kept(w) }

  // ---- the invariant -------------------------------------------------------

  ghost predicate PhaseFine(w: Window, t: nat)
    requires t < |w.log.threads|
  {
    match w.log.threads[t]
    case Idle => true
    case Writing(_) => false
    case Committing(o) => Need(w, t, o) <= w.total
    case Queued(o) => Need(w, t, o) <= w.total
    case Sleeping(o, g) => Need(w, t, o) <= w.total && g <= w.log.generation
    case Leading(o) => Need(w, t, o) <= w.total
    case Loaded(o, c) => Need(w, t, o) <= w.total && c <= w.total && (w.stage.Locked? ==> Need(w, t, o) <= c)
    case Syncing(o, c, r) => Need(w, t, o) <= w.total && c <= w.total
      && (w.stage.Locked? ==> Need(w, t, o) <= c && (c <= r || c <= w.log.synced) && r <= w.total)
    case SyncOk(o, c) => Need(w, t, o) <= Kept(w) && Claim(w, c) <= Kept(w) && c <= w.total
    case SyncFailed(_) => true
    case Returned(_, _) => true
  }

  ghost predicate Fine(w: Window) {
    && 0 < w.offset <= w.total
    && w.log.filled == (if w.stage.Emptied? then w.offset else w.total)
    && w.log.written == (if Late(w) then Tail(w) else w.total)
    && w.log.synced <= w.total && w.log.watermark <= w.total
    && !Bad(w)
    && (w.stage.Synced? ==> w.log.synced == w.total)
    && (w.recent != {} ==> Late(w))
    && forall t :: 0 <= t < |w.log.threads| ==> PhaseFine(w, t)
  }

  lemma {:induction false} BeginFine(s: State, offset: nat, acked: nat)
    requires Good(s) && Possible(s, Truncate(offset)) && acked <= s.synced
    ensures Fine(Begin(s, offset, acked))
  {
    forall t | 0 <= t < |s.threads| ensures PhaseFine(Begin(s, offset, acked), t) {
      assert PhaseOk(s, s.threads[t], t in s.before);
    }
  }

  // ---- the dangerous moves -------------------------------------------------

  /** What thread `t` is about to call durable when its sync is over. */
  function Owes(w: Window, t: nat): nat
    requires t < |w.log.threads|
  {
    match w.log.threads[t]
    case Syncing(o, c, _) => Max(Need(w, t, o), c)
    case SyncOk(o, c) => Max(Need(w, t, o), c)
    case _ => 0
  }

  /** Two moves are dangerous: a committer's sync that ends while the file is empty,
      when anything beyond the truncation point was or is about to be called durable;
      and storing the new length while the old watermark, taken as one of the new log,
      covers bytes that are not durable. */
  ghost predicate Danger(w: Window, move: Move)
    requires Allowed(w, move)
  {
    match move
    case Own(SyncEnd(t, true)) => w.stage.Emptied? &&
      (w.acked > w.offset || w.log.watermark > w.offset
       || exists u :: 0 <= u < |w.log.threads| && (u == t || w.log.threads[u].SyncOk?) && Owes(w, u) > w.offset)
    case Store =>
      (w.offset + Min(w.log.watermark, Tail(w)) > Kept(w)
       || exists u :: 0 <= u < |w.log.threads| && w.log.threads[u].SyncOk? && w.offset + Min(w.log.threads[u].covered, Tail(w)) > Kept(w))
    case _ => false
  }

  // ---- every other move is harmless ----------------------------------------

  /** A committer's step moves one thread. */
  lemma {:induction false} OwnMoves(w: Window, step: Step)
    requires Allowed(w, Own(step))
    ensures var w' := Next(w, Own(step));
      && step.t < |w.log.threads| == |w'.log.threads|
      && w'.log.threads == w.log.threads[step.t := w'.log.threads[step.t]]
      && w'.log.before - {step.t} == w.log.before - {step.t} && w'.recent - {step.t} == w.recent - {step.t}
      && w'.stage == w.stage && w'.offset == w.offset && w'.total == w.total
      && w'.log.filled == w.log.filled && w'.log.written == w.log.written
      && w.log.generation <= w'.log.generation
  {
  }

  /** The numbers after a committer's harmless step. */
  ghost predicate Moved(w: Window, w': Window, t: nat) {
    && t < |w'.log.threads| && PhaseFine(w', t)
    && w'.log.synced <= w'.total && w'.log.watermark <= w'.total && !Bad(w')
    && (w'.stage.Synced? ==> w'.log.synced == w'.total) && (w'.recent != {} ==> Late(w'))
  }

  lemma {:induction false} WaitFine(w: Window, step: Step)
    requires Fine(w) && Allowed(w, Own(step)) && (step.Flush? || step.Test? || step.Enter? || step.Wake? || step.Leave?)
    ensures Moved(w, Next(w, Own(step)), step.t) && Next(w, Own(step)).log.synced == w.log.synced
  {
    assert PhaseFine(w, step.t);
  }

  lemma {:induction false} LoadFine(w: Window, step: Step)
    requires Fine(w) && Allowed(w, Own(step)) && (step.Load? || step.SyncStart?)
    ensures Moved(w, Next(w, Own(step)), step.t) && Next(w, Own(step)).log.synced == w.log.synced
  {
    assert PhaseFine(w, step.t);
  }

  lemma {:induction false} EndFine(w: Window, step: Step)
    requires Fine(w) && Allowed(w, Own(step)) && (step.Complete? || step.Abort? || (step.SyncEnd? && !step.ok))
    ensures Moved(w, Next(w, Own(step)), step.t) && Next(w, Own(step)).log.synced == w.log.synced
  {
    assert PhaseFine(w, step.t);
  }

  lemma {:induction false} SyncFine(w: Window, t: nat)
    requires Fine(w) && Allowed(w, Own(SyncEnd(t, true))) && !Danger(w, Own(SyncEnd(t, true)))
    ensures Moved(w, Next(w, Own(SyncEnd(t, true))), t)
  {
    assert PhaseFine(w, t);
    if w.stage.Emptied? {
      assert Owes(w, t) <= w.offset;
      SyncWhileEmpty(w, t);
    } else {
      SyncWhileFull(w, t);
    }
  }

  lemma {:induction false} SyncNext(w: Window, t: nat)
    requires Allowed(w, Own(SyncEnd(t, true)))
    ensures var (w', p) := (Next(w, Own(SyncEnd(t, true))), w.log.threads[t]);
      w' == w.(log := w.log.(threads := w.log.threads[t := SyncOk(p.offset, p.covered)],
        synced := if w.stage.Locked? then Max(w.log.synced, Min(p.reach, w.log.filled)) else w.log.filled))
  {
  }

  lemma {:induction false} SyncWhileEmpty(w: Window, t: nat)
    requires Fine(w) && Allowed(w, Own(SyncEnd(t, true))) && w.stage.Emptied? && PhaseFine(w, t)
    requires w.acked <= w.offset && w.log.watermark <= w.offset && Owes(w, t) <= w.offset
    ensures Moved(w, Next(w, Own(SyncEnd(t, true))), t)
  {
    SyncNext(w, t);
    hide Next;
  }

  lemma {:induction false} SyncWhileFull(w: Window, t: nat)
    requires Fine(w) && Allowed(w, Own(SyncEnd(t, true))) && !w.stage.Emptied? && PhaseFine(w, t)
    ensures Moved(w, Next(w, Own(SyncEnd(t, true))), t)
  {
    SyncNext(w, t);
    hide Next;
  }

  /** What a thread's phase claims stays true as long as what it will call durable stays kept. */
  lemma {:induction false} SamePhase(w: Window, w': Window, u: nat)
    requires u < |w.log.threads| && u < |w'.log.threads| && w'.log.threads[u] == w.log.threads[u] && PhaseFine(w, u)
    requires w'.offset == w.offset && w'.total == w.total && w.log.generation <= w'.log.generation
    requires (u in w'.log.before <==> u in w.log.before) && (u in w'.recent <==> u in w.recent)
    requires w'.stage.Locked? ==> w.stage.Locked? && w.log.synced <= w'.log.synced
    requires w.log.threads[u].SyncOk? ==> Need(w, u, w.log.threads[u].offset) <= Kept(w') && Claim(w', w.log.threads[u].covered) <= Kept(w')
    ensures PhaseFine(w', u)
  {
  }

  lemma {:induction false} OwnSynced(w: Window, step: Step)
    requires Fine(w) && Allowed(w, Own(step))
    ensures var w' := Next(w, Own(step));
      if step.SyncEnd? && step.ok && w.stage.Emptied? then Kept(w') == w.offset else w.log.synced <= w'.log.synced
  {
    assert PhaseFine(w, step.t);
  }

  lemma {:induction false} OthersOwn(w: Window, step: Step, u: nat)
    requires Fine(w) && Allowed(w, Own(step)) && !Danger(w, Own(step)) && u < |w.log.threads| && u != step.t
    ensures u < |Next(w, Own(step)).log.threads| && PhaseFine(Next(w, Own(step)), u)
  {
    OwnMoves(w, step);
    OwnSynced(w, step);
    var w' := Next(w, Own(step));
    hide Next;
    assert PhaseFine(w, u);
    assert u in w'.log.before <==> u in w'.log.before - {step.t};
    assert u in w'.recent <==> u in w'.recent - {step.t};
    if w.log.threads[u].SyncOk? && step.SyncEnd? && step.ok && w.stage.Emptied? { assert Owes(w, u) <= w.offset; }
    hide Danger;
    hide Fine;
    SamePhase(w, w', u);
  }

  lemma {:induction false} OwnKeepsFine(w: Window, step: Step)
    requires Fine(w) && Allowed(w, Own(step)) && !Danger(w, Own(step))
    ensures Fine(Next(w, Own(step)))
  {
    var (w', t) := (Next(w, Own(step)), step.t);
    OwnMoves(w, step);
    if step.SyncEnd? && step.ok {
      SyncFine(w, t);
    } else if step.Load? || step.SyncStart? {
      LoadFine(w, step);
    } else if step.Complete? || step.Abort? || step.SyncEnd? {
      EndFine(w, step);
    } else {
      WaitFine(w, step);
    }
    forall u | 0 <= u < |w'.log.threads| ensures PhaseFine(w', u) {
      if u != t { OthersOwn(w, step, u); }
    }
    hide Next;
    hide Danger;
    hide Allowed;
    hide PhaseFine;
    hide Bad;
  }

  lemma {:induction false} TruncationKeepsFine(w: Window, move: Move)
    requires Fine(w) && Allowed(w, move) && !Danger(w, move) && !move.Own?
    ensures Fine(Next(w, move))
  {
    var w' := Next(w, move);
    forall u | 0 <= u < |w'.log.threads| ensures PhaseFine(w', u) {
      assert PhaseFine(w, u);
      SamePhase(w, w', u);
    }
    hide PhaseFine;
  }

  /** Every move that is not dangerous keeps the invariant. */
  lemma {:induction false} MoveKeepsFine(w: Window, move: Move)
    requires Fine(w) && Allowed(w, move) && !Danger(w, move)
    ensures Fine(Next(w, move))
  {
    if move.Own? { OwnKeepsFine(w, move.step); } else { TruncationKeepsFine(w, move); }
  }

  // ---- and the dangerous ones lose bytes -----------------------------------

  ghost predicate Calm(w: Window, moves: seq<Move>)
    decreases |moves|
  {
    moves != [] ==> Allowed(w, moves[0]) && !Danger(w, moves[0]) && Calm(Next(w, moves[0]), moves[1..])
  }

  ghost function Moves(w: Window, moves: seq<Move>): Window
    requires Calm(w, moves)
    decreases |moves|
  {
    if moves == [] then w else Moves(Next(w, moves[0]), moves[1..])
  }

  lemma {:induction false} CalmKeepsFine(w: Window, moves: seq<Move>)
    requires Fine(w) && Calm(w, moves)
    ensures Fine(Moves(w, moves)) && Moves(w, moves).offset == w.offset && Moves(w, moves).total == w.total
    decreases |moves|
  {
    hide Fine;
    hide Danger;
    hide Allowed;
    if moves != [] {
      MoveKeepsFine(w, moves[0]);
      NextSame(w, moves[0]);
      hide Next;
      CalmKeepsFine(Next(w, moves[0]), moves[1..]);
    }
  }

  lemma {:induction false} NextSame(w: Window, move: Move)
    requires Allowed(w, move)
    ensures Next(w, move).offset == w.offset && Next(w, move).total == w.total
  {
  }

  /** Some harmless continuation has a committer trust bytes a crash would lose. */
  ghost predicate CanLose(w: Window) { exists moves :: Calm(w, moves) && Bad(Moves(w, moves)) }

  lemma {:induction false} BadNow(w: Window)
    requires Bad(w)
    ensures CanLose(w)
  {
    var none: seq<Move> := [];
    assert Calm(w, none) && Bad(Moves(w, none));
  }

  /** A leader whose sync is over acknowledges and raises the watermark. */
  lemma {:induction false} CompleteLoses(w: Window, u: nat)
    requires u < |w.log.threads| && w.log.threads[u].SyncOk?
    requires Need(w, u, w.log.threads[u].offset) > Kept(w) || Claim(w, w.log.threads[u].covered) > Kept(w)
    ensures CanLose(w)
  {
    var move := Own(Complete(u));
    assert Allowed(w, move) && !Danger(w, move);
    var w' := Next(w, move);
    assert Kept(w') == Kept(w) && Bad(w');
    var one := [move];
    assert one[1..] == [];
    assert Calm(w', one[1..]) && Moves(w', one[1..]) == w';
    hide Next;
    assert Calm(w, one) && Bad(Moves(w, one));
  }

  lemma {:induction false} SyncLoses(w: Window, t: nat)
    requires Fine(w) && Allowed(w, Own(SyncEnd(t, true))) && Danger(w, Own(SyncEnd(t, true)))
    ensures CanLose(Next(w, Own(SyncEnd(t, true))))
  {
    var w' := Next(w, Own(SyncEnd(t, true)));
    SyncNext(w, t);
    hide Next;
    assert Kept(w') == w.offset;
    if w.acked > w.offset || w.log.watermark > w.offset {
      BadNow(w');
    } else {
      var u :| 0 <= u < |w.log.threads| && (u == t || w.log.threads[u].SyncOk?) && Owes(w, u) > w.offset;
      assert w'.log.threads[u].SyncOk?;
      CompleteLoses(w', u);
    }
  }

  lemma {:induction false} StoreLoses(w: Window)
    requires Fine(w) && Allowed(w, Store) && Danger(w, Store)
    ensures CanLose(Next(w, Store))
  {
    var w' := Next(w, Store);
    if w.offset + Min(w.log.watermark, Tail(w)) > Kept(w) {
      BadNow(w');
    } else {
      var u :| 0 <= u < |w.log.threads| && w.log.threads[u].SyncOk? && w.offset + Min(w.log.threads[u].covered, Tail(w)) > Kept(w);
      CompleteLoses(w', u);
    }
  }

  /** A move inside a truncation can have a committer trust bytes a crash would lose
      if and only if it is one of the two dangerous ones. */
  lemma {:induction false} MoveExact(w: Window, move: Move)
    requires Fine(w) && Allowed(w, move)
    ensures Danger(w, move) <==> CanLose(Next(w, move))
  {
    if Danger(w, move) {
      if move.Store? { StoreLoses(w); } else { SyncLoses(w, move.step.t); }
    } else {
      var w' := Next(w, move);
      MoveKeepsFine(w, move);
      hide Next;
      hide Danger;
      forall moves | Calm(w', moves) ensures !Bad(Moves(w', moves)) { CalmKeepsFine(w', moves); }
    }
  }

  // ---- the reset -----------------------------------------------------------

  /** The log as it was, for the atomic truncation to act on. */
  ghost function Whole(w: Window): State { w.log.(written := w.total, filled := w.total, appender := false) }

  /** The reset of the watermark ends the truncation; what it leaves is what the
      atomic truncation leaves, `acked` counted in the new log. */
  ghost function Reset(w: Window): State
    requires w.stage.Synced? && 0 < w.offset <= w.total
  {
    var len := w.total - w.offset;
    State(len, w.log.written, len, len, false, w.log.generation + 1, false, Cut(w.log.threads, len), Everyone(|w.log.threads|))
  }

  lemma {:induction false} ResetIsTruncate(w: Window)
    requires Fine(w) && w.stage.Synced?
    ensures Parked(Whole(w)) && Possible(Whole(w), Truncate(w.offset)) && Reset(w) == After(Whole(w), Truncate(w.offset))
  {
    forall t | 0 <= t < |w.log.threads|
      ensures !w.log.threads[t].Writing? && (w.log.threads[t].Sleeping? ==> w.log.threads[t].generation <= w.log.generation)
    {
      assert PhaseFine(w, t);
    }
  }

  /** At the reset the exact condition is the old one: no leader at work has read a
      length beyond what is left, whether it read it before or during the truncation. */
  lemma {:induction false} ResetExact(w: Window)
    requires Fine(w) && w.stage.Synced?
    ensures Clear(Whole(w), w.offset) <==> !CanBreak(Reset(w))
  {
    ResetIsTruncate(w);
    hide Reset;
    hide Fine;
    TruncationExact(Whole(w), w.offset);
  }

  /** A truncation that meets none of the three, whatever else goes on in it, turns a
      good state of the log into a good one, and at every moment inside it whatever was
      acknowledged is durable or checkpointed. */
  lemma {:induction false} CalmTruncation(s: State, offset: nat, acked: nat, moves: seq<Move>)
    requires Good(s) && Possible(s, Truncate(offset)) && acked <= s.synced && Calm(Begin(s, offset, acked), moves)
    ensures var w := Moves(Begin(s, offset, acked), moves);
      && w.acked <= Kept(w) && !Bad(w) && w.offset == offset && w.total == s.written
      && (w.stage.Synced? && Clear(Whole(w), offset) ==>
            Good(Reset(w)) && (w.acked <= offset || w.acked - offset <= Reset(w).synced))
  {
    BeginFine(s, offset, acked);
    CalmKeepsFine(Begin(s, offset, acked), moves);
    var w := Moves(Begin(s, offset, acked), moves);
    if w.stage.Synced? && Clear(Whole(w), offset) {
      ResetIsTruncate(w);
      TruncateKeepsGood(Whole(w), offset);
    }
  }

  // ---- both happen ---------------------------------------------------------

  /** Ten bytes are durable and acknowledged, the log is truncated at four, and a
      committer's sync ends while the file is empty: six of them are gone. */
  lemma {:induction false} SyncWhileEmptied()
    ensures var w := Window(State(4, 10, 10, 10, true, 0, false, [Syncing(10, 10, 10)], {}), 10, 4, 10, Emptied, {});
      Fine(w) && Danger(w, Own(SyncEnd(0, true))) && Bad(Next(w, Own(SyncEnd(0, true))))
  {
    var w := Window(State(4, 10, 10, 10, true, 0, false, [Syncing(10, 10, 10)], {}), 10, 4, 10, Emptied, {});
    assert PhaseFine(w, 0);
    SyncNext(w, 0);
  }

  /** Seven of ten bytes are durable when the log is truncated at four: once the new
      length is stored, a flush of the six that are left is acknowledged at once. */
  lemma {:induction false} FlushWhileStored()
    ensures var w := Window(State(10, 10, 7, 7, false, 0, false, [Idle], {}), 7, 4, 10, Rewritten, {});
      && Fine(w) && Danger(w, Store)
      && var w1 := Next(Next(Next(w, Store), Own(Flush(0))), Own(Test(0)));
         w1.log.threads[0] == Returned(6, true) && w1.acked == 10 && Kept(w1) == 7
  {
    var w := Window(State(10, 10, 7, 7, false, 0, false, [Idle], {}), 7, 4, 10, Rewritten, {});
    assert PhaseFine(w, 0);
  }
}
