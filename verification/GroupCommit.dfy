/** Group commit: any number of committers share one fsync
    (src/durability.rs:81-156, src/wal.rs:245-334). Each step below is one
    critical section or one atomic access of the source. */
module GroupCommit {

  /** Where a thread stands inside `append`, `flush` and `commit_to`. */
  datatype Phase =
    | Idle
    | Writing(end: nat)                                // bytes in the file, length not yet published
    | Committing(offset: nat)                          // about to call `begin`
    | Queued(offset: nat)                              // missed the lock-free test, wants the lock
    | Sleeping(offset: nat, generation: nat)           // on the condition variable
    | Leading(offset: nat)                             // elected
    | Loaded(offset: nat, covered: nat)                // has read the written length
    | Syncing(offset: nat, covered: nat, reach: nat)   // fsync under way over `reach` bytes
    | SyncOk(offset: nat, covered: nat)
    | SyncFailed(offset: nat)
    | Returned(offset: nat, ok: bool)
  {
    predicate Leads() { Leading? || Loaded? || Syncing? || SyncOk? || SyncFailed? }

  }

  /** `filled` and `synced` are the file's real length and its durable prefix;
      `before` holds the threads whose commit began before the last truncation,
      which made the bytes they wait for durable. */
  datatype State = State(filled: nat, written: nat, synced: nat, watermark: nat, syncing: bool, generation: nat,
                         appender: bool, threads: seq<Phase>, before: set<nat>)

  function Start(length: nat, n: nat): State {
    State(length, length, length, length, false, 0, false, seq(n, i => Idle), {})
  }

  datatype Step =
    | Pwrite(t: nat, len: nat)       // under the append lock
    | Publish(t: nat, wait: bool)    // store the length, release the lock
    | Flush(t: nat)
    | Test(t: nat)                   // the watermark test before the lock
    | Enter(t: nat)                  // lock, test, elect or sleep
    | Wake(t: nat)                   // notified or spurious; the same tests again
    | Load(t: nat)
    | SyncStart(t: nat)
    | SyncEnd(t: nat, ok: bool)
    | Complete(t: nat)
    | Abort(t: nat)
    | Leave(t: nat)
    | Truncate(offset: nat)

  ghost predicate At(s: State, t: nat) { t < |s.threads| }

  ghost predicate Possible(s: State, step: Step) {
    match step
    case Pwrite(t, _) => At(s, t) && s.threads[t].Idle? && !s.appender
    case Publish(t, _) => At(s, t) && s.threads[t].Writing?
    case Flush(t) => At(s, t) && s.threads[t].Idle?
    case Test(t) => At(s, t) && s.threads[t].Committing?
    case Enter(t) => At(s, t) && s.threads[t].Queued?
    case Wake(t) => At(s, t) && s.threads[t].Sleeping?
    case Load(t) => At(s, t) && s.threads[t].Leading?
    case SyncStart(t) => At(s, t) && s.threads[t].Loaded?
    case SyncEnd(t, _) => At(s, t) && s.threads[t].Syncing?
    case Complete(t) => At(s, t) && s.threads[t].SyncOk?
    case Abort(t) => At(s, t) && s.threads[t].SyncFailed?
    case Leave(t) => At(s, t) && s.threads[t].Returned?
    case Truncate(offset) => !s.appender && 0 < offset <= s.written
  }

  function Max(a: nat, b: nat): (m: nat)
    ensures m >= a && m >= b && (m == a || m == b)
  {
    if a < b then b else a
  }

  function Min(a: nat, b: nat): (m: nat)
    ensures m <= a && m <= b && (m == a || m == b)
  {
    if a < b then a else b
  }

  /** The tests of `begin` under its lock. */
  function Decide(s: State, t: nat, offset: nat): State
    requires t < |s.threads|
  {
    if s.watermark >= offset then s.(threads := s.threads[t := Returned(offset, true)])
    else if !s.syncing then s.(syncing := true, threads := s.threads[t := Leading(offset)])
    else s.(threads := s.threads[t := Sleeping(offset, s.generation)])
  }

  /** An fsync under way reaches no byte appended after the truncation. */
  function Cut(threads: seq<Phase>, len: nat): seq<Phase> {
    seq(|threads|, t requires 0 <= t < |threads| =>
      var p := threads[t];
      if p.Syncing? then p.(reach := Min(p.reach, len)) else p)
  }

  function Everyone(n: nat): (r: set<nat>)
    ensures forall t: nat :: t in r <==> t < n
  {
    if n == 0 then {} else Everyone(n - 1) + {n - 1}
  }

  ghost function After(s: State, step: Step): State
    requires Possible(s, step)
  {
    match step
    case Pwrite(t, len) =>
      s.(filled := s.written + len, appender := true, threads := s.threads[t := Writing(s.written + len)], before := s.before - {t})
    case Publish(t, wait) =>
      var end := s.threads[t].end;
      s.(written := end, appender := false, threads := s.threads[t := if wait then Committing(end) else Idle])
    case Flush(t) => s.(threads := s.threads[t := Committing(s.written)], before := s.before - {t})
    case Test(t) =>
      var o := s.threads[t].offset;
      s.(threads := s.threads[t := if s.watermark >= o then Returned(o, true) else Queued(o)])
    case Enter(t) => Decide(s, t, s.threads[t].offset)
    case Wake(t) => Decide(s, t, s.threads[t].offset)
    case Load(t) => s.(threads := s.threads[t := Loaded(s.threads[t].offset, s.written)])
    case SyncStart(t) => s.(threads := s.threads[t := Syncing(s.threads[t].offset, s.threads[t].covered, s.filled)])
    case SyncEnd(t, ok) =>
      var p := s.threads[t];
      if ok then s.(synced := Max(s.synced, Min(p.reach, s.filled)), threads := s.threads[t := SyncOk(p.offset, p.covered)])
      else s.(threads := s.threads[t := SyncFailed(p.offset)])
    case Complete(t) =>
      var p := s.threads[t];
      s.(watermark := Max(s.watermark, p.covered), syncing := false, generation := s.generation + 1,
         threads := s.threads[t := Returned(p.offset, true)])
    case Abort(t) =>
      s.(syncing := false, generation := s.generation + 1, threads := s.threads[t := Returned(s.threads[t].offset, false)])
    case Leave(t) => s.(threads := s.threads[t := Idle])
    case Truncate(offset) =>
      var len := s.written - offset;
      State(len, len, len, len, false, s.generation + 1, false, Cut(s.threads, len), Everyone(|s.threads|))
  }

  // ---- the invariant -------------------------------------------------------

  /** A leader that has read a written length beyond `len`. */
  predicate Stale(p: Phase, len: nat) { (p.Loaded? || p.Syncing? || p.SyncOk?) && p.covered > len }

  /** No leader at work has read more than a truncation at `offset` leaves. */
  ghost predicate Clear(s: State, offset: nat)
    requires offset <= s.written
  {
    forall t :: 0 <= t < |s.threads| ==> !Stale(s.threads[t], s.written - offset)
  }

  ghost predicate PhaseOk(s: State, p: Phase, former: bool) {
    match p
    case Idle => true
    case Writing(end) => s.written <= end == s.filled && s.appender
    case Committing(o) => former || o <= s.written
    case Queued(o) => former || o <= s.written
    case Sleeping(o, g) => (former || o <= s.written) && g <= s.generation && (g == s.generation ==> s.syncing)
    case Leading(o) => former || o <= s.written
    case Loaded(o, c) => c <= s.written && (former || o <= c)
    case Syncing(o, c, r) => (c <= r || c <= s.synced) && r <= s.filled && c <= s.written && (former || o <= c)
    case SyncOk(o, c) => c <= s.synced && c <= s.written && (former || o <= c)
    case SyncFailed(_) => true
    case Returned(o, ok) => ok && !former ==> o <= s.synced
  }

  ghost predicate Leader(s: State, t: nat) { t < |s.threads| && s.threads[t].Leads() }

  ghost predicate Good(s: State) {
    && s.watermark <= s.synced <= s.filled && s.written <= s.filled
    && (!s.appender ==> s.filled == s.written)
    && (forall t :: 0 <= t < |s.threads| ==> PhaseOk(s, s.threads[t], t in s.before))
    && (forall t, u :: 0 <= t < |s.threads| && 0 <= u < |s.threads| && s.threads[t].Writing? && s.threads[u].Writing? ==> t == u)
    && (s.appender ==> exists t :: 0 <= t < |s.threads| && s.threads[t].Writing?)
    && (s.syncing ==> exists t: nat :: Leader(s, t))
  }

  /** At most one thread performs a sync at a time. */
  ghost predicate OneLeader(s: State) { forall t: nat, u: nat :: Leader(s, t) && Leader(s, u) ==> t == u }

  /** The flag is up whenever someone leads. */
  ghost predicate Flagged(s: State) { OneLeader(s) && forall t: nat :: Leader(s, t) ==> s.syncing }

  ghost predicate Unled(s: State) { forall t: nat :: !Leader(s, t) }

  lemma {:induction false} StartGood(length: nat, n: nat)
    ensures Good(Start(length, n)) && Flagged(Start(length, n))
  {
  }

  /** A step of one thread that keeps everyone else's claims. */
  ghost predicate Grows(s: State, s': State) {
    && s.written <= s'.written && s.synced <= s'.synced && s.filled <= s'.filled && s.generation <= s'.generation
    && s.watermark <= s'.watermark
  }

  lemma {:induction false} OthersKeep(s: State, s': State, p: Phase, former: bool)
    requires PhaseOk(s, p, former) && Grows(s, s')
    requires p.Writing? ==> s'.written == s.written && s'.filled == s.filled && s'.appender
    requires s.syncing && !s'.syncing ==> s.generation < s'.generation
    ensures PhaseOk(s', p, former)
  {
  }

  lemma {:induction false} MoveKeeps(s: State, s': State, t: nat)
    requires Good(s) && t < |s.threads| && Grows(s, s')
    requires |s'.threads| == |s.threads| && s'.threads == s.threads[t := s'.threads[t]]
    requires s'.before - {t} == s.before - {t}
    requires s'.watermark <= s'.synced <= s'.filled && s'.written <= s'.filled && PhaseOk(s', s'.threads[t], t in s'.before)
    requires s'.appender == if s.threads[t].Writing? then false else s.appender || s'.threads[t].Writing?
    requires s'.threads[t].Writing? ==> !s.appender
    requires !s'.appender ==> s'.filled == s'.written
    requires s.appender && !s.threads[t].Writing? ==> s'.written == s.written && s'.filled == s.filled
    requires s'.syncing ==> s'.threads[t].Leads() || (s.syncing && !s.threads[t].Leads())
    requires s.syncing && !s'.syncing ==> s.generation < s'.generation
    ensures Good(s')
  {
    forall u | 0 <= u < |s.threads| && u != t ensures PhaseOk(s', s'.threads[u], u in s'.before) {
      assert PhaseOk(s, s.threads[u], u in s.before);
      assert u in s'.before <==> u in s'.before - {t};
      OthersKeep(s, s', s.threads[u], u in s.before);
    }
    if s'.syncing {
      if s'.threads[t].Leads() {
        assert Leader(s', t);
      } else {
        var u: nat :| Leader(s, u);
        assert Leader(s', u);
      }
    }
    if s'.appender {
      if !s'.threads[t].Writing? {
        var u :| 0 <= u < |s.threads| && s.threads[u].Writing?;
        assert s'.threads[u].Writing?;
      }
    }
  }

  /** The thread a step belongs to. */
  function Mover(step: Step): nat {
    match step
    case Truncate(_) => 0
    case _ => step.t
  }

  /** Every step of every thread keeps the invariant, and nothing goes backwards;
      a truncation keeps it when no leader at work has read past what it leaves. */
  lemma {:induction false} StepKeepsGood(s: State, step: Step)
    requires Good(s) && Possible(s, step) && (step.Truncate? ==> Clear(s, step.offset))
    ensures Good(After(s, step))
    ensures !step.Truncate? ==> Grows(s, After(s, step))
  {
    if step.Truncate? {
      GoodParked(s);
      TruncateKeepsGood(s, step.offset);
    } else {
      var t := Mover(step);
      assert PhaseOk(s, s.threads[t], t in s.before);
      StepMoves(s, step);
      MoverFlags(s, step);
      MoveKeeps(s, After(s, step), t);
    }
  }

  /** The numbers after a step of `t`, and what its new phase claims about them. */
  ghost predicate Moved(s: State, s': State, t: nat) {
    && t < |s.threads| == |s'.threads| && Grows(s, s')
    && s'.watermark <= s'.synced <= s'.filled && s'.written <= s'.filled
    && PhaseOk(s', s'.threads[t], t in s'.before)
    && (s.appender && !s.threads[t].Writing? ==> s'.written == s.written && s'.filled == s.filled)
    && (!s'.appender ==> s'.filled == s'.written)
  }

  lemma {:induction false} AppendMoves(s: State, step: Step)
    requires Good(s) && Possible(s, step) && (step.Pwrite? || step.Publish? || step.Flush? || step.Leave?)
    ensures Moved(s, After(s, step), Mover(step))
  {
    assert PhaseOk(s, s.threads[step.t], step.t in s.before);
  }

  lemma {:induction false} WaitMoves(s: State, step: Step)
    requires Good(s) && Possible(s, step) && (step.Test? || step.Enter? || step.Wake?)
    ensures Moved(s, After(s, step), Mover(step))
  {
    assert PhaseOk(s, s.threads[step.t], step.t in s.before);
  }

  lemma {:induction false} SyncMoves(s: State, step: Step)
    requires Good(s) && Possible(s, step)
    requires step.Load? || step.SyncStart? || step.SyncEnd? || step.Complete? || step.Abort?
    ensures Moved(s, After(s, step), Mover(step))
  {
    assert PhaseOk(s, s.threads[step.t], step.t in s.before);
  }

  lemma {:induction false} StepMoves(s: State, step: Step)
    requires Good(s) && Possible(s, step) && !step.Truncate?
    ensures Moved(s, After(s, step), Mover(step))
  {
    hide Good;
    hide Moved;
    hide After;
    if step.Pwrite? || step.Publish? || step.Flush? || step.Leave? {
      AppendMoves(s, step);
    } else if step.Test? || step.Enter? || step.Wake? {
      WaitMoves(s, step);
    } else {
      SyncMoves(s, step);
    }
  }

  lemma {:induction false} MoverFlags(s: State, step: Step)
    requires Possible(s, step) && !step.Truncate?
    ensures var (s', t) := (After(s, step), Mover(step));
      && |s'.threads| == |s.threads| && s'.threads == s.threads[t := s'.threads[t]]
      && s'.before - {t} == s.before - {t}
      && s'.appender == (if s.threads[t].Writing? then false else s.appender || s'.threads[t].Writing?)
      && (s'.threads[t].Writing? ==> !s.appender)
      && (s'.syncing ==> s'.threads[t].Leads() || (s.syncing && !s.threads[t].Leads()))
      && (s.syncing && !s'.syncing ==> s.generation < s'.generation)
      && (s'.threads[t].Leads() ==> s.threads[t].Leads() || (s'.syncing && !s.syncing))
      && (s.syncing && !s.threads[t].Leads() ==> s'.syncing) && (s.threads[t].Leads() && s'.threads[t].Leads() ==> s'.syncing == s.syncing)
  {
  }

  /** Nobody is writing, and no one sleeps on a generation yet to come. */
  ghost predicate Parked(s: State) {
    forall t :: 0 <= t < |s.threads| ==>
      !s.threads[t].Writing? && (s.threads[t].Sleeping? ==> s.threads[t].generation <= s.generation)
  }

  lemma {:induction false} GoodParked(s: State)
    requires Good(s) && !s.appender
    ensures Parked(s)
  {
    forall t | 0 <= t < |s.threads|
      ensures !s.threads[t].Writing? && (s.threads[t].Sleeping? ==> s.threads[t].generation <= s.generation)
    {
      assert PhaseOk(s, s.threads[t], t in s.before);
    }
  }

  lemma {:induction false} TruncateKeepsGood(s: State, offset: nat)
    requires Parked(s) && Possible(s, Truncate(offset)) && Clear(s, offset)
    ensures Good(After(s, Truncate(offset)))
  {
    var s' := After(s, Truncate(offset));
    forall t | 0 <= t < |s'.threads| ensures PhaseOk(s', s'.threads[t], t in s'.before) && !s'.threads[t].Writing? {
      assert !Stale(s.threads[t], s'.written);
    }
  }

  /** At most one leader, as long as the log is only truncated while there is none. */
  lemma {:induction false} StepKeepsFlagged(s: State, step: Step)
    requires Flagged(s) && Possible(s, step) && (step.Truncate? ==> Unled(s))
    ensures Flagged(After(s, step))
  {
    var s' := After(s, step);
    if step.Truncate? {
      forall t: nat ensures !Leader(s', t) { assert !Leader(s, t); }
    } else {
      var t := Mover(step);
      MoverFlags(s, step);
      hide After;
      forall u: nat | Leader(s', u) ensures s'.syncing && (u != t ==> Leader(s, u)) && (u == t ==> Leader(s, t) || !s.syncing) {
        if u != t { assert Leader(s, u); }
        if s.threads[t].Leads() { assert Leader(s, t); }
      }
    }
  }

  // ---- every run -----------------------------------------------------------

  /** A run in which the log is only truncated while no leader has read past what
      is left. */
  ghost predicate IsRun(run: seq<State>, steps: seq<Step>) {
    && |run| == |steps| + 1
    && (exists length, n :: run[0] == Start(length, n))
    && forall i :: 0 <= i < |steps| ==>
         Possible(run[i], steps[i]) && (steps[i].Truncate? ==> Clear(run[i], steps[i].offset)) && run[i+1] == After(run[i], steps[i])
  }

  lemma {:induction false} RunGood(run: seq<State>, steps: seq<Step>, i: nat)
    requires IsRun(run, steps) && i < |run|
    ensures Good(run[i])
  {
    if i == 0 {
      var length, n :| run[0] == Start(length, n);
      StartGood(length, n);
    } else {
      RunGood(run, steps, i - 1);
      StepKeepsGood(run[i-1], steps[i-1]);
    }
  }

  /** A commit begun since the last truncation was acknowledged without its bytes
      being synced. */
  ghost predicate Broken(s: State) {
    exists t :: 0 <= t < |s.threads| && t !in s.before && s.threads[t].Returned? && s.threads[t].ok && s.threads[t].offset > s.synced
  }

  lemma {:induction false} GoodNotBroken(s: State)
    requires Good(s)
    ensures !Broken(s)
  {
    forall t | 0 <= t < |s.threads| && t !in s.before && s.threads[t].Returned? && s.threads[t].ok
      ensures s.threads[t].offset <= s.synced
    {
      assert PhaseOk(s, s.threads[t], t in s.before);
    }
  }

  /** In every run: a watermark that never passes the synced bytes, every Ok backed
      by a completed sync, and nothing moving backwards but by a truncation. */
  lemma {:induction false} CommitsAreDurable(run: seq<State>, steps: seq<Step>, i: nat)
    requires IsRun(run, steps) && i < |run|
    ensures run[i].watermark <= run[i].synced && !Broken(run[i])
    ensures i < |steps| && !steps[i].Truncate? ==>
      run[i].watermark <= run[i+1].watermark && run[i].synced <= run[i+1].synced
  {
    RunGood(run, steps, i);
    GoodNotBroken(run[i]);
    if i < |steps| { StepKeepsGood(run[i], steps[i]); }
  }

  /** And one sync leader at most, if no truncation finds one at work. */
  lemma {:induction false} OneSyncAtATime(run: seq<State>, steps: seq<Step>, i: nat)
    requires IsRun(run, steps) && i < |run|
    requires forall k :: 0 <= k < i && steps[k].Truncate? ==> Unled(run[k])
    ensures Flagged(run[i])
  {
    if i == 0 {
      var length, n :| run[0] == Start(length, n);
      StartGood(length, n);
    } else {
      OneSyncAtATime(run, steps, i - 1);
      StepKeepsFlagged(run[i-1], steps[i-1]);
    }
  }

  // ---- one sync for many ---------------------------------------------------

  /** The test a waiting thread makes next. */
  function NextTest(p: Phase, u: nat): Step { if p.Committing? then Test(u) else if p.Queued? then Enter(u) else Wake(u) }

  /** A leader reads all that has been written, and when its sync is over everyone who
      waits for no more than that is acknowledged by the next test, without a sync of
      its own; no one else is. */
  lemma {:induction false} OneSyncServesAll(s: State, t: nat, u: nat, o: nat)
    requires u < |s.threads| && u != t && (s.threads[u].Committing? || s.threads[u].Queued? || s.threads[u].Sleeping?) && s.threads[u].offset == o
    ensures Possible(s, Load(t)) ==> After(s, Load(t)).threads[t] == Loaded(s.threads[t].offset, s.written)
    ensures Possible(s, Complete(t)) ==>
      var s1 := After(s, Complete(t));
      && s1.threads[t] == Returned(s.threads[t].offset, true) && s1.threads[u] == s.threads[u] && !s1.syncing
      && Possible(s1, NextTest(s.threads[u], u))
      && var s2 := After(s1, NextTest(s.threads[u], u));
         (s2.threads[u] == Returned(o, true) && s2.syncing == s1.syncing <==> o <= Max(s.watermark, s.threads[t].covered))
  {
  }

  /** A sync makes durable what the file held when it began, whatever is appended while
      it runs, and takes nothing back. */
  lemma {:induction false} SyncReachesItsStart(s: State, t: nat, later: State)
    requires Possible(s, SyncStart(t)) && t < |later.threads| && later.threads[t] == After(s, SyncStart(t)).threads[t]
    requires s.filled <= later.filled
    ensures Possible(later, SyncEnd(t, true))
    ensures After(later, SyncEnd(t, true)).synced == if later.synced < s.filled then s.filled else later.synced
    ensures After(later, SyncEnd(t, false)).synced == later.synced
  {
  }

  /** A failed sync fails its leader only: the watermark stays, and the next waiter that
      still has to wait becomes the leader of another sync. */
  lemma {:induction false} FailureElectsNext(s: State, t: nat, u: nat, o: nat)
    requires u < |s.threads| && u != t && (s.threads[u].Queued? || s.threads[u].Sleeping?) && s.threads[u].offset == o
    requires Possible(s, Abort(t))
    ensures var s1 := After(s, Abort(t));
      && s1.threads[t] == Returned(s.threads[t].offset, false) && s1.watermark == s.watermark && s1.synced == s.synced
      && Possible(s1, NextTest(s.threads[u], u))
      && After(s1, NextTest(s.threads[u], u)).threads[u] == if o <= s.watermark then Returned(o, true) else Leading(o)
  {
  }

  // ---- no lost wake-up -----------------------------------------------------

  /** What `t` can do next without relying on a spurious wake-up. */
  ghost predicate CanMove(s: State, t: nat) {
    && t < |s.threads|
    && (s.threads[t].Writing? || s.threads[t].Committing? || s.threads[t].Queued? || s.threads[t].Leads()
        || (s.threads[t].Sleeping? && s.threads[t].generation < s.generation))
  }

  /** A step of thread `u` itself that takes it on. */
  ghost predicate Advances(s: State, u: nat, step: Step) {
    && !step.Truncate? && step.t == u && Possible(s, step)
    && u < |After(s, step).threads| && After(s, step).threads[u] != s.threads[u]
  }

  /** The step such a thread takes next. */
  function OwnStep(p: Phase, u: nat): Step {
    match p
    case Writing(_) => Publish(u, true)
    case Leading(_) => Load(u)
    case Loaded(_, _) => SyncStart(u)
    case Syncing(_, _, _) => SyncEnd(u, true)
    case SyncOk(_, _) => Complete(u)
    case SyncFailed(_) => Abort(u)
    case _ => NextTest(p, u)
  }

  lemma {:induction false} MovesOn(s: State, u: nat)
    requires CanMove(s, u)
    ensures Advances(s, u, OwnStep(s.threads[u], u))
  {
  }

  /** While anyone is inside a commit, someone can take a step on: a sleeper that
      was not notified has a leader still at work. */
  lemma {:induction false} NeverStuck(s: State, t: nat)
    requires Good(s) && t < |s.threads| && (s.threads[t].Committing? || s.threads[t].Queued? || s.threads[t].Sleeping? || s.threads[t].Leads())
    ensures exists u: nat, step :: Advances(s, u, step)
  {
    assert PhaseOk(s, s.threads[t], t in s.before);
    if s.threads[t].Sleeping? && s.threads[t].generation == s.generation {
      var u: nat :| Leader(s, u);
      MovesOn(s, u);
    } else {
      MovesOn(s, t);
    }
  }

  // ---- truncation under a sync in flight -----------------------------------

  /** Steps that can be taken one after the other, truncating only while clear. */
  ghost predicate Careful(s: State, steps: seq<Step>)
    decreases |steps|
  {
    steps != [] ==>
      && Possible(s, steps[0]) && (steps[0].Truncate? ==> Clear(s, steps[0].offset))
      && Careful(After(s, steps[0]), steps[1..])
  }

  ghost function Steps(s: State, steps: seq<Step>): State
    requires Careful(s, steps)
    decreases |steps|
  {
    if steps == [] then s else Steps(After(s, steps[0]), steps[1..])
  }

  lemma {:induction false} CarefulGood(s: State, steps: seq<Step>)
    requires Good(s) && Careful(s, steps)
    ensures Good(Steps(s, steps))
    decreases |steps|
  {
    if steps != [] {
      StepKeepsGood(s, steps[0]);
      CarefulGood(After(s, steps[0]), steps[1..]);
    }
  }

  /** Some continuation acknowledges a commit whose bytes are not synced. */
  ghost predicate CanBreak(s: State) { exists steps :: Careful(s, steps) && Broken(Steps(s, steps)) }

  ghost function Cons(a: Step, rest: seq<Step>): seq<Step> { [a] + rest }

  lemma {:induction false} Chain(s: State, a: Step, rest: seq<Step>)
    requires Possible(s, a) && !a.Truncate? && Careful(After(s, a), rest)
    ensures Careful(s, Cons(a, rest)) && Steps(s, Cons(a, rest)) == Steps(After(s, a), rest)
  {
    assert ([a] + rest)[1..] == rest;
  }

  /** A log whose bytes are all synced, just after a truncation. */
  ghost predicate Settled(s: State) { s.filled == s.written == s.synced && !s.appender }

  /** With the watermark past the end of the log, the next append of an idle thread
      is acknowledged without a sync. */
  lemma {:induction false} TrustedTooSoon(s: State, t: nat) returns (steps: seq<Step>)
    requires Settled(s) && s.watermark > s.written && t < |s.threads| && s.threads[t].Idle?
    ensures Careful(s, steps) && Broken(Steps(s, steps))
  {
    var none: seq<Step> := [];
    var s1 := After(s, Pwrite(t, 1));
    var s2 := After(s1, Publish(t, true));
    var s3 := After(s2, Test(t));
    assert s3.threads[t] == Returned(s.written + 1, true) && s3.synced == s.written && t !in s3.before;
    assert Broken(s3);
    Chain(s2, Test(t), none);
    Chain(s1, Publish(t, true), Cons(Test(t), none));
    Chain(s, Pwrite(t, 1), Cons(Publish(t, true), Cons(Test(t), none)));
    steps := Cons(Pwrite(t, 1), Cons(Publish(t, true), Cons(Test(t), none)));
  }

  /** A stale leader goes on to publish the length it read before the truncation. */
  lemma {:induction false} StaleComplete(s: State, t: nat) returns (steps: seq<Step>)
    requires Settled(s) && t < |s.threads| && Stale(s.threads[t], s.written)
    ensures Careful(s, steps) && Broken(Steps(s, steps))
    decreases if s.threads[t].Loaded? then 2 else if s.threads[t].Syncing? then 1 else 0
  {
    if s.threads[t].SyncOk? {
      var s1 := After(s, Complete(t));
      var s2 := After(s1, Leave(t));
      steps := TrustedTooSoon(s2, t);
      Chain(s1, Leave(t), steps);
      steps := Cons(Leave(t), steps);
      Chain(s, Complete(t), steps);
      steps := Cons(Complete(t), steps);
    } else {
      var step := if s.threads[t].Loaded? then SyncStart(t) else SyncEnd(t, true);
      var rest := StaleComplete(After(s, step), t);
      Chain(s, step, rest);
      steps := Cons(step, rest);
    }
  }

  /** A commit can be acknowledged without its bytes being synced some time after
      a truncation if and only if the truncation found a leader that had read a
      written length beyond what it left. */
  lemma {:induction false} TruncationExact(s: State, offset: nat)
    requires Parked(s) && Possible(s, Truncate(offset))
    ensures Clear(s, offset) <==> !CanBreak(After(s, Truncate(offset)))
  {
    var s' := After(s, Truncate(offset));
    if Clear(s, offset) {
      forall steps | Careful(s', steps) ensures !Broken(Steps(s', steps)) {
        TruncateKeepsGood(s, offset);
        CarefulGood(s', steps);
        GoodNotBroken(Steps(s', steps));
      }
    } else {
      var t :| 0 <= t < |s.threads| && Stale(s.threads[t], s.written - offset);
      var steps := StaleComplete(s', t);
      assert Careful(s', steps) && Broken(Steps(s', steps));
    }
  }

  /** Emptying the log under a sync in flight: thread 0 appended ten bytes and leads
      the sync, and its next append is lost. */
  lemma {:induction false} TruncateUnderSync()
    ensures var s := State(10, 10, 0, 0, true, 0, false, [Loaded(10, 10)], {});
      Good(s) && Possible(s, Truncate(10)) && !Clear(s, 10) && CanBreak(After(s, Truncate(10)))
  {
    var s := State(10, 10, 0, 0, true, 0, false, [Loaded(10, 10)], {});
    assert Leader(s, 0) && Stale(s.threads[0], 0);
    GoodParked(s);
    TruncationExact(s, 10);
  }
}
