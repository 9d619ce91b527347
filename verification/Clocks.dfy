/** Commit sequence numbers and live read snapshots (src/csn.rs). */
module Clocks {
  import opened Wrappers
  import opened Mvcc
  import opened Protocol

  class CsnGenerator {
    var next: Csn
    /** How many pins are live at each CSN. */
    var active: map<Csn, nat>
    /** The largest horizon handed out so far. */
    ghost var handed: Csn

    /** No live pin lies below a horizon already handed out, nor above the clock. */
    ghost predicate Valid()
      reads this
    {
      && next > 0 && handed <= next - 1
      && (forall c :: c in active ==> handed <= c <= next - 1 && active[c] > 0)
    }

    ghost function Now(): Csn
      requires next > 0
      reads this
    {
      next - 1
    }

    constructor ()
      ensures Valid() && Now() == 0 && active == map[] && handed == 0
    {
      next, active, handed := 1, map[], 0;
    }

    method Allocate() returns (csn: Csn)
      requires Valid()
      modifies this`next
      ensures Valid() && csn == old(Now()) + 1 == Now()
    {
      csn := next;
      next := next + 1;
    }

    method Current() returns (csn: Csn)
      requires Valid()
      ensures csn == Now()
    {
      csn := next - 1;
    }

    /** Recovery: never hand out a stamp a replayed record already used. */
    method SetFloor(csn: Csn)
      requires Valid()
      modifies this`next
      ensures Valid() && Now() == if old(Now()) < csn then csn else old(Now())
    {
      if next < csn + 1 { next := csn + 1; }
    }

    /** Register a reader at the current stamp, which no horizon handed out so far exceeds. */
    method Pin() returns (csn: Csn)
      requires Valid()
      modifies this`active
      ensures Valid() && csn == Now() && handed <= csn
      ensures active == old(active)[csn := if csn in old(active) then old(active)[csn] + 1 else 1]
    {
      csn := next - 1;
      active := active[csn := if csn in active then active[csn] + 1 else 1];
    }

    method Release(csn: Csn)
      requires Valid()
      modifies this`active
      ensures Valid()
      ensures active == if csn !in old(active) then old(active)
                        else if old(active)[csn] <= 1 then old(active) - {csn}
                        else old(active)[csn := old(active)[csn] - 1]
    {
      if csn in active {
        if active[csn] - 1 == 0 { active := active - {csn}; } else { active := active[csn := active[csn] - 1]; }
      }
    }

    /** The oldest live pin, or the clock: never above a live pin, and from now on
        below every pin still to come. */
    method GcHorizon() returns (g: Csn)
      requires Valid()
      modifies this`handed
      ensures Valid() && g == Protocol.GcHorizon(active, Now())
      ensures forall c :: c in active ==> g <= c
      ensures old(handed) <= handed && g <= handed
    {
      g := next - 1;
      var left := active.Keys;
      while left != {}
        invariant left <= active.Keys && g <= Now()
        invariant forall c :: c in active && c !in left ==> g <= c
        invariant g == Now() || g in active
        decreases left
      {
        var c :| c in left;
        if c < g { g := c; }
        left := left - {c};
      }
      LeastIsHorizon(active, Now(), g);
      handed := if g > handed then g else handed;
    }
  }

  lemma {:induction false} LeastIsHorizon(active: map<Csn, nat>, now: Csn, g: Csn)
    requires (forall c :: c in active ==> g <= c) && (g == now || g in active) && forall c :: c in active ==> c <= now
    ensures g == Protocol.GcHorizon(active, now)
  {
    if active != map[] {
      var h := Protocol.GcHorizon(active, now);
      assert h in active && g <= h && h <= now;
    }
  }
}
