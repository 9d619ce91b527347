/** Tombstones of one part as a vector sorted by ordinal (src/delete_vector.rs). */
module DeleteVectors {
  import opened Wrappers
  import opened Mvcc

  type Entry = (nat, Csn)

  ghost predicate Ascending(es: seq<Entry>) { forall i, j :: 0 <= i < j < |es| ==> es[i].0 < es[j].0 }

  /** The entries list the map, each ordinal once. */
  ghost predicate Lists(es: seq<Entry>, dv: Dv) {
    && Ascending(es)
    && (forall i :: 0 <= i < |es| ==> es[i].0 in dv && dv[es[i].0] == es[i].1)
    && (forall o :: o in dv ==> Has(es, o))
  }

  ghost predicate Has(es: seq<Entry>, ordinal: nat) { exists i :: 0 <= i < |es| && es[i].0 == ordinal }

  /** Where `ordinal` is, or where it belongs. */
  method BinarySearch(es: seq<Entry>, ordinal: nat) returns (found: bool, pos: nat)
    requires Ascending(es)
    ensures pos <= |es| && (found ==> pos < |es| && es[pos].0 == ordinal)
    ensures !found ==> (forall i :: 0 <= i < pos ==> es[i].0 < ordinal) && (forall i :: pos <= i < |es| ==> ordinal < es[i].0)
  {
    var lo, hi := 0, |es|;
    while lo < hi
      invariant 0 <= lo <= hi <= |es|
      invariant forall i :: 0 <= i < lo ==> es[i].0 < ordinal
      invariant forall i :: hi <= i < |es| ==> ordinal < es[i].0
    {
      var mid := (lo + hi) / 2;
      if es[mid].0 == ordinal { return true, mid; }
      if es[mid].0 < ordinal { lo := mid + 1; } else { hi := mid; }
    }
    found, pos := false, lo;
  }

  function Inserted(es: seq<Entry>, pos: nat, e: Entry): (r: seq<Entry>)
    requires pos <= |es|
    ensures |r| == |es| + 1
    ensures forall i :: 0 <= i < |r| ==> r[i] == if i < pos then es[i] else if i == pos then e else es[i-1]
  {
    es[..pos] + [e] + es[pos..]
  }

  lemma {:induction false} InsertLists(es: seq<Entry>, dv: Dv, pos: nat, e: Entry)
    requires Lists(es, dv) && pos <= |es|
    requires (forall i :: 0 <= i < pos ==> es[i].0 < e.0) && (forall i :: pos <= i < |es| ==> e.0 < es[i].0)
    ensures e.0 !in dv && Lists(Inserted(es, pos, e), dv[e.0 := e.1])
  {
    Absent(es, dv, e.0);
    InsertAscending(es, pos, e);
    hide Inserted;
    hide Ascending;
    var (es', dv') := (Inserted(es, pos, e), dv[e.0 := e.1]);
    forall o | o in dv' ensures Has(es', o) {
      if o == e.0 {
        assert es'[pos].0 == o;
      } else {
        assert Has(es, o);
        InsertHas(es, pos, e, o);
      }
    }
  }

  lemma {:induction false} Absent(es: seq<Entry>, dv: Dv, ordinal: nat)
    requires Lists(es, dv) && forall i :: 0 <= i < |es| ==> es[i].0 != ordinal
    ensures ordinal !in dv
  {
    assert !Has(es, ordinal);
  }

  lemma {:induction false} InsertAscending(es: seq<Entry>, pos: nat, e: Entry)
    requires Ascending(es) && pos <= |es|
    requires (forall i :: 0 <= i < pos ==> es[i].0 < e.0) && (forall i :: pos <= i < |es| ==> e.0 < es[i].0)
    ensures Ascending(Inserted(es, pos, e))
  {
    var r := Inserted(es, pos, e);
    forall i, j | 0 <= i < j < |r| ensures r[i].0 < r[j].0 {
      if i != pos && j != pos {
        assert es[if i < pos then i else i - 1].0 < es[if j < pos then j else j - 1].0;
      }
    }
  }

  lemma {:induction false} InsertHas(es: seq<Entry>, pos: nat, e: Entry, o: nat)
    requires pos <= |es| && Has(es, o)
    ensures Has(Inserted(es, pos, e), o)
  {
    var i :| 0 <= i < |es| && es[i].0 == o;
    assert Inserted(es, pos, e)[if i < pos then i else i + 1].0 == o;
  }

  /** The entries stamped after `csn`. */
  function Later(es: seq<Entry>, csn: Csn): seq<Entry> {
    if es == [] then [] else Later(es[..|es|-1], csn) + (if csn < es[|es|-1].1 then [es[|es|-1]] else [])
  }

  lemma {:induction false} LaterNone(csn: Csn)
    ensures Later([], csn) == []
  {
  }

  lemma {:induction false} LaterNext(es: seq<Entry>, i: nat, csn: Csn)
    requires i < |es|
    ensures Later(es[..i+1], csn) == Later(es[..i], csn) + (if csn < es[i].1 then [es[i]] else [])
  {
    assert es[..i+1][..i] == es[..i];
  }

  lemma {:induction false} LaterMembers(es: seq<Entry>, csn: Csn, e: Entry)
    ensures e in Later(es, csn) <==> e in es && csn < e.1
  {
    if es != [] {
      var n := |es| - 1;
      LaterMembers(es[..n], csn, e);
      assert es == es[..n] + [es[n]];
    }
  }

  lemma {:induction false} LaterAscending(es: seq<Entry>, csn: Csn)
    requires Ascending(es)
    ensures Ascending(Later(es, csn))
  {
    if es != [] {
      var n := |es| - 1;
      LaterAscending(es[..n], csn);
      var front := Later(es[..n], csn);
      forall i | 0 <= i < |front| ensures front[i].0 < es[n].0 {
        LaterMembers(es[..n], csn, front[i]);
      }
    }
  }

  lemma {:induction false} LaterLists(es: seq<Entry>, dv: Dv, csn: Csn)
    requires Lists(es, dv)
    ensures Lists(Later(es, csn), map o | o in dv && csn < dv[o] :: dv[o])
  {
    var (late, m) := (Later(es, csn), map o | o in dv && csn < dv[o] :: dv[o]);
    LaterAscending(es, csn);
    forall i | 0 <= i < |late| ensures late[i].0 in m && m[late[i].0] == late[i].1 { LaterMembers(es, csn, late[i]); }
    hide Later;
    forall o | o in m ensures Has(late, o) {
      assert Has(es, o);
      var i :| 0 <= i < |es| && es[i].0 == o;
      LaterMembers(es, csn, es[i]);
      var k :| 0 <= k < |late| && late[k] == es[i];
    }
  }

  /** Least and greatest stamp, with the empty vector's sentinels. */
  ghost predicate Extremes(dv: Dv, least: Csn, most: Csn) {
    && (forall o :: o in dv ==> least <= dv[o] <= most)
    && (if dv == map[] then least == NEVER && most == 0 else Stamped(dv, least) && Stamped(dv, most))
  }

  ghost predicate Stamped(dv: Dv, csn: Csn) { exists o :: o in dv && dv[o] == csn }

  lemma {:induction false} ExtremesNext(dv: Dv, least: Csn, most: Csn, ordinal: nat, csn: Csn)
    requires Extremes(dv, least, most) && ordinal !in dv && csn <= NEVER
    ensures Extremes(dv[ordinal := csn], if csn < least then csn else least, if csn > most then csn else most)
  {
    var dv' := dv[ordinal := csn];
    assert ordinal in dv' && dv'[ordinal] == csn;
    assert Stamped(dv', csn);
    forall c | Stamped(dv, c) ensures Stamped(dv', c) {
      var o :| o in dv && dv[o] == c;
      assert dv'[o] == c;
    }
  }

  class DeleteVector {
    var entries: seq<Entry>
    var minDeleted: Csn
    var maxDeleted: Csn
    /** The tombstones as a map, which is what they mean. */
    ghost var marks: Dv

    ghost predicate Valid()
      reads this
    {
      Lists(entries, marks) && Extremes(marks, minDeleted, maxDeleted)
    }

    constructor ()
      ensures Valid() && marks == map[]
    {
      entries, minDeleted, maxDeleted, marks := [], NEVER, 0, map[];
    }

    /** Record a tombstone unless the row has one: the first wins. */
    method Mark(ordinal: nat, csn: Csn) returns (added: bool)
      requires Valid() && csn <= NEVER
      modifies this
      ensures Valid() && marks == MarkDeleted(old(marks), ordinal, csn) && added == (ordinal !in old(marks))
    {
      hide Extremes;
      var found, pos := BinarySearch(entries, ordinal);
      if found { return false; }
      InsertLists(entries, marks, pos, (ordinal, csn));
      ExtremesNext(marks, minDeleted, maxDeleted, ordinal, csn);
      hide Lists;
      entries := Inserted(entries, pos, (ordinal, csn));
      minDeleted := if csn < minDeleted then csn else minDeleted;
      maxDeleted := if csn > maxDeleted then csn else maxDeleted;
      marks := marks[ordinal := csn];
      added := true;
    }

    method DeletedAt(ordinal: nat) returns (csn: Csn)
      requires Valid()
      ensures csn == if ordinal in marks then marks[ordinal] else NEVER
    {
      var found, pos := BinarySearch(entries, ordinal);
      if found { return entries[pos].1; }
      Absent(entries, marks, ordinal);
      csn := NEVER;
    }

    /** True exactly when no tombstone can hide a row from this snapshot. */
    method IsIrrelevantTo(s: Csn) returns (r: bool)
      requires Valid()
      ensures r <==> forall o :: o in marks ==> s < marks[o]
    {
      assert entries != [] ==> entries[0].0 in marks;
      forall o | o in marks ensures entries != [] { assert Has(entries, o); }
      r := entries == [] || s < minDeleted;
    }

    /** The tombstones stamped after `csn`, by ordinal, each once. */
    method EntriesAfter(csn: Csn) returns (es: seq<Entry>)
      requires Valid()
      ensures Lists(es, map o | o in marks && csn < marks[o] :: marks[o])
    {
      hide Lists;
      hide Extremes;
      hide Later;
      LaterLists(entries, marks, csn);
      es := [];
      LaterNone(csn);
      for i := 0 to |entries|
        invariant es == Later(entries[..i], csn)
      {
        LaterNext(entries, i, csn);
        if csn < entries[i].1 { es := es + [entries[i]]; }
      }
      assert entries[..|entries|] == entries;
    }
  }
}
