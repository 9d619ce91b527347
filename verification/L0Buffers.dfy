/** The write buffer: versions in insertion order and an index of the newest one
    of each key (src/l0.rs). */
module L0Buffers {
  import opened Sorting
  import opened Values
  import opened Wrappers
  import opened Mvcc

  /** `newest` knows each buffered key's last entry, and no other key. */
  ghost predicate Indexes(newest: map<Value, nat>, entries: seq<Version>) {
    && (forall k :: k in newest ==> newest[k] < |entries| && entries[newest[k]].row.key == k)
    && (forall i :: 0 <= i < |entries| ==> entries[i].row.key in newest && i <= newest[entries[i].row.key])
  }

  class L0Buffer {
    var entries: seq<Version>
    var newest: map<Value, nat>

    ghost predicate Valid()
      reads this
    {
      Indexes(newest, entries)
    }

    constructor ()
      ensures Valid() && entries == []
    {
      entries, newest := [], map[];
    }

    method Insert(row: Row, csn: Csn)
      requires Valid()
      modifies this
      ensures Valid() && entries == old(entries) + [Version(row, csn, NEVER)]
    {
      entries := entries + [Version(row, csn, NEVER)];
      newest := newest[row.key := |entries| - 1];
    }

    /** The newest version of `key` the snapshot sees, through the index when it can. */
    method Lookup(key: Value, s: Csn) returns (r: Option<nat>)
      requires Valid()
      ensures r == L0Lookup(entries, key, s)
    {
      if key in newest && entries[newest[key]].VisibleTo(s) {
        LastOne(entries, key, s, newest[key]);
        return Some(newest[key]);
      }
      var i := |entries|;
      while i > 0
        invariant 0 <= i <= |entries|
        invariant forall j :: i <= j < |entries| ==> !entries[j].Shows(key, s)
      {
        i := i - 1;
        if entries[i].Shows(key, s) {
          LastOne(entries, key, s, i);
          return Some(i);
        }
      }
      LookupNone(entries, key, s);
      r := None;
    }

    method MarkDeleted(index: nat, csn: Csn) returns (ok: bool)
      requires Valid() && index < |entries|
      modifies this`entries
      ensures Valid() && ok == (old(entries)[index].deleted == NEVER)
      ensures entries == if ok then old(entries)[index := old(entries)[index].(deleted := csn)] else old(entries)
    {
      if entries[index].deleted != NEVER { return false; }
      entries := entries[index := entries[index].(deleted := csn)];
      ok := true;
    }

    /** Drain the buffer, sorted by key and creation stamp: every version is kept,
        and together they are the part the table will hold. */
    method Seal(id: nat) returns (p: Part)
      requires Valid()
      modifies this
      ensures Valid() && entries == [] && p == PartOf(id, SortBy(old(entries), VersionLe))
      ensures p.Ok() && multiset(p.Versions()) == multiset(old(entries))
    {
      var sorted := SortBy(entries, VersionLe);
      VersionLePreorder();
      SortBySorted(entries, VersionLe);
      PartOfOk(id, sorted);
      entries, newest := [], map[];
      p := Unzip(id, sorted);
      assert p.Versions() == sorted;
    }
  }

  /** One pass over the sorted versions, into rows, stamps and tombstones. */
  method Unzip(id: nat, sorted: seq<Version>) returns (p: Part)
    ensures p == PartOf(id, sorted)
  {
    var rows: seq<Row>, created: seq<Csn>, deletions: Dv := [], [], map[];
    for ord := 0 to |sorted|
      invariant rows == RowsOf(sorted[..ord]) && created == CreatedOf(sorted[..ord])
      invariant deletions == Tombs(sorted[..ord])
    {
      assert sorted[..ord+1] == sorted[..ord] + [sorted[ord]];
      TombsNext(sorted[..ord], sorted[ord]);
      created := created + [sorted[ord].created];
      if sorted[ord].deleted != NEVER { deletions := deletions[ord := sorted[ord].deleted]; }
      rows := rows + [sorted[ord].row];
    }
    assert sorted[..|sorted|] == sorted;
    p := Part(id, rows, PerRow(created), MinOf(created), MaxOf(created), deletions);
  }

  ghost function Tombs(vs: seq<Version>): Dv { map i | 0 <= i < |vs| && vs[i].deleted != NEVER :: vs[i].deleted }

  lemma {:induction false} TombsNext(vs: seq<Version>, v: Version)
    ensures Tombs(vs + [v]) == if v.deleted != NEVER then Tombs(vs)[|vs| := v.deleted] else Tombs(vs)
  {
    var all := vs + [v];
    assert forall i :: 0 <= i < |vs| ==> all[i] == vs[i];
  }

  lemma {:induction false} LastOne(entries: seq<Version>, key: Value, s: Csn, i: nat)
    requires i < |entries| && entries[i].Shows(key, s) && forall j :: i < j < |entries| ==> !entries[j].Shows(key, s)
    ensures L0Lookup(entries, key, s) == Some(i)
  {
  }

  lemma {:induction false} LookupNone(entries: seq<Version>, key: Value, s: Csn)
    requires forall j :: 0 <= j < |entries| ==> !entries[j].Shows(key, s)
    ensures L0Lookup(entries, key, s) == None
  {
  }
}
