/** The four-stage lookup in a sealed part: bounds, Bloom filter, binary search,
    then visibility over the run of equal keys (src/part.rs:213-280). */
module PartLookup {
  import opened Values
  import opened Wrappers
  import opened Mvcc
  import opened Reads
  import opened Bloom

  datatype LookupResult = OutOfBounds | BloomMiss | NotPresent | NotVisible | Found(ord: nat)

  /** Binary search of the sorted key column. */
  method SearchKey(rows: seq<Row>, key: Value) returns (hit: Option<nat>)
    requires SortedByKey(rows)
    ensures hit.Some? ==> hit.value < |rows| && rows[hit.value].key == key
    ensures hit.None? ==> forall i :: 0 <= i < |rows| ==> rows[i].key != key
  {
    var lo, hi := 0, |rows|;
    while lo < hi
      invariant 0 <= lo <= hi <= |rows|
      invariant forall i :: 0 <= i < lo ==> KeyCmp(rows[i].key, key) == Less
      invariant forall i :: hi <= i < |rows| ==> KeyCmp(rows[i].key, key) == Greater
    {
      var mid := (lo + hi) / 2;
      match KeyCmp(rows[mid].key, key)
      case Less =>
        forall i | 0 <= i <= mid ensures KeyCmp(rows[i].key, key) == Less {
          if i < mid { Below(rows[i].key, rows[mid].key, key); }
        }
        lo := mid + 1;
      case Greater =>
        forall i | mid <= i < |rows| ensures KeyCmp(rows[i].key, key) == Greater {
          if mid < i { Above(rows[i].key, rows[mid].key, key); }
        }
        hi := mid;
      case Equal =>
        KeyCmpEqual(rows[mid].key, key);
        return Some(mid);
    }
    forall i | 0 <= i < |rows| ensures rows[i].key != key { KeyCmpEqual(rows[i].key, key); }
    hit := None;
  }

  lemma {:induction false} Below(a: Value, b: Value, c: Value)
    requires KeyLe(a, b) && KeyCmp(b, c) == Less
    ensures KeyCmp(a, c) == Less
  {
    KeyLeTransitive(a, b, c);
    KeyCmpEqual(a, c);
    KeyCmpEqual(b, c);
    KeyCmpEqual(a, b);
  }

  lemma {:induction false} Above(a: Value, b: Value, c: Value)
    requires KeyLe(b, a) && KeyCmp(b, c) == Greater
    ensures KeyCmp(a, c) == Greater
  {
    KeyCmpEqual(b, c);
    KeyCmpEqual(a, b);
    KeyCmpEqual(a, c);
    if KeyCmp(a, c) != Greater { KeyLeTransitive(b, a, c); }
  }

  /** All rows sharing the key at `i`, as an inclusive range. */
  method EqualKeyRun(rows: seq<Row>, i: nat) returns (lo: nat, hi: nat)
    requires SortedByKey(rows) && i < |rows|
    ensures lo <= i <= hi < |rows|
    ensures forall j :: 0 <= j < |rows| ==> (lo <= j <= hi <==> rows[j].key == rows[i].key)
  {
    var key := rows[i].key;
    lo := i;
    while lo > 0 && KeyCmp(rows[lo-1].key, key) == Equal
      invariant lo <= i && forall j :: lo <= j <= i ==> rows[j].key == key
    {
      KeyCmpEqual(rows[lo-1].key, key);
      lo := lo - 1;
    }
    hi := i;
    while hi + 1 < |rows| && KeyCmp(rows[hi+1].key, key) == Equal
      invariant i <= hi < |rows| && forall j :: lo <= j <= hi ==> rows[j].key == key
    {
      KeyCmpEqual(rows[hi+1].key, key);
      hi := hi + 1;
    }
    forall j | 0 <= j < |rows| && !(lo <= j <= hi) ensures rows[j].key != key {
      RunEnds(rows, key, lo, hi, j);
    }
  }

  lemma {:induction false} RunEnds(rows: seq<Row>, key: Value, lo: nat, hi: nat, j: nat)
    requires SortedByKey(rows) && lo <= hi < |rows| && rows[lo].key == key == rows[hi].key && j < |rows| && (j < lo || hi < j)
    requires lo > 0 ==> KeyCmp(rows[lo-1].key, key) != Equal
    requires hi + 1 < |rows| ==> KeyCmp(rows[hi+1].key, key) != Equal
    ensures rows[j].key != key
  {
    if j < lo {
      Sandwich(rows, j, lo - 1, lo);
      KeyCmpEqual(rows[lo-1].key, key);
    } else {
      Sandwich(rows, hi, hi + 1, j);
      KeyCmpEqual(rows[hi+1].key, key);
    }
  }

  /** Between two rows of one key every row has it. */
  lemma {:induction false} Sandwich(rows: seq<Row>, a: nat, b: nat, c: nat)
    requires SortedByKey(rows) && a <= b <= c < |rows|
    ensures rows[a].key == rows[c].key ==> rows[b].key == rows[a].key
  {
    KeyCmpEqual(rows[a].key, rows[b].key);
    KeyCmpEqual(rows[b].key, rows[c].key);
    assert a == b || KeyLe(rows[a].key, rows[b].key);
    assert b == c || KeyLe(rows[b].key, rows[c].key);
  }

  /** No tombstone can hide anything from this snapshot. */
  predicate Irrelevant(dv: Dv, s: Csn) { forall o | o in dv :: s < dv[o] }

  lemma {:induction false} OutsideBounds(p: Part, key: Value, i: nat)
    requires SortedByKey(p.rows) && i < |p.rows|
    requires KeyCmp(key, MinKey(p)) == Less || KeyCmp(key, MaxKey(p)) == Greater
    ensures p.rows[i].key != key
  {
    var (first, last) := (p.rows[0].key, p.rows[|p.rows|-1].key);
    KeyCmpEqual(key, first);
    KeyCmpEqual(key, last);
    assert i == 0 || KeyLe(first, p.rows[i].key);
    assert i == |p.rows| - 1 || KeyLe(p.rows[i].key, last);
  }

  /** Stage four: the first version in the run of equal keys that the snapshot sees. */
  method FirstVisible(p: Part, key: Value, s: Csn, lo: nat, hi: nat) returns (r: LookupResult)
    requires p.Ok() && s < NEVER && lo <= hi < |p.rows|
    requires forall j :: 0 <= j < |p.rows| ==> (lo <= j <= hi <==> p.rows[j].key == key)
    ensures r.Found? || r.NotVisible?
    ensures r.Found? <==> PartLookup(p, key, s).Some?
    ensures r.Found? ==> PartLookup(p, key, s) == Some(r.ord)
  {
    hide SortedByKey;
    hide PartLookup;
    var relevant := !Irrelevant(p.dv, s);
    for ord := lo to hi + 1
      invariant forall i :: 0 <= i < ord && i < |p.rows| ==> !p.VersionAt(i).Shows(key, s)
    {
      if p.stamps.At(ord) <= s && !(relevant && p.DeletedAt(ord) <= s) {
        assert p.VersionAt(ord).Shows(key, s);
        return Found(ord);
      }
    }
    r := NotVisible;
  }

  /** Some bit of the probe is no key's. */
  ghost predicate Rejects(words: seq<bv64>, keys: set<bv64>, probe: bv64) {
    |words| > 0 && !AllTaken(keys, probe, 64 * |words|)
  }

  lemma {:induction false} FilterSized(filter: BloomFilter)
    requires filter.Valid()
    ensures |filter.words| > 0
  {
  }

  lemma {:induction false} AbsentNotFound(p: Part, key: Value, s: Csn)
    requires p.stamps.Covers(|p.rows|) && forall i :: 0 <= i < |p.rows| ==> p.rows[i].key != key
    ensures PartLookup(p, key, s).None?
  {
  }

  /** Finds a row exactly when a linear scan finds a visible row with the key, and
      then the same one; the first three misses mean no row has the key at all. */
  method Lookup(p: Part, filter: BloomFilter, key: Value, s: Csn) returns (r: LookupResult)
    requires p.Ok() && s < NEVER && filter.Valid()
    requires forall i :: 0 <= i < |p.rows| ==> Seed(p.rows[i].key) in filter.keys
    ensures r.Found? <==> PartLookup(p, key, s).Some?
    ensures r.Found? ==> PartLookup(p, key, s) == Some(r.ord)
    ensures r.OutOfBounds? || r.BloomMiss? || r.NotPresent? ==> forall i :: 0 <= i < |p.rows| ==> p.rows[i].key != key
    ensures r.NotVisible? ==> exists i :: 0 <= i < |p.rows| && p.rows[i].key == key
    ensures r.OutOfBounds? <==> p.rows == [] || KeyCmp(key, MinKey(p)) == Less || KeyCmp(key, MaxKey(p)) == Greater
    ensures r.BloomMiss? <==> !r.OutOfBounds? && Rejects(filter.words, filter.keys, Seed(key))
  {
    hide KeyCmp;
    hide PartLookup;
    hide SortedByKey;
    FilterSized(filter);
    hide BloomFilter.Valid;
    hide AllTaken;
    hide Seed;
    if p.rows == [] || KeyCmp(key, MinKey(p)) == Less || KeyCmp(key, MaxKey(p)) == Greater {
      forall i | 0 <= i < |p.rows| ensures p.rows[i].key != key { OutsideBounds(p, key, i); }
      AbsentNotFound(p, key, s);
      return OutOfBounds;
    }
    var maybe := filter.MaybeContains(Seed(key));
    if !maybe {
      AbsentNotFound(p, key, s);
      return BloomMiss;
    }
    var hit := SearchKey(p.rows, key);
    if hit.None? {
      AbsentNotFound(p, key, s);
      return NotPresent;
    }
    var lo, hi := EqualKeyRun(p.rows, hit.value);
    r := FirstVisible(p, key, s, lo, hi);
  }
}
