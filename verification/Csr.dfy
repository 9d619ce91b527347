/** Building the CSR and its transpose by counting sort (src/graph.rs:152-205). */
module Csr {
  import opened Graph
  import opened Sorting

  // ---- counting sort -------------------------------------------------------

  /** Values whose key is `k`, in input order. */
  function Select<T>(keys: seq<nat>, vals: seq<T>, k: nat): seq<T>
    requires |keys| == |vals|
  {
    if keys == [] then []
    else
      var n := |keys| - 1;
      Select(keys[..n], vals[..n], k) + (if keys[n] == k then [vals[n]] else [])
  }

  function CountOf(keys: seq<nat>, k: nat): nat {
    if keys == [] then 0 else CountOf(keys[..|keys|-1], k) + (if keys[|keys|-1] == k then 1 else 0)
  }

  /** How many keys sort before `k`. */
  function Below(keys: seq<nat>, k: nat): nat {
    if keys == [] then 0 else Below(keys[..|keys|-1], k) + (if keys[|keys|-1] < k then 1 else 0)
  }

  lemma {:induction false} BelowNext(keys: seq<nat>, k: nat)
    ensures Below(keys, k + 1) == Below(keys, k) + CountOf(keys, k)
    ensures Below(keys, 0) == 0
  {
    if keys != [] { BelowNext(keys[..|keys|-1], k); }
  }

  lemma BelowAll(keys: seq<nat>, n: nat)
    requires forall i :: 0 <= i < |keys| ==> keys[i] < n
    ensures Below(keys, n) == |keys|
  {
  }

  lemma BelowClimbs(keys: seq<nat>, a: nat, b: nat)
    requires a <= b
    ensures Below(keys, a) <= Below(keys, b) <= |keys|
  {
  }

  lemma {:induction false} CountPrefix(keys: seq<nat>, j: nat, k: nat)
    requires j <= |keys|
    ensures CountOf(keys[..j], k) <= CountOf(keys, k)
  {
    if j == |keys| {
      assert keys[..j] == keys;
    } else {
      CountPrefix(keys[..|keys|-1], j, k);
      assert keys[..|keys|-1][..j] == keys[..j];
    }
  }

  lemma {:induction false} PrefixNext<T>(xs: seq<T>, j: nat)
    requires j < |xs|
    ensures xs[..j+1][..j] == xs[..j] && xs[..j+1][j] == xs[j] && |xs[..j+1]| == j + 1
  {
  }

  /** Offsets: a histogram, then its running sums. */
  method Offsets(keys: seq<nat>, n: nat) returns (offsets: array<nat>)
    requires forall i :: 0 <= i < |keys| ==> keys[i] < n
    ensures fresh(offsets) && offsets.Length == n + 1
    ensures forall k :: 0 <= k <= n ==> offsets[k] == Below(keys, k)
  {
    offsets := new nat[n + 1](i => 0);
    for j := 0 to |keys|
      invariant offsets[0] == 0
      invariant forall k :: 0 <= k < n ==> offsets[k+1] == CountOf(keys[..j], k)
    {
      PrefixNext(keys, j);
      offsets[keys[j] + 1] := offsets[keys[j] + 1] + 1;
    }
    assert keys[..|keys|] == keys;
    BelowNext(keys, 0);
    for i := 0 to n
      invariant forall k :: 0 <= k <= i ==> offsets[k] == Below(keys, k)
      invariant forall k :: i < k <= n ==> offsets[k] == CountOf(keys, k - 1)
    {
      BelowNext(keys, i);
      offsets[i+1] := offsets[i+1] + offsets[i];
    }
  }

  /** A cursor stays inside its own bucket. */
  lemma {:induction false} CursorRoom(keys: seq<nat>, j: nat, k: nat)
    requires j <= |keys|
    ensures Below(keys, k) + CountOf(keys[..j], k) <= Below(keys, k + 1) <= |keys|
    ensures j < |keys| && keys[j] == k ==> Below(keys, k) + CountOf(keys[..j], k) < Below(keys, k + 1)
  {
    BelowNext(keys, k);
    BelowClimbs(keys, k + 1, k + 1);
    CountPrefix(keys, j, k);
    if j < |keys| && keys[j] == k {
      PrefixNext(keys, j);
      CountPrefix(keys, j + 1, k);
    }
  }

  /** Group `vals` by key with one pass over a cursor array. */
  method Group<T(0)>(keys: seq<nat>, vals: seq<T>, n: nat) returns (offsets: seq<nat>, out: seq<T>)
    requires |keys| == |vals| && forall i :: 0 <= i < |keys| ==> keys[i] < n
    ensures Slices(offsets, n, |out|)
    ensures |out| == |vals|
    ensures forall k :: 0 <= k < n ==> Bucket(offsets, out, k, Select(keys, vals, k))
  {
    var off := Offsets(keys, n);
    var cursor := new nat[n + 1](i requires 0 <= i < off.Length reads off => off[i]);
    var slots := new T[|vals|];
    forall k | 0 <= k < n ensures Placed(keys, vals, 0, k, slots[..]) {
      BelowClimbs(keys, k, k);
    }
    hide Select;
    hide Placed;
    for j := 0 to |keys|
      invariant forall k :: 0 <= k <= n ==> off[k] == Below(keys, k)
      invariant forall k :: 0 <= k < n ==> cursor[k] == Below(keys, k) + CountOf(keys[..j], k)
      invariant forall k :: 0 <= k < n ==> Placed(keys, vals, j, k, slots[..])
    {
      var key := keys[j];
      PrefixNext(keys, j);
      PrefixNext(vals, j);
      CursorRoom(keys, j, key);
      ghost var before := slots[..];
      slots[cursor[key]] := vals[j];
      cursor[key] := cursor[key] + 1;
      ghost var (after, j') := (slots[..], j + 1);
      forall k | 0 <= k < n ensures Placed(keys, vals, j', k, after) {
        assert Placed(keys, vals, j, k, before);
        PlaceNext(keys, vals, j, k, before, after);
      }
    }
    offsets, out := off[..], slots[..];
    AllPlaced(keys, vals, n, offsets, out);
  }

  lemma {:induction false} AllPlaced<T>(keys: seq<nat>, vals: seq<T>, n: nat, offsets: seq<nat>, out: seq<T>)
    requires |keys| == |vals| == |out| && forall i :: 0 <= i < |keys| ==> keys[i] < n
    requires |offsets| == n + 1 && forall k :: 0 <= k <= n ==> offsets[k] == Below(keys, k)
    requires forall k :: 0 <= k < n ==> Placed(keys, vals, |keys|, k, out)
    ensures Slices(offsets, n, |out|)
    ensures forall k :: 0 <= k < n ==> Bucket(offsets, out, k, Select(keys, vals, k))
  {
    assert keys[..|keys|] == keys && vals[..|vals|] == vals;
    BelowAll(keys, n);
    BelowNext(keys, 0);
    forall k | 0 <= k < n ensures Bucket(offsets, out, k, Select(keys, vals, k)) {
      BelowNext(keys, k);
      BelowClimbs(keys, k + 1, n);
      assert Placed(keys, vals, |keys|, k, out);
    }
    forall k | 0 <= k < n ensures offsets[k] <= offsets[k+1] {
      assert Bucket(offsets, out, k, Select(keys, vals, k));
    }
  }

  /** Bucket `k` holds, in order, what the first `j` inputs put there. */
  ghost predicate Placed<T>(keys: seq<nat>, vals: seq<T>, j: nat, k: nat, slots: seq<T>)
    requires |keys| == |vals| && j <= |keys|
  {
    var (lo, hi) := (Below(keys, k), Below(keys, k) + CountOf(keys[..j], k));
    hi <= |slots| && slots[lo..hi] == Select(keys[..j], vals[..j], k)
  }

  ghost predicate Bucket<T>(offsets: seq<nat>, out: seq<T>, k: nat, xs: seq<T>) {
    k + 1 < |offsets| && offsets[k] <= offsets[k+1] <= |out| && out[offsets[k]..offsets[k+1]] == xs
  }

  lemma {:induction false} PlaceNext<T>(keys: seq<nat>, vals: seq<T>, j: nat, k: nat, before: seq<T>, after: seq<T>)
    requires |keys| == |vals| == |before| == |after| && j < |keys|
    requires Placed(keys, vals, j, k, before)
    requires var slot := Below(keys, keys[j]) + CountOf(keys[..j], keys[j]); slot < |before| && after == before[slot := vals[j]]
    ensures Placed(keys, vals, j + 1, k, after)
  {
    hide Below;
    hide CountOf;
    hide Select;
    var slot := Below(keys, keys[j]) + CountOf(keys[..j], keys[j]);
    SelectNext(keys, vals, j, k);
    CursorRoom(keys, j, k);
    CursorRoom(keys, j, keys[j]);
    var (lo, hi) := (Below(keys, k), Below(keys, k) + CountOf(keys[..j], k));
    if keys[j] == k {
      SliceHere(before, lo, hi, vals[j]);
    } else {
      if keys[j] < k { BelowClimbs(keys, keys[j] + 1, k); } else { BelowClimbs(keys, k + 1, keys[j]); }
      SliceElsewhere(before, lo, hi, slot, vals[j]);
    }
  }

  lemma {:induction false} SelectNext<T>(keys: seq<nat>, vals: seq<T>, j: nat, k: nat)
    requires |keys| == |vals| && j < |keys|
    ensures CountOf(keys[..j+1], k) == CountOf(keys[..j], k) + (if keys[j] == k then 1 else 0)
    ensures Select(keys[..j+1], vals[..j+1], k) == Select(keys[..j], vals[..j], k) + (if keys[j] == k then [vals[j]] else [])
  {
    PrefixNext(keys, j);
    PrefixNext(vals, j);
  }

  lemma {:induction false} SliceHere<T>(xs: seq<T>, lo: nat, hi: nat, x: T)
    requires lo <= hi < |xs|
    ensures xs[hi := x][lo..hi+1] == xs[lo..hi] + [x]
  {
  }

  lemma {:induction false} SliceElsewhere<T>(xs: seq<T>, lo: nat, hi: nat, i: nat, x: T)
    requires lo <= hi <= |xs| && i < |xs| && (i < lo || hi <= i)
    ensures xs[i := x][lo..hi] == xs[lo..hi]
  {
  }

  // ---- from edges to a view ------------------------------------------------

  datatype Pair = Pair(src: nat, dst: nat, weight: real)

  /** The pairs leaving `x`, as (target, weight), in input order; and the sources
      of the pairs entering it. */
  function Leaving(pairs: seq<Pair>, x: nat): seq<(nat, real)> {
    if pairs == [] then []
    else
      var p := pairs[|pairs|-1];
      Leaving(pairs[..|pairs|-1], x) + (if p.src == x then [(p.dst, p.weight)] else [])
  }

  function Entering(pairs: seq<Pair>, x: nat): seq<nat> {
    if pairs == [] then []
    else
      var p := pairs[|pairs|-1];
      Entering(pairs[..|pairs|-1], x) + (if p.dst == x then [p.src] else [])
  }

  function Endpoints(pairs: seq<Pair>): seq<nat> {
    if pairs == [] then []
    else
      var n := |pairs| - 1;
      Endpoints(pairs[..n]) + [pairs[n].src, pairs[n].dst]
  }

  ghost predicate Touches(pairs: seq<Pair>, x: nat) {
    exists i :: 0 <= i < |pairs| && (pairs[i].src == x || pairs[i].dst == x)
  }

  lemma {:induction false} EndpointsTouch(pairs: seq<Pair>, x: nat)
    ensures x in Endpoints(pairs) <==> Touches(pairs, x)
  {
    if pairs != [] {
      var n := |pairs| - 1;
      EndpointsTouch(pairs[..n], x);
      if Touches(pairs[..n], x) {
        var i :| 0 <= i < n && (pairs[..n][i].src == x || pairs[..n][i].dst == x);
        assert pairs[i].src == x || pairs[i].dst == x;
      }
      if Touches(pairs, x) {
        var i :| 0 <= i < |pairs| && (pairs[i].src == x || pairs[i].dst == x);
        if i < n { assert pairs[..n][i] == pairs[i]; }
      }
    }
  }

  predicate Increasing(ids: seq<nat>) { forall i, j :: 0 <= i < j < |ids| ==> ids[i] < ids[j] }

  predicate AtMost(a: nat, b: nat) { a <= b }

  /** Sorted and without repetition: the dense numbering. */
  method DenseIds(pairs: seq<Pair>) returns (ids: seq<nat>)
    ensures Increasing(ids)
    ensures forall x: nat :: x in ids <==> Touches(pairs, x)
  {
    var all := Endpoints(pairs);
    var sorted := SortBy(all, AtMost);
    assert TotalPreorder(AtMost);
    SortBySorted(all, AtMost);
    assert forall i, j :: 0 <= i < j < |sorted| ==> AtMost(sorted[i], sorted[j]);
    ids := Dedup(sorted);
    forall x: nat ensures x in ids <==> Touches(pairs, x) {
      assert x in ids <==> x in multiset(sorted);
      assert x in all <==> x in multiset(all);
      EndpointsTouch(pairs, x);
    }
  }

  /** `Vec::dedup` on a sorted vector: neighbours that are equal become one. */
  method Dedup(sorted: seq<nat>) returns (ids: seq<nat>)
    requires forall i, j :: 0 <= i < j < |sorted| ==> sorted[i] <= sorted[j]
    ensures Increasing(ids)
    ensures forall x :: x in ids <==> x in sorted
  {
    ids := [];
    for i := 0 to |sorted|
      invariant Increasing(ids)
      invariant forall x :: x in ids <==> x in sorted[..i]
      invariant ids != [] ==> i > 0 && ids[|ids|-1] == sorted[i-1]
      invariant i > 0 ==> ids != []
    {
      assert sorted[..i+1] == sorted[..i] + [sorted[i]];
      if ids == [] || ids[|ids|-1] != sorted[i] {
        ids := ids + [sorted[i]];
      }
    }
    assert sorted[..|sorted|] == sorted;
  }

  ghost predicate IsIndex(ids: seq<nat>, index: map<nat, nat>) {
    && (forall i :: 0 <= i < |ids| ==> ids[i] in index && index[ids[i]] == i)
    && (forall x :: x in index ==> index[x] < |ids| && ids[index[x]] == x)
  }

  ghost predicate Known(pairs: seq<Pair>, index: map<nat, nat>) {
    forall i :: 0 <= i < |pairs| ==> pairs[i].src in index && pairs[i].dst in index
  }

  function SrcKeys(pairs: seq<Pair>, index: map<nat, nat>): seq<nat>
    requires Known(pairs, index)
  {
    seq(|pairs|, i requires 0 <= i < |pairs| => index[pairs[i].src])
  }

  function DstKeys(pairs: seq<Pair>, index: map<nat, nat>): seq<nat>
    requires Known(pairs, index)
  {
    seq(|pairs|, i requires 0 <= i < |pairs| => index[pairs[i].dst])
  }

  function ArcVals(pairs: seq<Pair>, index: map<nat, nat>): seq<Arc>
    requires Known(pairs, index)
  {
    seq(|pairs|, i requires 0 <= i < |pairs| => Arc(index[pairs[i].dst], pairs[i].weight))
  }

  function ArcNames(ids: seq<nat>, arcs: seq<Arc>): seq<(nat, real)>
    requires forall k :: 0 <= k < |arcs| ==> arcs[k].to < |ids|
  {
    seq(|arcs|, k requires 0 <= k < |arcs| => (ids[arcs[k].to], arcs[k].weight))
  }

  function Names(ids: seq<nat>, xs: seq<nat>): seq<nat>
    requires forall k :: 0 <= k < |xs| ==> xs[k] < |ids|
  {
    seq(|xs|, k requires 0 <= k < |xs| => ids[xs[k]])
  }

  lemma {:induction false} SelectLeaving(pairs: seq<Pair>, ids: seq<nat>, index: map<nat, nat>, u: nat)
    requires IsIndex(ids, index) && Known(pairs, index) && u < |ids|
    ensures var arcs := Select(SrcKeys(pairs, index), ArcVals(pairs, index), u);
      && (forall k :: 0 <= k < |arcs| ==> arcs[k].to < |ids|)
      && ArcNames(ids, arcs) == Leaving(pairs, ids[u])
  {
    if pairs != [] {
      var n := |pairs| - 1;
      SelectLeaving(pairs[..n], ids, index, u);
      assert SrcKeys(pairs, index)[..n] == SrcKeys(pairs[..n], index);
      assert ArcVals(pairs, index)[..n] == ArcVals(pairs[..n], index);
      assert index[pairs[n].src] == u <==> pairs[n].src == ids[u];
    }
  }

  lemma {:induction false} SelectEntering(pairs: seq<Pair>, ids: seq<nat>, index: map<nat, nat>, v: nat)
    requires IsIndex(ids, index) && Known(pairs, index) && v < |ids|
    ensures var srcs := Select<nat>(DstKeys(pairs, index), SrcKeys(pairs, index), v);
      && (forall k :: 0 <= k < |srcs| ==> srcs[k] < |ids|)
      && Names(ids, srcs) == Entering(pairs, ids[v])
  {
    if pairs != [] {
      var n := |pairs| - 1;
      SelectEntering(pairs[..n], ids, index, v);
      assert SrcKeys(pairs, index)[..n] == SrcKeys(pairs[..n], index);
      assert DstKeys(pairs, index)[..n] == DstKeys(pairs[..n], index);
      assert index[pairs[n].dst] == v <==> pairs[n].dst == ids[v];
    }
  }

  lemma {:induction false} SelectMembers<T>(keys: seq<nat>, vals: seq<T>, k: nat, x: T)
    requires |keys| == |vals|
    ensures x in Select(keys, vals, k) <==> exists i :: 0 <= i < |keys| && keys[i] == k && vals[i] == x
  {
    if keys != [] {
      var n := |keys| - 1;
      SelectMembers(keys[..n], vals[..n], k, x);
      if i :| 0 <= i < n && keys[..n][i] == k && vals[..n][i] == x { assert keys[i] == k && vals[i] == x; }
      if i :| 0 <= i < |keys| && keys[i] == k && vals[i] == x {
        if i < n { assert keys[..n][i] == k && vals[..n][i] == x; }
      }
    }
  }

  /** `v` is a successor of `u` exactly when some pair says so; read either way. */
  lemma {:induction false} SuccessorsMatch(g: GraphView, pairs: seq<Pair>, index: map<nat, nat>, u: nat, v: nat)
    requires Slices(g.offsets, g.Count(), |g.arcs|) && Slices(g.inOffsets, g.Count(), |g.inAdj|)
    requires Known(pairs, index) && u < g.Count() && v < g.Count()
    requires Bucket(g.offsets, g.arcs, u, Select(SrcKeys(pairs, index), ArcVals(pairs, index), u))
    requires Bucket(g.inOffsets, g.inAdj, v, Select(DstKeys(pairs, index), SrcKeys(pairs, index), v))
    ensures v in g.Out(u) <==> u in g.In(v)
  {
    var (src, dst, arcs) := (SrcKeys(pairs, index), DstKeys(pairs, index), ArcVals(pairs, index));
    SelectMembers(dst, src, v, u);
    if v in g.Out(u) {
      var k :| 0 <= k < |g.Out(u)| && g.Out(u)[k] == v;
      var a := g.ArcsOf(u)[k];
      SelectMembers(src, arcs, u, a);
      var i :| 0 <= i < |src| && src[i] == u && arcs[i] == a;
      assert dst[i] == v && src[i] == u;
    }
    if u in g.In(v) {
      var i :| 0 <= i < |dst| && dst[i] == v && src[i] == u;
      var a := arcs[i];
      SelectMembers(src, arcs, u, a);
      var k :| 0 <= k < |g.ArcsOf(u)| && g.ArcsOf(u)[k] == a;
      assert g.Out(u)[k] == v;
    }
  }

  /** The adjacency a view gives each node, by node id, is exactly what the edges
      say, in both directions and in input order. */
  ghost predicate Represents(g: GraphView, pairs: seq<Pair>)
    requires g.Valid()
  {
    && Increasing(g.ids)
    && (forall x: nat :: x in g.ids <==> Touches(pairs, x))
    && (forall u :: 0 <= u < g.Count() ==> OutNames(g, u) == Leaving(pairs, g.ids[u]))
    && (forall v :: 0 <= v < g.Count() ==> InNames(g, v) == Entering(pairs, g.ids[v]))
  }

  ghost function OutNames(g: GraphView, u: nat): seq<(nat, real)>
    requires g.Valid() && u < g.Count()
  {
    SliceOk(g.offsets, g.Count(), |g.arcs|, u);
    ArcNames(g.ids, g.ArcsOf(u))
  }

  ghost function InNames(g: GraphView, v: nat): seq<nat>
    requires g.Valid() && v < g.Count()
  {
    SliceOk(g.inOffsets, g.Count(), |g.inAdj|, v);
    Names(g.ids, g.In(v))
  }

  method FromEdges(pairs: seq<Pair>) returns (g: GraphView)
    ensures g.Valid() && Represents(g, pairs)
  {
    var ids := DenseIds(pairs);
    var n := |ids|;
    var index := map i | 0 <= i < n :: ids[i] := i;
    assert IsIndex(ids, index);
    assert Known(pairs, index) by {
      forall i | 0 <= i < |pairs| ensures pairs[i].src in index && pairs[i].dst in index {
        assert Touches(pairs, pairs[i].src) && Touches(pairs, pairs[i].dst);
        assert pairs[i].src in ids && pairs[i].dst in ids;
      }
    }
    var (src, dst, arcs) := (SrcKeys(pairs, index), DstKeys(pairs, index), ArcVals(pairs, index));
    var offsets, adj := Group(src, arcs, n);
    var inOffsets, inAdj := Group(dst, src, n);
    g := GraphView(ids, offsets, adj, inOffsets, inAdj);
    Assembled(g, pairs, index);
  }

  lemma {:induction false} Assembled(g: GraphView, pairs: seq<Pair>, index: map<nat, nat>)
    requires IsIndex(g.ids, index) && Known(pairs, index) && Increasing(g.ids)
    requires forall x: nat :: x in g.ids <==> Touches(pairs, x)
    requires Slices(g.offsets, g.Count(), |g.arcs|) && Slices(g.inOffsets, g.Count(), |g.inAdj|)
    requires forall u :: 0 <= u < g.Count() ==> Bucket(g.offsets, g.arcs, u, Select(SrcKeys(pairs, index), ArcVals(pairs, index), u))
    requires forall v :: 0 <= v < g.Count() ==> Bucket(g.inOffsets, g.inAdj, v, Select(DstKeys(pairs, index), SrcKeys(pairs, index), v))
    ensures g.Valid() && Represents(g, pairs)
  {
    hide Select;
    hide IsIndex;
    hide Leaving;
    hide Entering;
    forall u, v | 0 <= u < g.Count() && 0 <= v < g.Count() ensures v in g.Out(u) <==> u in g.In(v) {
      SuccessorsMatch(g, pairs, index, u, v);
    }
    forall u | 0 <= u < g.Count()
      ensures (forall k :: 0 <= k < |g.ArcsOf(u)| ==> g.ArcsOf(u)[k].to < |g.ids|) && ArcNames(g.ids, g.ArcsOf(u)) == Leaving(pairs, g.ids[u])
    {
      SelectLeaving(pairs, g.ids, index, u);
    }
    forall v | 0 <= v < g.Count()
      ensures (forall k :: 0 <= k < |g.In(v)| ==> g.In(v)[k] < |g.ids|) && Names(g.ids, g.In(v)) == Entering(pairs, g.ids[v])
    {
      SelectEntering(pairs, g.ids, index, v);
    }
    SlotsInRange(g);
  }

  /** Every slot lies in some node's slice. */
  lemma {:induction false} SlotsInRange(g: GraphView)
    requires Slices(g.offsets, g.Count(), |g.arcs|) && Slices(g.inOffsets, g.Count(), |g.inAdj|)
    requires forall u, k :: 0 <= u < g.Count() && 0 <= k < |g.ArcsOf(u)| ==> g.ArcsOf(u)[k].to < |g.ids|
    requires forall v, k :: 0 <= v < g.Count() && 0 <= k < |g.In(v)| ==> g.In(v)[k] < |g.ids|
    ensures forall k :: 0 <= k < |g.arcs| ==> g.arcs[k].to < |g.ids|
    ensures forall k :: 0 <= k < |g.inAdj| ==> g.inAdj[k] < |g.ids|
  {
    forall k | 0 <= k < |g.arcs| ensures g.arcs[k].to < |g.ids| {
      var u := OwnerOf(g.offsets, g.Count(), |g.arcs|, k, g.Count());
      SliceOk(g.offsets, g.Count(), |g.arcs|, u);
      assert g.ArcsOf(u)[k - g.offsets[u]] == g.arcs[k];
    }
    forall k | 0 <= k < |g.inAdj| ensures g.inAdj[k] < |g.ids| {
      var v := OwnerOf(g.inOffsets, g.Count(), |g.inAdj|, k, g.Count());
      SliceOk(g.inOffsets, g.Count(), |g.inAdj|, v);
      assert g.In(v)[k - g.inOffsets[v]] == g.inAdj[k];
    }
  }

  lemma {:induction false} OwnerOf(offsets: seq<nat>, n: nat, len: nat, k: nat, upTo: nat) returns (u: nat)
    requires Slices(offsets, n, len) && upTo <= n && k < offsets[upTo]
    ensures u < n && offsets[u] <= k < offsets[u+1]
  {
    if k < offsets[upTo - 1] {
      u := OwnerOf(offsets, n, len, k, upTo - 1);
    } else {
      u := upTo - 1;
    }
  }
}
