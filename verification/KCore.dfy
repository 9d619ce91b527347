/** k-core decomposition by peeling the node of least remaining degree
    (src/graph.rs:718-759). */
module KCore {
  import opened Graph

  type Neighbours = seq<set<nat>>

  /** Undirected, without self-loops, and within range. */
  ghost predicate Simple(nb: Neighbours) {
    && (forall u, v :: 0 <= u < |nb| && v in nb[u] ==> v < |nb| && v != u)
    && (forall u, v :: 0 <= u < |nb| && 0 <= v < |nb| && v in nb[u] ==> u in nb[v])
  }

  /** Inside `s` every node keeps at least `k` neighbours. */
  ghost predicate MinDegree(nb: Neighbours, s: set<nat>, k: nat) {
    forall v :: v in s ==> v < |nb| && |nb[v] * s| >= k
  }

  ghost predicate InCore(nb: Neighbours, v: nat, k: nat) {
    exists s :: v in s && MinDegree(nb, s, k)
  }

  /** The core number: the largest `k` whose core holds the node. */
  ghost predicate IsCoreNumber(nb: Neighbours, v: nat, k: nat) {
    InCore(nb, v, k) && forall j: nat :: InCore(nb, v, j) ==> j <= k
  }

  lemma {:induction false} CoreNumberBounds(nb: Neighbours, v: nat, k: nat, j: nat)
    requires IsCoreNumber(nb, v, k) && InCore(nb, v, j)
    ensures j <= k
  {
  }

  /** It is well defined. */
  lemma {:induction false} CoreNumberUnique(nb: Neighbours, v: nat, j: nat, k: nat)
    requires IsCoreNumber(nb, v, j) && IsCoreNumber(nb, v, k)
    ensures j == k
  {
    assert InCore(nb, v, j) && InCore(nb, v, k);
  }

  // ---- counting ------------------------------------------------------------

  lemma {:induction false} SubsetSize<T>(a: set<T>, b: set<T>)
    requires a <= b
    ensures |a| <= |b|
  {
    assert b == a + (b - a);
  }

  ghost function AllNodes(n: nat): (s: set<nat>)
    ensures forall x: nat :: x in s <==> x < n
    ensures |s| == n
  {
    if n == 0 then {} else AllNodes(n - 1) + {n - 1}
  }

  // ---- the peeling state ---------------------------------------------------

  /** Nodes not peeled yet know exactly their unpeeled neighbours. */
  ghost predicate Tracks(nb: Neighbours, gone: set<nat>, adj: seq<set<nat>>, deg: seq<nat>) {
    && |adj| == |deg| == |nb|
    && forall v :: 0 <= v < |nb| && v !in gone ==> adj[v] == nb[v] - gone && deg[v] == |adj[v]|
  }

  /** Core numbers of peeled nodes are final, none above `k`; everything left
      lies in `w`, whose nodes keep `k` neighbours in it. */
  ghost predicate Peeled(nb: Neighbours, gone: set<nat>, core: seq<nat>, k: nat, w: set<nat>) {
    && |core| == |nb|
    && (forall v :: v in gone ==> v < |nb| && core[v] <= k && IsCoreNumber(nb, v, core[v]))
    && MinDegree(nb, w, k)
    && (forall v :: 0 <= v < |nb| && v !in gone ==> v in w)
  }

  ghost predicate LeastLeft(n: nat, gone: set<nat>, deg: seq<nat>, u: nat) {
    |deg| == n && u < n && u !in gone && forall v :: 0 <= v < n && v !in gone ==> deg[u] <= deg[v]
  }

  function Max(a: nat, b: nat): nat { if a < b then b else a }

  /** What is left has minimum degree `deg[u]`. */
  lemma {:induction false} LeftIsDense(nb: Neighbours, gone: set<nat>, adj: seq<set<nat>>, deg: seq<nat>, u: nat)
    requires Simple(nb) && Tracks(nb, gone, adj, deg) && LeastLeft(|nb|, gone, deg, u)
    ensures MinDegree(nb, AllNodes(|nb|) - gone, deg[u])
  {
    var left := AllNodes(|nb|) - gone;
    forall v | v in left ensures v < |nb| && |nb[v] * left| >= deg[u] {
      TracksAt(nb, gone, adj, deg, v);
      assert forall x :: x in nb[v] ==> x in AllNodes(|nb|);
      assert nb[v] * left == nb[v] - gone;
    }
  }

  lemma {:induction false} TracksAt(nb: Neighbours, gone: set<nat>, adj: seq<set<nat>>, deg: seq<nat>, v: nat)
    requires Tracks(nb, gone, adj, deg) && v < |nb| && v !in gone
    ensures |deg| == |adj| == |nb| && deg[v] == |nb[v] - gone|
  {
  }

  lemma {:induction false} OutsideOnly(a: set<nat>, s: set<nat>, gone: set<nat>)
    requires s * gone == {}
    ensures a * s <= a - gone
  {
    forall x | x in a && x in s ensures x !in gone {
      assert x in s * gone <==> x in gone;
    }
  }

  /** A core no peeled node belongs to is bounded by the remaining degree of any member. */
  lemma {:induction false} UnpeeledCore(nb: Neighbours, gone: set<nat>, s: set<nat>, u: nat, j: nat)
    requires MinDegree(nb, s, j) && u in s && u < |nb| && s * gone == {}
    ensures j <= |nb[u] - gone|
  {
    assert |nb[u] * s| >= j;
    hide MinDegree;
    OutsideOnly(nb[u], s, gone);
    SubsetSize(nb[u] * s, nb[u] - gone);
  }

  lemma {:induction false} PeeledAt(nb: Neighbours, gone: set<nat>, core: seq<nat>, k: nat, w: set<nat>, v: nat)
    requires Peeled(nb, gone, core, k, w) && v in gone
    ensures v < |nb| == |core| && core[v] <= k && IsCoreNumber(nb, v, core[v])
  {
    hide MinDegree;
    hide IsCoreNumber;
  }

  /** No core holding `u` is denser than the peeling level reached. */
  lemma {:induction false} CoreAtMost(nb: Neighbours, gone: set<nat>, adj: seq<set<nat>>, deg: seq<nat>, core: seq<nat>, k: nat, w: set<nat>, u: nat, j: nat)
    requires Tracks(nb, gone, adj, deg) && Peeled(nb, gone, core, k, w) && u < |nb| && u !in gone && InCore(nb, u, j)
    ensures u < |deg| && j <= Max(k, deg[u])
  {
    hide IsCoreNumber;
    hide MinDegree;
    hide Tracks;
    hide Peeled;
    TracksAt(nb, gone, adj, deg, u);
    var s :| u in s && MinDegree(nb, s, j);
    if s * gone == {} {
      UnpeeledCore(nb, gone, s, u, j);
    } else {
      var v :| v in s && v in gone;
      assert InCore(nb, v, j);
      PeeledAt(nb, gone, core, k, w, v);
      CoreNumberBounds(nb, v, core[v], j);
    }
  }

  /** The least node's core number is the level its peeling raises `k` to. */
  lemma {:induction false} CoreReached(nb: Neighbours, gone: set<nat>, adj: seq<set<nat>>, deg: seq<nat>, core: seq<nat>, k: nat, w: set<nat>, u: nat) returns (w': set<nat>)
    requires Simple(nb) && Tracks(nb, gone, adj, deg) && Peeled(nb, gone, core, k, w) && LeastLeft(|nb|, gone, deg, u)
    ensures IsCoreNumber(nb, u, Max(k, deg[u])) && MinDegree(nb, w', Max(k, deg[u]))
    ensures forall v :: 0 <= v < |nb| && v !in gone ==> v in w'
  {
    hide MinDegree;
    hide Simple;
    hide Tracks;
    LeftIsDense(nb, gone, adj, deg, u);
    w' := if k < deg[u] then AllNodes(|nb|) - gone else w;
    assert u in w';
    hide Peeled;
    hide LeastLeft;
    assert InCore(nb, u, Max(k, deg[u]));
    forall j: nat | InCore(nb, u, j) ensures j <= Max(k, deg[u]) { CoreAtMost(nb, gone, adj, deg, core, k, w, u, j); }
  }

  /** Peeling the least node fixes its core number. */
  lemma {:induction false} PeelNext(nb: Neighbours, gone: set<nat>, adj: seq<set<nat>>, deg: seq<nat>, core: seq<nat>, k: nat, w: set<nat>, u: nat) returns (w': set<nat>)
    requires Simple(nb) && Tracks(nb, gone, adj, deg) && Peeled(nb, gone, core, k, w) && LeastLeft(|nb|, gone, deg, u)
    ensures Peeled(nb, gone + {u}, core[u := Max(k, deg[u])], Max(k, deg[u]), w')
  {
    hide MinDegree;
    hide IsCoreNumber;
    hide Simple;
    hide Tracks;
    w' := CoreReached(nb, gone, adj, deg, core, k, w, u);
  }

  /** Half-way through detaching `u`: neighbours in `rest` still list it. */
  ghost predicate Detaching(nb: Neighbours, gone: set<nat>, u: nat, rest: set<nat>, adj: seq<set<nat>>, deg: seq<nat>) {
    && |adj| == |deg| == |nb|
    && forall v :: 0 <= v < |nb| && v !in gone && v != u ==>
         adj[v] == (if v in rest then nb[v] - gone else nb[v] - gone - {u}) && deg[v] == |adj[v]|
  }

  lemma {:induction false} DetachStarts(nb: Neighbours, gone: set<nat>, u: nat, adj: seq<set<nat>>, deg: seq<nat>)
    requires Simple(nb) && Tracks(nb, gone, adj, deg) && u < |nb| && u !in gone
    ensures |adj| == |deg| == |nb| && adj[u] == nb[u] - gone
    ensures Detaching(nb, gone, u, adj[u], adj, deg)
  {
    forall v | 0 <= v < |nb| && v !in gone && v != u && v !in adj[u] ensures adj[v] == nb[v] - gone - {u} {
      assert u !in nb[v];
    }
  }

  lemma {:induction false} ListedOk(nb: Neighbours, u: nat, v: nat)
    requires Simple(nb) && u < |nb| && v in nb[u]
    ensures v < |nb| && v != u && u in nb[v]
  {
  }

  /** `saturating_sub` never saturates: a listed neighbour counts. */
  lemma {:induction false} DetachOne(nb: Neighbours, gone: set<nat>, u: nat, rest: set<nat>, adj: seq<set<nat>>, deg: seq<nat>, v: nat)
    requires Simple(nb) && Detaching(nb, gone, u, rest, adj, deg) && u < |nb| && u !in gone
    requires v in rest && v in nb[u] - gone
    ensures v < |nb| == |deg| == |adj| && deg[v] > 0
    ensures Detaching(nb, gone, u, rest - {v}, adj[v := adj[v] - {u}], deg[v := deg[v] - 1])
  {
    hide Simple;
    ListedOk(nb, u, v);
    assert adj[v] == (adj[v] - {u}) + {u};
  }

  lemma {:induction false} DetachEnds(nb: Neighbours, gone: set<nat>, u: nat, adj: seq<set<nat>>, deg: seq<nat>)
    requires Detaching(nb, gone, u, {}, adj, deg)
    ensures Tracks(nb, gone + {u}, adj, deg)
  {
    assert forall v :: 0 <= v < |nb| ==> nb[v] - gone - {u} == nb[v] - (gone + {u});
  }

  /** Drop `u` from its unpeeled neighbours. */
  method Detach(adj0: seq<set<nat>>, deg0: seq<nat>, removed: seq<bool>, u: nat, ghost nb: Neighbours, ghost gone: set<nat>)
      returns (adj: seq<set<nat>>, deg: seq<nat>)
    requires Simple(nb) && Tracks(nb, gone, adj0, deg0) && u < |nb| && u !in gone
    requires |removed| == |nb| && forall v :: 0 <= v < |nb| ==> (removed[v] <==> v in gone + {u})
    ensures Tracks(nb, gone + {u}, adj, deg)
  {
    hide Simple;
    hide Tracks;
    hide Detaching;
    DetachStarts(nb, gone, u, adj0, deg0);
    adj, deg := adj0, deg0;
    var rest := adj[u];
    while rest != {}
      invariant |adj| == |deg| == |nb|
      invariant rest <= nb[u] - gone && Detaching(nb, gone, u, rest, adj, deg)
      decreases rest
    {
      var v :| v in rest;
      ListedOk(nb, u, v);
      DetachOne(nb, gone, u, rest, adj, deg, v);
      if !removed[v] {
        adj := adj[v := adj[v] - {u}];
        deg := deg[v := if deg[v] > 0 then deg[v] - 1 else 0];
      }
      rest := rest - {v};
    }
    DetachEnds(nb, gone, u, adj, deg);
  }

  /** The first unpeeled node of least degree. */
  method FirstLeast(deg: seq<nat>, removed: seq<bool>, ghost gone: set<nat>) returns (u: nat)
    requires |deg| == |removed| && forall v :: 0 <= v < |deg| ==> (removed[v] <==> v in gone)
    requires exists v :: 0 <= v < |deg| && !removed[v]
    ensures LeastLeft(|deg|, gone, deg, u)
  {
    var found := false;
    u := 0;
    for i := 0 to |deg|
      invariant found ==> u < i && !removed[u] && forall v :: 0 <= v < i && !removed[v] ==> deg[u] <= deg[v]
      invariant !found ==> forall v :: 0 <= v < i ==> removed[v]
    {
      if !removed[i] && (!found || deg[i] < deg[u]) { u, found := i, true; }
    }
  }

  lemma {:induction false} SomeLeft(n: nat, gone: set<nat>) returns (v: nat)
    requires |gone| < n
    ensures v < n && v !in gone
  {
    var left := AllNodes(n) - gone;
    if left == {} {
      SubsetSize(AllNodes(n), gone);
      assert false;
    }
    v :| v in left;
  }

  // ---- the whole pass ------------------------------------------------------

  ghost predicate Marked(removed: seq<bool>, gone: set<nat>) {
    forall v :: 0 <= v < |removed| ==> (removed[v] <==> v in gone)
  }

  function Degrees(nb: Neighbours): seq<nat> { seq(|nb|, i requires 0 <= i < |nb| => |nb[i]|) }

  /** One round: peel the first unpeeled node of least degree. */
  method PeelOne(nb: Neighbours, adj0: seq<set<nat>>, deg0: seq<nat>, removed0: seq<bool>, core0: seq<nat>, k0: nat,
                 ghost gone: set<nat>, ghost w0: set<nat>)
      returns (adj: seq<set<nat>>, deg: seq<nat>, removed: seq<bool>, core: seq<nat>, k: nat, ghost gone': set<nat>, ghost w: set<nat>)
    requires Simple(nb) && |adj0| == |deg0| == |removed0| == |core0| == |nb| && |gone| < |nb|
    requires Marked(removed0, gone) && Tracks(nb, gone, adj0, deg0) && Peeled(nb, gone, core0, k0, w0)
    ensures |adj| == |deg| == |removed| == |core| == |nb| && |gone'| == |gone| + 1
    ensures Marked(removed, gone') && Tracks(nb, gone', adj, deg) && Peeled(nb, gone', core, k, w)
  {
    hide Simple;
    hide Tracks;
    hide Peeled;
    ghost var left := SomeLeft(|nb|, gone);
    var u := FirstLeast(deg0, removed0, gone);
    w := PeelNext(nb, gone, adj0, deg0, core0, k0, w0, u);
    k := Max(k0, deg0[u]);
    core := core0[u := k];
    removed := removed0[u := true];
    adj, deg := Detach(adj0, deg0, removed, u, nb, gone);
    TrackSizes(nb, gone + {u}, adj, deg);
    gone' := gone + {u};
  }

  /** Every node's core number. */
  method Peel(nb: Neighbours) returns (core: seq<nat>)
    requires Simple(nb)
    ensures |core| == |nb| && forall v :: 0 <= v < |nb| ==> IsCoreNumber(nb, v, core[v])
  {
    hide *;
    ghost var w := PeelStarts(nb);
    var (adj, deg) := (nb, Degrees(nb));
    core := seq(|nb|, i => 0);
    var removed := seq(|nb|, i => false);
    var k: nat := 0;
    ghost var gone: set<nat> := {};
    for i := 0 to |nb|
      invariant |adj| == |deg| == |core| == |removed| == |nb| && |gone| == i && Marked(removed, gone)
      invariant Tracks(nb, gone, adj, deg) && Peeled(nb, gone, core, k, w)
    {
      adj, deg, removed, core, k, gone, w := PeelOne(nb, adj, deg, removed, core, k, gone, w);
    }
    AllGone(|nb|, gone, nb, core, k, w);
  }

  lemma {:induction false} TrackSizes(nb: Neighbours, gone: set<nat>, adj: seq<set<nat>>, deg: seq<nat>)
    requires Tracks(nb, gone, adj, deg)
    ensures |adj| == |deg| == |nb|
  {
  }

  lemma {:induction false} TracksStarts(nb: Neighbours)
    ensures |Degrees(nb)| == |nb| && Tracks(nb, {}, nb, Degrees(nb))
  {
    forall v | 0 <= v < |nb| ensures nb[v] == nb[v] - {} {
    }
  }

  lemma {:induction false} PeeledStarts(nb: Neighbours, core: seq<nat>, w: set<nat>)
    requires |core| == |nb| && MinDegree(nb, w, 0) && forall v :: 0 <= v < |nb| ==> v in w
    ensures Peeled(nb, {}, core, 0, w)
  {
    hide MinDegree;
    hide IsCoreNumber;
  }

  lemma {:induction false} PeelStarts(nb: Neighbours) returns (w: set<nat>)
    ensures |Degrees(nb)| == |nb| && Marked(seq(|nb|, i => false), {})
    ensures Tracks(nb, {}, nb, Degrees(nb)) && Peeled(nb, {}, seq(|nb|, i => 0), 0, w)
  {
    hide Tracks;
    hide Peeled;
    hide AllNodes;
    hide MinDegree;
    hide Degrees;
    w := AllNodes(|nb|);
    TracksStarts(nb);
    EveryNodeKeepsNone(nb, w);
    PeeledStarts(nb, seq(|nb|, i => 0), w);
  }

  lemma {:induction false} EveryNodeKeepsNone(nb: Neighbours, s: set<nat>)
    requires forall v :: v in s ==> v < |nb|
    ensures MinDegree(nb, s, 0)
  {
  }

  lemma {:induction false} AllGone(n: nat, gone: set<nat>, nb: Neighbours, core: seq<nat>, k: nat, w: set<nat>)
    requires n == |nb| == |gone| && Peeled(nb, gone, core, k, w)
    ensures forall v :: 0 <= v < n ==> IsCoreNumber(nb, v, core[v])
  {
    var all := AllNodes(n);
    assert gone <= all;
    assert all == gone + (all - gone);
  }

  /** A node's distinct neighbours either way, itself left out. */
  function NeighbourSet(g: GraphView, u: nat): set<nat>
    requires g.Valid() && u < g.Count()
  {
    (set v | v in g.Out(u)) + (set v | v in g.In(u)) - {u}
  }

  ghost function NeighboursOf(g: GraphView): Neighbours
    requires g.Valid()
  {
    seq(|g.ids|, u requires 0 <= u < |g.ids| => NeighbourSet(g, u))
  }

  lemma {:induction false} NeighboursAreEdges(g: GraphView)
    requires g.Valid()
    ensures Simple(NeighboursOf(g)) && |NeighboursOf(g)| == g.Count()
    ensures forall u: nat, v: nat :: u < g.Count() ==> (v in NeighboursOf(g)[u] <==> u != v && Edge(Undirected(g), u, v))
  {
    var (nb, adj) := (NeighboursOf(g), Undirected(g));
    UndirectedEdges(g);
    g.ListsInRange();
    forall u: nat, v: nat | u < g.Count() ensures v in nb[u] <==> u != v && Edge(adj, u, v) {
      assert nb[u] == NeighbourSet(g, u) && adj[u] == g.Out(u) + g.In(u);
      assert v in g.Out(u) ==> v < g.Count() by { assert g.Fwd()[u] == g.Out(u); }
      assert v in g.In(u) ==> v < g.Count() by { assert g.Rev()[u] == g.In(u); }
    }
  }

  /** Each node's core number, by node id. */
  method CoreNumbers(g: GraphView) returns (out: map<nat, nat>)
    requires g.Valid()
    ensures forall id :: id in out <==> id in g.ids
    ensures forall v :: 0 <= v < g.Count() ==> IsCoreNumber(NeighboursOf(g), v, out[g.ids[v]])
  {
    hide MinDegree;
    hide IsCoreNumber;
    NeighboursAreEdges(g);
    var nb: Neighbours := seq(g.Count(), u requires 0 <= u < g.Count() => NeighbourSet(g, u));
    assert nb == NeighboursOf(g);
    var core := Peel(nb);
    out := Zipped(g.ids, core);
  }

  /** `ids.zip(values).collect()`. */
  method Zipped(ids: seq<nat>, values: seq<nat>) returns (out: map<nat, nat>)
    requires |ids| == |values| && forall a, b :: 0 <= a < b < |ids| ==> ids[a] != ids[b]
    ensures forall id :: id in out <==> id in ids
    ensures forall i :: 0 <= i < |ids| ==> out[ids[i]] == values[i]
  {
    out := map[];
    for i := 0 to |ids|
      invariant forall id :: id in out <==> id in ids[..i]
      invariant forall j :: 0 <= j < i ==> ids[j] in out && out[ids[j]] == values[j]
    {
      assert ids[..i+1] == ids[..i] + [ids[i]];
      out := out[ids[i] := values[i]];
    }
    assert ids[..|ids|] == ids;
  }
}
