/** A graph snapshot as CSR, and what it means to reach a node (src/graph.rs:130-270). */
module Graph {
  import opened Wrappers

  datatype Arc = Arc(to: nat, weight: real)

  /** Dense nodes `0..|ids|`; `arcs` zips `adj` with `wadj`. */
  datatype GraphView = GraphView(ids: seq<nat>, offsets: seq<nat>, arcs: seq<Arc>, inOffsets: seq<nat>, inAdj: seq<nat>) {

    function Count(): nat { |ids| }

    /** The two CSR arrays slice cleanly, stay in range and are each other's transpose. */
    ghost predicate Valid() {
      && Slices(offsets, Count(), |arcs|) && Slices(inOffsets, Count(), |inAdj|)
      && (forall k :: 0 <= k < |arcs| ==> arcs[k].to < Count())
      && (forall k :: 0 <= k < |inAdj| ==> inAdj[k] < Count())
      && Transposes(Fwd(), Rev())
      && (forall i, j :: 0 <= i < j < |ids| ==> ids[i] != ids[j])
    }

    /** Out-edges of a node, with weights. */
    function ArcsOf(u: nat): seq<Arc>
      requires u < Count() && Slices(offsets, Count(), |arcs|)
    {
      SliceOk(offsets, Count(), |arcs|, u);
      arcs[offsets[u]..offsets[u+1]]
    }

    function Out(u: nat): seq<nat>
      requires u < Count() && Slices(offsets, Count(), |arcs|)
    {
      seq(|ArcsOf(u)|, i requires 0 <= i < |ArcsOf(u)| => ArcsOf(u)[i].to)
    }

    /** The forward and the reverse adjacency lists. */
    function Fwd(): seq<seq<nat>>
      requires Slices(offsets, Count(), |arcs|)
    {
      seq(Count(), u requires 0 <= u < Count() => Out(u))
    }

    function Rev(): seq<seq<nat>>
      requires Slices(inOffsets, Count(), |inAdj|)
    {
      seq(Count(), v requires 0 <= v < Count() => In(v))
    }

    lemma {:induction false} ListsInRange()
      requires Valid()
      ensures InRange(Fwd()) && InRange(Rev())
    {
      forall u, k | 0 <= u < Count() && 0 <= k < |Out(u)| ensures Out(u)[k] < Count() {
        SliceOk(offsets, Count(), |arcs|, u);
        assert Out(u)[k] == arcs[offsets[u] + k].to;
      }
      forall v, k | 0 <= v < Count() && 0 <= k < |In(v)| ensures In(v)[k] < Count() {
        SliceOk(inOffsets, Count(), |inAdj|, v);
        assert In(v)[k] == inAdj[inOffsets[v] + k];
      }
    }

    function In(v: nat): seq<nat>
      requires v < Count() && Slices(inOffsets, Count(), |inAdj|)
    {
      SliceOk(inOffsets, Count(), |inAdj|, v);
      inAdj[inOffsets[v]..inOffsets[v+1]]
    }
  }

  ghost predicate Slices(offsets: seq<nat>, n: nat, len: nat) {
    |offsets| == n + 1 && offsets[0] == 0 && offsets[n] == len && forall i :: 0 <= i < n ==> offsets[i] <= offsets[i+1]
  }

  lemma {:induction false} SliceOk(offsets: seq<nat>, n: nat, len: nat, u: nat)
    requires Slices(offsets, n, len) && u < n
    ensures offsets[u] <= offsets[u+1] <= len
  {
    Climbs(offsets, n, u + 1, n);
  }

  lemma {:induction false} Climbs(offsets: seq<nat>, n: nat, i: nat, j: nat)
    requires |offsets| == n + 1 && i <= j <= n && forall i :: 0 <= i < n ==> offsets[i] <= offsets[i+1]
    ensures offsets[i] <= offsets[j]
    decreases j - i
  {
    if i < j { Climbs(offsets, n, i + 1, j); }
  }

  /** The dense index of a node id. */
  function PositionOf(ids: seq<nat>, id: nat): (r: Option<nat>)
    ensures r.Some? ==> r.value < |ids| && ids[r.value] == id
    ensures r.None? <==> id !in ids
  {
    if ids == [] then None
    else if ids[|ids|-1] == id then Some(|ids| - 1)
    else PositionOf(ids[..|ids|-1], id)
  }

  // ---- reachability over adjacency lists -----------------------------------

  type Lists = seq<seq<nat>>

  ghost predicate InRange(g: Lists) {
    forall u, k :: 0 <= u < |g| && 0 <= k < |g[u]| ==> g[u][k] < |g|
  }

  ghost predicate Edge(g: Lists, u: nat, v: nat) { u < |g| && v < |g| && v in g[u] }

  ghost predicate Transposes(g: Lists, r: Lists) {
    |r| == |g| && forall u, v :: 0 <= u < |g| && 0 <= v < |g| ==> (v in g[u] <==> u in r[v])
  }

  ghost predicate IsPath(g: Lists, p: seq<nat>, u: nat, v: nat)
  {
    && |p| > 0 && p[0] == u && p[|p|-1] == v
    && (forall i :: 0 <= i < |p| ==> p[i] < |g|)
    && (forall i :: 0 <= i < |p| - 1 ==> Edge(g, p[i], p[i+1]))
  }

  ghost predicate Reach(g: Lists, u: nat, v: nat)
  {
    exists p :: IsPath(g, p, u, v)
  }

  /** A path whose nodes before the last all lie in `within`. */
  ghost predicate ReachVia(g: Lists, within: set<nat>, u: nat, v: nat)
  {
    exists p :: IsPath(g, p, u, v) && forall i :: 0 <= i < |p| - 1 ==> p[i] in within
  }

  lemma {:induction false} ReachSelf(g: Lists, u: nat)
    requires u < |g|
    ensures Reach(g, u, u)
    ensures forall s :: ReachVia(g, s, u, u)
  {
    assert IsPath(g, [u], u, u);
  }

  lemma {:induction false} ReachEdge(g: Lists, u: nat, v: nat)
    requires Edge(g, u, v)
    ensures Reach(g, u, v)
  {
    assert IsPath(g, [u, v], u, v);
  }

  lemma {:induction false} ReachTrans(g: Lists, u: nat, v: nat, x: nat)
    requires Reach(g, u, v) && Reach(g, v, x)
    ensures Reach(g, u, x)
  {
    var p :| IsPath(g, p, u, v);
    var q :| IsPath(g, q, v, x);
    var r := p + q[1..];
    forall i | 0 <= i < |r| - 1 ensures Edge(g, r[i], r[i+1]) {
      if i >= |p| - 1 {
        assert r[i] == q[i - |p| + 1] && r[i+1] == q[i - |p| + 2];
      }
    }
    assert IsPath(g, r, u, x);
  }

  lemma {:induction false} ViaIsReach(g: Lists, within: set<nat>, u: nat, v: nat)
    requires ReachVia(g, within, u, v)
    ensures Reach(g, u, v) && u < |g| && v < |g|
  {
  }

  lemma {:induction false} ReachInRange(g: Lists, u: nat, v: nat)
    requires Reach(g, u, v)
    ensures u < |g| && v < |g|
  {
  }

  /** One more allowed node: either the path avoids it, or it reaches it first. */
  lemma {:induction false} ViaMore(g: Lists, within: set<nat>, b: nat, u: nat, v: nat)
    requires ReachVia(g, within + {b}, u, v)
    ensures ReachVia(g, within, u, v) || ReachVia(g, within, u, b)
  {
    var p :| IsPath(g, p, u, v) && forall i :: 0 <= i < |p| - 1 ==> p[i] in within + {b};
    var i := 0;
    while i < |p| - 1 && p[i] != b
      invariant 0 <= i <= |p| - 1
      invariant forall j :: 0 <= j < i ==> p[j] in within
    {
      i := i + 1;
    }
    var q := p[..i+1];
    assert IsPath(g, q, u, p[i]);
    assert forall j :: 0 <= j < |q| - 1 ==> q[j] in within;
  }

  /** The last edge of a non-trivial restricted path starts inside. */
  lemma {:induction false} ViaLastEdge(g: Lists, within: set<nat>, u: nat, v: nat) returns (x: nat)
    requires ReachVia(g, within, u, v) && u != v
    ensures x in within && Edge(g, x, v)
  {
    var p :| IsPath(g, p, u, v) && forall i :: 0 <= i < |p| - 1 ==> p[i] in within;
    x := p[|p|-2];
    assert Edge(g, p[|p|-2], p[|p|-2+1]);
  }

  /** Extending a restricted path backwards by one edge. */
  lemma {:induction false} ViaPrepend(g: Lists, within: set<nat>, x: nat, u: nat, v: nat)
    requires x in within && Edge(g, x, u) && ReachVia(g, within, u, v)
    ensures ReachVia(g, within, x, v)
  {
    var p :| IsPath(g, p, u, v) && forall i :: 0 <= i < |p| - 1 ==> p[i] in within;
    var q := [x] + p;
    forall i | 0 <= i < |q| - 1 ensures Edge(g, q[i], q[i+1]) && q[i] in within {
      if i > 0 { assert q[i] == p[i-1] && q[i+1] == p[i]; }
    }
    assert IsPath(g, q, x, v);
  }

  // ---- direction ignored ---------------------------------------------------

  /** Each node's neighbours, direction ignored. */
  ghost function Undirected(g: GraphView): Lists
    requires g.Valid()
  {
    seq(|g.ids|, u requires 0 <= u < |g.ids| => g.Out(u) + g.In(u))
  }

  lemma {:induction false} UndirectedEdges(g: GraphView)
    requires g.Valid()
    ensures |Undirected(g)| == g.Count()
    ensures forall u, v :: 0 <= u < g.Count() && v in g.Out(u) ==> Edge(Undirected(g), u, v) && Edge(Undirected(g), v, u)
    ensures forall u: nat, v: nat :: Edge(Undirected(g), u, v) ==> v in g.Out(u) || u in g.Out(v)
    ensures forall u: nat, v: nat :: Edge(Undirected(g), u, v) <==> Edge(Undirected(g), v, u)
  {
    var adj := Undirected(g);
    g.ListsInRange();
    assert forall u :: 0 <= u < g.Count() ==> g.Fwd()[u] == g.Out(u) && g.Rev()[u] == g.In(u) && adj[u] == g.Out(u) + g.In(u);
    assert forall u, v :: 0 <= u < g.Count() && 0 <= v < g.Count() ==> (v in g.Fwd()[u] <==> u in g.Rev()[v]);
    forall u, v | 0 <= u < g.Count() && v in g.Out(u) ensures Edge(adj, u, v) && Edge(adj, v, u) {
      assert v in g.Fwd()[u] && v in adj[u];
      assert u in g.Rev()[v] && u in adj[v];
    }
    forall u: nat, v: nat | Edge(adj, u, v) ensures v in g.Out(u) || u in g.Out(v) {
      assert v in adj[u];
      if v in g.In(u) { assert v in g.Rev()[u] && u in g.Fwd()[v]; }
    }
  }

  ghost predicate Symmetric(adj: Lists) { forall u: nat, v: nat :: Edge(adj, u, v) ==> Edge(adj, v, u) }
}
